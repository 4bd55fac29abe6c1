# Gaffer path matching, file-system paths, scene reading and interactive rendering, in Dafny

This project models a handful of Gaffer's core algorithms and states what they
promise as Dafny contracts and lemmas:

- **Path matcher** (`Wildcard.dfy`, `PathMatcher.dfy`, `PathMatcherLaws.dfy`).
  - A scene's sets are stored in a trie of path segments whose keys may contain `*`.
  - `wildcardMatch` is the backtracking matcher on C strings.
  - `Less` is the multimap comparator that treats a `*` as "equal to anything from here on".
  - The trie node is a value: a terminator flag and a sequence of `(key, child)` entries.
  - The matcher object owns an optional root, which is null until `clear()`.
  - The laws relate `match` to the set of stored patterns, and `addPath` to pattern insertion.
- **Buffer windows** (`BufferAlgo.dfy`): GafferImage's integer window arithmetic. This is emptiness, intersection, containment, clamping and row-major indexing over half-open boxes.
- **File-system paths** (`Tokens.dfy`, `FileSystemPath.dfy`). `FileSystemPath` is a class with a root, names, an include-sequences flag, and a count of the path-changed signals it has emitted.
  - `setFromString` sanitises UNC prefixes and backslashes, tokenizes, and splits off a `/` or drive-letter root.
  - `string()` and `nativeString()` render the path back. The round trip is proved for `/`, empty and exact drive-letter roots. A root that only begins with a drive letter (`"C:foo"`) does not survive it (`FileSystemPath.PrefixDriveRootBreaksRoundTrip`).
  - Also modelled: `propertyNames`, and the patterns and labels of `createStandardFilter`.
- **Substitutions serialisation** (`SubstitutionsRepr.dfy`, module `FileSystemPathPlugBinding`). This covers `substitutionsRepr`, the bitmask-to-Python-expression serialiser, and the "omit when all substitutions" rule of `serialisationRepr`.
- **Scene reader** (`SceneReader.dfy`).
  - A scene file is a tree of locations with local, descendant and "every" tags.
  - `computeChildNames` with its in-place tag filter is modelled on an `array`.
  - `loadSetWalk`/`computeSet` collect tagged locations.
  - The one-entry `scene()` cache is a class, cleared by `plugSet` on the refresh count.
  - `affects` is modelled too.
- **Interactive render** (`InteractiveRender.dfy`). This is the Stopped/Paused/Running state machine of `update()` and `stop()`, with `setContext`, `effectiveContext` and `plugDirtied`. The renderer and controller are abstract objects whose calls are recorded in order.

`Wrappers.dfy` holds the `Option` type.

Two behaviours of the path matcher's code are easy to miss:

- **An empty query** (`""` or `"/"`) on a cleared, empty matcher answers DescendantMatch, not NoMatch. The walk's base case is reached at the root itself (`PathMatcherLaws.ClearedMatcher`, `PathMatcherLaws.EmptyQueryChecksNode`).
- **Empty segments** are dropped by both `match` and `addPath`. The `boost::char_separator` tokenizer skips empty tokens, so `"/a//b/"` and `"a/b"` are the same path (`Tokens.EmptyTokensDropped`).

## Model

| member | source | states |
|---|---|---|
| Wildcard.CStr | src/GafferScene/PathMatcher.cpp:53-92 | the string a `c_str()` pointer shows is a NUL-free prefix of the string, and the whole string when it holds no NUL |
| Wildcard.WildLiteral | src/GafferScene/PathMatcher.cpp:53-92 | without `*` the matcher accepts a segment iff it equals the pattern |
| Wildcard.WildcardLiteral | src/GafferScene/PathMatcher.cpp:53-92 | `wildcardMatch` with a `*`-free pattern holds iff the C strings are equal |
| Wildcard.WildTrailingStar | src/GafferScene/PathMatcher.cpp:62-68 | a trailing `*` accepts exactly the segments that start with the literal part, the empty remainder included |
| Wildcard.WildSelf | src/GafferScene/PathMatcher.cpp:53-92 | every text matches itself as a pattern, each `*` matched by the `*` itself |
| Wildcard.SelfMatch | src/GafferScene/PathMatcher.cpp:53-92 | every segment wildcard-matches itself |
| Wildcard.StarMatchesEverything | src/GafferScene/PathMatcher.cpp:62-68 | `"*"` matches every segment |
| Wildcard.WildIsSound | src/GafferScene/PathMatcher.cpp:53-92 | every match of the backtracking matcher is a glob match (reference definition `Glob`) |
| Wildcard.WildIsComplete | src/GafferScene/PathMatcher.cpp:53-92 | for patterns without adjacent stars, every glob match is found |
| Wildcard.InnerStarNeedsText | src/GafferScene/PathMatcher.cpp:69-78 | a non-final `*` only tries non-empty suffixes: `"a**"` rejects `"a"` although the glob accepts it |
| Wildcard.CommonLen | src/GafferScene/PathMatcher.cpp:103-107 | the comparator's scan stops at the first differing position: equal prefixes, and different characters there |
| Wildcard.LessIrreflexive | src/GafferScene/PathMatcher.cpp:99-120 | no key sorts before itself |
| Wildcard.LessAsymmetric | src/GafferScene/PathMatcher.cpp:99-120 | two keys never sort before each other |
| Wildcard.LessAtDivergence | src/GafferScene/PathMatcher.cpp:108-118 | at the first difference, a `*` on either side makes both directions false, otherwise the characters decide |
| Wildcard.PrefixSortsFirst | src/GafferScene/PathMatcher.cpp:108-118 | a proper prefix sorts first unless the longer key continues with `*`, in which case they are equivalent |
| Wildcard.EquivalenceNotTransitive | src/GafferScene/PathMatcher.cpp:94-120 | `"a"~"a*"` and `"a*"~"ab"` but not `"a"~"ab"`: the comparator is no strict weak ordering |
| Wildcard.MatchImpliesEquivalentText | src/GafferScene/PathMatcher.cpp:53-120 | where a `*`-free segment and a key it wildcard-matches first differ, the key has a `*` |
| Wildcard.MatchIsInRange | src/GafferScene/PathMatcher.cpp:94-98 | a key that wildcard-matches a `*`-free segment is `Less`-equivalent to it, so it lies in the searched range |
| Wildcard.StarQueryCanLeaveRange | src/GafferScene/PathMatcher.cpp:159-162 | with a `*` in the query the range can miss a matching key (`"*xb"` against key `"*b"`) |
| Tokens.TokenEnd | src/GafferScene/PathMatcher.cpp:196-200 | a token runs up to the next separator or the end of the string |
| Tokens.Tokenize | src/GafferScene/PathMatcher.cpp:196-200 | the tokens are non-empty and hold no separator |
| Tokens.TokenizeRooted | src/GafferScene/PathMatcher.cpp:196-200 | tokenizing `"/a/b"` built from plain segments gives the segments back |
| Tokens.TokenizeSkipsSeparators | src/GafferScene/PathMatcher.cpp:196-200 | a leading separator changes nothing |
| Tokens.EmptyTokensDropped | src/GafferScene/PathMatcher.cpp:196-200 | `"/a//b/"` and `"a/b"` both give `["a","b"]`; `""` and `"/"` give no segment |
| Tokens.JoinCons | src/Gaffer/FileSystemPath.cpp:504-511 | joining one more name in front adds it and one separator |
| PathMatcher.Max | src/GafferScene/PathMatcher.cpp:205-234 | the stronger of two results is one of them and at least as strong as both |
| PathMatcher.ChildRange | src/GafferScene/PathMatcher.cpp:159-162 | the range holds exactly the children whose keys are `Less`-equivalent to the name |
| PathMatcher.ChildIndex | src/GafferScene/PathMatcher.cpp:143-156 | the position of the first child under exactly the name, or none when no child has it |
| PathMatcher.Child | src/GafferScene/PathMatcher.cpp:143-156 | the loop finds the first exact key, which lies in the equivalence range, or reports that no child has it |
| PathMatcher.BestKeepsMatch | src/GafferScene/PathMatcher.cpp:222-230 | once a prefix of the branches gives Match, the best of all branches is Match: stopping early loses nothing |
| PathMatcher.MatchWalk | src/GafferScene/PathMatcher.cpp:205-234 | the by-reference result ends as the stronger of its old value and the best over all wildcard-matching branches |
| PathMatcher.InsertPath | src/GafferScene/PathMatcher.cpp:236-252 | the descent reuses the exact child or appends a new one and marks the last node, as `Inserted` says |
| PathMatcher.PathMatcher.constructor | src/GafferScene/PathMatcher.cpp:182-184 | a new matcher has a null root |
| PathMatcher.PathMatcher.Clear | src/GafferScene/PathMatcher.cpp:186-189 | `clear()` installs a new empty root |
| PathMatcher.PathMatcher.Match | src/GafferScene/PathMatcher.cpp:191-203 | NoMatch without a root, otherwise the walk over the path's segments |
| PathMatcher.PathMatcher.AddPath | src/GafferScene/PathMatcher.cpp:236-252 | needs a root (it is dereferenced) and replaces it with the root after insertion |
| PathMatcherLaws.BestMatchIff | src/GafferScene/PathMatcher.cpp:215-231 | the best over branches is Match iff some wildcard-matching branch gives Match |
| PathMatcherLaws.BestSomeIff | src/GafferScene/PathMatcher.cpp:215-231 | the best over branches beats NoMatch iff some wildcard-matching branch does |
| PathMatcherLaws.WalkMatchWitness | src/GafferScene/PathMatcher.cpp:205-234 | a Match comes from a stored pattern that fits the query segment by segment |
| PathMatcherLaws.WalkMatchIff | src/GafferScene/PathMatcher.cpp:205-234 | for `*`-free queries: Match iff some stored pattern fits the whole query |
| PathMatcherLaws.WalkSomeWitness | src/GafferScene/PathMatcher.cpp:205-234 | in a trie whose every node leads to a stored path, any answer above NoMatch comes from a stored pattern that the query is a prefix-fit of |
| PathMatcherLaws.WalkSomeIff | src/GafferScene/PathMatcher.cpp:205-234 | for non-empty `*`-free queries: an answer above NoMatch iff the query prefix-fits some stored pattern |
| PathMatcherLaws.EmptyQueryChecksNode | src/GafferScene/PathMatcher.cpp:208-212 | an empty query answers Match iff the node is a terminator, else DescendantMatch, never NoMatch |
| PathMatcherLaws.InsertedKeeps | src/GafferScene/PathMatcher.cpp:236-252 | inserting keeps every stored pattern |
| PathMatcherLaws.InsertedAdds | src/GafferScene/PathMatcher.cpp:236-252 | inserting stores the inserted segments |
| PathMatcherLaws.InsertedOnly | src/GafferScene/PathMatcher.cpp:236-252 | inserting stores nothing but the old patterns and the new one |
| PathMatcherLaws.InsertedPatterns | src/GafferScene/PathMatcher.cpp:236-252 | the stored patterns after insertion are exactly the old ones plus the inserted path |
| PathMatcherLaws.NoPatternsInEmpty | src/GafferScene/PathMatcher.cpp:186-189 | a cleared root stores no pattern |
| PathMatcherLaws.InsertedWellFormed | src/GafferScene/PathMatcher.cpp:236-252 | insertion keeps every node on the way to a stored path |
| PathMatcherLaws.InsertedIdempotent | src/GafferScene/PathMatcher.cpp:143-156 | inserting the same path twice gives the same trie as once: the exact-key lookup reuses the nodes |
| PathMatcherLaws.AddPathIdempotent | src/GafferScene/PathMatcher.cpp:236-252 | a repeated `addPath` changes no answer |
| PathMatcherLaws.Counterpart | src/GafferScene/PathMatcher.cpp:236-252 | after insertion every old child is still there under its key, or, for the child the descent went through, replaced by the inserted subtree under the same key |
| PathMatcherLaws.CounterpartWalk | src/GafferScene/PathMatcher.cpp:205-252 | that counterpart walks the rest of any query no worse than the old child |
| PathMatcherLaws.BranchGivesMatch | src/GafferScene/PathMatcher.cpp:215-231 | a child in range whose walk gives Match makes the node's answer Match |
| PathMatcherLaws.BranchGivesSome | src/GafferScene/PathMatcher.cpp:215-231 | a child in range whose walk beats NoMatch makes the node's answer beat NoMatch |
| PathMatcherLaws.AddNeverLowers | src/GafferScene/PathMatcher.cpp:236-252 | adding a path never lowers the answer to any query, on any trie |
| PathMatcherLaws.StepNeverLowers | src/GafferScene/PathMatcher.cpp:215-231 | one level of that: after insertion the best matching branch for a segment is no weaker |
| PathMatcherLaws.InsertedTerminator | src/GafferScene/PathMatcher.cpp:243-251 | insertion sets the flag of the node it ends at and keeps every other flag |
| PathMatcherLaws.NullRootNeverMatches | src/GafferScene/PathMatcher.cpp:191-197 | before any `clear()` every query answers NoMatch |
| PathMatcherLaws.ClearedMatcher | src/GafferScene/PathMatcher.cpp:191-212 | a cleared matcher answers DescendantMatch to the empty query and NoMatch to any other |
| PathMatcherLaws.SingleStep | src/GafferScene/PathMatcher.cpp:205-234 | in a single-path trie a query goes down the one child iff its key is in range and matches, else NoMatch |
| PathMatcherLaws.SinglePathAnswers | src/GafferScene/PathMatcher.cpp:205-252 | after `clear(); addPath(p)`, for any `p` and query (with or without `*`): p is Match, a strict prefix DescendantMatch, a longer path NoMatch |
| BufferAlgo.EmptyIffNoPixel | include/GafferImage/BufferAlgo.inl:53-63 | a window is empty iff it contains no pixel |
| BufferAlgo.Intersection | include/GafferImage/BufferAlgo.inl:81-91 | the intersection contains exactly the pixels of both windows and lies within each of them |
| BufferAlgo.IntersectionCommutative | include/GafferImage/BufferAlgo.inl:81-91 | the intersection does not depend on argument order |
| BufferAlgo.IntersectsSymmetric | include/GafferImage/BufferAlgo.inl:65-79 | `intersects` is symmetric |
| BufferAlgo.IntersectsIffIntersectionNonEmpty | include/GafferImage/BufferAlgo.inl:65-91 | two non-empty windows intersect iff their intersection is non-empty |
| BufferAlgo.NonEmptyIntersectionIntersects | include/GafferImage/BufferAlgo.inl:65-91 | a non-empty intersection always means the windows intersect |
| BufferAlgo.EmptyWindowCanIntersect | include/GafferImage/BufferAlgo.inl:65-79 | an empty window can still "intersect" another, so the equivalence needs non-emptiness |
| BufferAlgo.ContainsAreaReflexive | include/GafferImage/BufferAlgo.inl:105-115 | every window contains itself |
| BufferAlgo.ContainsAreaTransitive | include/GafferImage/BufferAlgo.inl:105-115 | area containment is transitive |
| BufferAlgo.ContainsAreaIffPixels | include/GafferImage/BufferAlgo.inl:93-115 | area containment implies containment of every pixel, and conversely for a non-empty area |
| BufferAlgo.Clamp | include/GafferImage/BufferAlgo.inl:117-123 | for a non-empty window the clamped point is inside it, a contained point is unchanged, and an axis already in range keeps its coordinate |
| BufferAlgo.Index | include/GafferImage/BufferAlgo.inl:125-131 | for a contained point the offset is below width times height, and its quotient and remainder by the width are the row and the column |
| BufferAlgo.IndexInjective | include/GafferImage/BufferAlgo.inl:125-131 | distinct pixels of the window have distinct offsets |
| BufferAlgo.IndexOfPointAt | include/GafferImage/BufferAlgo.inl:125-131 | every offset below width times height is the offset of a pixel of the window, the one `PointAt` gives |
| BufferAlgo.PointAtIndex | include/GafferImage/BufferAlgo.inl:125-131 | the pixel at a pixel's offset is that pixel |
| FileSystemPath.ReplaceChar | src/Gaffer/FileSystemPath.cpp:128 | `replace_all` of one character changes exactly its occurrences and leaves none |
| FileSystemPath.Sanitize | src/Gaffer/FileSystemPath.cpp:122-128 | the sanitised string has no backslash and no NUL |
| FileSystemPath.Parse | src/Gaffer/FileSystemPath.cpp:115-140 | the root is `/` iff the raw string starts with `/`; a first token in which a letter and a colon start the token or follow a `\n`, `\r` or form feed (the multi-line `^` of Boost's default Perl syntax) becomes the whole root and is removed from the names; otherwise the root is empty and the names are all the tokens |
| FileSystemPath.FileSystemPath.constructor | src/Gaffer/FileSystemPath.cpp:87-90 | the empty relative path with the given flag |
| FileSystemPath.FileSystemPath.FromString | src/Gaffer/FileSystemPath.cpp:92-96 | the path parsed from the string |
| FileSystemPath.FileSystemPath.SetFromString | src/Gaffer/FileSystemPath.cpp:115-151 | the new root and names are the parse of the string, and the explicit path-changed signal of line 150 is emitted iff they differ from the old ones |
| FileSystemPath.FileSystemPath.String | src/Gaffer/FileSystemPath.cpp:494-513 | the root, `/` after a whole drive root, then the names joined by `/` |
| FileSystemPath.FileSystemPath.NativeString | src/Gaffer/FileSystemPath.cpp:515-541 | the same rendering with the platform separator, equal to `string()` on POSIX |
| FileSystemPath.FileSystemPath.Accumulate | src/Gaffer/FileSystemPath.cpp:499-512 | the `+=` loop builds the root, optional separator and joined names |
| FileSystemPath.FileSystemPath.PropertyNames | src/Gaffer/FileSystemPath.cpp:218-231 | the base names, then owner, group, modification time and size, then frame range iff sequences are included |
| FileSystemPath.ExtensionFilterParts | src/Gaffer/FileSystemPath.cpp:431-450 | the loop builds, per extension in order, its four patterns, and the label "Show only .a, .b files" |
| FileSystemPath.PatternsOfEachExtension | src/Gaffer/FileSystemPath.cpp:435-443 | four patterns per extension, the i-th extension's at positions 4i to 4i+3 |
| FileSystemPath.DefaultLabelOfTwo | src/Gaffer/FileSystemPath.cpp:433-450 | extensions a and b give "Show only .a, .b files"; exr gives `*.exr`, `*.EXR`, `*.exr *`, `*.EXR *` |
| FileSystemPath.ToLower | src/Gaffer/FileSystemPath.cpp:438-441 | each character mapped to lower case, the length kept |
| FileSystemPath.ToUpper | src/Gaffer/FileSystemPath.cpp:438-441 | each character mapped to upper case, the length kept |
| FileSystemPath.CreateStandardFilter | src/Gaffer/FileSystemPath.cpp:425-492 | the extension filter (if any extensions) with the given or default label, the sequence filter (if asked), then the inverted hidden-files filter and the disabled, editable search filter |
| FileSystemPath.ParseRender | src/Gaffer/FileSystemPath.cpp:115-151 | parsing `string()` gives back the root and names of any path with clean names and a root that can be read back |
| FileSystemPath.SetFromOwnString | src/Gaffer/FileSystemPath.cpp:142-145 | setting a path from its own string changes nothing and emits no signal |
| FileSystemPath.UncIsNotRooted | src/Gaffer/FileSystemPath.cpp:123-135 | a UNC string never gets the `/` root, and its prefix becomes a single `/` before tokenizing |
| FileSystemPath.BackslashesSeparate | src/Gaffer/FileSystemPath.cpp:122-128 | without a UNC prefix, sanitising is replacing every backslash by `/` |
| FileSystemPath.DriveLetterRoot | src/Gaffer/FileSystemPath.cpp:136-140 | `"C:/a"` parses to root `C:` and names `["a"]` |
| FileSystemPath.PrefixDriveRootBreaksRoundTrip | src/Gaffer/FileSystemPath.cpp:131-140 | `"C:foo/a"` parses to root `"C:foo"` and names `["a"]`, `string()` gives `"C:fooa"` (no separator after a root that is not exactly letter and colon), and that parses to root `"C:fooa"` with no names |
| FileSystemPath.PrefixDriveParse | src/Gaffer/FileSystemPath.cpp:131-140 | the first token `"C:foo"` begins with a drive letter, so it becomes the root |
| FileSystemPath.DriveAfterNewline | src/Gaffer/FileSystemPath.cpp:118-140 | `"foo\nC:bar"` becomes the root with no names, because `^` also matches after the newline |
| FileSystemPath.UndefinedParses | src/Gaffer/FileSystemPath.cpp:131-136 | with a tokenizer that drops empty tokens, a lone backslash, a bare UNC prefix (two backslashes) and a string starting with NUL are non-empty, do not start with `/` and give no token, so `newNames[0]` is read from an empty list |
| FileSystemPath.PrefixDriveReparse | src/Gaffer/FileSystemPath.cpp:131-140 | `"C:fooa"` is one token beginning with a drive letter, so it is the root and no name is left |
| FileSystemPath.EmptyPathExample | python/GafferTest/FileSystemPathTest.py:138-142 | the empty path renders as `""` and parses back to the empty path |
| FileSystemPath.RelativePathExample | python/GafferTest/FileSystemPathTest.py:146-156 | `"a"` is the relative path with the single name `a` |
| FileSystemPath.ChildPathExample | python/GafferTest/FileSystemPathTest.py:167-182 | the child renders as `"dir/a"`, and natively as `"dir\a"` on Windows |
| FileSystemPath.NativeIsGenericWithBackslashes | src/Gaffer/FileSystemPath.cpp:515-541 | the Windows rendering is the generic one with every `/` turned into `\` |
| FileSystemPath.DroppingTokenizerSplitsJoined | src/Gaffer/FileSystemPath.cpp:130 | a tokenizer that drops empty tokens splits joined names back, which the round-trip lemmas assume of `tokenize` |
| FileSystemPathPlugBinding.SubstitutionsRepr | src/GafferModule/FileSystemPathPlugBinding.cpp:68-96 | the early returns and the flag loop give `Repr(mask)` |
| FileSystemPathPlugBinding.JoinSetFlags | src/GafferModule/FileSystemPathPlugBinding.cpp:82-95 | the `+=` loop lists each set flag's qualified name after `" | "` unless it is the first |
| FileSystemPathPlugBinding.ListedIsJoin | src/GafferModule/FileSystemPathPlugBinding.cpp:82-95 | what the loop builds is the set flags' names joined by `" | "`: no leading or trailing separator |
| FileSystemPathPlugBinding.ListedIffSet | src/GafferModule/FileSystemPathPlugBinding.cpp:83-85 | a table entry is listed iff it is among the four scanned and its bit is set |
| FileSystemPathPlugBinding.ListedInOrder | src/GafferModule/FileSystemPathPlugBinding.cpp:70-71 | the listed entries follow the table order Frame, Variable, Escape, Tilde |
| FileSystemPathPlugBinding.ReprListsSetFlags | src/GafferModule/FileSystemPathPlugBinding.cpp:70-95 | away from the two whole-mask cases, a flag's name appears iff its bit is set |
| FileSystemPathPlugBinding.ReprHasNoEdgeSeparator | src/GafferModule/FileSystemPathPlugBinding.cpp:87-91 | the result is empty or starts and ends with a name, never with the separator |
| FileSystemPathPlugBinding.JoinEmptyIff | src/GafferModule/FileSystemPathPlugBinding.cpp:82-95 | the joined names are empty iff there are no names |
| FileSystemPathPlugBinding.ExtraBitsIgnored | src/GafferModule/FileSystemPathPlugBinding.cpp:83-85 | bits outside the four flags do not change the result |
| FileSystemPathPlugBinding.OnlyUnlistedBitsGiveNothing | src/GafferModule/FileSystemPathPlugBinding.cpp:82-95 | a mask with only a bit outside the four flags (16) gives `""`, not a name |
| FileSystemPathPlugBinding.WholeMaskNames | src/GafferModule/FileSystemPathPlugBinding.cpp:73-80 | all substitutions and no substitutions render as their own qualified names, and all substitutions adds no argument |
| FileSystemPathPlugBinding.ExtraArguments | src/GafferModule/FileSystemPathPlugBinding.cpp:98-106 | the extra argument is empty iff the mask is all substitutions, otherwise `substitutions = ` and the representation |
| FileSystemPathPlugBinding.DefaultMaskRepr | include/Gaffer/FileSystemPathPlug.h:74 | the plug's default mask (all but frame) renders as variable, escape and tilde joined by `" | "` and is serialised |
| FileSystemPathPlugBinding.VariableName | src/GafferModule/FileSystemPathPlugBinding.cpp:71 | the qualified name of the variable flag |
| FileSystemPathPlugBinding.EscapeName | src/GafferModule/FileSystemPathPlugBinding.cpp:71 | the qualified name of the escape flag |
| FileSystemPathPlugBinding.TildeName | src/GafferModule/FileSystemPathPlugBinding.cpp:71 | the qualified name of the tilde flag |
| SceneReader.ChildNamed | src/GafferScene/SceneReader.cpp:384 | the child under a name is one of the location's entries, and none is found only when no entry has the name |
| SceneReader.Names | src/GafferScene/SceneReader.cpp:366-368 | the child names, one per child, in file order |
| SceneReader.SceneReader.constructor | src/GafferScene/SceneReader.cpp:510 | a new record names no file, so it agrees with any files |
| SceneReader.SceneReader.Clear | src/GafferScene/SceneReader.cpp:498 | clearing returns to the new record |
| SceneReader.SceneReader.PlugSet | src/GafferScene/SceneReader.cpp:489-500 | setting the refresh count clears the record; any other plug leaves it alone |
| SceneReader.SceneReader.SceneAsWritten | src/GafferScene/SceneReader.cpp:502-532 | every branch of the cache as written, including the new file name stored before its location lookup can throw |
| SceneReader.StaleLocationAfterFailure | src/GafferScene/SceneReader.cpp:525-531 | file a at /x, then a throwing request for /y of file b, then /x of file b: the third answer is file a's location, not file b's |
| SceneReader.SceneReader.Scene | src/GafferScene/SceneReader.cpp:502-532 | with the record committed only after success: from an agreeing record it yields the direct lookup and keeps agreeing; a repeat is answered from the record; the same file keeps its root; a failure changes nothing |
| SceneReader.NoStaleLocation | src/GafferScene/SceneReader.cpp:502-532 | the same three requests through the corrected cache each give the direct lookup |
| SceneReader.ChildMatches | src/GafferScene/SceneReader.cpp:388-396 | the inner loop finds whether any of the child's tags is among the requested ones |
| SceneReader.FilterByTags | src/GafferScene/SceneReader.cpp:380-404 | after the compaction the kept prefix is, in order, exactly the names whose child carries a requested tag |
| SceneReader.ChildKept | src/GafferScene/SceneReader.cpp:384-398 | a listed name is kept iff its child carries a requested tag |
| SceneReader.KeptMembers | src/GafferScene/SceneReader.cpp:380-404 | a name is kept iff it was listed and its child carries a requested tag |
| SceneReader.ComputeChildNames | src/GafferScene/SceneReader.cpp:356-408 | no file gives the default empty list; no tags gives every child name; otherwise the filtered names; each as a direct lookup yields it. The scene comes from the corrected cache `Scene`, so this is not the stale answer `SceneAsWritten` can give |
| SceneReader.KeptIff | src/GafferScene/SceneReader.cpp:372-404 | with tags, a name is in the result iff it is a child's name and that child carries one of the space-separated tags |
| SceneReader.NoTagsKeepsAll | src/GafferScene/SceneReader.cpp:372-373 | an empty tags value gives the child names unfiltered, in file order |
| SceneReader.SpacesRemoveEveryChild | src/GafferScene/SceneReader.cpp:372-404 | a tags value of only spaces is non-empty but names no tag, so it removes every child |
| SceneReader.LoadSetWalk | src/GafferScene/SceneReader.cpp:449-476 | the walk adds to the set exactly the collected paths: the location's own path if locally tagged, and its children's only when a descendant is tagged |
| SceneReader.ComputeSet | src/GafferScene/SceneReader.cpp:478-487 | no file gives the empty set, otherwise the walk from the root with the empty path. The root comes from the corrected cache `Scene`, not `SceneAsWritten` |
| SceneReader.CollectedSound | src/GafferScene/SceneReader.cpp:449-476 | every collected path extends the starting path to a location carrying the tag locally |
| SceneReader.CollectedComplete | src/GafferScene/SceneReader.cpp:459-462 | when descendant tags are coherent, every locally tagged location reachable below is collected |
| SceneReader.PrunedBelow | src/GafferScene/SceneReader.cpp:459-462 | without the descendant tag nothing below a location is collected |
| SceneReader.Affects | src/GafferScene/SceneReader.cpp:126-151 | globals is never dirtied; tags dirty only child names; transform children dirty transform and bound; other inputs nothing |
| SceneReader.FileDirtiesAllButGlobals | src/GafferScene/SceneReader.cpp:130-141 | the file name and the refresh count dirty every output except globals |
| SceneReader.SetsAndNamesDependOnFile | src/GafferScene/SceneReader.cpp:126-151 | sets are dirtied iff the file or refresh count changes; child names also by the tags |
| InteractiveRender.InteractiveRender.constructor | src/GafferScene/InteractiveRender.cpp:76-83 | a new node is Stopped with no renderer, controller or explicit context |
| InteractiveRender.InteractiveRender.EffectiveContext | src/GafferScene/InteractiveRender.cpp:240-254 | the explicit context first, then the script's, then a fresh one |
| InteractiveRender.InteractiveRender.Stop | src/GafferScene/InteractiveRender.cpp:256-261 | drops the controller and the renderer and is Stopped |
| InteractiveRender.InteractiveRender.Update | src/GafferScene/InteractiveRender.cpp:190-238 | the new fields and whether it threw are those of `Updated`, for each outside call that can throw (create, controller constructor, pause, scene update, render); a controller keeps driving the current renderer. It needs the update not to reach a null controller |
| InteractiveRender.InteractiveRender.SetContext | src/GafferScene/InteractiveRender.cpp:162-173 | the current context is a no-op; otherwise the context is stored and an existing controller gets the new effective context |
| InteractiveRender.InteractiveRender.PlugDirtied | src/GafferScene/InteractiveRender.cpp:175-188 | only the renderer and state plugs update; an update that throws adds an error on the plug |
| InteractiveRender.UpdatePreservesInvariants | src/GafferScene/InteractiveRender.cpp:190-261 | an update keeps any controller driving the current renderer and a non-stopped node with a renderer; it keeps the renderer paired with a controller unless the controller constructor throws |
| InteractiveRender.FailedControllerStrandsRenderer | src/GafferScene/InteractiveRender.cpp:206-215 | a throwing controller constructor leaves the new renderer stored with no controller and the state unchanged; a later running update would then dereference the null controller at line 232, a paused one would not |
| InteractiveRender.FailedPauseKeepsState | src/GafferScene/InteractiveRender.cpp:221-223 | a throwing `pause()` leaves the state and records nothing after the creation; with an existing renderer nothing changes at all |
| InteractiveRender.StoppingClears | src/GafferScene/InteractiveRender.cpp:197-201 | Stopped, or no scene node upstream, stops: no renderer, no controller, no call |
| InteractiveRender.ExistingRendererReused | src/GafferScene/InteractiveRender.cpp:206-219 | an existing renderer and controller are kept and no renderer is created |
| InteractiveRender.MissingRendererCreated | src/GafferScene/InteractiveRender.cpp:206-223 | without a renderer one of the plug's type is created with a controller on the effective context, then paused |
| InteractiveRender.PausesFirst | src/GafferScene/InteractiveRender.cpp:221-223 | the first call of every non-stopping update on its renderer is a pause |
| InteractiveRender.PausedDoesNotRender | src/GafferScene/InteractiveRender.cpp:224-228 | Paused only pauses: no scene update, no render |
| InteractiveRender.RunningOrder | src/GafferScene/InteractiveRender.cpp:232-237 | Running pauses, updates the scene and renders, in that order, and ends Running |
| InteractiveRender.StateSetBetweenUpdateAndRender | src/GafferScene/InteractiveRender.cpp:234-237 | a failing scene update leaves the old state; a failing render leaves Running |
| InteractiveRender.FailedCreationChangesNothing | src/GafferScene/InteractiveRender.cpp:206-211 | a renderer creation that throws changes nothing |
| InteractiveRender.SecondUpdateCreatesNothing | src/GafferScene/InteractiveRender.cpp:206-219 | a second non-stopping update keeps the first one's renderer and controller |

## Left out

- **Multimap internals.** The `std::multimap` balanced tree and the recursive node destructor are not modelled. Children are kept in insertion order.
- PathMatcher.ChildRange: is idealised as "every child whose key is `Less`-equivalent to the name". The same idealisation covers `Node::child` (`PathMatcher.Child`), which scans that range for the exact key, and so `addPath` (`PathMatcher.InsertPath`), which reuses the node it finds. `equal_range` does not guarantee that, because `Less` is no strict weak ordering (`Wildcard.EquivalenceNotTransitive`). The range then depends on the tree's shape, and so on insertion order. For example, after `clear(); addPath("/ab"); addPath("/a*")` a balanced-tree search for `"a"` can descend left at `"ab"` and miss `"a*"`, so `match("/a")` can give NoMatch. The model gives Match in either order. A range that misses an exact key would likewise make the source insert a second node under that key, where the model reuses the existing one.
- **Character signedness.** `Less` compares `char` values as the platform does. The model compares code points, which agrees for 7-bit ASCII. For the same reason the drive test's line separators are `\n`, `\r` and form feed only: Boost also counts the byte 0x85, but only where `char` is unsigned.
- **IECore tokenizer.** `StringAlgo::tokenize`, used by `setFromString`, is not shown, so it is a parameter. The round-trip lemmas assume only that it splits joined names back, with or without a leading `/` (`SplitsJoined`). That assumption includes dropping the leading empty token, so `tokenize("/")` and `tokenize("")` give no names; a tokenizer dropping empty tokens meets it.
- **Context flag values.** `Context.h` is not part of this model. Frame, Variable, Escape and Tilde are taken as 1, 2, 4 and 8, with All 15 and None 0.
- **Path filters.**
  - The `MatchPatternPathFilter` header is not part of this model. Its default property name `"name"` and leaf-only `true` are assumed.
  - Filters are plain values describing their constructor arguments and UI data.
- **Path.cpp.** It is not part of this model. `Path::set`, `setRoot` and the signals of the names-and-root constructor are represented only by the resulting root and names and a count of path-changed signals. The count covers only the explicit `emitPathChanged()` of `setFromString` (src/Gaffer/FileSystemPath.cpp:150); any signal that `set` or `setRoot` emit on their own (lines 146-147) is not counted.
- FileSystemPath.Parse: requires `ParseDefined`. It excludes the non-empty strings that do not start with `/` and give no token, such as a lone backslash, a bare UNC prefix (two backslashes) and any string whose first character is NUL (`FileSystemPath.UndefinedParses`). On them the source reads `newNames[0]` of an empty list (src/Gaffer/FileSystemPath.cpp:136), which is undefined behaviour. `FileSystemPath.FileSystemPath.FromString` and `FileSystemPath.FileSystemPath.SetFromString` inherit this precondition.
- FileSystemPath.ParseRender: covers the `/` root, the empty root and exact drive-letter roots with names. A root that only begins with a drive letter does not round-trip (`FileSystemPath.PrefixDriveRootBreaksRoundTrip`). Neither is a bare drive root with no names covered, because its string `"C:/"` lies outside the tokenizer assumption.
- **File-system I/O.** Stat, owners and groups, directory listing, validity and sequence detection are not modelled. Neither are the properties read from disk.
- **BufferAlgo integer width.** Coordinates are unbounded integers: the 32-bit `int` overflow of extreme boxes and the `size_t` return of `index` are not modelled.
- **Concurrency.** The per-thread storage of the scene reader's last scene is reduced to one record, as one thread sees it. Locking in the shared scene cache is not modelled.
- **Scene interfaces.** Scene files are a map from name to a tree of locations. The shared scene cache `SharedSceneInterfaces` and the tag kinds are represented by that tree. So are the reading of child names and tags and the throwing behaviour of a missing child.
  - **SceneReader.LoadSetWalk:** walks the child entries directly instead of looking each child up by name. The two agree when child names are unique.
- SceneReader.ComputeChildNames: uses the corrected cache `Scene`. It does not reproduce the stale answer that the cache as written (`SceneAsWritten`) gives after a failed lookup under a new file name.
- SceneReader.ComputeSet: uses the corrected cache `Scene`, as `ComputeChildNames` does.
- **IECore::PathMatcher.** The set a scene's walk fills is not part of this model. The set is the set of paths added to it.
- **SceneReader hashing and rendering.** Hashing, bounds, transforms, attributes, objects, set names and globals are not modelled. `computeSetNames` is not modelled either.
- **SceneReader.Affects:** the outputs added by the scene node base class are not part of this model.
- **InteractiveRender externals.** The renderer and `RenderController` are not modelled. Signal connections and the re-entrant update-required callback are not modelled either. The minimum expansion depth is not modelled. The adaptor network and the state plug's integer encoding (the state is given as a `State`) are also left out.
  - **InteractiveRender.InteractiveRender.Update:** which outside call throws is a parameter. A null renderer returned by an unknown renderer type is not modelled. The null-controller dereference of a running update after a failed controller constructor is undefined behaviour; `Defined` excludes it rather than modelling a crash.
- **Python binding layer and plug value.** `ValuePlugSerialiser::repr`, which the extra argument string is passed to, is not part of this model. `FileSystemPathPlug::getValue` is not modelled.
- **Case mapping.** `to_lower_copy` and `to_upper_copy` are modelled for ASCII letters only.

## Findings

| source | as written | input that shows it | evidently intended | confidence | as-written member | corrected member |
|---|---|---|---|---|---|---|
| src/GafferScene/SceneReader.cpp:525-531 | on a new file name, `scene()` stores the file name and its root before looking up the location; when that lookup throws, the record names the new file but still holds the old path and location | files a and b whose roots both have a child x: request a:/x, then b:/y (throws), then b:/x — the third request is answered from the record with a's location | the cache is transparent: every request yields what a direct lookup of the file and path would | not executed; depends on `SceneInterface::scene` throwing for a missing location, its default | SceneReader.StaleLocationAfterFailure | SceneReader.SceneReader.Scene |
