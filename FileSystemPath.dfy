/**
 * The string side of Gaffer's file-system path: parsing a path string into a
 * root and a list of names (with the Windows backslash, UNC and drive-letter
 * conventions), rendering it back with the generic or the native separator,
 * the property names it offers, and the patterns and labels of its standard
 * filter. The tokenizer is `IECore::StringAlgo::tokenize`, whose code is not
 * part of this model: it is a parameter, and the round trip is proved for
 * every tokenizer that splits joined plain names back apart.
 */
module FileSystemPath {

  import opened Wrappers
  import Wildcard
  import Tokens

  const Slash: char := '/'
  const Backslash: char := '\\'
  const Colon: char := ':'

  const GenericSeparator: string := "/"
  const WindowsSeparator: string := "\\"
  const UncPrefix: string := "\\\\"

  // ---------------------------------------------------------------- characters and strings

  /** `[A-Za-z]`. */
  predicate IsLetter(c: char)
  {
    'A' <= c <= 'Z' || 'a' <= c <= 'z'
  }

  /** A line separator of Boost.Regex for narrow characters: `\n`, `\r` or `\f`. */
  predicate IsLineSeparator(c: char)
  {
    c == '\n' || c == '\r' || c == '\U{000C}'
  }

  /**
   * `^([A-Za-z]{1}:)` matches at position `p` of `t`. Boost's default Perl
   * syntax reads `^` in multi-line mode: the start of the string, or just
   * after a line separator (the `\r\n` exception never applies before a letter).
   */
  predicate DriveAt(t: string, p: nat)
    requires p + 1 < |t|
  {
    (p == 0 || IsLineSeparator(t[p - 1])) && IsLetter(t[p]) && t[p + 1] == Colon
  }

  /** `regex_search( t, "^([A-Za-z]{1}:)" )`: a drive letter and a colon start `t` or one of its lines. */
  predicate DrivePrefix(t: string)
  {
    exists p: nat :: p + 1 < |t| && DriveAt(t, p)
  }

  /** `regex_match( t, "^([A-Za-z]{1}:)" )`: `t` is exactly a drive letter and a colon. */
  predicate DriveWhole(t: string)
  {
    |t| == 2 && IsLetter(t[0]) && t[1] == Colon
  }

  /** A whole drive is a drive prefix, and a letter-colon start is one. */
  lemma DriveStart(t: string)
    requires |t| >= 2 && IsLetter(t[0]) && t[1] == Colon
    ensures DrivePrefix(t)
  {
    assert DriveAt(t, 0);
  }

  /** Every `a` of `s` replaced by `b`, as `boost::replace_all` does for one-character strings. */
  function ReplaceChar(s: string, a: char, b: char): (r: string)
    ensures |r| == |s|
    ensures forall i :: 0 <= i < |s| ==> r[i] == (if s[i] == a then b else s[i])
    ensures a != b ==> a !in r
  {
    seq(|s|, i requires 0 <= i < |s| => if s[i] == a then b else s[i])
  }

  lemma ReplaceCharConcat(s: string, t: string, a: char, b: char)
    ensures ReplaceChar(s + t, a, b) == ReplaceChar(s, a, b) + ReplaceChar(t, a, b)
  {
    assert forall i :: 0 <= i < |s| ==> (s + t)[i] == s[i];
    assert forall i :: |s| <= i < |s| + |t| ==> (s + t)[i] == t[i - |s|];
  }

  lemma ReplaceCharAbsent(s: string, a: char, b: char)
    requires a !in s
    ensures ReplaceChar(s, a, b) == s
  {
  }

  /**
   * The string `setFromString` tokenizes: its C-string prefix, with a leading
   * UNC prefix turned into one '/', and then every backslash turned into '/'.
   */
  function Sanitize(s: string): (r: string)
    ensures Backslash !in r
    ensures Wildcard.Nul !in r
  {
    var t := Wildcard.CStr(s);
    var u := if |t| >= 2 && t[..2] == UncPrefix then GenericSeparator + t[2..] else t;
    ReplaceChar(u, Backslash, Slash)
  }

  /** The path string for a root and names: the root, a separator after a bare drive, then the names. */
  function Render(root: string, names: seq<string>, sep: string): string
  {
    root + (if DriveWhole(root) then sep else "") + Tokens.Join(names, sep)
  }

  // ---------------------------------------------------------------- parsing

  /** A tokenizer on '/' able to give back joined plain names, with or without a leading '/'. */
  ghost predicate SplitsJoined(tokenize: string -> seq<string>)
  {
    forall names :: Tokens.Plain(names, Slash) ==>
      tokenize(Tokens.Join(names, GenericSeparator)) == names
      && tokenize(GenericSeparator + Tokens.Join(names, GenericSeparator)) == names
  }

  /**
   * `newNames[0]` is read whenever the string is non-empty and does not start
   * with '/', so the tokens must be non-empty then.
   */
  predicate ParseDefined(s: string, tokenize: string -> seq<string>)
  {
    |s| == 0 || s[0] == Slash || tokenize(Sanitize(s)) != []
  }

  /**
   * The root and names `setFromString( s )` computes. The root is "/" when the
   * ORIGINAL string starts with '/'; otherwise a first token with a drive
   * letter at its start or after a line separator (`DrivePrefix`) becomes the
   * root and leaves the names; otherwise it is "".
   */
  function Parse(s: string, tokenize: string -> seq<string>): (r: (string, seq<string>))
    requires ParseDefined(s, tokenize)
    ensures r.0 == "/" <==> |s| > 0 && s[0] == Slash
    ensures r.0 != "/" && r.0 != "" ==> DrivePrefix(r.0) && [r.0] + r.1 == tokenize(Sanitize(s))
    ensures r.0 != "/" && r.0 != "" ==> |s| > 0 && s[0] != Slash
    ensures r.0 == "" || r.0 == "/" ==> r.1 == tokenize(Sanitize(s))
    ensures r.0 == "" && |s| > 0 && s[0] != Slash ==> !DrivePrefix(tokenize(Sanitize(s))[0])
  {
    var newNames := tokenize(Sanitize(s));
    if |s| > 0 && s[0] == Slash then ("/", newNames)
    else if |s| > 0 && DrivePrefix(newNames[0]) then (newNames[0], newNames[1..])
    else ("", newNames)
  }

  // ---------------------------------------------------------------- the path object

  class FileSystemPath {

    var root: string
    var names: seq<string>
    var includeSequences: bool
    /** How many times `pathChangedSignal` has been emitted by `setFromString`. */
    var pathChangedCount: nat

    /** `FileSystemPath( filter, includeSequences )`: the empty relative path. */
    constructor (includeSequences: bool)
      ensures root == "" && names == []
      ensures this.includeSequences == includeSequences
      ensures pathChangedCount == 0
    {
      root := "";
      names := [];
      this.includeSequences := includeSequences;
      pathChangedCount := 0;
    }

    /** `FileSystemPath( path, filter, includeSequences )`: a path parsed from a string. */
    constructor FromString(s: string, tokenize: string -> seq<string>, includeSequences: bool)
      requires ParseDefined(s, tokenize)
      ensures (root, names) == Parse(s, tokenize)
      ensures this.includeSequences == includeSequences
    {
      var p := Parse(s, tokenize);
      root := p.0;
      names := p.1;
      this.includeSequences := includeSequences;
      pathChangedCount := 0;
    }

    /**
     * `setFromString( s )`: the parsed root and names replace the current ones,
     * and the path-changed signal is emitted, unless both are already equal,
     * in which case nothing changes.
     */
    method SetFromString(s: string, tokenize: string -> seq<string>)
      requires ParseDefined(s, tokenize)
      modifies this
      ensures (root, names) == Parse(s, tokenize)
      ensures includeSequences == old(includeSequences)
      ensures pathChangedCount == old(pathChangedCount) + (if (old(root), old(names)) == Parse(s, tokenize) then 0 else 1)
    {
      var newNames := tokenize(Sanitize(s));
      var newRoot := "";
      if |s| > 0 && s[0] == Slash {
        newRoot := "/";
      } else if |s| > 0 && DrivePrefix(newNames[0]) {
        newRoot := newNames[0];
        newNames := newNames[1..];
      }
      if newRoot == root && newNames == names {
        return;
      }
      names := newNames;
      root := newRoot;
      pathChangedCount := pathChangedCount + 1;
    }

    /** `string()`: the path with '/' separators. */
    method String() returns (r: string)
      ensures r == Render(root, names, GenericSeparator)
    {
      r := Accumulate(GenericSeparator);
    }

    /** `nativeString()`: the path with the platform's separator, '\' on Windows and '/' elsewhere. */
    method NativeString(windows: bool) returns (r: string)
      ensures r == Render(root, names, if windows then WindowsSeparator else GenericSeparator)
      ensures !windows ==> r == Render(root, names, GenericSeparator)
    {
      var separator := if windows then WindowsSeparator else GenericSeparator;
      r := Accumulate(separator);
    }

    /** The loop both renderings share: the root, a separator after a bare drive, then the names. */
    method Accumulate(separator: string) returns (r: string)
      ensures r == Render(root, names, separator)
    {
      r := root;
      if DriveWhole(r) {
        r := r + separator;
      }
      var head := r;
      var i := 0;
      while i < |names|
        invariant 0 <= i <= |names|
        invariant r == head + Tokens.Join(names[..i], separator)
      {
        if i != 0 {
          r := r + separator;
        }
        r := r + names[i];
        assert names[..i + 1][..i] == names[..i];
        i := i + 1;
      }
      assert names[..i] == names;
    }

    /** `propertyNames( names )`: after the base path's names, the four file-system ones, then the frame range for sequences. */
    method PropertyNames(base: seq<string>) returns (r: seq<string>)
      ensures r == base + StandardPropertyNames + (if includeSequences then [FrameRangeProperty] else [])
      ensures FrameRangeProperty !in base ==> (FrameRangeProperty in r <==> includeSequences)
    {
      r := base;
      r := r + [OwnerProperty];
      r := r + [GroupProperty];
      r := r + [ModificationTimeProperty];
      r := r + [SizeProperty];
      if includeSequences {
        r := r + [FrameRangeProperty];
      }
    }
  }

  const OwnerProperty: string := "fileSystem:owner"
  const GroupProperty: string := "fileSystem:group"
  const ModificationTimeProperty: string := "fileSystem:modificationTime"
  const SizeProperty: string := "fileSystem:size"
  const FrameRangeProperty: string := "fileSystem:frameRange"
  const StandardPropertyNames: seq<string> := [OwnerProperty, GroupProperty, ModificationTimeProperty, SizeProperty]

  // ---------------------------------------------------------------- the standard filter

  function LowerChar(c: char): char
  {
    if 'A' <= c <= 'Z' then (c as int + 32) as char else c
  }

  function UpperChar(c: char): char
  {
    if 'a' <= c <= 'z' then (c as int - 32) as char else c
  }

  /** `to_lower_copy`, on ASCII letters. */
  function ToLower(s: string): (r: string)
    ensures |r| == |s| && forall i :: 0 <= i < |s| ==> r[i] == LowerChar(s[i])
  {
    seq(|s|, i requires 0 <= i < |s| => LowerChar(s[i]))
  }

  /** `to_upper_copy`, on ASCII letters. */
  function ToUpper(s: string): (r: string)
    ensures |r| == |s| && forall i :: 0 <= i < |s| ==> r[i] == UpperChar(s[i])
  {
    seq(|s|, i requires 0 <= i < |s| => UpperChar(s[i]))
  }

  /** The four name patterns of one extension: lower and upper case, plain and followed by a frame range. */
  function ExtensionPatterns(ext: string): seq<string>
  {
    ["*." + ToLower(ext), "*." + ToUpper(ext), "*." + ToLower(ext) + " *", "*." + ToUpper(ext) + " *"]
  }

  /** The patterns of all extensions, extension by extension. */
  function AllPatterns(exts: seq<string>): seq<string>
  {
    if exts == [] then [] else AllPatterns(exts[..|exts| - 1]) + ExtensionPatterns(exts[|exts| - 1])
  }

  /** ".a, .b", the listed extensions in lower case. */
  function ExtensionList(exts: seq<string>): string
  {
    if exts == [] then ""
    else if |exts| == 1 then "." + ToLower(exts[0])
    else ExtensionList(exts[..|exts| - 1]) + ", " + "." + ToLower(exts[|exts| - 1])
  }

  function DefaultLabel(exts: seq<string>): string
  {
    "Show only " + ExtensionList(exts) + " files"
  }

  /** The extension loop of `createStandardFilter`: the name patterns and the default label. */
  method ExtensionFilterParts(exts: seq<string>) returns (patterns: seq<string>, defaultLabel: string)
    ensures patterns == AllPatterns(exts)
    ensures defaultLabel == DefaultLabel(exts)
  {
    defaultLabel := "Show only ";
    patterns := [];
    var i := 0;
    while i < |exts|
      invariant 0 <= i <= |exts|
      invariant patterns == AllPatterns(exts[..i])
      invariant defaultLabel == "Show only " + ExtensionList(exts[..i])
    {
      var ext := exts[i];
      patterns := patterns + ["*." + ToLower(ext)];
      patterns := patterns + ["*." + ToUpper(ext)];
      patterns := patterns + ["*." + ToLower(ext) + " *"];
      patterns := patterns + ["*." + ToUpper(ext) + " *"];
      if i != 0 {
        defaultLabel := defaultLabel + ", ";
      }
      defaultLabel := defaultLabel + "." + ToLower(ext);
      assert exts[..i + 1][..i] == exts[..i];
      i := i + 1;
    }
    defaultLabel := defaultLabel + " files";
    assert exts[..i] == exts;
  }

  /** The UI user data of a filter: a label (`labelText`, under the key `"label"`), and the `invertEnabled` and `editable` flags when set. */
  datatype UIData = UIData(labelText: Option<string>, invertEnabled: Option<bool>, editable: Option<bool>)

  datatype PathFilter =
    | MatchPatternFilter(patterns: seq<string>, propertyName: string, leafOnly: bool,
                         inverted: bool, enabled: bool, ui: UIData)
    | FileSequenceFilter(concise: bool)

  /** The defaults of `MatchPatternPathFilter`'s constructor. */
  const DefaultPropertyName: string := "name"
  const DefaultLeafOnly: bool := true

  /** The inverted ".*" filter that hides dot files. */
  const HiddenFilesFilter: PathFilter :=
    MatchPatternFilter([".*"], "name", false, true, true, UIData(Some("Show hidden files"), Some(true), None))

  /** The disabled, editable search filter. */
  const SearchFilter: PathFilter :=
    MatchPatternFilter([""], DefaultPropertyName, DefaultLeafOnly, false, false, UIData(None, None, Some(true)))

  /**
   * `createStandardFilter( extensions, extensionsLabel, includeSequenceFilter )`:
   * the filters of the compound filter, in the order they are added.
   */
  method CreateStandardFilter(exts: seq<string>, extensionsLabel: string, includeSequenceFilter: bool)
    returns (r: seq<PathFilter>)
    ensures |r| == 2 + (if exts != [] then 1 else 0) + (if includeSequenceFilter then 1 else 0)
    ensures r[|r| - 2] == HiddenFilesFilter && r[|r| - 1] == SearchFilter
    ensures exts != [] ==> r[0] == MatchPatternFilter(AllPatterns(exts), "name", DefaultLeafOnly, false, true,
      UIData(Some(if |extensionsLabel| > 0 then extensionsLabel else DefaultLabel(exts)), None, None))
    ensures includeSequenceFilter ==> r[if exts != [] then 1 else 0] == FileSequenceFilter(true)
  {
    r := [];
    if |exts| > 0 {
      var patterns, defaultLabel := ExtensionFilterParts(exts);
      var shown := if |extensionsLabel| > 0 then extensionsLabel else defaultLabel;
      r := r + [MatchPatternFilter(patterns, "name", DefaultLeafOnly, false, true, UIData(Some(shown), None, None))];
    }
    if includeSequenceFilter {
      r := r + [FileSequenceFilter(true)];
    }
    r := r + [HiddenFilesFilter];
    r := r + [SearchFilter];
  }

  // ---------------------------------------------------------------- laws

  /** A name free of '/', '\' and NUL, which the parser leaves alone. */
  predicate CleanName(t: string)
  {
    t != [] && Slash !in t && Backslash !in t && Wildcard.Nul !in t
  }

  predicate CleanNames(names: seq<string>)
  {
    forall i :: 0 <= i < |names| ==> CleanName(names[i])
  }

  lemma CleanIsPlain(names: seq<string>)
    requires CleanNames(names)
    ensures Tokens.Plain(names, Slash)
  {
  }

  lemma {:induction false} JoinOfCleanIsClean(names: seq<string>)
    requires CleanNames(names)
    ensures Backslash !in Tokens.Join(names, GenericSeparator) && Wildcard.Nul !in Tokens.Join(names, GenericSeparator)
    ensures names != [] ==> Tokens.Join(names, GenericSeparator)[0] == names[0][0]
    decreases |names|
  {
    if |names| > 1 {
      JoinOfCleanIsClean(names[..|names| - 1]);
      assert names[..|names| - 1][0] == names[0];
    }
  }

  /** The cleaned-up string of a string without backslash or NUL is the string itself. */
  lemma SanitizeClean(s: string)
    requires Backslash !in s && Wildcard.Nul !in s
    ensures Sanitize(s) == s
  {
    if |s| >= 2 {
      assert s[..2] != UncPrefix by {
        assert s[0] in s;
      }
    }
  }

  /** The roots `string()` can give back. */
  predicate RoundTrippable(root: string, names: seq<string>)
  {
    CleanNames(names)
    && (root == "/" || (root == "" && (names == [] || !DrivePrefix(names[0]))) || (DriveWhole(root) && names != []))
  }

  /** Round trip: parsing the rendered path gives back its root and names. */
  lemma ParseRender(root: string, names: seq<string>, tokenize: string -> seq<string>)
    requires SplitsJoined(tokenize)
    requires RoundTrippable(root, names)
    ensures ParseDefined(Render(root, names, GenericSeparator), tokenize)
    ensures Parse(Render(root, names, GenericSeparator), tokenize) == (root, names)
  {
    if root == "/" {
      ParseRenderRooted(names, tokenize);
    } else if root == "" {
      ParseRenderRelative(names, tokenize);
    } else {
      ParseRenderDrive(root, names, tokenize);
    }
  }

  lemma ParseRenderRooted(names: seq<string>, tokenize: string -> seq<string>)
    requires SplitsJoined(tokenize)
    requires CleanNames(names)
    ensures ParseDefined(Render("/", names, GenericSeparator), tokenize)
    ensures Parse(Render("/", names, GenericSeparator), tokenize) == ("/", names)
  {
    var s := Render("/", names, GenericSeparator);
    CleanIsPlain(names);
    JoinOfCleanIsClean(names);
    assert s == GenericSeparator + Tokens.Join(names, GenericSeparator);
    SanitizeClean(s);
  }

  lemma ParseRenderRelative(names: seq<string>, tokenize: string -> seq<string>)
    requires SplitsJoined(tokenize)
    requires CleanNames(names)
    requires names == [] || !DrivePrefix(names[0])
    ensures ParseDefined(Render("", names, GenericSeparator), tokenize)
    ensures Parse(Render("", names, GenericSeparator), tokenize) == ("", names)
  {
    var s := Render("", names, GenericSeparator);
    CleanIsPlain(names);
    JoinOfCleanIsClean(names);
    assert s == Tokens.Join(names, GenericSeparator);
    SanitizeClean(s);
  }

  lemma ParseRenderDrive(root: string, names: seq<string>, tokenize: string -> seq<string>)
    requires SplitsJoined(tokenize)
    requires CleanNames(names) && DriveWhole(root) && names != []
    ensures ParseDefined(Render(root, names, GenericSeparator), tokenize)
    ensures Parse(Render(root, names, GenericSeparator), tokenize) == (root, names)
  {
    var s := Render(root, names, GenericSeparator);
    var all := [root] + names;
    Tokens.JoinCons(root, names, GenericSeparator);
    assert s == Tokens.Join(all, GenericSeparator);
    assert CleanNames(all);
    JoinOfCleanIsClean(all);
    CleanIsPlain(all);
    SanitizeClean(s);
    DriveStart(root);
    assert tokenize(Sanitize(s)) == all;
    assert all[1..] == names;
  }

  /** `setFromString( string() )` on such a path changes nothing and emits nothing. */
  method SetFromOwnString(p: FileSystemPath, tokenize: string -> seq<string>)
    requires SplitsJoined(tokenize)
    requires RoundTrippable(p.root, p.names)
    modifies p
    ensures p.root == old(p.root) && p.names == old(p.names)
    ensures p.pathChangedCount == old(p.pathChangedCount)
  {
    var s := p.String();
    ParseRender(p.root, p.names, tokenize);
    p.SetFromString(s, tokenize);
  }

  /** The root is "/" exactly for strings starting with '/': a UNC string is never rooted. */
  lemma UncIsNotRooted(s: string, tokenize: string -> seq<string>)
    requires |s| >= 2 && s[..2] == UncPrefix
    requires ParseDefined(s, tokenize)
    ensures Parse(s, tokenize).0 != "/"
    ensures Wildcard.Nul !in s[..2] ==> Sanitize(s)[0] == Slash
  {
    var t := Wildcard.CStr(s);
    if Wildcard.Nul !in s[..2] {
      CStrKeepsPrefix(s, 2);
      assert t[..2] == UncPrefix;
    }
  }

  lemma {:induction false} CStrKeepsPrefix(s: string, k: nat)
    requires k <= |s| && Wildcard.Nul !in s[..k]
    ensures |Wildcard.CStr(s)| >= k && Wildcard.CStr(s)[..k] == s[..k]
  {
    if k > 0 {
      assert s[0] in s[..k];
      assert s[1..][..k - 1] == s[..k][1..];
      CStrKeepsPrefix(s[1..], k - 1);
    }
  }

  /** Backslashes separate names like '/' does. */
  lemma BackslashesSeparate(s: string)
    requires Wildcard.Nul !in s
    requires !(|s| >= 2 && s[..2] == UncPrefix)
    ensures Sanitize(s) == ReplaceChar(s, Backslash, Slash)
  {
  }

  /** A drive letter path: "C:/a" parses to root "C:" and names ["a"]. */
  lemma DriveLetterRoot(tokenize: string -> seq<string>)
    requires SplitsJoined(tokenize)
    ensures ParseDefined("C:/a", tokenize) && Parse("C:/a", tokenize) == ("C:", ["a"])
  {
    assert RoundTrippable("C:", ["a"]);
    ParseRender("C:", ["a"], tokenize);
    assert Render("C:", ["a"], GenericSeparator) == "C:/a";
  }

  /**
   * The round trip fails for a root that only begins with a drive letter:
   * parsing keeps the whole first token "C:foo" as the root, but rendering
   * adds the separator only after an exact letter and colon, so the root and
   * the first name run together.
   */
  lemma PrefixDriveRootBreaksRoundTrip(tokenize: string -> seq<string>)
    requires SplitsJoined(tokenize)
    ensures ParseDefined("C:foo/a", tokenize) && Parse("C:foo/a", tokenize) == ("C:foo", ["a"])
    ensures Render("C:foo", ["a"], GenericSeparator) == "C:fooa"
    ensures ParseDefined("C:fooa", tokenize) && Parse("C:fooa", tokenize) == ("C:fooa", [])
  {
    PrefixDriveParse(tokenize);
    PrefixDriveReparse(tokenize);
    assert !DriveWhole("C:foo");
  }

  lemma PrefixDriveParse(tokenize: string -> seq<string>)
    requires SplitsJoined(tokenize)
    ensures ParseDefined("C:foo/a", tokenize) && Parse("C:foo/a", tokenize) == ("C:foo", ["a"])
  {
    var two := ["C:foo", "a"];
    assert Tokens.Join(two, GenericSeparator) == "C:foo/a" by {
      assert two[..1] == ["C:foo"];
    }
    TokenizeJoined(tokenize, two);
    SanitizeClean("C:foo/a");
    var t := tokenize(Sanitize("C:foo/a"));
    assert t == two;
    DriveStart("C:foo");
    assert DrivePrefix(t[0]) && t[1..] == ["a"];
  }

  lemma PrefixDriveReparse(tokenize: string -> seq<string>)
    requires SplitsJoined(tokenize)
    ensures ParseDefined("C:fooa", tokenize) && Parse("C:fooa", tokenize) == ("C:fooa", [])
  {
    var one := ["C:fooa"];
    TokenizeJoined(tokenize, one);
    SanitizeClean("C:fooa");
    var t := tokenize(Sanitize("C:fooa"));
    assert t == one;
    DriveStart("C:fooa");
    assert DrivePrefix(t[0]) && t[1..] == [];
  }

  /**
   * The drive test reads `^` in multi-line mode: a letter and a colon right
   * after a newline inside the first token make that whole token the root.
   */
  lemma DriveAfterNewline(tokenize: string -> seq<string>)
    requires SplitsJoined(tokenize)
    ensures ParseDefined("foo\nC:bar", tokenize) && Parse("foo\nC:bar", tokenize) == ("foo\nC:bar", [])
  {
    var one := ["foo\nC:bar"];
    TokenizeJoined(tokenize, one);
    SanitizeClean("foo\nC:bar");
    assert DriveAt("foo\nC:bar", 4);
  }

  /**
   * Non-empty strings not starting with '/' whose sanitised form has no token:
   * `setFromString` reads `newNames[0]` of an empty list for them, which is
   * why `Parse` requires `ParseDefined`.
   */
  lemma UndefinedParses()
    ensures !ParseDefined("\\", s => Tokens.Tokenize(s, Slash))
    ensures !ParseDefined(UncPrefix, s => Tokens.Tokenize(s, Slash))
    ensures !ParseDefined("\0a", s => Tokens.Tokenize(s, Slash))
  {
    Tokens.EmptyTokensDropped();
    SanitizeBackslash();
    SanitizeUnc();
    SanitizeLeadingNul();
  }

  lemma SanitizeBackslash()
    ensures Sanitize("\\") == "/"
  {
    assert Wildcard.CStr("\\") == "\\";
  }

  lemma SanitizeUnc()
    ensures Sanitize(UncPrefix) == "/"
  {
    assert Wildcard.CStr(UncPrefix) == UncPrefix;
    assert UncPrefix[2..] == "";
  }

  lemma SanitizeLeadingNul()
    ensures Sanitize("\0a") == ""
  {
    assert Wildcard.CStr("\0a") == "";
  }

  /** The tokenizer assumption, for one list of names. */
  lemma TokenizeJoined(tokenize: string -> seq<string>, names: seq<string>)
    requires SplitsJoined(tokenize) && Tokens.Plain(names, Slash)
    ensures tokenize(Tokens.Join(names, GenericSeparator)) == names
  {
  }

  /** The empty path renders as "", and "" parses to it. */
  lemma EmptyPathExample(tokenize: string -> seq<string>)
    requires SplitsJoined(tokenize)
    ensures Render("", [], GenericSeparator) == ""
    ensures ParseDefined("", tokenize) && Parse("", tokenize) == ("", [])
  {
    ParseRender("", [], tokenize);
  }

  /** The relative path "a" parses to one name under the empty root and renders back. */
  lemma RelativePathExample(tokenize: string -> seq<string>)
    requires SplitsJoined(tokenize)
    ensures Render("", ["a"], GenericSeparator) == "a"
    ensures ParseDefined("a", tokenize) && Parse("a", tokenize) == ("", ["a"])
  {
    ParseRenderRelative(["a"], tokenize);
  }

  /** A child of the relative "dir" renders as "dir/a", natively "dir\a" on Windows. */
  lemma ChildPathExample()
    ensures Render("", ["dir", "a"], GenericSeparator) == "dir/a"
    ensures Render("", ["dir", "a"], WindowsSeparator) == "dir\\a"
  {
    assert ["dir", "a"][..1] == ["dir"];
  }

  /** Away from a "/" root, the native Windows string is the generic one with '\' for '/'. */
  lemma {:induction false} NativeIsGenericWithBackslashes(root: string, names: seq<string>)
    requires Slash !in root
    requires Tokens.Plain(names, Slash)
    ensures Render(root, names, WindowsSeparator) == ReplaceChar(Render(root, names, GenericSeparator), Slash, Backslash)
  {
    JoinNative(names);
    ReplaceCharAbsent(root, Slash, Backslash);
    ReplaceCharConcat(root, (if DriveWhole(root) then GenericSeparator else "") + Tokens.Join(names, GenericSeparator), Slash, Backslash);
    ReplaceCharConcat(if DriveWhole(root) then GenericSeparator else "", Tokens.Join(names, GenericSeparator), Slash, Backslash);
  }

  lemma {:induction false} JoinNative(names: seq<string>)
    requires Tokens.Plain(names, Slash)
    ensures Tokens.Join(names, WindowsSeparator) == ReplaceChar(Tokens.Join(names, GenericSeparator), Slash, Backslash)
    decreases |names|
  {
    if names == [] {
    } else if |names| == 1 {
      ReplaceCharAbsent(names[0], Slash, Backslash);
    } else {
      var init, last := names[..|names| - 1], names[|names| - 1];
      JoinNative(init);
      ReplaceCharAbsent(last, Slash, Backslash);
      ReplaceCharConcat(Tokens.Join(init, GenericSeparator) + GenericSeparator, last, Slash, Backslash);
      ReplaceCharConcat(Tokens.Join(init, GenericSeparator), GenericSeparator, Slash, Backslash);
    }
  }

  /** Each extension contributes its four patterns, in order. */
  lemma {:induction false} PatternsOfEachExtension(exts: seq<string>, i: nat)
    requires i < |exts|
    ensures |AllPatterns(exts)| == 4 * |exts|
    ensures AllPatterns(exts)[4 * i..4 * i + 4] == ExtensionPatterns(exts[i])
    decreases |exts|
  {
    var init := exts[..|exts| - 1];
    if i < |init| {
      PatternsOfEachExtension(init, i);
      assert init[i] == exts[i];
      assert AllPatterns(exts)[4 * i..4 * i + 4] == AllPatterns(init)[4 * i..4 * i + 4];
    } else if init != [] {
      PatternsOfEachExtension(init, 0);
    }
  }

  /** The default label of two extensions. */
  lemma DefaultLabelOfTwo()
    ensures DefaultLabel(["a", "b"]) == "Show only .a, .b files"
    ensures ExtensionPatterns("exr") == ["*.exr", "*.EXR", "*.exr *", "*.EXR *"]
  {
    assert ["a", "b"][..1] == ["a"];
    assert ToLower("a") == "a" && ToLower("b") == "b";
    assert ToLower("exr") == "exr";
    assert ToUpper("exr") == "EXR" by {
      assert UpperChar('e') == 'E' && UpperChar('x') == 'X' && UpperChar('r') == 'R';
    }
    assert "*." + "exr" == "*.exr" && "*." + "EXR" == "*.EXR";
    assert "*.exr" + " *" == "*.exr *" && "*.EXR" + " *" == "*.EXR *";
  }

  /** A tokenizer that drops empty tokens, so the round trip above applies to at least one tokenizer. */
  lemma DroppingTokenizerSplitsJoined()
    ensures SplitsJoined(s => Tokens.Tokenize(s, Slash))
  {
    forall names | Tokens.Plain(names, Slash)
      ensures Tokens.Tokenize(Tokens.Join(names, GenericSeparator), Slash) == names
      ensures Tokens.Tokenize(GenericSeparator + Tokens.Join(names, GenericSeparator), Slash) == names
    {
      JoinIsRooted(names);
      Tokens.TokenizeRooted(names, Slash);
      if names != [] {
        Tokens.TokenizeSkipsSeparators(Tokens.Join(names, GenericSeparator), Slash);
      }
    }
  }

  lemma {:induction false} JoinIsRooted(names: seq<string>)
    ensures names != [] ==> GenericSeparator + Tokens.Join(names, GenericSeparator) == Tokens.Rooted(names, Slash)
    ensures names == [] ==> Tokens.Join(names, GenericSeparator) == "" && Tokens.Rooted(names, Slash) == ""
    decreases |names|
  {
    if |names| > 1 {
      JoinIsRooted(names[1..]);
      Tokens.JoinCons(names[0], names[1..], GenericSeparator);
      assert [names[0]] + names[1..] == names;
    }
  }
}
