/**
 * The scene reader node: it reads a hierarchy from a scene file and serves its
 * child names (optionally restricted to children carrying given tags) and its
 * sets (the locations carrying a tag), through a one-entry cache of the last
 * file and location it opened. A scene file is a value here: a tree of
 * locations, each with its local tags, the tags of its descendants, every tag
 * it answers to, and its named children in file order. The files that exist
 * are a map from file name to root location; opening a missing file or a
 * missing location throws, which the model writes as a `Failed` outcome.
 */
module SceneReader {

  import opened Wrappers
  import Tokens

  datatype Location = Location(
    localTags: seq<string>,
    descendantTags: seq<string>,
    everyTags: seq<string>,
    children: seq<(string, Location)>)

  /** The child names of a location, in file order. */
  function Names(l: Location): (r: seq<string>)
    ensures |r| == |l.children|
    ensures forall i :: 0 <= i < |r| ==> r[i] == l.children[i].0
  {
    seq(|l.children|, i requires 0 <= i < |l.children| => l.children[i].0)
  }

  /** `child( name )`: the first child stored under `name`, if any. */
  function ChildNamed(l: Location, name: string): (r: Option<Location>)
    ensures r.Some? ==> exists i :: 0 <= i < |l.children| && l.children[i] == (name, r.value)
    ensures r.None? ==> forall i :: 0 <= i < |l.children| ==> l.children[i].0 != name
    decreases |l.children|
  {
    if l.children == [] then None
    else if l.children[0].0 == name then Some(l.children[0].1)
    else
      var rest := Location(l.localTags, l.descendantTags, l.everyTags, l.children[1..]);
      var r := ChildNamed(rest, name);
      if r.Some? then
        var i :| 0 <= i < |rest.children| && rest.children[i] == (name, r.value);
        assert l.children[i + 1] == rest.children[i];
        r
      else r
  }

  /** `scene( path )` of a scene interface: the location reached by following `path` by child name. */
  function Lookup(l: Location, path: seq<string>): Option<Location>
    decreases |path|
  {
    if path == [] then Some(l)
    else match ChildNamed(l, path[0])
      case None => None
      case Some(c) => Lookup(c, path[1..])
  }

  /** What `scene()` yields: a null pointer, a location, or an exception. */
  datatype SceneResult = NoScene | Found(loc: Location) | Failed

  /** The value of a compute, or the exception that ended it. */
  datatype Outcome<T> = Ok(value: T) | Thrown

  /** The location a request denotes, without any caching: the reference for the cache. */
  function Direct(files: map<string, Location>, fileName: string, path: seq<string>): SceneResult
  {
    if fileName == "" then NoScene
    else if fileName !in files then Failed
    else match Lookup(files[fileName], path)
      case None => Failed
      case Some(l) => Found(l)
  }

  // ---------------------------------------------------------------- the cache of the last scene

  /**
   * The node's `LastScene` record of the file and location most recently
   * opened. `fileNameScene` and `pathScene` are null (`None`) when nothing has
   * been opened.
   */
  class SceneReader {

    var fileName: string
    var path: seq<string>
    var fileNameScene: Option<Location>
    var pathScene: Option<Location>

    /** A record that names a file holds that file's root. */
    predicate Loaded()
      reads this
    {
      fileName != "" ==> fileNameScene.Some?
    }

    /** A record that names a file also holds a location of it. */
    predicate Consistent()
      reads this
    {
      Loaded() && (fileName != "" ==> pathScene.Some?)
    }

    /** The record agrees with the files as they are now. */
    predicate Valid(files: map<string, Location>)
      reads this
    {
      fileName != "" ==>
        fileName in files && fileNameScene == Some(files[fileName])
        && pathScene.Some? && Lookup(files[fileName], path) == pathScene
    }

    /** A new record names no file, so it agrees with any files. */
    constructor ()
      ensures fileName == "" && path == [] && fileNameScene == None && pathScene == None
      ensures Consistent() && forall files :: Valid(files)
    {
      fileName, path, fileNameScene, pathScene := "", [], None, None;
    }

    /** `m_lastScene.clear()`: back to the state of a new record. */
    method Clear()
      modifies this
      ensures fileName == "" && path == [] && fileNameScene == None && pathScene == None
      ensures Consistent() && forall files :: Valid(files)
    {
      fileName, path, fileNameScene, pathScene := "", [], None, None;
    }

    /**
     * `plugSet( plug )`: setting the refresh count clears the record (the
     * shared file cache it also clears is not part of this model); setting any
     * other plug leaves it alone.
     */
    method PlugSet(plug: InputPlug)
      modifies this
      ensures plug == RefreshCount ==> fileName == "" && path == [] && fileNameScene == None && pathScene == None
      ensures plug == RefreshCount ==> forall files :: Valid(files)
      ensures plug != RefreshCount ==> unchanged(this)
    {
      if plug == RefreshCount {
        Clear();
      }
    }

    /**
     * `scene( path )` as written. A new file name is stored together with its
     * root before the location is looked up, so when that lookup throws, the
     * record names the new file but keeps the old path and the old location.
     */
    method SceneAsWritten(name: string, p: seq<string>, files: map<string, Location>) returns (r: SceneResult)
      requires Loaded()
      modifies this
      ensures Loaded()
      ensures name == "" ==> r == NoScene && unchanged(this)
      ensures name != "" && name == old(fileName) && p == old(path) ==>
        unchanged(this) && r == (if pathScene.Some? then Found(pathScene.value) else NoScene)
      ensures name != "" && name == old(fileName) && p != old(path) ==>
        fileName == old(fileName) && fileNameScene == old(fileNameScene)
        && match Lookup(old(fileNameScene).value, p)
           case None => r == Failed && path == old(path) && pathScene == old(pathScene)
           case Some(l) => r == Found(l) && path == p && pathScene == Some(l)
      ensures name != "" && name != old(fileName) && name !in files ==> r == Failed && unchanged(this)
      ensures name != "" && name != old(fileName) && name in files ==>
        fileName == name && fileNameScene == Some(files[name])
        && match Lookup(files[name], p)
           case None => r == Failed && path == old(path) && pathScene == old(pathScene)
           case Some(l) => r == Found(l) && path == p && pathScene == Some(l)
    {
      if name == "" {
        return NoScene;
      }
      if fileName == name {
        if path == p {
          r := if pathScene.Some? then Found(pathScene.value) else NoScene;
          return;
        }
        var l := Lookup(fileNameScene.value, p);
        if l.None? {
          return Failed;
        }
        pathScene := l;
        path := p;
        return Found(l.value);
      }
      if name !in files {
        return Failed;
      }
      fileNameScene := Some(files[name]);
      fileName := name;
      var l := Lookup(fileNameScene.value, p);
      if l.None? {
        return Failed;
      }
      pathScene := l;
      path := p;
      r := Found(l.value);
    }

    /**
     * `scene( path )` with the record updated only once the lookup has
     * succeeded. The cache is then transparent: from a record that agrees
     * with the files, every request yields what a direct lookup yields and
     * the record still agrees. A repeated request is answered from the
     * record, a request within the same file reuses its root, and a failed
     * request leaves the record as it was.
     */
    method Scene(name: string, p: seq<string>, files: map<string, Location>) returns (r: SceneResult)
      requires Consistent()
      modifies this
      ensures Consistent()
      ensures old(Valid(files)) ==> Valid(files) && r == Direct(files, name, p)
      ensures !r.Found? ==> unchanged(this)
      ensures r.Found? ==> fileName == name && path == p && pathScene == Some(r.loc)
      ensures name != "" && name == old(fileName) && p == old(path) ==> r == Found(old(pathScene).value) && unchanged(this)
      ensures name == old(fileName) ==> fileNameScene == old(fileNameScene)
    {
      if name == "" {
        return NoScene;
      }
      if fileName == name {
        if path == p {
          return Found(pathScene.value);
        }
        var l := Lookup(fileNameScene.value, p);
        if l.None? {
          return Failed;
        }
        pathScene, path := l, p;
        return Found(l.value);
      }
      if name !in files {
        return Failed;
      }
      var root := files[name];
      var l := Lookup(root, p);
      if l.None? {
        return Failed;
      }
      fileNameScene, fileName, pathScene, path := Some(root), name, l, p;
      r := Found(l.value);
    }
  }

  /** Two files whose roots both have a child "x", with different tags. */
  const FileA: Location := Location([], [], [], [("x", Location(["a"], [], ["a"], []))])
  const FileB: Location := Location([], [], [], [("x", Location(["b"], [], ["b"], []))])

  /**
   * The record as written goes stale: after file "a" at /x, a request for
   * the missing /y of file "b" throws, and the following request for /x of
   * file "b" is answered with the location of file "a".
   */
  method StaleLocationAfterFailure() returns (first: SceneResult, second: SceneResult, third: SceneResult)
    ensures var files := map["a" := FileA, "b" := FileB];
      first == Direct(files, "a", ["x"]) && second == Failed && second == Direct(files, "b", ["y"])
      && third == first && third != Direct(files, "b", ["x"])
  {
    var files := map["a" := FileA, "b" := FileB];
    var reader := new SceneReader();
    first := reader.SceneAsWritten("a", ["x"], files);
    second := reader.SceneAsWritten("b", ["y"], files);
    third := reader.SceneAsWritten("b", ["x"], files);
  }

  /** The same three requests through the corrected record each yield the direct lookup. */
  method NoStaleLocation() returns (first: SceneResult, second: SceneResult, third: SceneResult)
    ensures var files := map["a" := FileA, "b" := FileB];
      first == Direct(files, "a", ["x"]) && second == Direct(files, "b", ["y"])
      && third == Direct(files, "b", ["x"]) && third != first
  {
    var files := map["a" := FileA, "b" := FileB];
    var reader := new SceneReader();
    first := reader.Scene("a", ["x"], files);
    second := reader.Scene("b", ["y"], files);
    third := reader.Scene("b", ["x"], files);
  }

  // ---------------------------------------------------------------- child names and tags

  /** Some tag of the child is one of the requested tags. */
  predicate TagMatch(c: Location, tags: seq<string>)
  {
    exists k :: 0 <= k < |c.everyTags| && c.everyTags[k] in tags
  }

  /** The named child exists and carries one of the tags. */
  predicate Keeps(l: Location, name: string, tags: seq<string>)
  {
    ChildNamed(l, name).Some? && TagMatch(ChildNamed(l, name).value, tags)
  }

  /** The names of `names` that `Keeps` accepts, in their order. */
  function Kept(l: Location, names: seq<string>, tags: seq<string>): (r: seq<string>)
    ensures |r| <= |names|
  {
    if names == [] then []
    else
      var last := names[|names| - 1];
      Kept(l, names[..|names| - 1], tags) + (if Keeps(l, last, tags) then [last] else [])
  }

  /** Exactly the names that `Keeps` accepts are kept. */
  lemma {:induction false} KeptMembers(l: Location, names: seq<string>, tags: seq<string>)
    ensures forall x :: x in Kept(l, names, tags) <==> x in names && Keeps(l, x, tags)
  {
    if names != [] {
      var init := names[..|names| - 1];
      KeptMembers(l, init, tags);
      assert names == init + [names[|names| - 1]];
    }
  }

  /** The inner loop of the tag filter: does any of the child's tags appear among the requested ones. */
  method ChildMatches(childTags: seq<string>, tags: seq<string>) returns (b: bool)
    ensures b <==> exists k :: 0 <= k < |childTags| && childTags[k] in tags
  {
    b := false;
    var t := 0;
    while t < |childTags|
      invariant 0 <= t <= |childTags|
      invariant forall k :: 0 <= k < t ==> childTags[k] !in tags
    {
      if childTags[t] in tags {
        b := true;
        break;
      }
      t := t + 1;
    }
  }

  /**
   * The compaction of `computeChildNames`: every name whose child matches is
   * moved down to the next free slot; `n` is where the kept names end.
   */
  method FilterByTags(l: Location, result: array<string>, tags: seq<string>) returns (n: nat)
    requires forall i :: 0 <= i < result.Length ==> ChildNamed(l, result[i]).Some?
    modifies result
    ensures n <= result.Length
    ensures result[..n] == Kept(l, old(result[..]), tags)
  {
    ghost var names := result[..];
    n := 0;
    var c := 0;
    while c < result.Length
      invariant n <= c <= result.Length
      invariant result[..n] == Kept(l, names[..c], tags)
      invariant forall i :: c <= i < result.Length ==> result[i] == names[i]
    {
      var name := result[c];
      var matches := ChildKept(l, name, tags);
      KeptStep(l, names, c, tags);
      if matches {
        ghost var before := result[..n];
        result[n] := name;
        assert result[..n] == before;
        assert result[..n + 1] == result[..n] + [name];
        n := n + 1;
      }
      c := c + 1;
    }
    assert names[..c] == names;
  }

  /** One pass of the outer loop: look up the child and test its tags. */
  method ChildKept(l: Location, name: string, tags: seq<string>) returns (b: bool)
    requires ChildNamed(l, name).Some?
    ensures b == Keeps(l, name, tags)
  {
    var child := ChildNamed(l, name).value;
    b := ChildMatches(child.everyTags, tags);
  }

  /** One more name: kept after the others exactly when `Keeps` accepts it. */
  lemma KeptStep(l: Location, names: seq<string>, c: nat, tags: seq<string>)
    requires c < |names|
    ensures Kept(l, names[..c + 1], tags)
         == Kept(l, names[..c], tags) + (if Keeps(l, names[c], tags) then [names[c]] else [])
  {
    assert names[..c + 1][..c] == names[..c];
  }

  /** The child names `computeChildNames` gives for what `scene( path )` yielded. */
  function ChildNamesFor(s: SceneResult, tagsString: string): Outcome<seq<string>>
  {
    match s
    case NoScene => Ok([])
    case Failed => Thrown
    case Found(l) =>
      Ok(if tagsString == "" then Names(l) else Kept(l, Names(l), Tokens.Tokenize(tagsString, ' ')))
  }

  /** Every child name names a child. */
  lemma NamesAreChildren(l: Location)
    ensures forall x :: x in Names(l) ==> ChildNamed(l, x).Some?
  {
    forall x | x in Names(l)
      ensures ChildNamed(l, x).Some?
    {
      var i :| 0 <= i < |Names(l)| && Names(l)[i] == x;
      assert l.children[i].0 == x;
    }
  }

  /**
   * `computeChildNames( path )`: no file gives the default (no names), no
   * tags gives every child name, otherwise only the children carrying one of
   * the space-separated tags, in file order. The scene comes from the
   * corrected cache `Scene`, not from `SceneAsWritten`.
   */
  method ComputeChildNames(reader: SceneReader, fileName: string, path: seq<string>, tagsString: string,
                           files: map<string, Location>) returns (r: Outcome<seq<string>>)
    requires reader.Consistent()
    modifies reader
    ensures reader.Consistent()
    ensures old(reader.Valid(files)) ==> reader.Valid(files) && r == ChildNamesFor(Direct(files, fileName, path), tagsString)
  {
    var s := reader.Scene(fileName, path, files);
    if s.NoScene? {
      return Ok([]);
    }
    if s.Failed? {
      return Thrown;
    }
    var l := s.loc;
    var names := Names(l);
    if tagsString == "" {
      return Ok(names);
    }
    var tags := Tokens.Tokenize(tagsString, ' ');
    var result := new string[|names|](i requires 0 <= i < |names| => names[i]);
    assert result[..] == names;
    NamesAreChildren(l);
    var n := FilterByTags(l, result, tags);
    r := Ok(result[..n]);
  }

  /** The filter keeps exactly the children that carry a requested tag. */
  lemma KeptIff(l: Location, tagsString: string, x: string)
    requires tagsString != ""
    ensures var r := ChildNamesFor(Found(l), tagsString).value;
      x in r <==> exists i :: 0 <= i < |l.children| && l.children[i].0 == x
                          && TagMatch(ChildNamed(l, x).value, Tokens.Tokenize(tagsString, ' '))
  {
    NamesAreChildren(l);
    KeptMembers(l, Names(l), Tokens.Tokenize(tagsString, ' '));
    if x in Names(l) {
      var i :| 0 <= i < |Names(l)| && Names(l)[i] == x;
      assert l.children[i].0 == x;
    }
  }

  /** A tags value of spaces only names no tag, so it removes every child rather than none. */
  lemma SpacesRemoveEveryChild(l: Location)
    ensures ChildNamesFor(Found(l), " ") == Ok([])
  {
    assert Tokens.Tokenize(" ", ' ') == [];
    KeptNothing(l, Names(l));
  }

  /** With no tags to look for, no name is kept. */
  lemma {:induction false} KeptNothing(l: Location, names: seq<string>)
    ensures Kept(l, names, []) == []
  {
    if names != [] {
      KeptNothing(l, names[..|names| - 1]);
    }
  }

  /** Without tags every child name is given, in file order. */
  lemma NoTagsKeepsAll(l: Location)
    ensures ChildNamesFor(Found(l), "") == Ok(Names(l))
  {
  }

  // ---------------------------------------------------------------- sets

  /** The paths `loadSetWalk( s, setName, set, path )` adds to the set. */
  function Collected(s: Location, setName: string, path: seq<string>): set<seq<string>>
    decreases s, 1
  {
    (if setName in s.localTags then {path} else {})
    + (if setName in s.descendantTags then FromChildren(s, |s.children|, setName, path) else {})
  }

  /** What the walk adds below the first `k` children. */
  function FromChildren(s: Location, k: nat, setName: string, path: seq<string>): set<seq<string>>
    requires k <= |s.children|
    decreases s, 0, k
  {
    if k == 0 then {}
    else
      var c := s.children[k - 1];
      assert c in s.children;
      FromChildren(s, k - 1, setName, path) + Collected(c.1, setName, path + [c.0])
  }

  /** `loadSetWalk`: adds the located paths to `acc`. */
  method LoadSetWalk(s: Location, setName: string, acc: set<seq<string>>, path: seq<string>)
    returns (r: set<seq<string>>)
    ensures r == acc + Collected(s, setName, path)
    decreases s
  {
    r := acc;
    if setName in s.localTags {
      r := r + {path};
    }
    if setName !in s.descendantTags {
      return;
    }
    ghost var here := r;
    var i := 0;
    while i < |s.children|
      invariant 0 <= i <= |s.children|
      invariant r == here + FromChildren(s, i, setName, path)
    {
      var c := s.children[i];
      assert c in s.children;
      r := LoadSetWalk(c.1, setName, r, path + [c.0]);
      i := i + 1;
    }
  }

  /** `computeSet( setName )`: an empty set without a file, otherwise the walk from the root. */
  function SetFor(s: SceneResult, setName: string): Outcome<set<seq<string>>>
  {
    match s
    case NoScene => Ok({})
    case Failed => Thrown
    case Found(l) => Ok(Collected(l, setName, []))
  }

  /** `computeSet`, with the root taken from the corrected cache `Scene`, not from `SceneAsWritten`. */
  method ComputeSet(reader: SceneReader, fileName: string, setName: string, files: map<string, Location>)
    returns (r: Outcome<set<seq<string>>>)
    requires reader.Consistent()
    modifies reader
    ensures reader.Consistent()
    ensures old(reader.Valid(files)) ==> reader.Valid(files) && r == SetFor(Direct(files, fileName, []), setName)
  {
    var s := reader.Scene(fileName, [], files);
    if s.NoScene? {
      return Ok({});
    }
    if s.Failed? {
      return Thrown;
    }
    var paths := LoadSetWalk(s.loc, setName, {}, []);
    assert paths == Collected(s.loc, setName, []);
    r := Ok(paths);
  }

  /** `t` is reached from `s` by following the names of `q`, through any children of those names. */
  ghost predicate Reach(s: Location, q: seq<string>, t: Location)
    decreases |q|
  {
    if q == [] then t == s
    else exists i :: 0 <= i < |s.children| && s.children[i].0 == q[0] && Reach(s.children[i].1, q[1..], t)
  }

  /** Some strict descendant of `s` carries `setName` locally. */
  ghost predicate TaggedBelow(s: Location, setName: string)
    decreases s
  {
    exists i :: 0 <= i < |s.children| && (setName in s.children[i].1.localTags || TaggedBelow(s.children[i].1, setName))
  }

  /** The descendant tags of every location include each tag carried below it. */
  ghost predicate Coherent(s: Location, setName: string)
    decreases s
  {
    (TaggedBelow(s, setName) ==> setName in s.descendantTags)
    && forall i :: 0 <= i < |s.children| ==> Coherent(s.children[i].1, setName)
  }

  /** Every collected path extends the starting path to a location tagged locally. */
  lemma {:induction false} CollectedSound(s: Location, setName: string, path: seq<string>, p: seq<string>)
    returns (q: seq<string>, t: Location)
    requires p in Collected(s, setName, path)
    ensures p == path + q && Reach(s, q, t) && setName in t.localTags
    decreases s, 1
  {
    if setName in s.localTags && p == path {
      q, t := [], s;
      assert p == path + q;
    } else {
      q, t := FromChildrenSound(s, |s.children|, setName, path, p);
    }
  }

  lemma {:induction false} FromChildrenSound(s: Location, k: nat, setName: string, path: seq<string>, p: seq<string>)
    returns (q: seq<string>, t: Location)
    requires k <= |s.children|
    requires p in FromChildren(s, k, setName, path)
    ensures p == path + q && Reach(s, q, t) && setName in t.localTags
    decreases s, 0, k
  {
    var c := s.children[k - 1];
    assert c in s.children;
    if p in FromChildren(s, k - 1, setName, path) {
      q, t := FromChildrenSound(s, k - 1, setName, path, p);
    } else {
      var q', t' := CollectedSound(c.1, setName, path + [c.0], p);
      q, t := [c.0] + q', t';
      assert p == path + q;
      assert q[1..] == q';
      assert Reach(s, q, t) by {
        assert s.children[k - 1].0 == q[0] && Reach(s.children[k - 1].1, q[1..], t);
      }
    }
  }

  /** The paths below child `i` are among those below the first `k > i` children. */
  lemma {:induction false} FromChildrenHas(s: Location, k: nat, i: nat, setName: string, path: seq<string>)
    requires i < k <= |s.children|
    ensures Collected(s.children[i].1, setName, path + [s.children[i].0]) <= FromChildren(s, k, setName, path)
    decreases k
  {
    if i < k - 1 {
      FromChildrenHas(s, k - 1, i, setName, path);
    }
  }

  /** A location reached by a non-empty path is a strict descendant: its tag is carried below. */
  lemma {:induction false} ReachedIsBelow(s: Location, q: seq<string>, t: Location, setName: string)
    requires q != [] && Reach(s, q, t) && setName in t.localTags
    ensures TaggedBelow(s, setName)
    decreases |q|
  {
    var i :| 0 <= i < |s.children| && s.children[i].0 == q[0] && Reach(s.children[i].1, q[1..], t);
    if q[1..] != [] {
      ReachedIsBelow(s.children[i].1, q[1..], t, setName);
    }
  }

  /**
   * When the descendant tags are coherent, the walk finds every location
   * carrying the tag: the walk prunes no branch that holds one.
   */
  lemma {:induction false} CollectedComplete(s: Location, setName: string, path: seq<string>, q: seq<string>, t: Location)
    requires Coherent(s, setName) && Reach(s, q, t) && setName in t.localTags
    ensures path + q in Collected(s, setName, path)
    decreases |q|
  {
    if q == [] {
      assert path + q == path;
    } else {
      ReachedIsBelow(s, q, t, setName);
      var i :| 0 <= i < |s.children| && s.children[i].0 == q[0] && Reach(s.children[i].1, q[1..], t);
      CollectedComplete(s.children[i].1, setName, path + [q[0]], q[1..], t);
      assert path + [q[0]] + q[1..] == path + q;
      FromChildrenHas(s, |s.children|, i, setName, path);
    }
  }

  /** A location whose descendant tags omit the tag contributes at most itself, whatever lies below. */
  lemma PrunedBelow(s: Location, setName: string, path: seq<string>)
    requires setName !in s.descendantTags
    ensures Collected(s, setName, path) <= {path}
  {
  }

  // ---------------------------------------------------------------- dependencies

  /** The node's own input plugs; `TransformChild` is any plug below the transform plug. */
  datatype InputPlug = FileName | RefreshCount | Tags | TransformChild | OtherInput

  /** The children of the output scene plug. */
  datatype OutputPlug = Bound | Transform | Attributes | Object | ChildNames | Globals | SetNames | Set

  /** `affects( input )`, after what the scene node base class adds (not part of this model). */
  function Affects(input: InputPlug): (r: seq<OutputPlug>)
    ensures Globals !in r
    ensures input == Tags ==> r == [ChildNames]
    ensures input == TransformChild ==> r == [Transform, Bound]
    ensures input == OtherInput ==> r == []
  {
    match input
    case FileName | RefreshCount => [Bound, Transform, Attributes, Object, ChildNames, SetNames, Set]
    case Tags => [ChildNames]
    case TransformChild => [Transform, Bound]
    case OtherInput => []
  }

  /** Only a new file or a refresh can change the sets; only those and the tags can change the child names. */
  lemma FileDirtiesAllButGlobals(o: OutputPlug)
    ensures o in Affects(FileName) <==> o != Globals
    ensures Affects(RefreshCount) == Affects(FileName)
  {
    match o
    case Globals =>
    case _ =>
  }

  lemma SetsAndNamesDependOnFile(input: InputPlug)
    ensures Set in Affects(input) <==> input == FileName || input == RefreshCount
    ensures ChildNames in Affects(input) <==> input == FileName || input == RefreshCount || input == Tags
  {
  }
}
