/**
 * The path matcher of a scene's sets: a trie whose edges are path segments
 * (which may contain `*`) and whose nodes say whether a stored path ends there.
 * A query path is tokenized on '/', walked down every child whose key
 * wildcard-matches the next segment, and answered with NoMatch,
 * DescendantMatch or Match.
 *
 * Nodes are exclusively owned by their parent, so a node is a value here: a
 * terminator flag and the sequence of (key, child) entries of its multimap, in
 * insertion order. The matcher object owns an optional root, which stays null
 * (`None`) until `clear()` is called.
 */
module PathMatcher {

  import opened Wrappers
  import opened Wildcard
  import Tokens

  /** `Filter::Result`, in increasing strength. */
  datatype FilterResult = NoMatch | DescendantMatch | Match

  function Rank(r: FilterResult): nat
  {
    match r
    case NoMatch => 0
    case DescendantMatch => 1
    case Match => 2
  }

  /** The stronger of two results. */
  function Max(a: FilterResult, b: FilterResult): (r: FilterResult)
    ensures Rank(r) >= Rank(a) && Rank(r) >= Rank(b)
    ensures r == a || r == b
  {
    if Rank(a) >= Rank(b) then a else b
  }

  lemma MaxAssociative(a: FilterResult, b: FilterResult, c: FilterResult)
    ensures Max(Max(a, b), c) == Max(a, Max(b, c))
    ensures Max(a, NoMatch) == a
  {
  }

  datatype Node = Node(terminator: bool, children: seq<(string, Node)>)

  /** A freshly allocated node. */
  const EmptyNode: Node := Node(false, [])

  const Separator: char := '/'

  /** The segments of a path string, as `boost::char_separator<char>( "/" )` gives them. */
  function Segments(path: string): seq<string>
  {
    Tokens.Tokenize(path, Separator)
  }

  // ---------------------------------------------------------------- children

  /** The entries of `cs` whose key is `Less`-equivalent to `name`, in order. */
  function InRange(cs: seq<(string, Node)>, name: string): (r: seq<(string, Node)>)
    ensures forall c :: c in r <==> c in cs && Equivalent(name, c.0)
    ensures |r| <= |cs|
  {
    if cs == [] then []
    else if Equivalent(name, cs[0].0) then [cs[0]] + InRange(cs[1..], name)
    else InRange(cs[1..], name)
  }

  /** `Node::childRange( name )`: the children which may match `name` when wildcards are taken into account. */
  function ChildRange(n: Node, name: string): (r: seq<(string, Node)>)
    ensures forall c :: c in r <==> c in n.children && Equivalent(name, c.0)
  {
    InRange(n.children, name)
  }

  /** The position of the first child stored under exactly `name`. */
  function ChildIndex(n: Node, name: string): (r: Option<nat>)
    ensures r.Some? ==> r.value < |n.children| && n.children[r.value].0 == name
    ensures r.Some? ==> forall j :: 0 <= j < r.value ==> n.children[j].0 != name
    ensures r.None? ==> forall j :: 0 <= j < |n.children| ==> n.children[j].0 != name
    decreases |n.children|
  {
    if n.children == [] then None
    else if n.children[0].0 == name then Some(0)
    else match ChildIndex(Node(n.terminator, n.children[1..]), name)
      case None => None
      case Some(j) => Some(j + 1)
  }

  /**
   * `Node::child( name )`: the child stored under exactly `name`. An exactly
   * equal key is always `Less`-equivalent to `name`, so, with the range taken
   * as every equivalent child (`ChildRange`), the scan of the range finds the
   * same entry as this scan of all children.
   */
  method Child(n: Node, name: string) returns (r: Option<nat>)
    ensures r.Some? ==> r.value < |n.children| && n.children[r.value].0 == name
    ensures r.Some? ==> n.children[r.value] in ChildRange(n, name)
    ensures r.Some? ==> forall j :: 0 <= j < r.value ==> n.children[j].0 != name
    ensures r.None? ==> forall j :: 0 <= j < |n.children| ==> n.children[j].0 != name
    ensures r == ChildIndex(n, name)
  {
    var j := 0;
    while j < |n.children|
      invariant 0 <= j <= |n.children|
      invariant forall k :: 0 <= k < j ==> n.children[k].0 != name
    {
      if n.children[j].0 == name {
        LessIrreflexive(name);
        r := Some(j);
        return;
      }
      j := j + 1;
    }
    r := None;
  }

  // ---------------------------------------------------------------- match

  /** The answer of `matchWalk` at a node: the best result over all matching branches. */
  function Walk(n: Node, q: seq<string>): FilterResult
    decreases n, 1
  {
    if q == [] then (if n.terminator then Match else DescendantMatch)
    else Best(n, ChildRange(n, q[0]), q[0], q[1..])
  }

  /** The best result over the entries of `cs` whose key wildcard-matches `seg`. */
  function Best(n: Node, cs: seq<(string, Node)>, seg: string, rest: seq<string>): FilterResult
    requires forall c :: c in cs ==> c in n.children
    decreases n, 0, |cs|
  {
    if cs == [] then NoMatch
    else
      var last := cs[|cs| - 1];
      assert last in n.children;
      Max(Best(n, cs[..|cs| - 1], seg, rest),
          if WildcardMatch(seg, last.0) then Walk(last.1, rest) else NoMatch)
  }

  /** One more branch: the best result so far combined with that branch's own. */
  lemma BestStep(n: Node, cs: seq<(string, Node)>, i: nat, seg: string, rest: seq<string>)
    requires forall c :: c in cs ==> c in n.children
    requires i < |cs|
    ensures cs[i] in n.children
    ensures Best(n, cs[..i + 1], seg, rest)
         == Max(Best(n, cs[..i], seg, rest), if WildcardMatch(seg, cs[i].0) then Walk(cs[i].1, rest) else NoMatch)
  {
    assert cs[i] in cs;
    assert cs[..i + 1][..i] == cs[..i];
  }

  /** Once a prefix of the branches gives Match, so do all of them. */
  lemma {:induction false} BestKeepsMatch(n: Node, cs: seq<(string, Node)>, i: nat, seg: string, rest: seq<string>)
    requires forall c :: c in cs ==> c in n.children
    requires i <= |cs|
    requires Best(n, cs[..i], seg, rest) == Match
    ensures Best(n, cs, seg, rest) == Match
    decreases |cs|
  {
    if i < |cs| {
      assert cs[..|cs| - 1][..i] == cs[..i];
      BestKeepsMatch(n, cs[..|cs| - 1], i, seg, rest);
    } else {
      assert cs[..i] == cs;
    }
  }

  /**
   * `PathMatcher::matchWalk`: `result` is the by-reference result. The base
   * case overwrites it; a branch that reaches no base case leaves it as it was;
   * the loop stops at the first Match. The caller never passes in Match, and
   * then the new result is the old one or the best branch, whichever is stronger.
   */
  method MatchWalk(n: Node, q: seq<string>, result: FilterResult) returns (r: FilterResult)
    requires result != Match
    ensures r == Max(result, Walk(n, q))
    decreases n
  {
    if q == [] {
      r := if n.terminator then Match else DescendantMatch;
      return;
    }
    var seg, rest := q[0], q[1..];
    var range := ChildRange(n, seg);
    r := result;
    var i := 0;
    while i < |range|
      invariant 0 <= i <= |range|
      invariant r != Match
      invariant r == Max(result, Best(n, range[..i], seg, rest))
    {
      BestStep(n, range, i, seg, rest);
      if WildcardMatch(seg, range[i].0) {
        r := MatchWalk(range[i].1, rest, r);
        MaxAssociative(result, Best(n, range[..i], seg, rest), Walk(range[i].1, rest));
        if r == Match {
          BestKeepsMatch(n, range, i + 1, seg, rest);
          return;
        }
      } else {
        MaxAssociative(result, Best(n, range[..i], seg, rest), NoMatch);
      }
      i := i + 1;
    }
    assert range[..i] == range;
  }

  // ---------------------------------------------------------------- addPath

  /** The node after inserting the segments `segs` below it by exact key and marking the end. */
  function Inserted(n: Node, segs: seq<string>): Node
    decreases |segs|
  {
    if segs == [] then Node(true, n.children)
    else match ChildIndex(n, segs[0])
      case Some(j) =>
        Node(n.terminator, n.children[j := (segs[0], Inserted(n.children[j].1, segs[1..]))])
      case None =>
        Node(n.terminator, n.children + [(segs[0], Inserted(EmptyNode, segs[1..]))])
  }

  /**
   * The descent of `addPath`. It follows the recursion of `Inserted`; what it
   * adds is that each exact-key lookup is the `Child` loop.
   */
  method InsertPath(n: Node, segs: seq<string>) returns (r: Node)
    ensures r == Inserted(n, segs)
    decreases |segs|
  {
    if segs == [] {
      r := Node(true, n.children);
      return;
    }
    var k := Child(n, segs[0]);
    if k.Some? {
      var below := InsertPath(n.children[k.value].1, segs[1..]);
      r := Node(n.terminator, n.children[k.value := (segs[0], below)]);
    } else {
      var below := InsertPath(EmptyNode, segs[1..]);
      r := Node(n.terminator, n.children + [(segs[0], below)]);
    }
  }

  // ---------------------------------------------------------------- the matcher

  class PathMatcher {

    /** `m_root`: null until `clear()`. */
    var root: Option<Node>

    /** `PathMatcher()`: leaves the root null. */
    constructor ()
      ensures root == None
    {
      root := None;
    }

    /** `clear()`: a new, empty root. */
    method Clear()
      modifies this
      ensures root == Some(EmptyNode)
    {
      root := Some(EmptyNode);
    }

    /** `match( path )`: NoMatch without a root, otherwise the walk over the path's segments. */
    method Match(path: string) returns (r: FilterResult)
      ensures root.None? ==> r == NoMatch
      ensures root.Some? ==> r == Walk(root.value, Segments(path))
    {
      if root.None? {
        return NoMatch;
      }
      r := MatchWalk(root.value, Segments(path), NoMatch);
    }

    /** `addPath( path )`: dereferences the root, so `clear()` must have been called. */
    method AddPath(path: string)
      requires root.Some?
      modifies this
      ensures root == Some(Inserted(old(root).value, Segments(path)))
    {
      var n := InsertPath(root.value, Segments(path));
      root := Some(n);
    }
  }
}
