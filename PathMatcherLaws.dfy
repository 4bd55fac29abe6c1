/**
 * What the path matcher promises, stated against a reference definition: the
 * set of stored patterns (paths of keys from the root to a terminator node).
 * A query of '*'-free segments gets Match iff some stored pattern of the same
 * length matches it segment by segment, and anything but NoMatch iff some
 * stored pattern matches it on a prefix, provided that every non-root node
 * leads to a terminator, which `addPath` keeps true.
 */
module PathMatcherLaws {

  import opened Wrappers
  import opened Wildcard
  import opened PathMatcher

  /** `p` is a sequence of keys that leads from `n` to a terminator. */
  ghost predicate HasPattern(n: Node, p: seq<string>)
    decreases n
  {
    if p == [] then n.terminator
    else exists i :: 0 <= i < |n.children| && n.children[i].0 == p[0] && HasPattern(n.children[i].1, p[1..])
  }

  /** Some terminator lies at or below `n`. */
  ghost predicate Live(n: Node)
    decreases n
  {
    n.terminator || exists i :: 0 <= i < |n.children| && Live(n.children[i].1)
  }

  /** Every node below `n` is live: no branch of the trie leads nowhere. */
  ghost predicate WellFormed(n: Node)
    decreases n
  {
    forall i :: 0 <= i < |n.children| ==> Live(n.children[i].1) && WellFormed(n.children[i].1)
  }

  /** Query segments as a literal name carries them: no `*` before the terminator. */
  predicate StarFree(q: seq<string>)
  {
    forall i :: 0 <= i < |q| ==> Star !in CStr(q[i])
  }

  /** `q` matches the pattern `p` segment by segment and has its length. */
  predicate Fits(q: seq<string>, p: seq<string>)
  {
    |q| == |p| && forall i :: 0 <= i < |q| ==> WildcardMatch(q[i], p[i])
  }

  /** `q` matches the first `|q|` segments of the pattern `p`. */
  predicate PrefixFits(q: seq<string>, p: seq<string>)
  {
    |q| <= |p| && forall i :: 0 <= i < |q| ==> WildcardMatch(q[i], p[i])
  }

  // ---------------------------------------------------------------- support

  lemma {:induction false} PatternMakesLive(n: Node, p: seq<string>)
    requires HasPattern(n, p)
    ensures Live(n)
    decreases n
  {
    if p != [] {
      var i :| 0 <= i < |n.children| && n.children[i].0 == p[0] && HasPattern(n.children[i].1, p[1..]);
      PatternMakesLive(n.children[i].1, p[1..]);
    }
  }

  lemma {:induction false} LiveHasPattern(n: Node) returns (p: seq<string>)
    requires Live(n)
    ensures HasPattern(n, p)
    decreases n
  {
    if n.terminator {
      p := [];
    } else {
      var i :| 0 <= i < |n.children| && Live(n.children[i].1);
      var p' := LiveHasPattern(n.children[i].1);
      p := [n.children[i].0] + p';
      assert p[1..] == p';
    }
  }

  /** The best over the branches is Match iff some matching branch gives Match. */
  lemma {:induction false} BestMatchIff(n: Node, cs: seq<(string, Node)>, seg: string, rest: seq<string>)
    requires forall c :: c in cs ==> c in n.children
    ensures Best(n, cs, seg, rest) == Match <==>
            exists c :: c in cs && WildcardMatch(seg, c.0) && Walk(c.1, rest) == Match
    decreases |cs|
  {
    if cs != [] {
      var init, last := cs[..|cs| - 1], cs[|cs| - 1];
      BestMatchIff(n, init, seg, rest);
      assert last in n.children;
      var here := if WildcardMatch(seg, last.0) then Walk(last.1, rest) else NoMatch;
      assert Best(n, cs, seg, rest) == Max(Best(n, init, seg, rest), here);
      if Best(n, init, seg, rest) == Match {
        var c :| c in init && WildcardMatch(seg, c.0) && Walk(c.1, rest) == Match;
        assert c in cs;
      } else if here == Match {
        assert last in cs;
      } else {
        forall c | c in cs && WildcardMatch(seg, c.0)
          ensures Walk(c.1, rest) != Match
        {
          if c != last {
            assert c in init by {
              assert cs == init + [last];
            }
          }
        }
      }
    }
  }

  /** The best over the branches is better than NoMatch iff some matching branch is. */
  lemma {:induction false} BestSomeIff(n: Node, cs: seq<(string, Node)>, seg: string, rest: seq<string>)
    requires forall c :: c in cs ==> c in n.children
    ensures Best(n, cs, seg, rest) != NoMatch <==>
            exists c :: c in cs && WildcardMatch(seg, c.0) && Walk(c.1, rest) != NoMatch
    decreases |cs|
  {
    if cs != [] {
      var init, last := cs[..|cs| - 1], cs[|cs| - 1];
      BestSomeIff(n, init, seg, rest);
      assert last in n.children;
      var here := if WildcardMatch(seg, last.0) then Walk(last.1, rest) else NoMatch;
      assert Best(n, cs, seg, rest) == Max(Best(n, init, seg, rest), here);
      if Best(n, init, seg, rest) != NoMatch {
        var c :| c in init && WildcardMatch(seg, c.0) && Walk(c.1, rest) != NoMatch;
        assert c in cs;
      } else if here != NoMatch {
        assert last in cs;
      } else {
        forall c | c in cs && WildcardMatch(seg, c.0)
          ensures Walk(c.1, rest) == NoMatch
        {
          if c != last {
            assert c in init by {
              assert cs == init + [last];
            }
          }
        }
      }
    }
  }

  lemma StarFreeTail(q: seq<string>)
    requires q != [] && StarFree(q)
    ensures StarFree(q[1..]) && Star !in CStr(q[0])
  {
    assert forall i :: 0 <= i < |q[1..]| ==> q[1..][i] == q[i + 1];
  }

  // ---------------------------------------------------------------- the walk against the patterns

  lemma FitsCons(q: seq<string>, p: seq<string>)
    requires q != []
    ensures Fits(q, p) <==> p != [] && WildcardMatch(q[0], p[0]) && Fits(q[1..], p[1..])
    ensures PrefixFits(q, p) <==> p != [] && WildcardMatch(q[0], p[0]) && PrefixFits(q[1..], p[1..])
  {
    if p != [] {
      assert forall j :: 0 <= j < |q[1..]| ==> q[1..][j] == q[j + 1];
      assert forall j :: 0 <= j < |p[1..]| ==> p[1..][j] == p[j + 1];
      if PrefixFits(q[1..], p[1..]) && WildcardMatch(q[0], p[0]) {
        forall j | 0 <= j < |q| ensures WildcardMatch(q[j], p[j]) {
          if j > 0 {
            assert q[j] == q[1..][j - 1] && p[j] == p[1..][j - 1];
          }
        }
      }
    }
  }

  /** A pattern through child `c` of `n`, extended by the key of `c`. */
  lemma PatternThroughChild(n: Node, c: (string, Node), p': seq<string>) returns (p: seq<string>)
    requires c in n.children && HasPattern(c.1, p')
    ensures p == [c.0] + p' && p[0] == c.0 && p[1..] == p' && HasPattern(n, p)
  {
    p := [c.0] + p';
    assert p[1..] == p';
    var i :| 0 <= i < |n.children| && n.children[i] == c;
  }

  /** A Match of the walk comes from a stored pattern fitting the whole query. */
  lemma {:induction false} WalkMatchWitness(n: Node, q: seq<string>) returns (p: seq<string>)
    requires Walk(n, q) == Match
    ensures HasPattern(n, p) && Fits(q, p)
    decreases n
  {
    if q == [] {
      p := [];
    } else {
      var seg, rest := q[0], q[1..];
      BestMatchIff(n, ChildRange(n, seg), seg, rest);
      var c :| c in ChildRange(n, seg) && WildcardMatch(seg, c.0) && Walk(c.1, rest) == Match;
      var p' := WalkMatchWitness(c.1, rest);
      p := PatternThroughChild(n, c, p');
      FitsCons(q, p);
    }
  }

  /** A stored pattern fitting a '*'-free query makes the walk answer Match. */
  lemma {:induction false} WalkMatchFromPattern(n: Node, q: seq<string>, p: seq<string>)
    requires StarFree(q) && HasPattern(n, p) && Fits(q, p)
    ensures Walk(n, q) == Match
    decreases n
  {
    if q != [] {
      StarFreeTail(q);
      FitsCons(q, p);
      var seg, rest := q[0], q[1..];
      var i :| 0 <= i < |n.children| && n.children[i].0 == p[0] && HasPattern(n.children[i].1, p[1..]);
      var c := n.children[i];
      MatchIsInRange(seg, p[0]);
      assert c in ChildRange(n, seg);
      WalkMatchFromPattern(c.1, rest, p[1..]);
      BestMatchIff(n, ChildRange(n, seg), seg, rest);
    }
  }

  /** Match iff a stored pattern fits the whole query. */
  lemma WalkMatchIff(n: Node, q: seq<string>)
    requires StarFree(q)
    ensures Walk(n, q) == Match <==> exists p :: HasPattern(n, p) && Fits(q, p)
  {
    if Walk(n, q) == Match {
      var p := WalkMatchWitness(n, q);
    }
    if p :| HasPattern(n, p) && Fits(q, p) {
      WalkMatchFromPattern(n, q, p);
    }
  }

  /** In a well-formed trie, any answer but NoMatch comes from a stored pattern fitting a prefix. */
  lemma {:induction false} WalkSomeWitness(n: Node, q: seq<string>) returns (p: seq<string>)
    requires WellFormed(n)
    requires q != [] && Walk(n, q) != NoMatch
    ensures HasPattern(n, p) && PrefixFits(q, p)
    decreases n
  {
    var seg, rest := q[0], q[1..];
    BestSomeIff(n, ChildRange(n, seg), seg, rest);
    var c :| c in ChildRange(n, seg) && WildcardMatch(seg, c.0) && Walk(c.1, rest) != NoMatch;
    var i :| 0 <= i < |n.children| && n.children[i] == c;
    var p': seq<string>;
    if rest == [] {
      p' := LiveHasPattern(c.1);
    } else {
      p' := WalkSomeWitness(c.1, rest);
    }
    p := PatternThroughChild(n, c, p');
    FitsCons(q, p);
  }

  /** A stored pattern fitting a prefix of a non-empty '*'-free query rules NoMatch out. */
  lemma {:induction false} WalkSomeFromPattern(n: Node, q: seq<string>, p: seq<string>)
    requires q != [] && StarFree(q) && HasPattern(n, p) && PrefixFits(q, p)
    ensures Walk(n, q) != NoMatch
    decreases n
  {
    StarFreeTail(q);
    FitsCons(q, p);
    var seg, rest := q[0], q[1..];
    var i :| 0 <= i < |n.children| && n.children[i].0 == p[0] && HasPattern(n.children[i].1, p[1..]);
    var c := n.children[i];
    MatchIsInRange(seg, p[0]);
    assert c in ChildRange(n, seg);
    if rest != [] {
      WalkSomeFromPattern(c.1, rest, p[1..]);
    }
    BestSomeIff(n, ChildRange(n, seg), seg, rest);
  }

  /** For a non-empty query: anything but NoMatch iff a stored pattern fits a prefix of it. */
  lemma WalkSomeIff(n: Node, q: seq<string>)
    requires WellFormed(n)
    requires q != [] && StarFree(q)
    ensures Walk(n, q) != NoMatch <==> exists p :: HasPattern(n, p) && PrefixFits(q, p)
  {
    if Walk(n, q) != NoMatch {
      var p := WalkSomeWitness(n, q);
    }
    if p :| HasPattern(n, p) && PrefixFits(q, p) {
      WalkSomeFromPattern(n, q, p);
    }
  }

  /** The empty query checks the node itself: never NoMatch, Match iff it is a terminator. */
  lemma EmptyQueryChecksNode(n: Node)
    ensures Walk(n, []) == (if n.terminator then Match else DescendantMatch)
    ensures Walk(n, []) != NoMatch
  {
  }

  // ---------------------------------------------------------------- addPath against the patterns

  /** `ChildIndex` is determined by its contract: the first exact key. */
  lemma ChildIndexIsFirst(n: Node, name: string, j: nat)
    requires j < |n.children| && n.children[j].0 == name
    requires forall i :: 0 <= i < j ==> n.children[i].0 != name
    ensures ChildIndex(n, name) == Some(j)
  {
  }

  /** Inserting keeps every pattern that was stored. */
  lemma {:induction false} InsertedKeeps(n: Node, segs: seq<string>, p: seq<string>)
    requires HasPattern(n, p)
    ensures HasPattern(Inserted(n, segs), p)
    decreases |segs|
  {
    var m := Inserted(n, segs);
    if segs == [] || p == [] {
    } else {
      var i :| 0 <= i < |n.children| && n.children[i].0 == p[0] && HasPattern(n.children[i].1, p[1..]);
      match ChildIndex(n, segs[0])
      case Some(j) =>
        if i == j {
          InsertedKeeps(n.children[j].1, segs[1..], p[1..]);
        }
        var w := PatternThroughChild(m, m.children[i], p[1..]);
        assert w == p;
      case None =>
        assert m.children[i] == n.children[i];
        var w := PatternThroughChild(m, m.children[i], p[1..]);
        assert w == p;
    }
  }

  /** Inserting stores the inserted path. */
  lemma {:induction false} InsertedAdds(n: Node, segs: seq<string>)
    ensures HasPattern(Inserted(n, segs), segs)
    decreases |segs|
  {
    var m := Inserted(n, segs);
    if segs != [] {
      match ChildIndex(n, segs[0])
      case Some(j) =>
        InsertedAdds(n.children[j].1, segs[1..]);
        var w := PatternThroughChild(m, m.children[j], segs[1..]);
        assert w == segs;
      case None =>
        InsertedAdds(EmptyNode, segs[1..]);
        var w := PatternThroughChild(m, m.children[|n.children|], segs[1..]);
        assert w == segs;
    }
  }

  /** Inserting stores nothing but the inserted path. */
  lemma {:induction false} InsertedOnly(n: Node, segs: seq<string>, p: seq<string>)
    requires HasPattern(Inserted(n, segs), p)
    ensures HasPattern(n, p) || p == segs
    decreases |segs|
  {
    var m := Inserted(n, segs);
    if segs == [] || p == [] {
    } else {
      var i :| 0 <= i < |m.children| && m.children[i].0 == p[0] && HasPattern(m.children[i].1, p[1..]);
      match ChildIndex(n, segs[0])
      case Some(j) =>
        if i == j {
          InsertedOnly(n.children[j].1, segs[1..], p[1..]);
          if HasPattern(n.children[j].1, p[1..]) {
            var w := PatternThroughChild(n, n.children[j], p[1..]);
            assert w == p;
          } else {
            assert p == [p[0]] + p[1..] && segs == [segs[0]] + segs[1..];
          }
        } else {
          var w := PatternThroughChild(n, n.children[i], p[1..]);
          assert w == p;
        }
      case None =>
        if i < |n.children| {
          var w := PatternThroughChild(n, n.children[i], p[1..]);
          assert w == p;
        } else {
          InsertedOnly(EmptyNode, segs[1..], p[1..]);
          NoPatternsInEmpty(p[1..]);
          assert p == [p[0]] + p[1..] && segs == [segs[0]] + segs[1..];
        }
    }
  }

  /** The stored patterns after `addPath`: the old ones and the new path, nothing else. */
  lemma InsertedPatterns(n: Node, segs: seq<string>, p: seq<string>)
    ensures HasPattern(Inserted(n, segs), p) <==> HasPattern(n, p) || p == segs
  {
    if HasPattern(Inserted(n, segs), p) {
      InsertedOnly(n, segs, p);
    }
    if HasPattern(n, p) {
      InsertedKeeps(n, segs, p);
    }
    if p == segs {
      InsertedAdds(n, segs);
    }
  }

  lemma NoPatternsInEmpty(p: seq<string>)
    ensures !HasPattern(EmptyNode, p)
  {
  }

  /** `addPath` keeps every branch leading to a terminator. */
  lemma {:induction false} InsertedWellFormed(n: Node, segs: seq<string>)
    requires WellFormed(n)
    ensures WellFormed(Inserted(n, segs))
    decreases |segs|
  {
    var m := Inserted(n, segs);
    if segs != [] {
      match ChildIndex(n, segs[0])
      case Some(j) =>
        var c := n.children[j].1;
        InsertedWellFormed(c, segs[1..]);
        InsertedPatterns(c, segs[1..], segs[1..]);
        PatternMakesLive(m.children[j].1, segs[1..]);
        forall i | 0 <= i < |m.children| ensures Live(m.children[i].1) && WellFormed(m.children[i].1) {
          if i != j {
            assert m.children[i] == n.children[i];
          }
        }
      case None =>
        var k := |n.children|;
        InsertedWellFormed(EmptyNode, segs[1..]);
        InsertedPatterns(EmptyNode, segs[1..], segs[1..]);
        PatternMakesLive(m.children[k].1, segs[1..]);
        forall i | 0 <= i < |m.children| ensures Live(m.children[i].1) && WellFormed(m.children[i].1) {
          if i < k {
            assert m.children[i] == n.children[i];
          }
        }
    }
  }

  /** Adding the same path twice leaves exactly the trie of adding it once. */
  lemma {:induction false} InsertedIdempotent(n: Node, segs: seq<string>)
    ensures Inserted(Inserted(n, segs), segs) == Inserted(n, segs)
    decreases |segs|
  {
    var m := Inserted(n, segs);
    if segs != [] {
      match ChildIndex(n, segs[0])
      case Some(j) =>
        ChildIndexIsFirst(m, segs[0], j);
        InsertedIdempotent(n.children[j].1, segs[1..]);
        assert m.children[j := (segs[0], Inserted(m.children[j].1, segs[1..]))] == m.children;
      case None =>
        var k := |n.children|;
        assert forall i :: 0 <= i < k ==> m.children[i] == n.children[i];
        ChildIndexIsFirst(m, segs[0], k);
        InsertedIdempotent(EmptyNode, segs[1..]);
        assert m.children[k := (segs[0], Inserted(m.children[k].1, segs[1..]))] == m.children;
    }
  }

  // ---------------------------------------------------------------- whole-matcher consequences

  /** What `match` answers for a query of segments. */
  function Answer(root: Option<Node>, q: seq<string>): FilterResult
  {
    if root.None? then NoMatch else Walk(root.value, q)
  }

  /**
   * A child after insertion: the same entry, or, for the child the descent
   * went through, the same key over the inserted subtree.
   */
  lemma Counterpart(n: Node, segs: seq<string>, c: (string, Node)) returns (d: (string, Node))
    requires c in n.children
    ensures d in Inserted(n, segs).children && d.0 == c.0
    ensures d == c || (segs != [] && d == (c.0, Inserted(c.1, segs[1..])))
  {
    var m := Inserted(n, segs);
    d := c;
    if segs != [] {
      var i :| 0 <= i < |n.children| && n.children[i] == c;
      match ChildIndex(n, segs[0])
      case Some(j) =>
        if i == j {
          d := (c.0, Inserted(c.1, segs[1..]));
          assert m.children[j] == d;
        } else {
          assert m.children[i] == c;
        }
      case None =>
        assert m.children[i] == c;
    }
  }

  /** Adding a path never lowers the answer to any query. */
  lemma {:induction false} AddNeverLowers(n: Node, segs: seq<string>, q: seq<string>)
    ensures Rank(Walk(Inserted(n, segs), q)) >= Rank(Walk(n, q))
    decreases |q|, 1
  {
    if q == [] {
      InsertedTerminator(n, segs);
    } else {
      StepNeverLowers(n, segs, q[0], q[1..]);
    }
  }

  /** Insertion marks the end node and leaves every other node's flag alone. */
  lemma InsertedTerminator(n: Node, segs: seq<string>)
    ensures Inserted(n, segs).terminator == (segs == [] || n.terminator)
  {
  }

  /** One level of AddNeverLowers: the best branch after insertion is no weaker. */
  lemma {:induction false} StepNeverLowers(n: Node, segs: seq<string>, seg: string, rest: seq<string>)
    ensures var m := Inserted(n, segs);
            Rank(Best(m, ChildRange(m, seg), seg, rest)) >= Rank(Best(n, ChildRange(n, seg), seg, rest))
    decreases |rest| + 1, 0
  {
    var m := Inserted(n, segs);
    var before := Best(n, ChildRange(n, seg), seg, rest);
    if before == Match {
      BestMatchIff(n, ChildRange(n, seg), seg, rest);
      var c :| c in ChildRange(n, seg) && WildcardMatch(seg, c.0) && Walk(c.1, rest) == Match;
      var d := CounterpartWalk(n, segs, c, rest);
      BranchGivesMatch(m, seg, rest, d);
    } else if before == DescendantMatch {
      BestSomeIff(n, ChildRange(n, seg), seg, rest);
      var c :| c in ChildRange(n, seg) && WildcardMatch(seg, c.0) && Walk(c.1, rest) != NoMatch;
      var d := CounterpartWalk(n, segs, c, rest);
      BranchGivesSome(m, seg, rest, d);
    }
  }

  /** A child in range whose walk gives Match makes the node's best Match. */
  lemma BranchGivesMatch(m: Node, seg: string, rest: seq<string>, d: (string, Node))
    requires d in m.children && Equivalent(seg, d.0) && WildcardMatch(seg, d.0) && Walk(d.1, rest) == Match
    ensures Best(m, ChildRange(m, seg), seg, rest) == Match
  {
    BestMatchIff(m, ChildRange(m, seg), seg, rest);
    assert d in ChildRange(m, seg);
  }

  /** A child in range whose walk beats NoMatch makes the node's best beat NoMatch. */
  lemma BranchGivesSome(m: Node, seg: string, rest: seq<string>, d: (string, Node))
    requires d in m.children && Equivalent(seg, d.0) && WildcardMatch(seg, d.0) && Walk(d.1, rest) != NoMatch
    ensures Best(m, ChildRange(m, seg), seg, rest) != NoMatch
  {
    BestSomeIff(m, ChildRange(m, seg), seg, rest);
    assert d in ChildRange(m, seg);
  }

  /** The counterpart of a child after insertion walks a shorter query no worse. */
  lemma {:induction false} CounterpartWalk(n: Node, segs: seq<string>, c: (string, Node), rest: seq<string>)
    returns (d: (string, Node))
    requires c in n.children
    ensures d in Inserted(n, segs).children && d.0 == c.0
    ensures Rank(Walk(d.1, rest)) >= Rank(Walk(c.1, rest))
    decreases |rest|, 2
  {
    d := Counterpart(n, segs, c);
    if d != c {
      AddNeverLowers(c.1, segs[1..], rest);
    }
  }

  /** Before any `clear()` the root is null and every query is NoMatch. */
  lemma NullRootNeverMatches(q: seq<string>)
    ensures Answer(None, q) == NoMatch
  {
  }

  /** A freshly cleared matcher: NoMatch for any non-empty query, DescendantMatch for the empty one. */
  lemma ClearedMatcher(q: seq<string>)
    ensures Answer(Some(EmptyNode), q) == if q == [] then DescendantMatch else NoMatch
  {
    if q != [] {
      assert ChildRange(EmptyNode, q[0]) == [];
    }
  }

  /** One step down a single-path trie: the one child, if it is in range and matches. */
  lemma {:induction false} SingleStep(segs: seq<string>, q: seq<string>)
    requires segs != [] && q != []
    ensures Walk(Inserted(EmptyNode, segs), q)
         == if Equivalent(q[0], segs[0]) && WildcardMatch(q[0], segs[0])
            then Walk(Inserted(EmptyNode, segs[1..]), q[1..]) else NoMatch
  {
    var seg, rest := q[0], q[1..];
    var c := (segs[0], Inserted(EmptyNode, segs[1..]));
    assert ChildIndex(EmptyNode, segs[0]) == None;
    var n := Node(false, [c]);
    assert Inserted(EmptyNode, segs) == n;
    var range := ChildRange(n, seg);
    assert Walk(n, q) == Best(n, range, seg, rest);
    if Equivalent(seg, segs[0]) {
      assert range == [c];
      assert range[..0] == [];
      assert Best(n, range, seg, rest) == Max(NoMatch, if WildcardMatch(seg, c.0) then Walk(c.1, rest) else NoMatch);
    } else {
      assert range == [];
    }
  }

  /**
   * After `clear(); addPath(p)`, with segments `segs` of `p`: the path itself
   * is Match, a strict prefix is DescendantMatch, a longer path NoMatch.
   */
  lemma {:induction false} SinglePathAnswers(segs: seq<string>, q: seq<string>)
    ensures var m := Some(Inserted(EmptyNode, segs));
            && (q == segs ==> Answer(m, q) == Match)
            && (q < segs ==> Answer(m, q) == DescendantMatch)
            && (|q| > |segs| ==> Answer(m, q) == NoMatch)
    decreases |segs|
  {
    if q != [] {
      if segs == [] {
        assert ChildRange(Node(true, []), q[0]) == [];
      } else {
        SingleStep(segs, q);
        SinglePathAnswers(segs[1..], q[1..]);
        if q[0] == segs[0] {
          LessIrreflexive(q[0]);
          SelfMatch(q[0]);
        }
        assert q == segs ==> q[1..] == segs[1..];
        assert q < segs ==> q[0] == segs[0] && q[1..] < segs[1..];
      }
    }
  }

  /** Adding a path twice answers every query as adding it once. */
  lemma AddPathIdempotent(n: Node, segs: seq<string>, q: seq<string>)
    ensures Walk(Inserted(Inserted(n, segs), segs), q) == Walk(Inserted(n, segs), q)
  {
    InsertedIdempotent(n, segs);
  }
}
