/**
 * The two string helpers of PathMatcher: `Detail::wildcardMatch`, a
 * backtracking matcher of one path segment against one pattern segment in
 * which `*` is the only metacharacter, and `Detail::Less`, the comparator of
 * the child multimap, which treats two keys as equivalent once they diverge at
 * a `*`. Both step through C strings, so both look only at the characters
 * before the first NUL.
 */
module Wildcard {

  const Nul: char := '\0'
  const Star: char := '*'

  /** The characters `c_str()` shows before its terminator. */
  function CStr(s: string): (r: string)
    ensures Nul !in r
    ensures r <= s
    ensures Nul !in s ==> r == s
  {
    if s == [] || s[0] == Nul then [] else [s[0]] + CStr(s[1..])
  }

  /** The character a C-string pointer reads at offset `i` (NUL past the end). */
  function At(s: string, i: nat): char
  {
    if i < |s| then s[i] else Nul
  }

  /**
   * The matcher on NUL-free text. A literal must match positionally; a final
   * `*` accepts whatever is left; any other `*` retries the rest of the pattern
   * on every NON-EMPTY suffix of the text (the source's `while( *s != '\0' )`).
   */
  function Wild(s: string, p: string): bool
    decreases |p|
  {
    if p == [] then s == []
    else if p[0] == Star then
      |p| == 1 || exists k :: 0 <= k < |s| && Wild(s[k..], p[1..])
    else
      s != [] && s[0] == p[0] && Wild(s[1..], p[1..])
  }

  /** `wildcardMatch( s, pattern )`. */
  function WildcardMatch(s: string, pattern: string): bool
  {
    Wild(CStr(s), CStr(pattern))
  }

  /** Ordinary glob matching (a `*` matches any run, the empty one included): the reference. */
  ghost predicate Glob(s: string, p: string)
    decreases |p|
  {
    if p == [] then s == []
    else if p[0] == Star then exists k :: 0 <= k <= |s| && Glob(s[k..], p[1..])
    else s != [] && s[0] == p[0] && Glob(s[1..], p[1..])
  }

  /** No two adjacent stars. */
  predicate NoDoubleStar(p: string)
  {
    forall i :: 0 <= i < |p| - 1 ==> !(p[i] == Star && p[i + 1] == Star)
  }

  /** Length of the common prefix: where the comparator's `while` loop stops. */
  function CommonLen(a: string, b: string): (d: nat)
    ensures d <= |a| && d <= |b|
    ensures a[..d] == b[..d]
    ensures d < |a| && d < |b| ==> a[d] != b[d]
  {
    if a == [] || b == [] || a[0] != b[0] then 0 else 1 + CommonLen(a[1..], b[1..])
  }

  /** `Detail::Less()( s1, s2 )`. */
  function Less(s1: string, s2: string): bool
  {
    var a, b := CStr(s1), CStr(s2);
    var d := CommonLen(a, b);
    var c1, c2 := At(a, d), At(b, d);
    if c1 == Star || c2 == Star then false else c1 < c2
  }

  /** Neither key sorts before the other: the keys `equal_range` returns together. */
  predicate Equivalent(s1: string, s2: string)
  {
    !Less(s1, s2) && !Less(s2, s1)
  }

  // ---------------------------------------------------------------- matcher

  /** Without any `*`, a pattern matches exactly the segment equal to it. */
  lemma {:induction false} WildLiteral(s: string, p: string)
    requires Star !in p
    ensures Wild(s, p) <==> s == p
    decreases |p|
  {
    if p != [] {
      assert p[1..] == p[1..];
      assert Star !in p[1..];
      if s != [] {
        WildLiteral(s[1..], p[1..]);
        assert s == [s[0]] + s[1..] && p == [p[0]] + p[1..];
      }
    }
  }

  lemma WildcardLiteral(s: string, pattern: string)
    requires Star !in CStr(pattern)
    ensures WildcardMatch(s, pattern) <==> CStr(s) == CStr(pattern)
  {
    WildLiteral(CStr(s), CStr(pattern));
  }

  /** A trailing `*` accepts any remainder, the empty one included. */
  lemma {:induction false} WildTrailingStar(s: string, q: string)
    requires Star !in q
    ensures Wild(s, q + [Star]) <==> q <= s
    decreases |q|
  {
    if q != [] {
      assert (q + [Star])[1..] == q[1..] + [Star];
      assert Star !in q[1..];
      if s != [] {
        WildTrailingStar(s[1..], q[1..]);
      }
    }
  }

  /** Every text matches itself as a pattern: a `*` in it can be matched by the `*` itself. */
  lemma {:induction false} WildSelf(p: string)
    ensures Wild(p, p)
    decreases |p|
  {
    if p != [] {
      WildSelf(p[1..]);
      if p[0] == Star && |p| > 1 {
        assert p[1..][0..] == p[1..];
        assert 0 <= 1 < |p| && Wild(p[1..], p[1..]);
      }
    }
  }

  /** Every segment wildcard-matches itself. */
  lemma SelfMatch(s: string)
    ensures WildcardMatch(s, s)
  {
    WildSelf(CStr(s));
  }

  lemma StarMatchesEverything(s: string)
    ensures WildcardMatch(s, "*")
  {
    assert CStr("*"[1..]) == [];
  }

  /** Every match of the backtracking matcher is a glob match. */
  lemma {:induction false} WildIsSound(s: string, p: string)
    requires Wild(s, p)
    ensures Glob(s, p)
    decreases |p|
  {
    if p == [] {
    } else if p[0] == Star {
      if |p| == 1 {
        assert s[|s|..] == [] && Glob(s[|s|..], p[1..]);
      } else {
        var k :| 0 <= k < |s| && Wild(s[k..], p[1..]);
        WildIsSound(s[k..], p[1..]);
      }
    } else {
      WildIsSound(s[1..], p[1..]);
    }
  }

  /** Without adjacent stars, the matcher finds every glob match. */
  lemma {:induction false} WildIsComplete(s: string, p: string)
    requires NoDoubleStar(p)
    requires Glob(s, p)
    ensures Wild(s, p)
    decreases |p|
  {
    if p == [] {
    } else if p[0] == Star {
      if |p| > 1 {
        var k :| 0 <= k <= |s| && Glob(s[k..], p[1..]);
        assert p[1] != Star;
        assert NoDoubleStar(p[1..]) by {
          forall i | 0 <= i < |p[1..]| - 1 ensures !(p[1..][i] == Star && p[1..][i + 1] == Star) {
            assert p[1..][i] == p[i + 1] && p[1..][i + 1] == p[i + 2];
          }
        }
        WildIsComplete(s[k..], p[1..]);
      }
    } else {
      assert NoDoubleStar(p[1..]) by {
        forall i | 0 <= i < |p[1..]| - 1 ensures !(p[1..][i] == Star && p[1..][i + 1] == Star) {
          assert p[1..][i] == p[i + 1] && p[1..][i + 1] == p[i + 2];
        }
      }
      WildIsComplete(s[1..], p[1..]);
    }
  }

  /** A non-final `*` never matches the empty remainder: "a**" does not match "a". */
  lemma InnerStarNeedsText()
    ensures !WildcardMatch("a", "a**")
    ensures Glob("a", "a**")
  {
    assert CStr("a") == "a";
    assert CStr("a**") == "a**";
    assert "a"[1..] == [] && "a**"[1..] == "**";
    assert Glob("", "*") by {
      assert ""[0..] == "" && "*"[1..] == "";
    }
    assert "**"[1..] == "*";
    assert ""[0..] == "";
  }

  // ---------------------------------------------------------------- comparator

  lemma {:induction false} CommonLenSelf(a: string)
    ensures CommonLen(a, a) == |a|
  {
    if a != [] {
      CommonLenSelf(a[1..]);
    }
  }

  lemma {:induction false} CommonLenSymmetric(a: string, b: string)
    ensures CommonLen(a, b) == CommonLen(b, a)
  {
    if a != [] && b != [] && a[0] == b[0] {
      CommonLenSymmetric(a[1..], b[1..]);
    }
  }

  /** `Less` is irreflexive. */
  lemma LessIrreflexive(s: string)
    ensures !Less(s, s)
  {
    CommonLenSelf(CStr(s));
  }

  /** `Less` is asymmetric. */
  lemma LessAsymmetric(s1: string, s2: string)
    ensures Less(s1, s2) ==> !Less(s2, s1)
  {
    CommonLenSymmetric(CStr(s1), CStr(s2));
  }

  /**
   * Keys whose first difference is a `*` on either side are equivalent;
   * otherwise they are ordered by the first differing character.
   */
  lemma LessAtDivergence(s1: string, s2: string)
    ensures var a, b := CStr(s1), CStr(s2);
            var d := CommonLen(a, b);
            (At(a, d) == Star || At(b, d) == Star ==> Equivalent(s1, s2))
            && (At(a, d) != Star && At(b, d) != Star ==>
                  (Less(s1, s2) <==> At(a, d) < At(b, d)) && (Less(s2, s1) <==> At(b, d) < At(a, d)))
  {
    CommonLenSymmetric(CStr(s1), CStr(s2));
  }

  lemma {:induction false} CommonLenOfPrefix(a: string, b: string)
    requires a <= b
    ensures CommonLen(a, b) == |a|
  {
    if a != [] {
      CommonLenOfPrefix(a[1..], b[1..]);
    }
  }

  /** A proper prefix sorts first unless the next character of the longer key is `*`. */
  lemma PrefixSortsFirst(a: string, b: string)
    requires Nul !in a && Nul !in b
    requires a < b
    ensures b[|a|] != Star ==> Less(a, b) && !Less(b, a)
    ensures b[|a|] == Star ==> Equivalent(a, b)
  {
    CommonLenOfPrefix(a, b);
    CommonLenSymmetric(a, b);
    assert b[|a|] != Nul;
  }

  /** The equivalence of `Less` is not transitive, so it is no strict weak ordering. */
  lemma EquivalenceNotTransitive()
    ensures Equivalent("a", "a*") && Equivalent("a*", "ab") && !Equivalent("a", "ab")
  {
    assert CStr("a") == "a" && CStr("a*") == "a*" && CStr("ab") == "ab";
    PrefixSortsFirst("a", "a*");
    PrefixSortsFirst("a", "ab");
    assert CommonLen("a*", "ab") == 1 by {
      assert "a*"[1..] == "*" && "ab"[1..] == "b";
    }
    assert CommonLen("ab", "a*") == 1 by {
      assert "a*"[1..] == "*" && "ab"[1..] == "b";
    }
  }

  /**
   * Every key that wildcard-matches a segment free of `*` lies in the segment's
   * equivalence range, so searching only `childRange` loses no match.
   */
  lemma {:induction false} MatchImpliesEquivalentText(s: string, key: string)
    requires Nul !in s && Nul !in key && Star !in s
    requires Wild(s, key)
    ensures var d := CommonLen(s, key);
            At(s, d) == Star || At(key, d) == Star || At(s, d) == At(key, d)
    decreases |key|
  {
    if key != [] && key[0] != Star {
      assert s[1..] == s[1..];
      assert Star !in s[1..] && Nul !in s[1..] && Nul !in key[1..];
      MatchImpliesEquivalentText(s[1..], key[1..]);
    }
  }

  lemma MatchIsInRange(s: string, key: string)
    requires Star !in CStr(s)
    requires WildcardMatch(s, key)
    ensures Equivalent(s, key)
  {
    MatchImpliesEquivalentText(CStr(s), CStr(key));
    LessAtDivergence(s, key);
  }

  /** With a `*` in the queried segment the range can miss a matching key. */
  lemma StarQueryCanLeaveRange()
    ensures WildcardMatch("*xb", "*b") && !Equivalent("*xb", "*b")
  {
    assert CStr("*xb") == "*xb" && CStr("*b") == "*b";
    assert "*xb"[2..] == "b" && "*b"[1..] == "b";
    assert Wild("*xb"[2..], "*b"[1..]) by {
      assert "b"[1..] == [];
    }
    assert CommonLen("*b", "*xb") == 1 by {
      assert "*b"[1..] == "b" && "*xb"[1..] == "xb";
    }
  }
}
