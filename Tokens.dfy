/**
 * The splitting done by `boost::tokenizer` with a `boost::char_separator`
 * of one delimiter: the input is cut at every delimiter and empty tokens are
 * dropped, so leading, trailing and repeated delimiters produce nothing.
 * PathMatcher tokenizes paths on '/', SceneReader tokenizes its tags on ' '.
 */
module Tokens {

  /** Index of the first `sep` in `s`, or `|s|` when there is none. */
  function TokenEnd(s: string, sep: char): (k: nat)
    ensures k <= |s|
    ensures sep !in s[..k]
    ensures k < |s| ==> s[k] == sep
  {
    if s == [] || s[0] == sep then 0 else 1 + TokenEnd(s[1..], sep)
  }

  /** The tokens of `s`: maximal non-empty runs of characters other than `sep`. */
  function Tokenize(s: string, sep: char): (r: seq<string>)
    ensures forall i :: 0 <= i < |r| ==> r[i] != [] && sep !in r[i]
    decreases |s|
  {
    if s == [] then []
    else if s[0] == sep then Tokenize(s[1..], sep)
    else
      var k := TokenEnd(s, sep);
      [s[..k]] + Tokenize(s[k..], sep)
  }

  /** `segs` written with a leading `sep` before each segment: "/a/b/c". */
  function Rooted(segs: seq<string>, sep: char): (r: string)
    ensures |segs| > 0 ==> r != [] && r[0] == sep
  {
    if segs == [] then [] else [sep] + segs[0] + Rooted(segs[1..], sep)
  }

  /** Segments that a tokenizer can give back unchanged. */
  predicate Plain(segs: seq<string>, sep: char)
  {
    forall i :: 0 <= i < |segs| ==> segs[i] != [] && sep !in segs[i]
  }

  lemma {:induction false} TokenEndOfSegment(seg: string, rest: string, sep: char)
    requires sep !in seg
    requires rest == [] || rest[0] == sep
    ensures TokenEnd(seg + rest, sep) == |seg|
    decreases |seg|
  {
    if seg == [] {
      assert seg + rest == rest;
    } else {
      assert (seg + rest)[1..] == seg[1..] + rest;
      TokenEndOfSegment(seg[1..], rest, sep);
    }
  }

  /** Round trip: tokenizing a rooted path gives back its segments. */
  lemma {:induction false} TokenizeRooted(segs: seq<string>, sep: char)
    requires Plain(segs, sep)
    ensures Tokenize(Rooted(segs, sep), sep) == segs
  {
    if segs != [] {
      var tail := Rooted(segs[1..], sep);
      var s := [sep] + segs[0] + tail;
      assert s[1..] == segs[0] + tail;
      assert tail == [] || tail[0] == sep;
      TokenEndOfSegment(segs[0], tail, sep);
      assert s[1..][..|segs[0]|] == segs[0];
      assert s[1..][|segs[0]|..] == tail;
      TokenizeRooted(segs[1..], sep);
    }
  }

  /** Separators before the first token are ignored. */
  lemma {:induction false} TokenizeSkipsSeparators(s: string, sep: char)
    ensures Tokenize([sep] + s, sep) == Tokenize(s, sep)
  {
    assert ([sep] + s)[1..] == s;
  }

  /** "/a//b/" and "a/b" are the same path. */
  lemma EmptyTokensDropped()
    ensures Tokenize("/a//b/", '/') == ["a", "b"]
    ensures Tokenize("a/b", '/') == ["a", "b"]
    ensures Tokenize("", '/') == [] && Tokenize("/", '/') == []
  {
    assert Tokenize("", '/') == [];
    assert Tokenize("/", '/') == [];
    assert Tokenize("b/", '/') == ["b"] by {
      assert TokenEnd("b/", '/') == 1;
      assert "b/"[..1] == "b";
      assert "b/"[1..] == "/";
      assert "/"[1..] == "";
    }
    assert Tokenize("//b/", '/') == ["b"] by {
      assert "//b/"[1..] == "/b/";
      assert "/b/"[1..] == "b/";
    }
    assert Tokenize("a//b/", '/') == ["a", "b"] by {
      assert TokenEnd("a//b/", '/') == 1;
      assert "a//b/"[..1] == "a";
      assert "a//b/"[1..] == "//b/";
    }
    assert "/a//b/"[1..] == "a//b/";
    assert Tokenize("b", '/') == ["b"] by {
      assert TokenEnd("b", '/') == 1;
      assert "b"[..1] == "b";
      assert "b"[1..] == "";
    }
    assert Tokenize("/b", '/') == ["b"] by {
      assert "/b"[1..] == "b";
    }
    assert TokenEnd("a/b", '/') == 1;
    assert "a/b"[..1] == "a";
    assert "a/b"[1..] == "/b";
  }

  /** The names joined by `sep`, with no leading or trailing separator: the reverse of tokenizing. */
  function Join(names: seq<string>, sep: string): string
  {
    if names == [] then ""
    else if |names| == 1 then names[0]
    else Join(names[..|names| - 1], sep) + sep + names[|names| - 1]
  }

  /** Joining one name more at the front. */
  lemma {:induction false} JoinCons(x: string, names: seq<string>, sep: string)
    requires names != []
    ensures Join([x] + names, sep) == x + sep + Join(names, sep)
    decreases |names|
  {
    var xs := [x] + names;
    if |names| == 1 {
      assert xs[..1] == [x];
    } else {
      assert xs[..|xs| - 1] == [x] + names[..|names| - 1];
      JoinCons(x, names[..|names| - 1], sep);
    }
  }
}
