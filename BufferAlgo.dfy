/**
 * The integer window arithmetic of GafferImage's buffer utilities. A window
 * is an `Imath::Box2i` read as the half-open pixel range `min <= p < max` on
 * each axis; an index is the row-major offset of a pixel in a window's buffer.
 * Every operation is a pure function of its arguments.
 */
module BufferAlgo {

  datatype V2i = V2i(x: int, y: int)

  datatype Box2i = Box2i(min: V2i, max: V2i)

  /** `size().x` of an integer box. */
  function Width(b: Box2i): int
  {
    b.max.x - b.min.x
  }

  /** `size().y` of an integer box. */
  function Height(b: Box2i): int
  {
    b.max.y - b.min.y
  }

  /** `empty( window )`: `max <= min` on at least one axis. */
  predicate Empty(w: Box2i)
  {
    w.max.x <= w.min.x || w.max.y <= w.min.y
  }

  /** `intersects( window1, window2 )`: on neither axis does one window end before the other begins. */
  predicate Intersects(w1: Box2i, w2: Box2i)
  {
    !(w1.max.x <= w2.min.x) && !(w1.min.x >= w2.max.x)
    && !(w1.max.y <= w2.min.y) && !(w1.min.y >= w2.max.y)
  }

  /** `contains( window, point )`: half-open on both axes. */
  predicate ContainsPoint(w: Box2i, p: V2i)
  {
    w.min.x <= p.x < w.max.x && w.min.y <= p.y < w.max.y
  }

  /** `contains( window, area )`: the area's bounds lie within the window's. */
  predicate ContainsArea(w: Box2i, a: Box2i)
  {
    w.min.x <= a.min.x && a.max.x <= w.max.x && w.min.y <= a.min.y && a.max.y <= w.max.y
  }

  function MaxInt(a: int, b: int): int { if a >= b then a else b }

  function MinInt(a: int, b: int): int { if a <= b then a else b }

  /** `intersection( window1, window2 )`: exactly the pixels of both windows, inside both of them. */
  function Intersection(w1: Box2i, w2: Box2i): (r: Box2i)
    ensures forall p :: ContainsPoint(r, p) <==> ContainsPoint(w1, p) && ContainsPoint(w2, p)
    ensures ContainsArea(w1, r) && ContainsArea(w2, r)
  {
    Box2i(V2i(MaxInt(w1.min.x, w2.min.x), MaxInt(w1.min.y, w2.min.y)),
          V2i(MinInt(w1.max.x, w2.max.x), MinInt(w1.max.y, w2.max.y)))
  }

  /** `clamp( point, window )`: a point of a non-empty window, the point itself when inside it. */
  function Clamp(p: V2i, w: Box2i): (r: V2i)
    ensures !Empty(w) ==> ContainsPoint(w, r)
    ensures ContainsPoint(w, p) ==> r == p
    ensures !Empty(w) && w.min.x <= p.x < w.max.x ==> r.x == p.x
    ensures !Empty(w) && w.min.y <= p.y < w.max.y ==> r.y == p.y
  {
    V2i(MaxInt(MinInt(p.x, w.max.x - 1), w.min.x),
        MaxInt(MinInt(p.y, w.max.y - 1), w.min.y))
  }

  /**
   * `index( p, b )`: the row-major offset of a pixel of `b`. It lies within the
   * buffer, and its quotient and remainder by the width give back the row and
   * the column, so distinct pixels get distinct offsets.
   */
  function Index(p: V2i, b: Box2i): (r: int)
    requires ContainsPoint(b, p)
    ensures 0 <= r < Width(b) * Height(b)
    ensures r / Width(b) == p.y - b.min.y && r % Width(b) == p.x - b.min.x
  {
    RowMajor(p.y - b.min.y, p.x - b.min.x, Width(b), Height(b));
    (p.y - b.min.y) * Width(b) + (p.x - b.min.x)
  }

  /** The pixel of `b` at buffer offset `i`. */
  function PointAt(i: int, b: Box2i): V2i
    requires Width(b) > 0
  {
    V2i(b.min.x + i % Width(b), b.min.y + i / Width(b))
  }

  lemma MulMonotone(a: int, b: int, w: int)
    requires a <= b && w >= 0
    ensures a * w <= b * w
  {
    assert b * w - a * w == (b - a) * w;
  }

  /** Euclidean quotient and remainder are unique. */
  lemma DivModUnique(i: int, w: int, q: int, m: int)
    requires w > 0 && 0 <= m < w && i == q * w + m
    ensures i / w == q && i % w == m
  {
    var q', m' := i / w, i % w;
    assert (q - q') * w == m' - m;
    if q > q' {
      MulMonotone(1, q - q', w);
    } else if q < q' {
      MulMonotone(1, q' - q, w);
    }
  }

  lemma RowMajor(row: int, col: int, w: int, h: int)
    requires 0 <= row < h && 0 <= col < w
    ensures 0 <= row * w + col < w * h
    ensures (row * w + col) / w == row && (row * w + col) % w == col
  {
    MulMonotone(0, row, w);
    MulMonotone(row, h - 1, w);
    assert (h - 1) * w + w == w * h;
    DivModUnique(row * w + col, w, row, col);
  }

  // ---------------------------------------------------------------- laws

  /** A window is empty iff it contains no pixel. */
  lemma EmptyIffNoPixel(w: Box2i)
    ensures Empty(w) <==> forall p :: !ContainsPoint(w, p)
  {
    if !Empty(w) {
      assert ContainsPoint(w, w.min);
    }
  }

  lemma IntersectionCommutative(w1: Box2i, w2: Box2i)
    ensures Intersection(w1, w2) == Intersection(w2, w1)
  {
  }

  lemma IntersectsSymmetric(w1: Box2i, w2: Box2i)
    ensures Intersects(w1, w2) <==> Intersects(w2, w1)
  {
  }

  /** Two non-empty windows intersect iff their intersection is non-empty. */
  lemma IntersectsIffIntersectionNonEmpty(w1: Box2i, w2: Box2i)
    requires !Empty(w1) && !Empty(w2)
    ensures Intersects(w1, w2) <==> !Empty(Intersection(w1, w2))
  {
  }

  /** A non-empty intersection always means the windows intersect. */
  lemma NonEmptyIntersectionIntersects(w1: Box2i, w2: Box2i)
    ensures !Empty(Intersection(w1, w2)) ==> Intersects(w1, w2)
  {
  }

  /** Without non-emptiness the equivalence fails: an empty window can intersect. */
  lemma EmptyWindowCanIntersect()
    ensures var a, b := Box2i(V2i(0, 0), V2i(0, 10)), Box2i(V2i(-5, 0), V2i(5, 10));
            Empty(a) && Intersects(a, b) && Empty(Intersection(a, b))
  {
  }

  lemma ContainsAreaReflexive(w: Box2i)
    ensures ContainsArea(w, w)
  {
  }

  lemma ContainsAreaTransitive(a: Box2i, b: Box2i, c: Box2i)
    requires ContainsArea(a, b) && ContainsArea(b, c)
    ensures ContainsArea(a, c)
  {
  }

  /** Area containment means pixel containment, and the converse holds for a non-empty area. */
  lemma ContainsAreaIffPixels(w: Box2i, a: Box2i)
    ensures ContainsArea(w, a) ==> forall p :: ContainsPoint(a, p) ==> ContainsPoint(w, p)
    ensures !Empty(a) && (forall p :: ContainsPoint(a, p) ==> ContainsPoint(w, p)) ==> ContainsArea(w, a)
  {
    if !Empty(a) && (forall p :: ContainsPoint(a, p) ==> ContainsPoint(w, p)) {
      assert ContainsPoint(w, a.min);
      assert ContainsPoint(w, V2i(a.max.x - 1, a.max.y - 1)) by {
        assert ContainsPoint(a, V2i(a.max.x - 1, a.max.y - 1));
      }
    }
  }

  /** `index` is injective over the window. */
  lemma IndexInjective(p1: V2i, p2: V2i, b: Box2i)
    requires ContainsPoint(b, p1) && ContainsPoint(b, p2)
    requires Index(p1, b) == Index(p2, b)
    ensures p1 == p2
  {
  }

  /** Every buffer offset is the index of exactly the pixel `PointAt` names. */
  lemma IndexOfPointAt(i: int, b: Box2i)
    requires !Empty(b)
    requires 0 <= i < Width(b) * Height(b)
    ensures ContainsPoint(b, PointAt(i, b))
    ensures Index(PointAt(i, b), b) == i
  {
    var w, h := Width(b), Height(b);
    var q, m := i / w, i % w;
    assert i == q * w + m;
    QuotientInRange(i, w, h);
  }

  lemma QuotientInRange(i: int, w: int, h: int)
    requires w > 0 && 0 <= i < w * h
    ensures 0 <= i / w < h
  {
    var q, m := i / w, i % w;
    assert i == q * w + m;
    if q < 0 {
      MulMonotone(q, -1, w);
    } else if q >= h {
      MulMonotone(h, q, w);
    }
  }

  lemma PointAtIndex(p: V2i, b: Box2i)
    requires ContainsPoint(b, p)
    ensures PointAt(Index(p, b), b) == p
  {
  }
}
