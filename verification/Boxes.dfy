/** Boxes in projected metres and their overlap measures, over exact reals. */
module Boxes {

  datatype Bounds = Bounds(west: real, south: real, east: real, north: real)

  /** A box of positive extent; the overlap measures divide by its area. */
  type Box = b: Bounds | b.west < b.east && b.south < b.north witness Bounds(0.0, 0.0, 1.0, 1.0)

  /** One window of the grid; `tilePx` is its side in pixels, 800 when unstated. */
  datatype Window = Window(id: string, ulx: real, uly: real, lrx: real, lry: real, tilePx: int)

  predicate ValidWindow(w: Window) {
    w.ulx < w.lrx && w.lry < w.uly && w.tilePx > 0
  }

  function Min(x: real, y: real): real { if y < x then y else x }

  function Max(x: real, y: real): real { if y > x then y else x }

  lemma {:induction false} ProductPositive(x: real, y: real)
    requires x > 0.0 && y > 0.0
    ensures x * y > 0.0
  {}

  function Area(b: Box): (area: real)
    ensures area > 0.0
  {
    ProductPositive(b.east - b.west, b.north - b.south);
    (b.east - b.west) * (b.north - b.south)
  }

  /** Length shared by two intervals. */
  function Shared(lo: real, hi: real, lo': real, hi': real): real {
    Max(0.0, Min(hi, hi') - Max(lo, lo'))
  }

  function Intersection(a: Box, b: Box): real {
    Shared(a.west, a.east, b.west, b.east) * Shared(a.south, a.north, b.south, b.north)
  }

  /** Intersection over union, and intersection over the smaller area. */
  function Overlap(a: Box, b: Box): (r: (real, real))
    ensures 0.0 <= r.0 <= r.1 <= 1.0
  {
    IntersectionBounds(a, b);
    var shared := Intersection(a, b);
    QuotientBounds(shared, Area(a), Area(b));
    (shared / (Area(a) + Area(b) - shared), shared / Min(Area(a), Area(b)))
  }

  predicate Inside(a: Bounds, b: Bounds) {
    b.west <= a.west && a.east <= b.east && b.south <= a.south && a.north <= b.north
  }

  lemma {:induction false} ProductMonotone(w: real, h: real, w': real, h': real)
    requires 0.0 <= w <= w' && 0.0 <= h <= h' && 0.0 < w' && 0.0 < h'
    ensures 0.0 <= w * h <= w' * h'
    ensures w * h == w' * h' ==> w == w' && h == h'
  {
    assert w * h <= w' * h;
    assert w' * h <= w' * h';
    if w < w' && h > 0.0 {
      ProductPositive(w' - w, h);
      assert w' * h - w * h == (w' - w) * h;
    }
    if h < h' {
      ProductPositive(w', h' - h);
      assert w' * h' - w' * h == w' * (h' - h);
    }
    if w * h == w' * h' {
      assert h == h';
      assert w == w';
    }
  }

  lemma {:induction false} IntersectionWithin(a: Box, b: Box)
    ensures 0.0 <= Intersection(a, b) <= Area(a)
    ensures Intersection(a, b) == Area(a) <==> Inside(a, b)
  {
    var w := Shared(a.west, a.east, b.west, b.east);
    var h := Shared(a.south, a.north, b.south, b.north);
    ProductMonotone(w, h, a.east - a.west, a.north - a.south);
  }

  /** The intersection never exceeds either box, and equals one only inside the other. */
  lemma {:induction false} IntersectionBounds(a: Box, b: Box)
    ensures 0.0 <= Intersection(a, b) <= Area(a)
    ensures Intersection(a, b) <= Area(b)
    ensures Intersection(a, b) == Intersection(b, a)
    ensures Intersection(a, b) == Area(a) <==> Inside(a, b)
    ensures Intersection(a, b) == Area(b) <==> Inside(b, a)
  {
    assert Shared(b.west, b.east, a.west, a.east) == Shared(a.west, a.east, b.west, b.east);
    assert Shared(b.south, b.north, a.south, a.north) == Shared(a.south, a.north, b.south, b.north);
    IntersectionWithin(a, b);
    IntersectionWithin(b, a);
  }

  /** Area adds up over the two parts of a box cut at a line. */
  lemma {:induction false} AreaSplits(b: Box, x: real, y: real)
    requires b.west < x < b.east && b.south < y < b.north
    ensures Area(b) == Area(b.(east := x)) + Area(b.(west := x))
    ensures Area(b) == Area(b.(north := y)) + Area(b.(south := y))
  {
    var w, h := b.east - b.west, b.north - b.south;
    assert (x - b.west) * h + (b.east - x) * h == w * h;
    assert w * (y - b.south) + w * (b.north - y) == w * h;
  }

  lemma {:induction false} CommonWithin(a: Box, b: Box, c: Box)
    requires Inside(c, a) && Inside(c, b)
    ensures Area(c) <= Intersection(a, b)
  {
    ProductMonotone(c.east - c.west, c.north - c.south,
                    Shared(a.west, a.east, b.west, b.east), Shared(a.south, a.north, b.south, b.north));
  }

  lemma {:induction false} CommonBox(a: Box, b: Box) returns (c: Box)
    requires Intersection(a, b) > 0.0
    ensures Inside(c, a) && Inside(c, b) && Area(c) == Intersection(a, b)
  {
    assert Shared(a.west, a.east, b.west, b.east) > 0.0 && Shared(a.south, a.north, b.south, b.north) > 0.0;
    c := Bounds(Max(a.west, b.west), Max(a.south, b.south), Min(a.east, b.east), Min(a.north, b.north));
  }

  /** The intersection is the area of the largest box inside both, and 0 if there is none. */
  lemma {:induction false} IntersectionLargest(a: Box, b: Box)
    ensures forall c: Box :: Inside(c, a) && Inside(c, b) ==> Area(c) <= Intersection(a, b)
    ensures Intersection(a, b) > 0.0 ==> exists c: Box :: Inside(c, a) && Inside(c, b) && Area(c) == Intersection(a, b)
  {
    hide Area, Intersection;
    forall c: Box | Inside(c, a) && Inside(c, b) ensures Area(c) <= Intersection(a, b) { CommonWithin(a, b, c); }
    if Intersection(a, b) > 0.0 { var c := CommonBox(a, b); }
  }

  /** The two ratios, as what they are of the union and of the smaller box. */
  lemma {:induction false} OverlapExact(a: Box, b: Box)
    ensures var (iou, containment), shared := Overlap(a, b), Intersection(a, b);
            iou * (Area(a) + Area(b) - shared) == shared &&
            (Area(a) <= Area(b) ==> containment * Area(a) == shared) &&
            (Area(b) <= Area(a) ==> containment * Area(b) == shared)
  {
    hide Area, Intersection;
    IntersectionBounds(a, b);
    QuotientBounds(Intersection(a, b), Area(a), Area(b));
    QuotientTimes(Intersection(a, b), Area(a) + Area(b) - Intersection(a, b));
    QuotientTimes(Intersection(a, b), Min(Area(a), Area(b)));
  }

  lemma {:induction false} QuotientTimes(n: real, d: real)
    requires d > 0.0
    ensures n / d * d == n
  {}

  lemma {:induction false} AtMostQuotient(p: real, n: real, d: real)
    requires 0.0 < d && p * d <= n
    ensures p <= n / d
  {
    var q := n / d;
    assert q * d == n && (p - q) * d == p * d - q * d;
    if p > q { ProductPositive(p - q, d); }
  }

  lemma {:induction false} QuotientOrder(n: real, small: real, big: real)
    requires 0.0 <= n <= small <= big && 0.0 < small
    ensures 0.0 <= n / big <= n / small <= 1.0
    ensures n / small == 1.0 <==> n == small
  {
    AtMostQuotient(0.0, n, big);
    var p := n / big;
    assert p * big == n && p * (big - small) == p * big - p * small;
    AtMostQuotient(p, n, small);
    var q := n / small;
    assert q * small == n;
    assert (1.0 - q) * small == small - n && (q - 1.0) * small == n - small;
    if q < 1.0 {
      ProductPositive(1.0 - q, small);
    } else if q > 1.0 {
      ProductPositive(q - 1.0, small);
    }
  }

  lemma {:induction false} QuotientBounds(shared: real, aa: real, ab: real)
    requires 0.0 <= shared <= aa && shared <= ab && 0.0 < aa && 0.0 < ab
    ensures 0.0 < aa + ab - shared && 0.0 < Min(aa, ab)
    ensures 0.0 <= shared / (aa + ab - shared) <= shared / Min(aa, ab) <= 1.0
    ensures shared / (aa + ab - shared) == 1.0 <==> shared == aa == ab
    ensures shared / Min(aa, ab) == 1.0 <==> shared == Min(aa, ab)
  {
    QuotientOrder(shared, Min(aa, ab), aa + ab - shared);
    QuotientOrder(shared, aa + ab - shared, aa + ab - shared);
  }

  lemma {:induction false} OverlapSymmetric(a: Box, b: Box)
    ensures Overlap(a, b) == Overlap(b, a)
  {
    IntersectionBounds(a, b);
  }

  /** IoU is 1 only for equal boxes, containment is 1 only for nested ones. */
  lemma {:induction false} OverlapExtremes(a: Box, b: Box)
    ensures Overlap(a, b).0 == 1.0 <==> a == b
    ensures Overlap(a, b).1 == 1.0 <==> Inside(a, b) || Inside(b, a)
  {
    IntersectionBounds(a, b);
    QuotientBounds(Intersection(a, b), Area(a), Area(b));
    if Overlap(a, b).1 == 1.0 || Inside(a, b) || Inside(b, a) {
      assert Inside(a, b) ==> Area(a) <= Area(b);
      assert Inside(b, a) ==> Area(b) <= Area(a);
    }
  }

  lemma {:induction false} MostlyShared(shared: real, area: real)
    requires 0.0 < area && 0.0 <= shared <= area && shared / area >= 0.9
    ensures shared / (area + area - shared) >= 0.6
  {
    var share := shared / area;
    assert share * area == shared;
    assert (share - 0.9) * area == share * area - 0.9 * area;
    if share > 0.9 { ProductPositive(share - 0.9, area); }
    AtMostQuotient(0.6, shared, area + area - shared);
  }

  /** Equal areas nine tenths contained already agree on IoU: no tie-break is needed. */
  lemma {:induction false} EqualAreasAgree(a: Box, b: Box)
    requires Area(a) == Area(b) && Overlap(a, b).1 >= 0.9
    ensures Overlap(a, b).0 >= 0.6
  {
    IntersectionBounds(a, b);
    MostlyShared(Intersection(a, b), Area(a));
  }
}
