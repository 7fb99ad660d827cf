/** The grid of overlapping windows over a bounding box, and the coverage of its windows. */
module WindowGrid {
  import opened Boxes
  import opened VisionChange
  import opened Inference
  import Decimal

  /** Window edges along one axis: from `lo` in equal strides, stopping at the first
      window that reaches `hi`. */
  predicate AxisStarts(xs: seq<real>, lo: real, hi: real, side: real, stride: real) {
    |xs| >= 1 && xs[0] == lo &&
    (forall k :: 0 <= k < |xs| - 1 ==> xs[k + 1] == xs[k] + stride) &&
    (forall k :: 0 <= k < |xs| - 1 ==> xs[k] + side < hi) &&
    xs[|xs| - 1] + side >= hi
  }

  /** The northing axis runs downwards. */
  function Mirror(xs: seq<real>): (r: seq<real>)
    ensures |r| == |xs| && forall k :: 0 <= k < |xs| ==> r[k] == -xs[k]
  {
    seq(|xs|, k requires 0 <= k < |xs| => -xs[k])
  }

  /** The strides leave no choice: there is one such list of edges. */
  lemma {:induction false} AxisUnique(xs: seq<real>, ys: seq<real>, lo: real, hi: real, side: real, stride: real)
    requires AxisStarts(xs, lo, hi, side, stride) && AxisStarts(ys, lo, hi, side, stride)
    ensures xs == ys
  {
    AxisAgree(xs, ys, lo, hi, side, stride, if |xs| < |ys| then |xs| else |ys|);
  }

  lemma {:induction false} AxisAgree(xs: seq<real>, ys: seq<real>, lo: real, hi: real, side: real, stride: real, n: nat)
    requires AxisStarts(xs, lo, hi, side, stride) && AxisStarts(ys, lo, hi, side, stride)
    requires n <= |xs| && n <= |ys|
    ensures xs[..n] == ys[..n]
    ensures n == |xs| || n == |ys| ==> n == 0 || |xs| == |ys|
  {
    if n > 0 {
      AxisAgree(xs, ys, lo, hi, side, stride, n - 1);
      if n > 1 {
        assert xs[n - 2] == xs[..n - 1][n - 2] == ys[..n - 1][n - 2] == ys[n - 2];
      }
      assert xs[n - 1] == ys[n - 1];
    }
  }

  /** An interval no longer than the overlap lies within one window of the axis. */
  lemma {:induction false} AxisContains(xs: seq<real>, lo: real, hi: real, side: real, stride: real,
                                        a: real, b: real, n: nat) returns (k: nat)
    requires AxisStarts(xs, lo, hi, side, stride) && lo <= a <= b <= hi && b - a <= side - stride
    requires n < |xs| && xs[n] <= a
    ensures k < |xs| && xs[k] <= a && b <= xs[k] + side
    decreases |xs| - n
  {
    if n + 1 < |xs| && xs[n + 1] <= a {
      k := AxisContains(xs, lo, hi, side, stride, a, b, n + 1);
    } else {
      k := n;
    }
  }

  // ---- ids ----

  function TileId(r: nat, c: nat): string {
    "r" + Decimal.Pad2(r) + "c" + Decimal.Pad2(c)
  }

  lemma {:induction false} SplitUnique(a: string, b: string, a': string, b': string)
    requires Decimal.AllDigits(a) && Decimal.AllDigits(a') && a + "c" + b == a' + "c" + b'
    ensures a == a' && b == b'
  {
    var s := a + "c" + b;
    assert forall k :: 0 <= k < |a| ==> s[k] == a[k] != 'c';
    assert forall k :: 0 <= k < |a'| ==> s[k] == a'[k] != 'c';
    assert s[|a|] == 'c' && s[|a'|] == 'c';
    assert a == s[..|a|] && a' == s[..|a'|];
    assert b == s[|a| + 1..] && b' == s[|a'| + 1..];
  }

  /** Ids name their row and column, also beyond 99. */
  lemma {:induction false} TileIdInjective(r: nat, c: nat, r': nat, c': nat)
    requires TileId(r, c) == TileId(r', c')
    ensures r == r' && c == c'
  {
    var a, b, a', b' := Decimal.Pad2(r), Decimal.Pad2(c), Decimal.Pad2(r'), Decimal.Pad2(c');
    assert TileId(r, c)[1..] == a + "c" + b && TileId(r', c')[1..] == a' + "c" + b';
    SplitUnique(a, b, a', b');
    Decimal.Pad2Injective(r, r');
    Decimal.Pad2Injective(c, c');
  }

  // ---- the windows ----

  datatype Grid = Grid(xs: seq<real>, ys: seq<real>, side: real, tilePx: int)

  function CellAt(g: Grid, r: nat, c: nat): Window
    requires r < |g.ys| && c < |g.xs|
  {
    Window(TileId(r, c), g.xs[c], g.ys[r], g.xs[c] + g.side, g.ys[r] - g.side, g.tilePx)
  }

  function RowUpTo(g: Grid, r: nat, n: nat): seq<Window>
    requires r < |g.ys| && n <= |g.xs|
  {
    if n == 0 then [] else RowUpTo(g, r, n - 1) + [CellAt(g, r, n - 1)]
  }

  /** Row-major, from the top left corner. */
  function RowsUpTo(g: Grid, n: nat): seq<Window>
    requires n <= |g.ys|
  {
    if n == 0 then [] else RowsUpTo(g, n - 1) + RowUpTo(g, n - 1, |g.xs|)
  }

  /** The window comes from one of the first `rows` rows, in the last of them from its
      first `columns` cells. */
  ghost predicate FromCell(g: Grid, w: Window, rows: nat, columns: nat) {
    exists r: nat, c: nat :: IsCell(g, w, r, c) && (r < rows || (r == rows && c < columns))
  }

  predicate IsCell(g: Grid, w: Window, r: nat, c: nat) {
    r < |g.ys| && c < |g.xs| && w == CellAt(g, r, c)
  }

  ghost predicate AllCells(g: Grid, ws: seq<Window>, rows: nat, columns: nat) {
    forall k :: 0 <= k < |ws| ==> FromCell(g, ws[k], rows, columns)
  }

  /** Appending the next cell keeps the ids apart. */
  lemma {:induction false} CellFresh(g: Grid, ws: seq<Window>, r: nat, c: nat)
    requires r < |g.ys| && c < |g.xs| && AllCells(g, ws, r, c) && DistinctIds(ws)
    ensures DistinctIds(ws + [CellAt(g, r, c)]) && AllCells(g, ws + [CellAt(g, r, c)], r, c + 1)
  {
    var w := CellAt(g, r, c);
    forall k | 0 <= k < |ws| ensures ws[k].id != w.id && FromCell(g, ws[k], r, c + 1) {
      var r': nat, c': nat :| IsCell(g, ws[k], r', c') && (r' < r || (r' == r && c' < c));
      if ws[k].id == w.id { TileIdInjective(r', c', r, c); }
    }
    assert IsCell(g, w, r, c);
  }

  lemma {:induction false} RowFresh(g: Grid, before: seq<Window>, r: nat, n: nat)
    requires r < |g.ys| && n <= |g.xs| && AllCells(g, before, r, 0) && DistinctIds(before)
    ensures DistinctIds(before + RowUpTo(g, r, n)) && AllCells(g, before + RowUpTo(g, r, n), r, n)
  {
    hide DistinctIds, AllCells, CellAt;
    if n == 0 {
      assert before + RowUpTo(g, r, 0) == before;
    } else {
      RowFresh(g, before, r, n - 1);
      CellFresh(g, before + RowUpTo(g, r, n - 1), r, n - 1);
      assert before + RowUpTo(g, r, n) == before + RowUpTo(g, r, n - 1) + [CellAt(g, r, n - 1)];
    }
  }

  lemma {:induction false} NextRow(g: Grid, ws: seq<Window>, r: nat)
    requires r < |g.ys| && AllCells(g, ws, r, |g.xs|)
    ensures AllCells(g, ws, r + 1, 0)
  {
    forall k | 0 <= k < |ws| ensures FromCell(g, ws[k], r + 1, 0) {
      var r': nat, c': nat :| IsCell(g, ws[k], r', c') && (r' < r || (r' == r && c' < |g.xs|));
      assert r' < r + 1;
    }
  }

  lemma {:induction false} NoCells(g: Grid)
    ensures DistinctIds([]) && AllCells(g, [], 0, 0)
  {}

  lemma {:induction false} GridDistinct(g: Grid, n: nat)
    requires n <= |g.ys|
    ensures DistinctIds(RowsUpTo(g, n)) && AllCells(g, RowsUpTo(g, n), n, 0)
  {
    hide DistinctIds, AllCells, RowUpTo, RowsUpTo;
    if n == 0 {
      RowsNext(g, 0);
      NoCells(g);
    } else {
      GridDistinct(g, n - 1);
      RowFresh(g, RowsUpTo(g, n - 1), n - 1, |g.xs|);
      RowsNext(g, n - 1);
      NextRow(g, RowsUpTo(g, n), n - 1);
    }
  }

  lemma {:induction false} RowHolds(g: Grid, r: nat, c: nat, n: nat)
    requires r < |g.ys| && c < n <= |g.xs|
    ensures CellAt(g, r, c) in RowUpTo(g, r, n)
  {
    hide CellAt, RowUpTo;
    RowNext([], g, r, n - 1);
    assert [] + RowUpTo(g, r, n) == RowUpTo(g, r, n) && [] + RowUpTo(g, r, n - 1) == RowUpTo(g, r, n - 1);
    if c < n - 1 { RowHolds(g, r, c, n - 1); }
  }

  lemma {:induction false} GridHolds(g: Grid, r: nat, c: nat, n: nat)
    requires r < n <= |g.ys| && c < |g.xs|
    ensures CellAt(g, r, c) in RowsUpTo(g, n)
  {
    if r < n - 1 { GridHolds(g, r, c, n - 1); } else { RowHolds(g, r, c, |g.xs|); }
  }

  /** The rectangle lies in the box and no side is longer than the overlap. */
  predicate FitsOverlap(rect: Bounds, box: Bounds, overlap: real) {
    Inside(rect, box) && rect.west <= rect.east && rect.south <= rect.north &&
    rect.east - rect.west <= overlap && rect.north - rect.south <= overlap
  }

  /** A grid over the box, as its two axes and its windows describe it. */
  ghost predicate Covers(windows: seq<Window>, g: Grid, box: Bounds, stride: real) {
    AxisStarts(g.xs, box.west, box.east, g.side, stride) &&
    AxisStarts(Mirror(g.ys), -box.north, -box.south, g.side, stride) &&
    windows == RowsUpTo(g, |g.ys|)
  }

  /** Anything no larger than the overlap is seen whole by some window; with an empty
      rectangle: every point of the box is covered. */
  lemma {:induction false} SeenWhole(windows: seq<Window>, g: Grid, box: Bounds, stride: real, rect: Bounds)
    requires Covers(windows, g, box, stride) && FitsOverlap(rect, box, g.side - stride)
    ensures exists k :: 0 <= k < |windows| && Inside(rect, WindowBounds(windows[k]))
  {
    var c := AxisContains(g.xs, box.west, box.east, g.side, stride, rect.west, rect.east, 0);
    var r := AxisContains(Mirror(g.ys), -box.north, -box.south, g.side, stride, -rect.north, -rect.south, 0);
    GridHolds(g, r, c, |g.ys|);
    var k :| 0 <= k < |windows| && windows[k] == CellAt(g, r, c);
    assert Inside(rect, WindowBounds(windows[k]));
  }

  // ---- where each window lies ----

  /** A square window of the given size, in row `r` and column `c` counted from the top left
      corner of the box, each one stride further. */
  predicate LiesAt(w: Window, box: Bounds, gsd: real, tilePx: int, overlapPx: int, r: nat, c: nat) {
    w.id == "r" + Decimal.Pad2(r) + "c" + Decimal.Pad2(c) && w.tilePx == tilePx &&
    w.ulx == box.west + c as real * ((tilePx - overlapPx) as real * gsd) && w.lrx - w.ulx == tilePx as real * gsd &&
    w.uly == box.north - r as real * ((tilePx - overlapPx) as real * gsd) && w.uly - w.lry == tilePx as real * gsd
  }

  predicate RowHoldsAt(windows: seq<Window>, box: Bounds, gsd: real, tilePx: int, overlapPx: int, columns: nat, r: nat, c: nat) {
    0 <= r * columns + c < |windows| && LiesAt(windows[r * columns + c], box, gsd, tilePx, overlapPx, r, c)
  }

  /** The windows are the cells of the grid, row by row. */
  predicate RowMajor(windows: seq<Window>, box: Bounds, gsd: real, tilePx: int, overlapPx: int, rows: nat, columns: nat) {
    |windows| == rows * columns &&
    forall r, c :: 0 <= r < rows && 0 <= c < columns ==> RowHoldsAt(windows, box, gsd, tilePx, overlapPx, columns, r, c)
  }

  lemma {:induction false} RowIndex(g: Grid, r: nat, n: nat)
    requires r < |g.ys| && n <= |g.xs|
    ensures |RowUpTo(g, r, n)| == n && forall c: nat :: c < n ==> RowUpTo(g, r, n)[c] == CellAt(g, r, c)
  {
    hide CellAt;
    if n > 0 { RowIndex(g, r, n - 1); }
  }

  lemma {:induction false} CellIndex(g: Grid, n: nat, r: nat, c: nat)
    requires r < n <= |g.ys| && c < |g.xs|
    ensures |RowsUpTo(g, n)| == n * |g.xs| && 0 <= r * |g.xs| + c < |RowsUpTo(g, n)|
    ensures RowsUpTo(g, n)[r * |g.xs| + c] == CellAt(g, r, c)
  {
    hide CellAt, RowUpTo;
    var m := |g.xs|;
    RowIndex(g, n - 1, m);
    assert n * m == (n - 1) * m + m;
    if n > 1 { CellIndex(g, n - 1, if r < n - 1 then r else 0, c); }
    if r == n - 1 {
      assert r * m == (n - 1) * m;
    } else {
      assert RowsUpTo(g, n)[r * m + c] == RowsUpTo(g, n - 1)[r * m + c];
    }
  }

  lemma {:induction false} AxisAt(xs: seq<real>, lo: real, hi: real, side: real, stride: real, k: nat)
    requires AxisStarts(xs, lo, hi, side, stride) && k < |xs|
    ensures xs[k] == lo + k as real * stride
  {
    if k > 0 {
      AxisAt(xs, lo, hi, side, stride, k - 1);
      assert k as real * stride == (k - 1) as real * stride + stride;
    }
  }

  lemma {:induction false} CellLies(g: Grid, box: Bounds, gsd: real, tilePx: int, overlapPx: int, r: nat, c: nat)
    requires g.side == tilePx as real * gsd && g.tilePx == tilePx && r < |g.ys| && c < |g.xs|
    requires AxisStarts(g.xs, box.west, box.east, g.side, (tilePx - overlapPx) as real * gsd)
    requires AxisStarts(Mirror(g.ys), -box.north, -box.south, g.side, (tilePx - overlapPx) as real * gsd)
    ensures LiesAt(CellAt(g, r, c), box, gsd, tilePx, overlapPx, r, c)
  {
    hide AxisStarts, Decimal.Pad2, Mirror;
    var stride := (tilePx - overlapPx) as real * gsd;
    AxisAt(g.xs, box.west, box.east, g.side, stride, c);
    AxisAt(Mirror(g.ys), -box.north, -box.south, g.side, stride, r);
  }

  lemma {:induction false} GridLies(windows: seq<Window>, g: Grid, box: Bounds, gsd: real, tilePx: int, overlapPx: int)
    requires g.side == tilePx as real * gsd && g.tilePx == tilePx && |g.xs| >= 1 && |g.ys| >= 1
    requires Covers(windows, g, box, (tilePx - overlapPx) as real * gsd)
    ensures RowMajor(windows, box, gsd, tilePx, overlapPx, |g.ys|, |g.xs|)
  {
    hide AxisStarts, CellAt, RowsUpTo, LiesAt;
    CellIndex(g, |g.ys|, 0, 0);
    forall r, c | 0 <= r < |g.ys| && 0 <= c < |g.xs|
      ensures RowHoldsAt(windows, box, gsd, tilePx, overlapPx, |g.xs|, r, c)
    {
      CellIndex(g, |g.ys|, r, c);
      CellLies(g, box, gsd, tilePx, overlapPx, r, c);
    }
  }

  method Build(box: Bounds, gsd: real, tilePx: int, overlapPx: int) returns (windows: seq<Window>, ghost g: Grid)
    requires gsd > 0.0 && 0 <= overlapPx < tilePx
    ensures g.side == tilePx as real * gsd && g.tilePx == tilePx
    ensures Covers(windows, g, box, (tilePx - overlapPx) as real * gsd)
    ensures RowMajor(windows, box, gsd, tilePx, overlapPx, |g.ys|, |g.xs|)
    ensures DistinctIds(windows) && forall k :: 0 <= k < |windows| ==> ValidWindow(windows[k])
    ensures forall k :: 0 <= k < |windows| ==> SquareOf(windows[k], tilePx as real * gsd, tilePx)
  {
    hide AxisStarts, RowsUpTo, AllCells, DistinctIds, RowMajor;
    var side, stride := tilePx as real * gsd, (tilePx - overlapPx) as real * gsd;
    ProductPositive(tilePx as real, gsd);
    ProductPositive((tilePx - overlapPx) as real, gsd);
    var xs := Eastings(box.west, box.east, side, stride);
    var ys := Northings(box.north, box.south, side, stride);
    g := Grid(xs, ys, side, tilePx);
    windows := Cells(xs, ys, side, tilePx);
    GridDistinct(g, |ys|);
    CellsValid(g, windows);
    assert |xs| >= 1 && |ys| >= 1 by { AxesStart(g, box, stride); }
    GridLies(windows, g, box, gsd, tilePx, overlapPx);
  }

  lemma {:induction false} AxesStart(g: Grid, box: Bounds, stride: real)
    requires AxisStarts(g.xs, box.west, box.east, g.side, stride)
    requires AxisStarts(Mirror(g.ys), -box.north, -box.south, g.side, stride)
    ensures |g.xs| >= 1 && |g.ys| >= 1
  {}

  predicate SquareOf(w: Window, side: real, tilePx: int) {
    w.lrx - w.ulx == side && w.uly - w.lry == side && w.tilePx == tilePx
  }

  method Cells(xs: seq<real>, ys: seq<real>, side: real, tilePx: int) returns (windows: seq<Window>)
    ensures windows == RowsUpTo(Grid(xs, ys, side, tilePx), |ys|)
  {
    hide TileId, RowUpTo, RowsUpTo;
    ghost var g := Grid(xs, ys, side, tilePx);
    windows := [];
    RowsNext(g, 0);
    for r := 0 to |ys|
      invariant windows == RowsUpTo(g, r)
    {
      ghost var before := windows;
      RowNext(before, g, r, 0);
      for c := 0 to |xs|
        invariant windows == before + RowUpTo(g, r, c)
      {
        RowNext(before, g, r, c);
        windows := windows + [Window(TileId(r, c), xs[c], ys[r], xs[c] + side, ys[r] - side, tilePx)];
      }
      RowsNext(g, r);
    }
  }

  lemma {:induction false} RowNext(before: seq<Window>, g: Grid, r: nat, c: nat)
    requires r < |g.ys|
    ensures before + RowUpTo(g, r, 0) == before
    ensures c < |g.xs| ==> before + RowUpTo(g, r, c + 1) == before + RowUpTo(g, r, c) + [CellAt(g, r, c)]
  {}

  lemma {:induction false} RowsNext(g: Grid, r: nat)
    ensures RowsUpTo(g, 0) == []
    ensures r < |g.ys| ==> RowsUpTo(g, r + 1) == RowsUpTo(g, r) + RowUpTo(g, r, |g.xs|)
  {}

  lemma {:induction false} CellsValid(g: Grid, ws: seq<Window>)
    requires AllCells(g, ws, |g.ys|, 0) && g.side > 0.0 && g.tilePx > 0
    ensures forall k :: 0 <= k < |ws| ==> ValidWindow(ws[k]) && SquareOf(ws[k], g.side, g.tilePx)
  {
    forall k | 0 <= k < |ws| ensures ValidWindow(ws[k]) && SquareOf(ws[k], g.side, g.tilePx) {
      assert FromCell(g, ws[k], |g.ys|, 0);
    }
  }

  method Eastings(lo: real, hi: real, side: real, stride: real) returns (xs: seq<real>)
    requires stride > 0.0
    ensures AxisStarts(xs, lo, hi, side, stride)
  {
    xs := [lo];
    while xs[|xs| - 1] + side < hi
      invariant |xs| >= 1 && xs[0] == lo
      invariant forall k :: 0 <= k < |xs| - 1 ==> xs[k + 1] == xs[k] + stride && xs[k] + side < hi
      decreases (hi - side - xs[|xs| - 1]) / stride
    {
      StrideProgress(hi - side - xs[|xs| - 1], stride);
      xs := xs + [xs[|xs| - 1] + stride];
    }
  }

  method Northings(hi: real, lo: real, side: real, stride: real) returns (ys: seq<real>)
    requires stride > 0.0
    ensures AxisStarts(Mirror(ys), -hi, -lo, side, stride)
  {
    ys := [hi];
    while ys[|ys| - 1] - side > lo
      invariant |ys| >= 1 && ys[0] == hi
      invariant forall k :: 0 <= k < |ys| - 1 ==> ys[k + 1] == ys[k] - stride && ys[k] - side > lo
      decreases (ys[|ys| - 1] - side - lo) / stride
    {
      StrideProgress(ys[|ys| - 1] - side - lo, stride);
      ys := ys + [ys[|ys| - 1] - stride];
    }
  }

  /** One stride less to go. */
  lemma {:induction false} StrideProgress(rest: real, stride: real)
    requires rest > 0.0 && stride > 0.0
    ensures (rest - stride) / stride == rest / stride - 1.0 && rest / stride > 0.0
  {
    var p, q := rest / stride, (rest - stride) / stride;
    assert p * stride == rest && q * stride == rest - stride;
    assert (p - q - 1.0) * stride == p * stride - q * stride - stride;
    ZeroFactor(p - q - 1.0, stride);
    if p < 0.0 { ProductPositive(-p, stride); }
  }

  lemma {:induction false} ZeroFactor(x: real, y: real)
    requires y > 0.0 && x * y == 0.0
    ensures x == 0.0
  {
    if x > 0.0 { ProductPositive(x, y); }
    if x < 0.0 { ProductPositive(-x, y); }
  }

  // ---- coverage by the two vintages ----

  predicate Touches(w: Window, item: Bounds) {
    w.lrx > item.west && w.ulx < item.east && w.uly > item.south && w.lry < item.north
  }

  predicate Covered(w: Window, items: seq<Bounds>) {
    exists k :: 0 <= k < |items| && Touches(w, items[k])
  }

  predicate InsideOf(w: Window, x: real, y: real) {
    w.ulx < x < w.lrx && w.lry < y < w.uly
  }

  predicate InItem(item: Bounds, x: real, y: real) {
    item.west <= x <= item.east && item.south <= y <= item.north
  }

  ghost predicate SharesPoint(w: Window, item: Bounds) {
    exists x, y :: InsideOf(w, x, y) && InItem(item, x, y)
  }

  predicate ProperItem(item: Bounds) {
    item.west <= item.east && item.south <= item.north
  }

  lemma {:induction false} TouchesExactly(w: Window, item: Bounds)
    requires ValidWindow(w) && ProperItem(item)
    ensures Touches(w, item) <==> SharesPoint(w, item)
  {
    if Touches(w, item) {
      var x := if w.ulx < item.west then item.west else if item.east < w.lrx then item.east else (w.ulx + w.lrx) / 2.0;
      var y := if w.lry < item.south then item.south else if item.north < w.uly then item.north else (w.lry + w.uly) / 2.0;
      assert InsideOf(w, x, y) && InItem(item, x, y);
    }
  }

  /** A vintage covers a window exactly when some point inside the window lies in an item. */
  lemma {:induction false} CoveredExactly(w: Window, items: seq<Bounds>)
    requires ValidWindow(w) && forall k :: 0 <= k < |items| ==> ProperItem(items[k])
    ensures Covered(w, items) <==> exists item :: item in items && SharesPoint(w, item)
  {
    hide SharesPoint, Touches;
    forall k | 0 <= k < |items| ensures Touches(w, items[k]) <==> SharesPoint(w, items[k]) { TouchesExactly(w, items[k]); }
    if item :| item in items && SharesPoint(w, item) {
      var k :| 0 <= k < |items| && items[k] == item;
      assert Touches(w, items[k]);
    }
  }

  /** The status before inference: open exactly where both vintages have imagery. */
  function Opening(w: Window, itemsA: seq<Bounds>, itemsB: seq<Bounds>): Status {
    if !Covered(w, itemsA) then MissingA else if !Covered(w, itemsB) then MissingB else Unset
  }

  /** What the status says about the two vintages. */
  predicate OpensAs(w: Window, itemsA: seq<Bounds>, itemsB: seq<Bounds>, status: Status) {
    (status == MissingA <==> !Covered(w, itemsA)) &&
    (status == MissingB <==> Covered(w, itemsA) && !Covered(w, itemsB)) &&
    (status == Unset <==> Covered(w, itemsA) && Covered(w, itemsB))
  }

  method CoveredBy(w: Window, items: seq<Bounds>) returns (covered: bool)
    ensures covered <==> Covered(w, items)
  {
    for k := 0 to |items|
      invariant forall j :: 0 <= j < k ==> !Touches(w, items[j])
    {
      if Touches(w, items[k]) { return true; }
    }
    return false;
  }

  method Coverage(windows: seq<Window>, itemsA: seq<Bounds>, itemsB: seq<Bounds>) returns (statuses: map<string, Status>)
    requires DistinctIds(windows)
    ensures statuses.Keys == IdsUpTo(windows, |windows|)
    ensures forall id :: id in statuses ==> statuses[id] in {Unset, MissingA, MissingB}
    ensures forall k :: 0 <= k < |windows| ==> statuses[windows[k].id] == Opening(windows[k], itemsA, itemsB)
    ensures forall k :: 0 <= k < |windows| ==> OpensAs(windows[k], itemsA, itemsB, statuses[windows[k].id])
  {
    hide Covered, IdsUpTo;
    statuses := map[];
    assert IdsUpTo(windows, 0) == {} by { NoIds(windows); }
    for k := 0 to |windows|
      invariant statuses.Keys == IdsUpTo(windows, k)
      invariant forall id :: id in statuses ==> statuses[id] in {Unset, MissingA, MissingB}
      invariant forall j :: 0 <= j < k ==> windows[j].id in statuses
      invariant forall j :: 0 <= j < k ==> statuses[windows[j].id] == Opening(windows[j], itemsA, itemsB)
    {
      IdsGrow(windows, k);
      var inA := CoveredBy(windows[k], itemsA);
      var inB := CoveredBy(windows[k], itemsB);
      statuses := statuses[windows[k].id := if !inA then MissingA else if !inB then MissingB else Unset];
    }
  }

  lemma {:induction false} NoIds(windows: seq<Window>)
    ensures IdsUpTo(windows, 0) == {}
  {}
}
