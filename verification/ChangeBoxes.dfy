/** Rows proposed by the model, the observations made of them, and when two
    observations are of the same object or contradict each other. */
module ChangeBoxes {
  import opened Boxes
  import opened Ordering

  datatype Row = Row(tile: string, concept: string, changeClass: string, changeType: string,
                     confidence: string, before: string, after: string, evidence: string, box: Box)

  datatype Observation = Observation(tile: string, box: Box, clipped: seq<string>, concept: string,
                                     changeType: string, confidence: string,
                                     before: string, after: string, evidence: string)

  /** A dictionary built from a list: the last window with an id wins. */
  function IndexWindows(windows: seq<Window>): map<string, Window> {
    if windows == [] then map[]
    else
      var last := windows[|windows| - 1];
      IndexWindows(windows[..|windows| - 1])[last.id := last]
  }

  /** Of the windows with an id, the last one is looked up. */
  lemma {:induction false} LastWindowWins(windows: seq<Window>, k: nat)
    requires k < |windows| && forall j :: k < j < |windows| ==> windows[j].id != windows[k].id
    ensures windows[k].id in IndexWindows(windows) && IndexWindows(windows)[windows[k].id] == windows[k]
  {
    if k < |windows| - 1 { LastWindowWins(windows[..|windows| - 1], k); }
  }

  predicate Located(row: Row, index: map<string, Window>) {
    row.tile in index && index[row.tile].tilePx > 0
  }

  predicate AllLocated(rows: seq<Row>, index: map<string, Window>) {
    forall k :: 0 <= k < |rows| ==> Located(rows[k], index)
  }

  /** Edges of the window that the box touches, within two pixels or half a percent. */
  function ClippedEdges(b: Bounds, w: Window): seq<string>
    requires w.tilePx > 0
  {
    var tolerance := Max(2.0 / (w.tilePx as real), 0.005);
    var tx, ty := (w.lrx - w.ulx) * tolerance, (w.uly - w.lry) * tolerance;
    (if b.west - w.ulx <= tx then ["west"] else []) +
    (if b.south - w.lry <= ty then ["south"] else []) +
    (if w.lrx - b.east <= tx then ["east"] else []) +
    (if w.uly - b.north <= ty then ["north"] else [])
  }

  function Observe(row: Row, index: map<string, Window>): Observation
    requires Located(row, index)
  {
    Observation(row.tile, row.box, ClippedEdges(row.box, index[row.tile]), row.concept, row.changeType,
                row.confidence, row.before, row.after, row.evidence)
  }

  function ObserveAll(rows: seq<Row>, index: map<string, Window>): (r: seq<Observation>)
    requires AllLocated(rows, index)
    ensures |r| == |rows|
    ensures forall k :: 0 <= k < |rows| ==> r[k] == Observe(rows[k], index)
  {
    seq(|rows|, k requires 0 <= k < |rows| => Observe(rows[k], index))
  }

  /** The synonym table applied to a change type. */
  function Canonical(changeType: string): string {
    if changeType == "appearance" then "new_building"
    else if changeType == "disappearance" then "demolition"
    else changeType
  }

  predicate Matches(a: Observation, b: Observation) {
    a.tile != b.tile &&
    a.concept == b.concept && Canonical(a.changeType) == Canonical(b.changeType) &&
    var (iou, containment) := Overlap(a.box, b.box);
    iou >= 0.6 ||
    (containment >= 0.9 && (if Area(a.box) < Area(b.box) then a else b).clipped != [])
  }

  /** The tie-break between equal areas is one-sided, matching is not. */
  lemma {:induction false} MatchesSymmetric(a: Observation, b: Observation)
    ensures Matches(a, b) <==> Matches(b, a)
  {
    OverlapSymmetric(a.box, b.box);
    if Area(a.box) == Area(b.box) && Overlap(a.box, b.box).1 >= 0.9 {
      EqualAreasAgree(a.box, b.box);
    }
  }

  /** The two types name the same kind of change. */
  predicate SameKind(t: string, u: string) {
    t == u || {t, u} == {"appearance", "new_building"} || {t, u} == {"disappearance", "demolition"}
  }

  /** One box is strictly smaller and cut off at the edge of its window. */
  predicate SmallerIsCut(a: Observation, b: Observation) {
    (Area(a.box) < Area(b.box) && a.clipped != []) || (Area(b.box) < Area(a.box) && b.clipped != [])
  }

  /** Matching, without the one-sided choice: enough IoU, or a cut-off smaller box that lies
      almost wholly in the other. */
  predicate Agree(a: Observation, b: Observation) {
    a.tile != b.tile && a.concept == b.concept && SameKind(a.changeType, b.changeType) &&
    (Overlap(a.box, b.box).0 >= 0.60 || (Overlap(a.box, b.box).1 >= 0.90 && SmallerIsCut(a, b)))
  }

  lemma {:induction false} CanonicalKind(t: string, u: string)
    ensures Canonical(t) == Canonical(u) <==> SameKind(t, u)
  {
    if Canonical(t) == Canonical(u) && t != u {
      assert {t, u} == {u, t};
    }
    assert SameKind(t, u) ==> t in {t, u} && u in {t, u};
  }

  lemma {:induction false} MatchesExactly(a: Observation, b: Observation)
    ensures Matches(a, b) <==> Agree(a, b)
  {
    hide Canonical, SameKind, Overlap, Area;
    CanonicalKind(a.changeType, b.changeType);
    if Area(a.box) == Area(b.box) && Overlap(a.box, b.box).1 >= 0.9 {
      EqualAreasAgree(a.box, b.box);
    }
  }

  /** 1 when something appeared, -1 when something disappeared. */
  function Direction(changeType: string): int {
    if changeType in ["new_building", "appearance", "extension"] then 1
    else if changeType in ["demolition", "disappearance"] then -1
    else 0
  }

  predicate Opposing(a: Observation, b: Observation) {
    a.tile != b.tile && a.concept == b.concept &&
    Direction(a.changeType) * Direction(b.changeType) == -1 &&
    var (iou, containment) := Overlap(a.box, b.box);
    !(iou < 0.6 && containment < 0.9)
  }

  const APPEARING := {"new_building", "appearance", "extension"}
  const DISAPPEARING := {"demolition", "disappearance"}

  /** One sees something appear and the other sees something of the same concept disappear,
      in overlapping boxes of different windows. */
  predicate Contradict(a: Observation, b: Observation) {
    a.tile != b.tile && a.concept == b.concept &&
    ((a.changeType in APPEARING && b.changeType in DISAPPEARING) || (a.changeType in DISAPPEARING && b.changeType in APPEARING)) &&
    (Overlap(a.box, b.box).0 >= 0.60 || Overlap(a.box, b.box).1 >= 0.90)
  }

  lemma {:induction false} OpposingExactly(a: Observation, b: Observation)
    ensures Opposing(a, b) <==> Contradict(a, b)
  {
    hide Overlap;
    var d, e := Direction(a.changeType), Direction(b.changeType);
    assert d in {-1, 0, 1} && e in {-1, 0, 1};
    assert (d == 1 <==> a.changeType in APPEARING) && (d == -1 <==> a.changeType in DISAPPEARING);
    assert (e == 1 <==> b.changeType in APPEARING) && (e == -1 <==> b.changeType in DISAPPEARING);
    assert d * e == -1 <==> (d == 1 && e == -1) || (d == -1 && e == 1);
  }

  lemma {:induction false} OpposingSymmetric(a: Observation, b: Observation)
    ensures Opposing(a, b) <==> Opposing(b, a)
  {
    OverlapSymmetric(a.box, b.box);
  }

  /** Opposing observations are never merged into one candidate. */
  lemma {:induction false} OpposingNeverMatch(a: Observation, b: Observation)
    requires Opposing(a, b)
    ensures !Matches(a, b) && a != b
  {}

  /** The row itself as a comparable tuple. */
  function Cells(row: Row): seq<Cell> {
    [Text(row.tile), Text(row.concept), Text(row.changeClass), Text(row.changeType),
     Text(row.confidence), Text(row.before), Text(row.after), Text(row.evidence),
     Num(row.box.west), Num(row.box.south), Num(row.box.east), Num(row.box.north)]
  }

  /** Python's order on the row tuples, field by field. */
  predicate RowBefore(r: Row, s: Row) {
    if r.tile != s.tile then TextLess(r.tile, s.tile)
    else if r.concept != s.concept then TextLess(r.concept, s.concept)
    else if r.changeClass != s.changeClass then TextLess(r.changeClass, s.changeClass)
    else if r.changeType != s.changeType then TextLess(r.changeType, s.changeType)
    else if r.confidence != s.confidence then TextLess(r.confidence, s.confidence)
    else if r.before != s.before then TextLess(r.before, s.before)
    else if r.after != s.after then TextLess(r.after, s.after)
    else if r.evidence != s.evidence then TextLess(r.evidence, s.evidence)
    else if r.box.west != s.box.west then r.box.west < s.box.west
    else if r.box.south != s.box.south then r.box.south < s.box.south
    else if r.box.east != s.box.east then r.box.east < s.box.east
    else r.box.north < s.box.north
  }

  lemma {:induction false} CellsAre(r: Row)
    ensures var c := Cells(r);
            |c| == 12 && c[0] == Text(r.tile) && c[1] == Text(r.concept) && c[2] == Text(r.changeClass) &&
            c[3] == Text(r.changeType) && c[4] == Text(r.confidence) && c[5] == Text(r.before) &&
            c[6] == Text(r.after) && c[7] == Text(r.evidence) && c[8] == Num(r.box.west) &&
            c[9] == Num(r.box.south) && c[10] == Num(r.box.east) && c[11] == Num(r.box.north)
  {}

  lemma {:induction false} CellsOrder(r: Row, s: Row)
    ensures Less(Cells(r), Cells(s)) <==> RowBefore(r, s)
  {
    hide Less, TextLess, Cells;
    CellsAre(r);
    CellsAre(s);
    var a, b := Cells(r), Cells(s);
    assert a[0..] == a && b[0..] == b && a[12..] == [] && b[12..] == [];
    LessFrom(a, b, 0);
    LessFrom(a, b, 1);
    LessFrom(a, b, 2);
    LessFrom(a, b, 3);
    LessFrom(a, b, 4);
    LessFrom(a, b, 5);
    LessFrom(a, b, 6);
    LessFrom(a, b, 7);
    LessFrom(a, b, 8);
    LessFrom(a, b, 9);
    LessFrom(a, b, 10);
    LessFrom(a, b, 11);
    LessFrom(a, b, 12);
  }

  /** Complete observations first, then larger ones, then the row as tie-break. */
  function Key(row: Row, index: map<string, Window>): seq<Cell>
    requires Located(row, index)
  {
    [Flag(Observe(row, index).clipped != []), Num(-Area(row.box))] + Cells(row)
  }

  lemma {:induction false} CellsInjective(r: Row, s: Row)
    requires Cells(r) == Cells(s)
    ensures r == s
  {
    var c, d := Cells(r), Cells(s);
    assert c[0] == d[0] && c[1] == d[1] && c[2] == d[2] && c[3] == d[3];
    assert c[4] == d[4] && c[5] == d[5] && c[6] == d[6] && c[7] == d[7];
    assert c[8] == d[8] && c[9] == d[9] && c[10] == d[10] && c[11] == d[11];
  }

  /** Sort ties occur only between equal rows. */
  lemma {:induction false} KeyInjective(r: Row, s: Row, index: map<string, Window>)
    requires Located(r, index) && Located(s, index) && Key(r, index) == Key(s, index)
    ensures r == s
  {
    assert Cells(r) == Key(r, index)[2..] && Cells(s) == Key(s, index)[2..];
    CellsInjective(r, s);
  }

  function Keys(rows: seq<Row>, index: map<string, Window>): (r: seq<seq<Cell>>)
    requires AllLocated(rows, index)
    ensures |r| == |rows|
    ensures forall k :: 0 <= k < |rows| ==> r[k] == Key(rows[k], index)
  {
    seq(|rows|, k requires 0 <= k < |rows| => Key(rows[k], index))
  }

  /** The processing order of reconciliation, as positions in `rows`. */
  function Order(rows: seq<Row>, index: map<string, Window>): (order: seq<nat>)
    requires AllLocated(rows, index)
    ensures |order| == |rows| && Below(order, |rows|)
  {
    SortIndices(Keys(rows, index), |rows|)
  }

  /** The rows in processing order. */
  function Ranked(rows: seq<Row>, index: map<string, Window>): (r: seq<Row>)
    requires AllLocated(rows, index)
    ensures |r| == |rows| && AllLocated(r, index)
  {
    Pick(rows, Order(rows, index))
  }

  lemma {:induction false} RankedContents(rows: seq<Row>, index: map<string, Window>)
    requires AllLocated(rows, index)
    ensures multiset(Ranked(rows, index)) == multiset(rows)
    ensures multiset(ObserveAll(Ranked(rows, index), index)) == multiset(ObserveAll(rows, index))
    ensures Sorted(Keys(Ranked(rows, index), index))
    ensures Distinct(Order(rows, index))
  {
    var keys, order := Keys(rows, index), Order(rows, index);
    SortPermutes(rows, keys);
    SortPermutes(ObserveAll(rows, index), keys);
    SortIndicesSorted(keys, |rows|);
    SortIndicesContents(keys, |rows|);
    assert Pick(ObserveAll(rows, index), order) == ObserveAll(Ranked(rows, index), index);
    assert Pick(keys, order) == Keys(Ranked(rows, index), index);
  }

  /** The processing order forgets the order in which rows arrived. */
  lemma {:induction false} RankedUnique(rows: seq<Row>, rows': seq<Row>, index: map<string, Window>)
    requires AllLocated(rows, index) && AllLocated(rows', index)
    requires multiset(rows) == multiset(rows')
    ensures Ranked(rows, index) == Ranked(rows', index)
  {
    RankedContents(rows, index);
    RankedContents(rows', index);
    var ranked, ranked' := Ranked(rows, index), Ranked(rows', index);
    ImageMultiset(ranked, ranked', Keys(ranked, index), Keys(ranked', index));
    SortedUnique(Keys(ranked, index), Keys(ranked', index));
    forall k | 0 <= k < |ranked| ensures ranked[k] == ranked'[k] {
      assert Keys(ranked, index)[k] == Keys(ranked', index)[k];
      KeyInjective(ranked[k], ranked'[k], index);
    }
    assert |ranked| == |Keys(ranked, index)| == |ranked'|;
  }
}
