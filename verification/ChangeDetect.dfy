/** A whole vision run: the grid over the area's box, the windows that touch the area, the
    coverage of the two vintages, and inference. */
module ChangeDetect {
  import opened Boxes
  import opened VisionChange
  import opened ConflictFlags
  import opened Inference
  import opened InferenceEnd
  import opened InferenceRun
  import RetryGate
  import WindowGrid

  const TILE_PX := 800
  const OVERLAP_PX := 400
  const MAX_TILES := 128

  datatype Result = TooManyTiles | NoWindows | Inferred(outcome: Outcome)

  /** The windows whose ids the area query returned, in grid order. */
  function Kept(windows: seq<Window>, ids: set<string>): (r: seq<Window>)
    ensures forall k :: 0 <= k < |r| ==> r[k] in windows
  {
    if windows == [] then []
    else
      var last := windows[|windows| - 1];
      Kept(windows[..|windows| - 1], ids) + if last.id in ids then [last] else []
  }

  lemma {:induction false} KeptExactly(windows: seq<Window>, ids: set<string>)
    requires DistinctIds(windows)
    ensures DistinctIds(Kept(windows, ids))
    ensures forall w :: w in Kept(windows, ids) <==> w in windows && w.id in ids
  {
    if windows != [] {
      var front, last := windows[..|windows| - 1], windows[|windows| - 1];
      assert windows == front + [last];
      KeptExactly(front, ids);
      var r := Kept(front, ids);
      forall k | 0 <= k < |r| ensures r[k].id != last.id {
        assert r[k] in front;
      }
    }
  }

  method Filter(windows: seq<Window>, ids: set<string>) returns (r: seq<Window>)
    ensures r == Kept(windows, ids)
  {
    r := [];
    for k := 0 to |windows|
      invariant r == Kept(windows[..k], ids)
    {
      assert windows[..k + 1][..k] == windows[..k];
      if windows[k].id in ids { r := r + [windows[k]]; }
    }
    assert windows[..|windows|] == windows;
  }

  /** The rectangle lies in the box and is no larger than the overlap of the windows. */
  predicate Small(rect: Bounds, box: Bounds, gsd: real) {
    WindowGrid.FitsOverlap(rect, box, 400.0 * gsd)
  }

  /** The plan is the one whose windows these are, whose statuses coverage decides, and whose
      images and answers are those of the reader and of the model. */
  ghost predicate PlanFor(p: Plan, windows: seq<Window>, itemsA: seq<Bounds>, itemsB: seq<Bounds>,
                          reading: string -> (Reading, Reading), answer: string -> Answer)
  {
    ValidPlan(p) && p.windows == windows && !p.interruptible &&
    forall k :: 0 <= k < |windows| ==>
      var id := windows[k].id;
      id in p.initial && WindowGrid.OpensAs(windows[k], itemsA, itemsB, p.initial[id]) &&
      id in p.readings && p.readings[id] == reading(id) && id in p.answers && p.answers[id] == answer(id)
  }

  /** The window ends as coverage, its two images and its answer decide. */
  predicate SettledAs(w: Window, itemsA: seq<Bounds>, itemsB: seq<Bounds>, r: (Reading, Reading), a: Answer, status: Status) {
    var covered := WindowGrid.Covered(w, itemsA) && WindowGrid.Covered(w, itemsB);
    (status == MissingA <==> !WindowGrid.Covered(w, itemsA) || (covered && r.0 == NoImagery)) &&
    (status == MissingB <==> WindowGrid.Covered(w, itemsA) &&
                             (!WindowGrid.Covered(w, itemsB) || (r.0 == Png && r.1 == NoImagery))) &&
    (status == Analyzed <==> covered && r.0 == Png && r.1 == Png && a.changes.Some?) &&
    (status == Cancelled <==> covered && r.0 == Png && r.1 == Png && a.changes.None? && a.failure == "cancelled") &&
    (status == Errored <==>
       covered && (r.0 == ReadError || (r.0 == Png && r.1 == ReadError) ||
                   (r.0 == Png && r.1 == Png && a.changes.None? && a.failure != "cancelled")))
  }

  lemma {:induction false} PlanSettles(p: Plan, windows: seq<Window>, itemsA: seq<Bounds>, itemsB: seq<Bounds>,
                                       reading: string -> (Reading, Reading), answer: string -> Answer,
                                       statuses: map<string, Status>, k: nat)
    requires PlanFor(p, windows, itemsA, itemsB, reading, answer) && AllDecided(p, statuses, false) && k < |windows|
    ensures var w := windows[k];
            w.id in statuses && SettledAs(w, itemsA, itemsB, reading(w.id), answer(w.id), statuses[w.id])
  {
    hide ValidPlan, WindowGrid.Covered;
    var id := windows[k].id;
    assert DecidedBy(p.initial[id], p.readings[id], p.answers[id], statuses[id]);
  }

  method Prepare(windows: seq<Window>, itemsA: seq<Bounds>, itemsB: seq<Bounds>,
                 reading: string -> (Reading, Reading), answer: string -> Answer, concurrency: nat)
    returns (p: Plan)
    requires concurrency >= 1 && DistinctIds(windows) && forall k :: 0 <= k < |windows| ==> ValidWindow(windows[k])
    ensures PlanFor(p, windows, itemsA, itemsB, reading, answer)
  {
    hide WindowGrid.Opening, WindowGrid.OpensAs, IdsUpTo, ValidWindow, DistinctIds;
    var initial := WindowGrid.Coverage(windows, itemsA, itemsB);
    p := Plan(windows, initial, map id | id in initial :: reading(id), map id | id in initial :: answer(id), concurrency, false);
    assert p.readings.Keys == initial.Keys && p.answers.Keys == initial.Keys;
    forall k | 0 <= k < |windows| ensures windows[k].id in initial { IdsGrow(windows, k); }
  }

  predicate AllSettled(windows: seq<Window>, statuses: map<string, Status>) {
    forall k :: 0 <= k < |windows| ==> windows[k].id in statuses && statuses[windows[k].id] != Unset
  }

  lemma {:induction false} EndsSettled(p: Plan, statuses: map<string, Status>, timed: set<string>, cancel: bool)
    requires ValidPlan(p) && Ends(p, statuses, timed, cancel)
    ensures AllSettled(p.windows, statuses)
  {
    hide Ends, ValidPlan;
    forall k | 0 <= k < |p.windows| ensures p.windows[k].id in statuses && statuses[p.windows[k].id] != Unset {
      InPlan(p, k);
      EveryWindowSettled(p, statuses, timed, cancel, p.windows[k].id);
    }
  }

  /** The area, as its points, reaches into the rectangle or its border. */
  ghost predicate Meets(b: Bounds, area: (real, real) -> bool) {
    exists x, y :: area(x, y) && b.west <= x <= b.east && b.south <= y <= b.north
  }

  /** The ids returned are at least those of the windows that meet the area. */
  ghost predicate AnswersQuery(windows: seq<Window>, area: (real, real) -> bool, touching: set<string>) {
    forall k :: 0 <= k < |windows| && Meets(WindowBounds(windows[k]), area) ==> windows[k].id in touching
  }

  ghost predicate SeenBy(windows: seq<Window>, rect: Bounds) {
    exists k :: 0 <= k < |windows| && Inside(rect, WindowBounds(windows[k]))
  }

  lemma {:induction false} MeetsMore(a: Bounds, b: Bounds, area: (real, real) -> bool)
    requires Inside(a, b) && Meets(a, area)
    ensures Meets(b, area)
  {
    var x, y :| area(x, y) && a.west <= x <= a.east && a.south <= y <= a.north;
    assert area(x, y) && b.west <= x <= b.east && b.south <= y <= b.north;
  }

  /** What meets the area and is no larger than the overlap is whole in a window that the
      filter keeps. */
  lemma {:induction false} SeenInArea(windows: seq<Window>, area: (real, real) -> bool, touching: set<string>, rect: Bounds)
    requires DistinctIds(windows) && AnswersQuery(windows, area, touching)
    requires SeenBy(windows, rect) && Meets(rect, area)
    ensures SeenBy(Kept(windows, touching), rect)
  {
    hide Meets, Inside, WindowBounds, Kept, DistinctIds;
    var k :| 0 <= k < |windows| && Inside(rect, WindowBounds(windows[k]));
    MeetsMore(rect, WindowBounds(windows[k]), area);
    KeptExactly(windows, touching);
    assert windows[k] in Kept(windows, touching);
    var j :| 0 <= j < |Kept(windows, touching)| && Kept(windows, touching)[j] == windows[k];
  }

  /** Every answer is what the loop of one call returns. */
  ghost predicate LoopAnswered(p: Plan) {
    forall id :: id in p.answers ==> LoopAnswer(p.answers[id])
  }

  ghost predicate LoopAnswer(a: Answer) {
    exists passes, replies :: |passes| == |replies| == RetryGate.ATTEMPTS &&
      a == RetryGate.CallFrom(0, "cancelled", passes, replies)
  }

  /** With answers from that loop, a window that ends as cancelled cost no attempt. */
  lemma {:induction false} CancelledIsFree(p: Plan, statuses: map<string, Status>, timed: set<string>, cancel: bool, id: string)
    requires ValidPlan(p) && Ends(p, statuses, timed, cancel) && LoopAnswered(p) && id in p.initial
    ensures id in statuses && (statuses[id] == Cancelled ==> AttemptsAt(id, timed, p.answers) == 0)
  {
    hide ValidPlan, Ends, RetryGate.CallFrom;
    forall i | i in p.answers ensures p.answers[i].failure == "cancelled" <==> p.answers[i].attempts == 0 {
      assert LoopAnswer(p.answers[i]);
      var passes, replies :| |passes| == |replies| == RetryGate.ATTEMPTS &&
                             p.answers[i] == RetryGate.CallFrom(0, "cancelled", passes, replies);
      RetryGate.CallBounded(0, "cancelled", passes, replies);
    }
    CancelledCostsNothing(p, statuses, timed, cancel, id);
  }

  /** `touching` is the result of the query for the area; `reading` and `answer` stand for
      the image reader and the model. */
  method Detect(box: Bounds, gsd: real, touching: set<string>, itemsA: seq<Bounds>, itemsB: seq<Bounds>,
                reading: string -> (Reading, Reading), answer: string -> Answer, concurrency: nat,
                ghost area: (real, real) -> bool)
    returns (result: Result, candidates: seq<Candidate>, statuses: map<string, Status>,
             grid: seq<Window>, p: Plan)
    requires gsd > 0.0 && concurrency >= 1
    ensures forall rect :: Small(rect, box, gsd) ==> SeenBy(grid, rect)
    ensures AnswersQuery(grid, area, touching) ==>
              forall rect :: Small(rect, box, gsd) && Meets(rect, area) ==> SeenBy(Kept(grid, touching), rect)
    ensures forall w :: w in grid ==> WindowGrid.SquareOf(w, 800.0 * gsd, 800)
    ensures result == TooManyTiles <==> |grid| > 128
    ensures result == NoWindows <==> |grid| <= 128 && Kept(grid, touching) == []
    ensures result.Inferred? ==> PlanFor(p, Kept(grid, touching), itemsA, itemsB, reading, answer) &&
                                 AllSettled(p.windows, statuses)
    ensures result.Inferred? && !SomeAnswerStops(p) ==>
              ValidPlan(p) && statuses == FinalStatuses(p) &&
              forall w :: w in Kept(grid, touching) ==>
                w.id in statuses && SettledAs(w, itemsA, itemsB, reading(w.id), answer(w.id), statuses[w.id])
    ensures result.Inferred? && NothingReadable(p) ==> result.outcome == Failed({})
    ensures result.Inferred? && result.outcome.Finished? ==> Values(candidates) == Expected(p, statuses)
  {
    hide WindowGrid.Covers, Small, SomeAnswerStops, SeenBy, Meets, AnswersQuery, Ends, Expected, WindowGrid.Opening, Logged, Summarizes, ValidPlan, PlanFor,
         DistinctIds, ValidWindow, FinalStatuses, AskedIds, ReasonsListed, Kept, AllSettled, AllDecided, SettledAs, NothingReadable,
         WindowGrid.OpensAs, WindowGrid.RowMajor, WindowGrid.SquareOf;
    candidates, statuses, p := [], map[], Plan([], map[], map[], map[], 1, false);
    ghost var g;
    grid, g := WindowGrid.Build(box, gsd, TILE_PX, OVERLAP_PX);
    EverythingSeen(grid, g, box, gsd);
    if AnswersQuery(grid, area, touching) {
      forall rect | Small(rect, box, gsd) && Meets(rect, area) ensures SeenBy(Kept(grid, touching), rect) {
        SeenInArea(grid, area, touching, rect);
      }
    }
    if |grid| > MAX_TILES {
      result := TooManyTiles;
      return;
    }
    var kept := Filter(grid, touching);
    if kept == [] {
      result := NoWindows;
      return;
    }
    KeptExactly(grid, touching);
    KeptValid(grid, touching);
    p := Prepare(kept, itemsA, itemsB, reading, answer, concurrency);
    assert ValidPlan(p) && !p.interruptible && p.windows == kept by { PlanIsValid(p, kept, itemsA, itemsB, reading, answer); }
    var outcome;
    ghost var end;
    outcome, candidates, statuses, end := Infer(p);
    EndsSettled(p, statuses, end.timed, end.cancel);
    result := Inferred(outcome);
    if !end.cancel {
      forall w | w in kept ensures w.id in statuses && SettledAs(w, itemsA, itemsB, reading(w.id), answer(w.id), statuses[w.id]) {
        var k :| 0 <= k < |kept| && kept[k] == w;
        PlanSettles(p, kept, itemsA, itemsB, reading, answer, statuses, k);
      }
    }
  }

  lemma {:induction false} PlanIsValid(p: Plan, windows: seq<Window>, itemsA: seq<Bounds>, itemsB: seq<Bounds>,
                                       reading: string -> (Reading, Reading), answer: string -> Answer)
    requires PlanFor(p, windows, itemsA, itemsB, reading, answer)
    ensures ValidPlan(p) && p.windows == windows && !p.interruptible
  {
    hide ValidPlan;
  }

  lemma {:induction false} KeptValid(windows: seq<Window>, ids: set<string>)
    requires forall k :: 0 <= k < |windows| ==> ValidWindow(windows[k])
    ensures forall k :: 0 <= k < |Kept(windows, ids)| ==> ValidWindow(Kept(windows, ids)[k])
  {
    forall k | 0 <= k < |Kept(windows, ids)| ensures ValidWindow(Kept(windows, ids)[k]) {
      var j :| 0 <= j < |windows| && windows[j] == Kept(windows, ids)[k];
    }
  }

  lemma {:induction false} EverythingSeen(windows: seq<Window>, g: WindowGrid.Grid, box: Bounds, gsd: real)
    requires g.side == TILE_PX as real * gsd
    requires WindowGrid.Covers(windows, g, box, (TILE_PX - OVERLAP_PX) as real * gsd)
    ensures forall rect :: Small(rect, box, gsd) ==> SeenBy(windows, rect)
  {
    hide WindowGrid.Covers, WindowGrid.FitsOverlap, Inside, WindowBounds;
    var stride := (TILE_PX - OVERLAP_PX) as real * gsd;
    assert OVERLAP_PX as real * gsd == g.side - stride;
    forall rect | Small(rect, box, gsd)
      ensures SeenBy(windows, rect)
    {
      WindowGrid.SeenWhole(windows, g, box, stride, rect);
    }
  }
}
