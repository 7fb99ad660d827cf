/** Bounded concurrent inference over the windows of a grid. One main loop reads image
    pairs, submits calls and collects them; calls finish in any order. Which calls are
    done whenever the loop waits, and when a cancellation is noticed, are left open, so
    every contract below holds for every schedule. */
module Inference {
  import opened Wrappers
  import opened Boxes
  import opened Ordering
  import opened ChangeBoxes
  import opened VisionChange

  datatype Status = Unset | Analyzed | Errored | Cancelled | MissingA | MissingB

  /** What reading one vintage of a window gives. */
  datatype Reading = Png | ReadError | NoImagery

  /** What a finished call returns: no changes means it failed, for the given reason. `stops`
      says that its last reply made it raise the cancel flag. */
  datatype Answer = Answer(changes: Option<seq<Change>>, attempts: nat, failure: string, stops: bool)

  /** Everything that is fixed before the run starts; `interruptible` says whether the caller
      passed a cancel event of its own. */
  datatype Plan = Plan(windows: seq<Window>, initial: map<string, Status>,
                       readings: map<string, (Reading, Reading)>, answers: map<string, Answer>,
                       concurrency: nat, interruptible: bool)

  function IdsUpTo(windows: seq<Window>, n: nat): set<string>
    requires n <= |windows|
  {
    set k | 0 <= k < n :: windows[k].id
  }

  predicate DistinctIds(windows: seq<Window>) {
    forall i, j :: 0 <= i < j < |windows| ==> windows[i].id != windows[j].id
  }

  /** Coverage leaves a status open or marks a vintage as missing. */
  predicate ValidPlan(p: Plan) {
    DistinctIds(p.windows) && p.concurrency >= 1 &&
    p.initial.Keys == IdsUpTo(p.windows, |p.windows|) &&
    p.readings.Keys == p.initial.Keys && p.answers.Keys == p.initial.Keys &&
    (forall k :: 0 <= k < |p.windows| ==> ValidWindow(p.windows[k])) &&
    forall id :: id in p.initial ==> p.initial[id] in {Unset, MissingA, MissingB}
  }

  /** The status that reading the pair decides, or Unset when both images were read. */
  function ReadStatus(r: (Reading, Reading)): Status {
    match r
    case (ReadError, _) => Errored
    case (NoImagery, _) => MissingA
    case (Png, ReadError) => Errored
    case (Png, NoImagery) => MissingB
    case (Png, Png) => Unset
  }

  /** Whether the model is asked about a window at all. */
  predicate Asked(p: Plan, id: string) {
    id in p.initial && id in p.readings && p.initial[id] == Unset && ReadStatus(p.readings[id]) == Unset
  }

  function AnswerStatus(a: Answer): Status {
    if a.changes.Some? then Analyzed else if a.failure == "cancelled" then Cancelled else Errored
  }

  /** The status of a window when nothing interferes. */
  function FinalStatus(p: Plan, id: string): Status
    requires id in p.initial && id in p.readings && id in p.answers
  {
    if p.initial[id] != Unset then p.initial[id]
    else if ReadStatus(p.readings[id]) != Unset then ReadStatus(p.readings[id])
    else AnswerStatus(p.answers[id])
  }

  /** How a window ends that no cancellation disturbs, by what coverage said, what reading
      its two vintages gave, in order, and what the model answered. */
  predicate DecidedBy(initial: Status, r: (Reading, Reading), a: Answer, status: Status) {
    status != Unset &&
    (status == MissingA <==> initial == MissingA || (initial == Unset && r.0 == NoImagery)) &&
    (status == MissingB <==> initial == MissingB || (initial == Unset && r.0 == Png && r.1 == NoImagery)) &&
    (status == Analyzed <==> initial == Unset && r.0 == Png && r.1 == Png && a.changes.Some?) &&
    (status == Cancelled <==> initial == Unset && r.0 == Png && r.1 == Png && a.changes.None? && a.failure == "cancelled") &&
    (status == Errored <==>
       initial == Unset &&
       (r.0 == ReadError || (r.0 == Png && r.1 == ReadError) ||
        (r.0 == Png && r.1 == Png && a.changes.None? && a.failure != "cancelled")))
  }

  lemma {:induction false} FinalDecided(p: Plan, id: string)
    requires ValidPlan(p) && id in p.initial
    ensures id in p.readings && id in p.answers && DecidedBy(p.initial[id], p.readings[id], p.answers[id], FinalStatus(p, id))
    ensures Asked(p, id) <==> p.initial[id] == Unset && p.readings[id].0 == Png && p.readings[id].1 == Png
  {
    hide IdsUpTo;
    assert p.initial[id] in {Unset, MissingA, MissingB};
  }

  // ---- totals over the grid, in grid order ----

  function RowsAt(w: Window, statuses: map<string, Status>, answers: map<string, Answer>): seq<Row> {
    if w.id in statuses && statuses[w.id] == Analyzed && ValidWindow(w)
       && w.id in answers && answers[w.id].changes.Some?
    then ToRows(w, answers[w.id].changes.value) else []
  }

  /** The rows of the analyzed windows, in grid order whatever the schedule was. */
  function GridRows(windows: seq<Window>, statuses: map<string, Status>, answers: map<string, Answer>): seq<Row> {
    if windows == [] then []
    else
      var n := |windows| - 1;
      GridRows(windows[..n], statuses, answers) + RowsAt(windows[n], statuses, answers)
  }

  function AttemptsAt(id: string, timed: set<string>, answers: map<string, Answer>): nat {
    if id in timed && id in answers then answers[id].attempts else 0
  }

  /** Attempts over the windows whose calls were collected. */
  function TotalAttempts(windows: seq<Window>, timed: set<string>, answers: map<string, Answer>): nat {
    if windows == [] then 0
    else
      var n := |windows| - 1;
      TotalAttempts(windows[..n], timed, answers) + AttemptsAt(windows[n].id, timed, answers)
  }

  /** Calls that reached the endpoint at least once. */
  function TotalRequests(windows: seq<Window>, timed: set<string>, answers: map<string, Answer>): nat {
    if windows == [] then 0
    else
      var n := |windows| - 1;
      TotalRequests(windows[..n], timed, answers) +
      (if AttemptsAt(windows[n].id, timed, answers) > 0 then 1 else 0)
  }

  lemma {:induction false} GridRowsElsewhere(windows: seq<Window>, statuses: map<string, Status>,
                                             answers: map<string, Answer>, id: string, s: Status)
    requires forall k :: 0 <= k < |windows| ==> windows[k].id != id
    ensures GridRows(windows, statuses[id := s], answers) == GridRows(windows, statuses, answers)
  {
    if windows != [] { GridRowsElsewhere(windows[..|windows| - 1], statuses, answers, id, s); }
  }

  /** Settling one window adds exactly that window's rows. */
  lemma {:induction false} GridRowsSettle(windows: seq<Window>, statuses: map<string, Status>,
                                          answers: map<string, Answer>, k: nat, s: Status)
    requires DistinctIds(windows) && k < |windows|
    requires windows[k].id in statuses ==> statuses[windows[k].id] != Analyzed
    ensures multiset(GridRows(windows, statuses[windows[k].id := s], answers))
         == multiset(GridRows(windows, statuses, answers))
          + multiset(RowsAt(windows[k], statuses[windows[k].id := s], answers))
  {
    hide GridRows, RowsAt;
    var n, id := |windows| - 1, windows[k].id;
    var front, after := windows[..n], statuses[id := s];
    GridRowsLast(windows, statuses, answers);
    GridRowsLast(windows, after, answers);
    if k < n {
      GridRowsSettle(front, statuses, answers, k, s);
      RowsAtElsewhere(windows[n], statuses, answers, id, s);
    } else {
      GridRowsElsewhere(front, statuses, answers, id, s);
      NoRowsAt(windows[n], statuses, answers);
    }
  }

  lemma {:induction false} GridRowsLast(windows: seq<Window>, statuses: map<string, Status>, answers: map<string, Answer>)
    requires windows != []
    ensures GridRows(windows, statuses, answers)
         == GridRows(windows[..|windows| - 1], statuses, answers) + RowsAt(windows[|windows| - 1], statuses, answers)
  {
    hide RowsAt;
  }

  lemma {:induction false} RowsAtElsewhere(w: Window, statuses: map<string, Status>, answers: map<string, Answer>,
                                           id: string, s: Status)
    requires w.id != id
    ensures RowsAt(w, statuses[id := s], answers) == RowsAt(w, statuses, answers)
  {}

  lemma {:induction false} NoRowsAt(w: Window, statuses: map<string, Status>, answers: map<string, Answer>)
    requires w.id in statuses ==> statuses[w.id] != Analyzed
    ensures RowsAt(w, statuses, answers) == []
  {}

  lemma {:induction false} TotalsElsewhere(windows: seq<Window>, timed: set<string>, answers: map<string, Answer>, id: string)
    requires forall k :: 0 <= k < |windows| ==> windows[k].id != id
    ensures TotalAttempts(windows, timed + {id}, answers) == TotalAttempts(windows, timed, answers)
    ensures TotalRequests(windows, timed + {id}, answers) == TotalRequests(windows, timed, answers)
  {
    if windows != [] { TotalsElsewhere(windows[..|windows| - 1], timed, answers, id); }
  }

  lemma {:induction false} TotalsCollect(windows: seq<Window>, timed: set<string>, answers: map<string, Answer>, k: nat)
    requires DistinctIds(windows) && k < |windows| && windows[k].id !in timed && windows[k].id in answers
    ensures TotalAttempts(windows, timed + {windows[k].id}, answers)
         == TotalAttempts(windows, timed, answers) + answers[windows[k].id].attempts
    ensures TotalRequests(windows, timed + {windows[k].id}, answers)
         == TotalRequests(windows, timed, answers) + if answers[windows[k].id].attempts > 0 then 1 else 0
  {
    var n := |windows| - 1;
    if k < n {
      TotalsCollect(windows[..n], timed, answers, k);
    } else {
      TotalsElsewhere(windows[..n], timed, answers, windows[k].id);
    }
  }

  /** The rows of one window, in order. */
  function TileRows(rows: seq<Row>, tile: string): seq<Row> {
    if rows == [] then []
    else
      var n := |rows| - 1;
      TileRows(rows[..n], tile) + if rows[n].tile == tile then [rows[n]] else []
  }

  lemma {:induction false} TileRowsAppend(a: seq<Row>, b: seq<Row>, tile: string)
    ensures TileRows(a + b, tile) == TileRows(a, tile) + TileRows(b, tile)
  {
    if b == [] {
      assert a + b == a;
    } else {
      TileRowsAppend(a, b[..|b| - 1], tile);
      assert (a + b)[..|a + b| - 1] == a + b[..|b| - 1];
    }
  }

  lemma {:induction false} TileRowsOf(rows: seq<Row>, home: string, tile: string)
    requires forall j :: 0 <= j < |rows| ==> rows[j].tile == home
    ensures TileRows(rows, tile) == if tile == home then rows else []
  {
    if rows != [] { TileRowsOf(rows[..|rows| - 1], home, tile); }
  }

  lemma {:induction false} TileRowsIn(rows: seq<Row>, tile: string, r: Row)
    ensures r in TileRows(rows, tile) <==> r in rows && r.tile == tile
  {
    if rows != [] {
      TileRowsIn(rows[..|rows| - 1], tile, r);
      assert rows == rows[..|rows| - 1] + [rows[|rows| - 1]];
    }
  }

  lemma {:induction false} RowsAtHome(w: Window, statuses: map<string, Status>, answers: map<string, Answer>)
    ensures forall j :: 0 <= j < |RowsAt(w, statuses, answers)| ==> RowsAt(w, statuses, answers)[j].tile == w.id
  {}

  lemma {:induction false} NoTileRows(windows: seq<Window>, statuses: map<string, Status>, answers: map<string, Answer>, tile: string)
    requires forall k :: 0 <= k < |windows| ==> windows[k].id != tile
    ensures TileRows(GridRows(windows, statuses, answers), tile) == []
  {
    if windows != [] {
      var n := |windows| - 1;
      NoTileRows(windows[..n], statuses, answers, tile);
      RowsAtHome(windows[n], statuses, answers);
      TileRowsOf(RowsAt(windows[n], statuses, answers), windows[n].id, tile);
      TileRowsAppend(GridRows(windows[..n], statuses, answers), RowsAt(windows[n], statuses, answers), tile);
    }
  }

  /** The gathered rows of a window: one for each change of its answer, in order, if the
      window was analyzed, and none otherwise. */
  lemma {:induction false} WindowRowsExact(windows: seq<Window>, statuses: map<string, Status>, answers: map<string, Answer>, k: nat)
    requires DistinctIds(windows) && k < |windows| && ValidWindow(windows[k]) && windows[k].id in answers
    ensures var w := windows[k];
            var analyzed := w.id in statuses && statuses[w.id] == Analyzed && answers[w.id].changes.Some?;
            TileRows(GridRows(windows, statuses, answers), w.id)
              == if analyzed then ToRows(w, answers[w.id].changes.value) else []
  {
    hide RowsAt;
    var n := |windows| - 1;
    var front, last := GridRows(windows[..n], statuses, answers), RowsAt(windows[n], statuses, answers);
    RowsAtHome(windows[n], statuses, answers);
    TileRowsOf(last, windows[n].id, windows[k].id);
    TileRowsAppend(front, last, windows[k].id);
    if k < n {
      WindowRowsExact(windows[..n], statuses, answers, k);
    } else {
      NoTileRows(windows[..n], statuses, answers, windows[n].id);
      RowsAtExact(windows[n], statuses, answers);
    }
  }

  lemma {:induction false} RowsAtExact(w: Window, statuses: map<string, Status>, answers: map<string, Answer>)
    requires ValidWindow(w) && w.id in answers
    ensures RowsAt(w, statuses, answers)
         == if w.id in statuses && statuses[w.id] == Analyzed && answers[w.id].changes.Some?
            then ToRows(w, answers[w.id].changes.value) else []
  {}

  function Tried(windows: seq<Window>, timed: set<string>, answers: map<string, Answer>): set<string> {
    set id | id in IdsUpTo(windows, |windows|) && id in timed && id in answers && answers[id].attempts > 0
  }

  lemma {:induction false} NoneTried(timed: set<string>, answers: map<string, Answer>)
    ensures Tried([], timed, answers) == {}
  {}

  lemma {:induction false} TriedNext(windows: seq<Window>, timed: set<string>, answers: map<string, Answer>)
    requires DistinctIds(windows) && windows != []
    ensures var n := |windows| - 1;
            var before, id := Tried(windows[..n], timed, answers), windows[n].id;
            Tried(windows, timed, answers) == (if AttemptsAt(id, timed, answers) > 0 then before + {id} else before) &&
            id !in before
  {
    var n := |windows| - 1;
    IdsGrow(windows, n);
    assert IdsUpTo(windows[..n], n) == IdsUpTo(windows, n);
  }

  /** A request is a collected call with at least one attempt. */
  lemma {:induction false} RequestsExact(windows: seq<Window>, timed: set<string>, answers: map<string, Answer>)
    requires DistinctIds(windows)
    ensures TotalRequests(windows, timed, answers) == |Tried(windows, timed, answers)|
  {
    hide Tried, IdsUpTo, AttemptsAt;
    if windows == [] {
      assert Tried(windows, timed, answers) == {} by { NoneTried(timed, answers); }
    } else {
      RequestsExact(windows[..|windows| - 1], timed, answers);
      TriedNext(windows, timed, answers);
    }
  }

  // ---- the state of a run ----

  /** `seen`: the reader passed the window; `held`: it was read but neither submitted nor
      dropped yet. A seen window is settled, waits for its call, or was dropped on a cancel. */
  predicate Phase(p: Plan, id: string, status: Status, waiting: bool, timed: bool, cancel: bool, seen: bool, held: bool) {
    id in p.initial && id in p.readings && id in p.answers &&
    if held then !waiting && !timed && status == p.initial[id] && Asked(p, id)
    else if !seen then !waiting && !timed && status == p.initial[id]
    else
      || (!waiting && status == FinalStatus(p, id) && (timed <==> Asked(p, id)))
      || (waiting && !timed && status == Unset && Asked(p, id))
      || (cancel && !waiting && !timed && status == Cancelled && Asked(p, id))
  }

  predicate Placed(p: Plan, statuses: map<string, Status>, seen: set<string>, pending: set<string>,
                   timed: set<string>, cancel: bool, hand: Option<string>)
  {
    statuses.Keys == p.initial.Keys && pending <= p.initial.Keys && timed <= p.initial.Keys &&
    (hand.Some? ==> hand.value in p.initial && hand.value in seen) &&
    forall id :: id in p.initial ==>
      Phase(p, id, statuses[id], id in pending, id in timed, cancel, id in seen, hand == Some(id))
  }

  datatype Event = Submit(id: string) | Collected(id: string)

  /** The calls that were submitted and not yet collected. */
  function Outstanding(log: seq<Event>): set<string> {
    if log == [] then {}
    else
      var e := log[|log| - 1];
      var before := Outstanding(log[..|log| - 1]);
      if e.Submit? then before + {e.id} else before - {e.id}
  }

  /** Submissions and collections happen at most once each, only for their windows, and at
      no point of the run are more than `limit` calls out. */
  ghost predicate Logged(log: seq<Event>, pending: set<string>, timed: set<string>, limit: nat) {
    Distinct(log) && Outstanding(log) == pending &&
    (forall n :: 0 <= n <= |log| ==> |Outstanding(log[..n])| <= limit) &&
    forall id :: (Submit(id) in log <==> id in pending || id in timed) && (Collected(id) in log <==> id in timed)
  }

  predicate Pulled(pulled: seq<Window>, id: string) {
    exists k :: 0 <= k < |pulled| && pulled[k].id == id
  }

  /** Pending and collected windows were pulled from the grid. */
  predicate Sourced(windows: seq<Window>, pulled: seq<Window>, pending: map<string, Window>, timed: set<string>) {
    (forall k :: 0 <= k < |pulled| ==> pulled[k] in windows) &&
    (forall id :: id in pending ==> pending[id] in pulled && pending[id].id == id) &&
    forall id :: id in timed ==> Pulled(pulled, id)
  }

  predicate Counted(p: Plan, timed: set<string>, attempted: nat, requests: nat) {
    attempted == TotalAttempts(p.windows, timed, p.answers) && requests == TotalRequests(p.windows, timed, p.answers)
  }

  predicate Gathered(p: Plan, statuses: map<string, Status>, rows: seq<Row>) {
    multiset(rows) == multiset(GridRows(p.windows, statuses, p.answers))
  }

  /** The failure to be recorded for a window, if any. */
  function FailureOf(p: Plan, id: string, status: Status, timed: bool): Option<string>
    requires id in p.answers
  {
    if timed then (if p.answers[id].changes.Some? then None else Some(p.answers[id].failure))
    else if status == Cancelled then Some("cancelled") else None
  }

  predicate FailureAt(p: Plan, id: string, status: Status, timed: bool, failures: map<string, string>) {
    id in p.answers &&
    match FailureOf(p, id, status, timed)
    case None => id !in failures
    case Some(reason) => id in failures && failures[id] == reason
  }

  predicate Failures(p: Plan, statuses: map<string, Status>, timed: set<string>, failures: map<string, string>) {
    failures.Keys <= statuses.Keys &&
    forall id :: id in statuses ==> FailureAt(p, id, statuses[id], id in timed, failures)
  }

  predicate Stops(p: Plan, id: string) {
    id in p.answers && p.answers[id].stops
  }

  /** The cancel flag is raised by the caller, or by a submitted call that stops all; such a
      call raises it before it is done. */
  predicate FlagOk(p: Plan, pending: set<string>, timed: set<string>, cancel: bool) {
    (cancel ==> p.interruptible || exists id :: id in pending + timed && Stops(p, id)) &&
    forall id :: id in timed && Stops(p, id) ==> cancel
  }

  // ---- the steps of the main loop keep it ----

  lemma {:induction false} FlagSubmit(p: Plan, pending: set<string>, timed: set<string>, cancel: bool, id: string)
    requires FlagOk(p, pending, timed, cancel)
    ensures FlagOk(p, pending + {id}, timed, cancel)
  {
    if !p.interruptible && cancel {
      var i :| i in pending + timed && Stops(p, i);
      assert i in (pending + {id}) + timed;
    }
  }

  lemma {:induction false} FlagCollect(p: Plan, pending: set<string>, timed: set<string>, cancel: bool, id: string)
    requires FlagOk(p, pending, timed, cancel) && id in pending && (Stops(p, id) ==> cancel)
    ensures FlagOk(p, pending - {id}, timed + {id}, cancel)
  {
    assert (pending - {id}) + (timed + {id}) == pending + timed;
  }

  lemma {:induction false} FlagRaise(p: Plan, pending: set<string>, timed: set<string>, cancel: bool)
    requires FlagOk(p, pending, timed, cancel) && (p.interruptible || exists id :: id in pending && Stops(p, id))
    ensures FlagOk(p, pending, timed, true)
  {
    if !p.interruptible {
      var i :| i in pending && Stops(p, i);
      assert i in pending + timed;
    }
  }

  lemma {:induction false} IdsGrow(windows: seq<Window>, n: nat)
    requires n < |windows|
    ensures IdsUpTo(windows, n + 1) == IdsUpTo(windows, n) + {windows[n].id}
    ensures windows[n].id in IdsUpTo(windows, |windows|)
    ensures DistinctIds(windows) ==> windows[n].id !in IdsUpTo(windows, n)
  {}

  /** Only window `id` moved, and it is where it may be. */
  lemma {:induction false} MoveOne(p: Plan, statuses: map<string, Status>, seen: set<string>, pending: set<string>,
                                   timed: set<string>, cancel: bool, hand: Option<string>,
                                   id: string, status: Status, seen': set<string>, pending': set<string>,
                                   timed': set<string>, hand': Option<string>)
    requires Placed(p, statuses, seen, pending, timed, cancel, hand) && id in p.initial
    requires seen' - {id} == seen - {id} && pending' - {id} == pending - {id} && timed' - {id} == timed - {id}
    requires hand' == hand != Some(id) || (hand in {None, Some(id)} && hand' in {None, Some(id)})
    requires seen <= seen' && (hand'.Some? ==> hand'.value in seen')
    requires Phase(p, id, status, id in pending', id in timed', cancel, id in seen', hand' == Some(id))
    ensures Placed(p, statuses[id := status], seen', pending', timed', cancel, hand')
  {
    forall i | i in p.initial && i != id
      ensures (i in seen' <==> i in seen) && (i in pending' <==> i in pending) && (i in timed' <==> i in timed)
    {
      assert i in seen' - {id} <==> i in seen - {id};
      assert i in pending' - {id} <==> i in pending - {id};
      assert i in timed' - {id} <==> i in timed - {id};
    }
    forall i | i in pending' ensures i in p.initial { assert i == id || i in pending' - {id}; }
    forall i | i in timed' ensures i in p.initial { assert i == id || i in timed' - {id}; }
  }

  /** What is known about a window of the plan. */
  lemma {:induction false} InPlan(p: Plan, k: nat)
    requires ValidPlan(p) && k < |p.windows|
    ensures var id := p.windows[k].id; id in p.initial && id in p.readings && id in p.answers
    ensures ValidWindow(p.windows[k])
  {
    IdsGrow(p.windows, k);
  }

  /** The next window of the grid is untouched. */
  lemma {:induction false} NextUntouched(p: Plan, statuses: map<string, Status>, n: nat, pending: set<string>,
                                         timed: set<string>, cancel: bool)
    requires ValidPlan(p) && n < |p.windows|
    requires Placed(p, statuses, IdsUpTo(p.windows, n), pending, timed, cancel, None)
    ensures var id := p.windows[n].id;
            id in p.initial && id in p.readings && id in p.answers && id in statuses &&
            id !in pending && id !in timed && statuses[id] == p.initial[id]
  {
    InPlan(p, n);
    IdsGrow(p.windows, n);
    var id := p.windows[n].id;
    assert Phase(p, id, statuses[id], id in pending, id in timed, cancel, false, false);
  }

  lemma {:induction false} PassedStatus(p: Plan, id: string)
    requires ValidPlan(p) && id in p.initial && id in p.readings && id in p.answers && !Asked(p, id)
    ensures p.initial[id] in {Unset, MissingA, MissingB} && FinalStatus(p, id) !in {Analyzed, Cancelled}
  {}

  lemma {:induction false} PassPlaced(p: Plan, statuses: map<string, Status>, n: nat, pending: set<string>,
                                      timed: set<string>, cancel: bool)
    requires ValidPlan(p) && n < |p.windows| && p.windows[n].id in p.initial && !Asked(p, p.windows[n].id)
    requires Placed(p, statuses, IdsUpTo(p.windows, n), pending, timed, cancel, None)
    ensures Placed(p, statuses[p.windows[n].id := FinalStatus(p, p.windows[n].id)],
                   IdsUpTo(p.windows, n + 1), pending, timed, cancel, None)
  {
    hide Placed, ValidPlan, IdsUpTo;
    NextUntouched(p, statuses, n, pending, timed, cancel);
    IdsGrow(p.windows, n);
    MoveOne(p, statuses, IdsUpTo(p.windows, n), pending, timed, cancel, None, p.windows[n].id,
            FinalStatus(p, p.windows[n].id), IdsUpTo(p.windows, n + 1), pending, timed, None);
  }

  lemma {:induction false} HoldPlaced(p: Plan, statuses: map<string, Status>, n: nat, pending: set<string>,
                                      timed: set<string>, cancel: bool)
    requires ValidPlan(p) && n < |p.windows| && Asked(p, p.windows[n].id)
    requires Placed(p, statuses, IdsUpTo(p.windows, n), pending, timed, cancel, None)
    ensures Placed(p, statuses, IdsUpTo(p.windows, n + 1), pending, timed, cancel, Some(p.windows[n].id))
  {
    var id := p.windows[n].id;
    NextUntouched(p, statuses, n, pending, timed, cancel);
    IdsGrow(p.windows, n);
    MoveOne(p, statuses, IdsUpTo(p.windows, n), pending, timed, cancel, None, id,
            statuses[id], IdsUpTo(p.windows, n + 1), pending, timed, Some(id));
    assert statuses[id := statuses[id]] == statuses;
  }

  lemma {:induction false} SubmitPlaced(p: Plan, statuses: map<string, Status>, seen: set<string>, pending: set<string>,
                                        timed: set<string>, cancel: bool, id: string)
    requires Placed(p, statuses, seen, pending, timed, cancel, Some(id))
    ensures Placed(p, statuses, seen, pending + {id}, timed, cancel, None) && id !in pending && id !in timed
  {
    assert Phase(p, id, statuses[id], id in pending, id in timed, cancel, true, true);
    MoveOne(p, statuses, seen, pending, timed, cancel, Some(id), id, statuses[id], seen, pending + {id}, timed, None);
    assert statuses[id := statuses[id]] == statuses;
  }

  lemma {:induction false} DropPlaced(p: Plan, statuses: map<string, Status>, seen: set<string>, pending: set<string>,
                                      timed: set<string>, id: string)
    requires Placed(p, statuses, seen, pending, timed, true, Some(id))
    ensures Placed(p, statuses[id := Cancelled], seen, pending, timed, true, None)
    ensures id in p.initial && id in statuses && id !in timed && statuses[id] == Unset
  {
    assert Phase(p, id, statuses[id], id in pending, id in timed, true, true, true);
    MoveOne(p, statuses, seen, pending, timed, true, Some(id), id, Cancelled, seen, pending, timed, None);
  }

  lemma {:induction false} CollectPlaced(p: Plan, statuses: map<string, Status>, seen: set<string>, pending: set<string>,
                                         timed: set<string>, cancel: bool, hand: Option<string>, id: string)
    requires Placed(p, statuses, seen, pending, timed, cancel, hand) && id in pending && id in p.answers
    ensures Placed(p, statuses[id := AnswerStatus(p.answers[id])], seen, pending - {id}, timed + {id}, cancel, hand)
    ensures id in statuses && statuses[id] == Unset && id !in timed
  {
    assert Phase(p, id, statuses[id], true, id in timed, cancel, id in seen, hand == Some(id));
    MoveOne(p, statuses, seen, pending, timed, cancel, hand, id, AnswerStatus(p.answers[id]),
            seen, pending - {id}, timed + {id}, hand);
  }

  lemma {:induction false} CancelKeeps(p: Plan, statuses: map<string, Status>, seen: set<string>, pending: set<string>,
                                       timed: set<string>, cancel: bool, hand: Option<string>)
    requires Placed(p, statuses, seen, pending, timed, cancel, hand)
    ensures Placed(p, statuses, seen, pending, timed, true, hand)
  {}

  /** A window that ends without an answer adds no rows. */
  lemma {:induction false} GatherNothing(p: Plan, statuses: map<string, Status>, rows: seq<Row>, k: nat, status: Status)
    requires ValidPlan(p) && k < |p.windows| && Gathered(p, statuses, rows)
    requires p.windows[k].id in statuses && statuses[p.windows[k].id] != Analyzed && status != Analyzed
    ensures Gathered(p, statuses[p.windows[k].id := status], rows)
  {
    GridRowsSettle(p.windows, statuses, p.answers, k, status);
    assert RowsAt(p.windows[k], statuses[p.windows[k].id := status], p.answers) == [];
  }

  function AnswerRows(w: Window, a: Answer): seq<Row>
    requires ValidWindow(w)
  {
    if a.changes.Some? then ToRows(w, a.changes.value) else []
  }

  /** A collected answer adds its rows. */
  lemma {:induction false} GatherAnswer(p: Plan, statuses: map<string, Status>, rows: seq<Row>, k: nat)
    requires ValidPlan(p) && k < |p.windows| && Gathered(p, statuses, rows)
    requires p.windows[k].id in statuses && statuses[p.windows[k].id] != Analyzed && p.windows[k].id in p.answers
    ensures var w := p.windows[k];
            Gathered(p, statuses[w.id := AnswerStatus(p.answers[w.id])], rows + AnswerRows(w, p.answers[w.id]))
  {
    var w := p.windows[k];
    var status := AnswerStatus(p.answers[w.id]);
    GridRowsSettle(p.windows, statuses, p.answers, k, status);
    assert RowsAt(w, statuses[w.id := status], p.answers) == AnswerRows(w, p.answers[w.id]);
  }

  lemma {:induction false} NothingYet(p: Plan)
    requires ValidPlan(p)
    ensures Placed(p, p.initial, IdsUpTo(p.windows, 0), {}, {}, false, None)
    ensures Logged([], {}, {}, p.concurrency) && Sourced(p.windows, [], map[], {})
    ensures Counted(p, {}, 0, 0) && Gathered(p, p.initial, []) && Failures(p, p.initial, {}, map[])
  {
    hide Placed, Logged, Failures, GridRows, TotalAttempts, TotalRequests;
    NothingPlaced(p);
    NothingLogged(p.concurrency);
    NothingFailed(p);
    NoRowsYet(p.windows, p.initial, p.answers);
    NoTotalsYet(p.windows, p.answers);
  }

  lemma {:induction false} NothingPlaced(p: Plan)
    requires ValidPlan(p)
    ensures Placed(p, p.initial, IdsUpTo(p.windows, 0), {}, {}, false, None)
  {}

  lemma {:induction false} NothingLogged(limit: nat)
    ensures Logged([], {}, {}, limit)
  {
    var log: seq<Event> := [];
    assert Outstanding(log) == {} && log[..0] == log;
  }

  lemma {:induction false} NothingFailed(p: Plan)
    requires ValidPlan(p)
    ensures Failures(p, p.initial, {}, map[])
  {}

  lemma {:induction false} NoRowsYet(windows: seq<Window>, statuses: map<string, Status>, answers: map<string, Answer>)
    requires forall id :: id in statuses ==> statuses[id] != Analyzed
    ensures GridRows(windows, statuses, answers) == []
  {
    if windows != [] { NoRowsYet(windows[..|windows| - 1], statuses, answers); }
  }

  lemma {:induction false} NoTotalsYet(windows: seq<Window>, answers: map<string, Answer>)
    ensures TotalAttempts(windows, {}, answers) == 0 && TotalRequests(windows, {}, answers) == 0
  {
    if windows != [] { NoTotalsYet(windows[..|windows| - 1], answers); }
  }

  /** A window passed without a call leaves the rows and the failures as they are. */
  lemma {:induction false} PassCounts(p: Plan, statuses: map<string, Status>, timed: set<string>, rows: seq<Row>,
                                      failures: map<string, string>, k: nat, status: Status)
    requires ValidPlan(p) && k < |p.windows| && Gathered(p, statuses, rows) && Failures(p, statuses, timed, failures)
    requires var id := p.windows[k].id;
             id in statuses && id !in timed && statuses[id] in {Unset, MissingA, MissingB}
    requires status !in {Analyzed, Cancelled}
    ensures var statuses' := statuses[p.windows[k].id := status];
            Gathered(p, statuses', rows) && Failures(p, statuses', timed, failures)
  {
    GatherNothing(p, statuses, rows, k, status);
    assert FailureAt(p, p.windows[k].id, statuses[p.windows[k].id], false, failures);
  }

  lemma {:induction false} DropCounts(p: Plan, statuses: map<string, Status>, timed: set<string>, rows: seq<Row>,
                                      failures: map<string, string>, id: string)
    requires ValidPlan(p) && Gathered(p, statuses, rows) && Failures(p, statuses, timed, failures)
    requires id in p.initial && id in statuses && id !in timed && statuses[id] == Unset
    ensures var statuses' := statuses[id := Cancelled];
            Gathered(p, statuses', rows) && Failures(p, statuses', timed, failures[id := "cancelled"])
  {
    hide Gathered, Failures;
    var k :| 0 <= k < |p.windows| && p.windows[k].id == id;
    GatherNothing(p, statuses, rows, k, Cancelled);
    FailureDropped(p, statuses, timed, failures, id);
  }

  lemma {:induction false} FailureDropped(p: Plan, statuses: map<string, Status>, timed: set<string>,
                                          failures: map<string, string>, id: string)
    requires Failures(p, statuses, timed, failures) && id in statuses && id !in timed
    ensures Failures(p, statuses[id := Cancelled], timed, failures[id := "cancelled"])
  {
    assert FailureAt(p, id, statuses[id], false, failures);
    forall i | i in statuses && i != id
      ensures FailureAt(p, i, statuses[i], i in timed, failures[id := "cancelled"])
    {
      assert FailureAt(p, i, statuses[i], i in timed, failures);
    }
  }

  lemma {:induction false} FailureAnswered(p: Plan, statuses: map<string, Status>, timed: set<string>,
                                           failures: map<string, string>, id: string)
    requires Failures(p, statuses, timed, failures) && id in statuses && id !in timed && id in p.answers
    requires statuses[id] == Unset
    ensures var a := p.answers[id];
            Failures(p, statuses[id := AnswerStatus(a)], timed + {id},
                     if a.changes.Some? then failures else failures[id := a.failure])
  {
    assert FailureAt(p, id, statuses[id], false, failures);
  }

  /** A collected answer brings its rows, its attempts and its failure, and nothing else. */
  lemma {:induction false} CollectCounts(p: Plan, statuses: map<string, Status>, timed: set<string>, rows: seq<Row>,
                                         failures: map<string, string>, attempted: nat, requests: nat, k: nat)
    requires ValidPlan(p) && k < |p.windows| && Gathered(p, statuses, rows)
    requires Failures(p, statuses, timed, failures) && Counted(p, timed, attempted, requests)
    requires var id := p.windows[k].id;
             id in p.answers && id in statuses && id !in timed && statuses[id] == Unset
    ensures var w := p.windows[k];
            var a := p.answers[w.id];
            var statuses' := statuses[w.id := AnswerStatus(a)];
            Gathered(p, statuses', rows + AnswerRows(w, a)) &&
            Failures(p, statuses', timed + {w.id}, if a.changes.Some? then failures else failures[w.id := a.failure]) &&
            Counted(p, timed + {w.id}, attempted + a.attempts, requests + if a.attempts > 0 then 1 else 0)
  {
    GatherAnswer(p, statuses, rows, k);
    FailureAnswered(p, statuses, timed, failures, p.windows[k].id);
    TotalsCollect(p.windows, timed, p.answers, k);
  }

  lemma {:induction false} LogMore(log: seq<Event>, pending: set<string>, timed: set<string>, limit: nat, e: Event,
                                   pending': set<string>, timed': set<string>)
    requires Logged(log, pending, timed, limit) && |pending'| <= limit
    requires e.Submit? ==> e.id !in pending && e.id !in timed && pending' == pending + {e.id} && timed' == timed
    requires e.Collected? ==> e.id in pending && e.id !in timed && pending' == pending - {e.id} && timed' == timed + {e.id}
    ensures Logged(log + [e], pending', timed', limit)
  {
    var log' := log + [e];
    assert log'[..|log|] == log;
    forall n | 0 <= n <= |log'| ensures |Outstanding(log'[..n])| <= limit {
      if n <= |log| {
        assert log'[..n] == log[..n];
      } else {
        assert log'[..n] == log';
      }
    }
    assert forall f :: f in log' <==> f in log || f == e;
  }

  lemma {:induction false} PullMore(windows: seq<Window>, pulled: seq<Window>, pending: map<string, Window>,
                                    timed: set<string>, w: Window)
    requires Sourced(windows, pulled, pending, timed) && w in windows
    ensures Sourced(windows, pulled + [w], pending, timed)
  {
    forall id | id in timed ensures Pulled(pulled + [w], id) {
      var k :| 0 <= k < |pulled| && pulled[k].id == id;
      assert (pulled + [w])[k].id == id;
    }
  }

  lemma {:induction false} SubmitSourced(windows: seq<Window>, pulled: seq<Window>, pending: map<string, Window>,
                                         timed: set<string>, w: Window)
    requires Sourced(windows, pulled, pending, timed) && w in pulled
    ensures Sourced(windows, pulled, pending[w.id := w], timed)
  {}

  lemma {:induction false} CollectSourced(windows: seq<Window>, pulled: seq<Window>, pending: map<string, Window>,
                                          timed: set<string>, id: string)
    requires Sourced(windows, pulled, pending, timed) && id in pending
    ensures Sourced(windows, pulled, pending - {id}, timed + {id})
  {
    var k :| 0 <= k < |pulled| && pulled[k] == pending[id];
    assert Pulled(pulled, id);
  }

  lemma {:induction false} PendingWindow(windows: seq<Window>, pulled: seq<Window>, pending: map<string, Window>,
                                         timed: set<string>, id: string) returns (k: nat)
    requires Sourced(windows, pulled, pending, timed) && id in pending
    ensures k < |windows| && windows[k] == pending[id] && windows[k].id == id
  {
    var j :| 0 <= j < |pulled| && pulled[j] == pending[id];
    k :| 0 <= k < |windows| && windows[k] == pulled[j];
  }
}
