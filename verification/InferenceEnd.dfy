/** What a finished run means: how every window ends, and what the result says. */
module InferenceEnd {
  import opened Wrappers
  import opened Boxes
  import opened ChangeBoxes
  import opened Clustering
  import opened VisionChange
  import opened ConflictFlags
  import opened Reconciliation
  import opened ReconciliationFacts
  import opened Inference
  import opened InferenceSteps

  /** Every window ends as its coverage, its images and its answer decide, except that one
      left open by a cancellation ends as cancelled. */
  predicate AllDecided(p: Plan, statuses: map<string, Status>, cancel: bool) {
    forall id :: id in p.initial ==>
      id in statuses && id in p.readings && id in p.answers &&
      (DecidedBy(p.initial[id], p.readings[id], p.answers[id], statuses[id]) ||
       (cancel && p.initial[id] == Unset && statuses[id] == Cancelled))
  }

  lemma {:induction false} EndsDecided(p: Plan, statuses: map<string, Status>, timed: set<string>, cancel: bool)
    requires ValidPlan(p) && Ends(p, statuses, timed, cancel)
    ensures AllDecided(p, statuses, cancel)
    ensures !cancel ==> forall id :: id in p.initial ==>
              (id in timed <==> p.initial[id] == Unset && p.readings[id].0 == Png && p.readings[id].1 == Png)
  {
    hide ValidPlan, FinalStatus, Asked, DecidedBy;
    forall id | id in p.initial
      ensures id in statuses && id in p.readings && id in p.answers
      ensures DecidedBy(p.initial[id], p.readings[id], p.answers[id], statuses[id]) ||
              (cancel && p.initial[id] == Unset && statuses[id] == Cancelled)
      ensures !cancel ==> (id in timed <==> p.initial[id] == Unset && p.readings[id].0 == Png && p.readings[id].1 == Png)
    {
      FinalDecided(p, id);
      assert EndAt(p, id, statuses[id], id in timed, cancel);
    }
  }

  /** No open window has two readable images, and some read went wrong. */
  ghost predicate NothingReadable(p: Plan) {
    (forall id :: id in p.initial && p.initial[id] == Unset && id in p.readings ==>
       p.readings[id].0 != Png || p.readings[id].1 != Png) &&
    exists id :: id in p.initial && p.initial[id] == Unset && id in p.readings && ReadFails(p.readings[id])
  }

  predicate ReadFails(r: (Reading, Reading)) {
    r.0 == ReadError || (r.0 == Png && r.1 == ReadError)
  }

  /** Then the run has an error, names no reason for it, and has analyzed nothing. */
  lemma {:induction false} UnreadableFails(p: Plan, statuses: map<string, Status>, timed: set<string>, cancel: bool)
    requires ValidPlan(p) && Ends(p, statuses, timed, cancel) && NothingReadable(p) && (cancel ==> SomeAnswerStops(p))
    ensures Analyzed !in statuses.Values && Errored in statuses.Values && ReasonsListed(p, statuses, timed, {})
  {
    hide ValidPlan, Ends, AllDecided;
    forall id | id in p.initial ensures id in p.readings && !Asked(p, id) { FinalDecided(p, id); }
    assert !cancel;
    EndsDecided(p, statuses, timed, cancel);
    EndKeys(p, statuses, timed, cancel);
    NothingAnalyzed(p, statuses, timed);
  }

  lemma {:induction false} EndKeys(p: Plan, statuses: map<string, Status>, timed: set<string>, cancel: bool)
    requires Ends(p, statuses, timed, cancel)
    ensures statuses.Keys == p.initial.Keys && timed <= p.initial.Keys
  {}

  lemma {:induction false} NothingAnalyzed(p: Plan, statuses: map<string, Status>, timed: set<string>)
    requires AllDecided(p, statuses, false) && NothingReadable(p) && statuses.Keys == p.initial.Keys && timed <= p.initial.Keys
    requires forall id :: id in p.initial && id in p.readings ==>
               (id in timed <==> p.initial[id] == Unset && p.readings[id].0 == Png && p.readings[id].1 == Png)
    ensures Analyzed !in statuses.Values && Errored in statuses.Values && ReasonsListed(p, statuses, timed, {})
  {
    forall id | id in statuses ensures statuses[id] !in {Analyzed, Cancelled} && id !in timed {
      assert DecidedBy(p.initial[id], p.readings[id], p.answers[id], statuses[id]);
    }
    var id :| id in p.initial && p.initial[id] == Unset && id in p.readings && ReadFails(p.readings[id]);
    assert DecidedBy(p.initial[id], p.readings[id], p.answers[id], statuses[id]);
    assert statuses[id] == Errored;
  }

  /** A window failed when its call came back without changes, for the reason of the answer,
      or when it was cancelled without a call. */
  predicate FailedFor(p: Plan, statuses: map<string, Status>, timed: set<string>, id: string, reason: string) {
    id in statuses && id in p.answers &&
    if id in timed then p.answers[id].changes.None? && reason == p.answers[id].failure
    else statuses[id] == Cancelled && reason == "cancelled"
  }

  ghost predicate FailuresListed(p: Plan, statuses: map<string, Status>, timed: set<string>, failures: map<string, string>) {
    forall id, reason :: (id in failures && failures[id] == reason) <==> FailedFor(p, statuses, timed, id, reason)
  }

  ghost predicate ReasonsListed(p: Plan, statuses: map<string, Status>, timed: set<string>, reasons: set<string>) {
    forall reason :: reason in reasons <==> exists id :: FailedFor(p, statuses, timed, id, reason)
  }

  lemma {:induction false} FailuresAreListed(p: Plan, statuses: map<string, Status>, timed: set<string>, failures: map<string, string>)
    requires Failures(p, statuses, timed, failures)
    ensures FailuresListed(p, statuses, timed, failures) && ReasonsListed(p, statuses, timed, failures.Values)
  {
    forall id, reason ensures (id in failures && failures[id] == reason) <==> FailedFor(p, statuses, timed, id, reason) {
      if id in statuses { assert FailureAt(p, id, statuses[id], id in timed, failures); }
    }
    forall reason ensures reason in failures.Values <==> exists id :: FailedFor(p, statuses, timed, id, reason) {
      if reason in failures.Values {
        var id :| id in failures && failures[id] == reason;
        assert FailedFor(p, statuses, timed, id, reason);
      }
      if id :| FailedFor(p, statuses, timed, id, reason) { assert id in failures && failures[id] == reason; }
    }
  }

  function FinalStatuses(p: Plan): map<string, Status>
    requires ValidPlan(p)
  {
    map id | id in p.initial :: FinalStatus(p, id)
  }

  function AskedIds(p: Plan): set<string> {
    set id | id in p.initial && Asked(p, id)
  }

  /** A window ends with the status its images and its answer decide, unless a
      cancellation came first. */
  predicate EndAt(p: Plan, id: string, status: Status, timed: bool, cancel: bool) {
    id in p.initial && id in p.readings && id in p.answers &&
    ((status == FinalStatus(p, id) && (timed <==> Asked(p, id)))
     || (cancel && status == Cancelled && !timed && p.initial[id] == Unset))
  }

  predicate Ends(p: Plan, statuses: map<string, Status>, timed: set<string>, cancel: bool) {
    statuses.Keys == p.initial.Keys && timed <= p.initial.Keys &&
    forall id :: id in statuses ==> EndAt(p, id, statuses[id], id in timed, cancel)
  }

  /** No window ends without a status, and an analyzed one was asked about and answered. */
  lemma {:induction false} EveryWindowSettled(p: Plan, statuses: map<string, Status>, timed: set<string>, cancel: bool, id: string)
    requires ValidPlan(p) && Ends(p, statuses, timed, cancel) && id in p.initial
    ensures id in statuses && statuses[id] != Unset
    ensures statuses[id] == Analyzed ==> id in timed && Asked(p, id) && id in p.answers && p.answers[id].changes.Some?
  {
    assert EndAt(p, id, statuses[id], id in timed, cancel);
    assert p.initial[id] in {Unset, MissingA, MissingB};
  }

  /** The answers count as cancelled exactly when the call made no attempt. */
  predicate CancelledUntried(p: Plan) {
    forall id :: id in p.answers ==> (p.answers[id].failure == "cancelled" <==> p.answers[id].attempts == 0)
  }

  /** Nothing was asked of the endpoint for a cancelled window, and a window whose call was
      collected without an attempt is a cancelled one. */
  lemma {:induction false} CancelledCostsNothing(p: Plan, statuses: map<string, Status>, timed: set<string>,
                                                 cancel: bool, id: string)
    requires ValidPlan(p) && Ends(p, statuses, timed, cancel) && CancelledUntried(p) && id in p.initial
    ensures id in statuses && (statuses[id] == Cancelled ==> AttemptsAt(id, timed, p.answers) == 0)
    ensures id in timed && AttemptsAt(id, timed, p.answers) == 0 && p.answers[id].changes.None? ==> statuses[id] == Cancelled
  {
    assert EndAt(p, id, statuses[id], id in timed, cancel);
    assert p.initial[id] in {Unset, MissingA, MissingB};
  }

  function SweptStatuses(statuses: map<string, Status>): map<string, Status> {
    map id | id in statuses :: if statuses[id] == Unset then Cancelled else statuses[id]
  }

  function SweptFailures(statuses: map<string, Status>, failures: map<string, string>): map<string, string> {
    failures + map id | id in statuses && statuses[id] == Unset :: "cancelled"
  }

  /** The sweep after the windows in `done`. */
  function SweptIn(statuses: map<string, Status>, done: set<string>): map<string, Status> {
    map id | id in statuses :: if id in done && statuses[id] == Unset then Cancelled else statuses[id]
  }

  function FailuresIn(statuses: map<string, Status>, failures: map<string, string>, done: set<string>): map<string, string> {
    failures + map id | id in statuses && id in done && statuses[id] == Unset :: "cancelled"
  }

  lemma {:induction false} SweepStarts(statuses: map<string, Status>, failures: map<string, string>)
    ensures SweptIn(statuses, {}) == statuses && FailuresIn(statuses, failures, {}) == failures
    ensures SweptIn(statuses, statuses.Keys) == SweptStatuses(statuses)
    ensures FailuresIn(statuses, failures, statuses.Keys) == SweptFailures(statuses, failures)
  {}

  lemma {:induction false} SweepsNext(statuses: map<string, Status>, failures: map<string, string>, done: set<string>, id: string)
    requires id in statuses && id !in done
    ensures id in SweptIn(statuses, done) && SweptIn(statuses, done)[id] == statuses[id]
    ensures SweptIn(statuses, done + {id})
         == if statuses[id] == Unset then SweptIn(statuses, done)[id := Cancelled] else SweptIn(statuses, done)
    ensures FailuresIn(statuses, failures, done + {id})
         == if statuses[id] == Unset then FailuresIn(statuses, failures, done)[id := "cancelled"] else FailuresIn(statuses, failures, done)
  {
    hide FailuresIn;
    SweptNext(statuses, done, id);
    FailuresNext(statuses, failures, done, id);
  }

  lemma {:induction false} SweptNext(statuses: map<string, Status>, done: set<string>, id: string)
    requires id in statuses && id !in done
    ensures SweptIn(statuses, done + {id})
         == if statuses[id] == Unset then SweptIn(statuses, done)[id := Cancelled] else SweptIn(statuses, done)
  {}

  lemma {:induction false} FailuresNext(statuses: map<string, Status>, failures: map<string, string>, done: set<string>, id: string)
    requires id in statuses && id !in done
    ensures FailuresIn(statuses, failures, done + {id})
         == if statuses[id] == Unset then FailuresIn(statuses, failures, done)[id := "cancelled"] else FailuresIn(statuses, failures, done)
  {
    var before := map i | i in statuses && i in done && statuses[i] == Unset :: "cancelled";
    var after := map i | i in statuses && i in done + {id} && statuses[i] == Unset :: "cancelled";
    assert after == if statuses[id] == Unset then before[id := "cancelled"] else before;
    assert failures + before[id := "cancelled"] == (failures + before)[id := "cancelled"];
  }

  /** Every window of the plan was passed, or the run was cancelled, and no call is out. */
  ghost predicate Drained(p: Plan, s: State) {
    Good(p, s, None) && s.pending == map[] && (s.next >= |p.windows| || s.cancel)
  }

  ghost predicate SomeAnswerStops(p: Plan) {
    exists id :: id in p.initial && Asked(p, id) && Stops(p, id)
  }

  /** Unless the caller interrupts, a run ends cancelled exactly when some window that is
      asked about has an answer that stops all. */
  lemma {:induction false} CancelledExactly(p: Plan, s: State, statuses: map<string, Status>)
    requires Drained(p, s) && Ends(p, statuses, s.timed, s.cancel) && !p.interruptible
    ensures s.cancel <==> SomeAnswerStops(p)
  {
    hide Placed, Logged, Sourced, Counted, Gathered, Failures, IdsUpTo;
    assert s.pending.Keys == {} && {} + s.timed == s.timed;
    if s.cancel {
      var id :| id in s.timed && Stops(p, id);
      assert EndAt(p, id, statuses[id], true, s.cancel);
      assert Asked(p, id);
    } else {
      Undisturbed(p, statuses, s.timed);
    }
  }

  lemma {:induction false} DrainedPhase(p: Plan, s: State, id: string)
    requires Drained(p, s) && id in p.initial
    ensures id in s.statuses
    ensures s.cancel ==> EndAt(p, id, SweptStatuses(s.statuses)[id], id in s.timed, true)
    ensures !s.cancel ==> EndAt(p, id, s.statuses[id], id in s.timed, false)
    ensures s.statuses[id] == Unset ==> id !in s.timed
  {
    hide Logged, Sourced, Counted, Gathered, Failures, EndAt, FinalStatus, Asked;
    assert Phase(p, id, s.statuses[id], false, id in s.timed, s.cancel, id in IdsUpTo(p.windows, s.next), false);
    PhaseEnds(p, id, s.statuses[id], id in s.timed, s.cancel, id in IdsUpTo(p.windows, s.next));
    if s.next >= |p.windows| { assert id in IdsUpTo(p.windows, |p.windows|); }
  }

  /** Where a window may be once no call is out, it may end. */
  lemma {:induction false} PhaseEnds(p: Plan, id: string, status: Status, timed: bool, cancel: bool, seen: bool)
    requires ValidPlan(p) && Phase(p, id, status, false, timed, cancel, seen, false)
    ensures status == Unset ==> !timed
    ensures cancel ==> EndAt(p, id, if status == Unset then Cancelled else status, timed, true)
    ensures !cancel && seen ==> EndAt(p, id, status, timed, false)
  {
    hide IdsUpTo;
  }

  lemma {:induction false} DrainedEnds(p: Plan, s: State)
    requires Drained(p, s)
    ensures Ends(p, if s.cancel then SweptStatuses(s.statuses) else s.statuses, s.timed, s.cancel)
  {
    hide Logged, Sourced, Counted, Gathered, Failures, FlagOk, IdsUpTo, Phase, ValidPlan, EndAt, FinalStatus;
    forall id | id in p.initial
      ensures id in s.statuses
      ensures s.cancel ==> EndAt(p, id, SweptStatuses(s.statuses)[id], id in s.timed, true)
      ensures !s.cancel ==> EndAt(p, id, s.statuses[id], id in s.timed, false)
    {
      DrainedPhase(p, s, id);
    }
  }

  lemma {:induction false} GridRowsSame(windows: seq<Window>, statuses: map<string, Status>,
                                        statuses': map<string, Status>, answers: map<string, Answer>)
    requires forall id :: (id in statuses && statuses[id] == Analyzed) <==> (id in statuses' && statuses'[id] == Analyzed)
    ensures GridRows(windows, statuses, answers) == GridRows(windows, statuses', answers)
  {
    if windows != [] { GridRowsSame(windows[..|windows| - 1], statuses, statuses', answers); }
  }

  /** The final sweep records a cancellation for every window left open. */
  lemma {:induction false} SweepCounts(p: Plan, s: State)
    requires Drained(p, s)
    ensures Gathered(p, SweptStatuses(s.statuses), s.rows)
    ensures Failures(p, SweptStatuses(s.statuses), s.timed, SweptFailures(s.statuses, s.failures))
  {
    hide Logged, Sourced, Counted, IdsUpTo, Phase, ValidPlan, EndAt, FinalStatus, Placed, Failures, SweptFailures, GridRows;
    var after := SweptStatuses(s.statuses);
    GridRowsSame(p.windows, s.statuses, after, p.answers);
    StatusesKnown(p, s);
    forall id | id in s.statuses && s.statuses[id] == Unset ensures id !in s.timed { DrainedPhase(p, s, id); }
    FailuresSwept(p, s.statuses, s.timed, s.failures);
  }

  lemma {:induction false} FailuresSwept(p: Plan, statuses: map<string, Status>, timed: set<string>, failures: map<string, string>)
    requires Failures(p, statuses, timed, failures)
    requires forall id :: id in statuses && statuses[id] == Unset ==> id !in timed
    ensures Failures(p, SweptStatuses(statuses), timed, SweptFailures(statuses, failures))
  {
    var after := SweptStatuses(statuses);
    forall id | id in after ensures FailureAt(p, id, after[id], id in timed, SweptFailures(statuses, failures)) {
      assert FailureAt(p, id, statuses[id], id in timed, failures);
    }
  }

  lemma {:induction false} StatusesKnown(p: Plan, s: State)
    requires Good(p, s, None)
    ensures s.statuses.Keys == p.initial.Keys
  {
    hide Logged, Sourced, Counted, Gathered, Failures, FlagOk, IdsUpTo, Phase, ValidPlan;
  }

  /** Rows come only from windows that were pulled and collected. */
  lemma {:induction false} AnalyzedPulled(p: Plan, s: State, statuses: map<string, Status>, cancel: bool, id: string)
    requires Good(p, s, None) && Ends(p, statuses, s.timed, cancel)
    requires id in statuses && statuses[id] == Analyzed
    ensures id in s.timed && Pulled(s.pulled, id) && p.answers[id].changes.Some?
  {
    hide Logged, Placed, Counted, Gathered, Failures, FlagOk, IdsUpTo, Phase;
    assert EndAt(p, id, statuses[id], id in s.timed, cancel);
    assert p.initial[id] in {Unset, MissingA, MissingB};
  }

  lemma {:induction false} CompleteExact(p: Plan, s: State, statuses: map<string, Status>,
                                         failures: map<string, string>, cancel: bool)
    requires Good(p, s, None) && Ends(p, statuses, s.timed, cancel) && Failures(p, statuses, s.timed, failures)
    requires forall id :: id in statuses ==> statuses[id] == Analyzed
    ensures failures == map[]
  {
    hide Good, EndAt;
    forall id | id in statuses ensures id !in failures {
      AnalyzedPulled(p, s, statuses, cancel, id);
      assert FailureAt(p, id, statuses[id], id in s.timed, failures);
    }
    assert failures.Keys == {};
  }

  /** Without a cancellation nothing depends on the schedule. */
  lemma {:induction false} Undisturbed(p: Plan, statuses: map<string, Status>, timed: set<string>)
    requires ValidPlan(p) && Ends(p, statuses, timed, false)
    ensures statuses == FinalStatuses(p) && timed == AskedIds(p)
  {
    forall id | id in p.initial ensures statuses[id] == FinalStatus(p, id) && (id in timed <==> Asked(p, id)) {
      assert EndAt(p, id, statuses[id], id in timed, false);
    }
  }

  /** The failures that the statuses and the answers determine. */
  function ReasonsOf(p: Plan, statuses: map<string, Status>, timed: set<string>): set<string>
    requires statuses.Keys <= p.answers.Keys
  {
    set id | id in statuses && FailureOf(p, id, statuses[id], id in timed).Some?
           :: FailureOf(p, id, statuses[id], id in timed).value
  }

  lemma {:induction false} ReasonsExact(p: Plan, statuses: map<string, Status>, timed: set<string>, failures: map<string, string>)
    requires statuses.Keys <= p.answers.Keys && Failures(p, statuses, timed, failures)
    ensures failures.Values == ReasonsOf(p, statuses, timed)
  {
    forall id | id in statuses ensures FailureAt(p, id, statuses[id], id in timed, failures) {}
    forall reason | reason in failures.Values ensures reason in ReasonsOf(p, statuses, timed) {
      var id :| id in failures && failures[id] == reason;
      assert FailureAt(p, id, statuses[id], id in timed, failures);
    }
    forall reason | reason in ReasonsOf(p, statuses, timed) ensures reason in failures.Values {
      var id :| id in statuses && FailureOf(p, id, statuses[id], id in timed) == Some(reason);
      assert FailureAt(p, id, statuses[id], id in timed, failures);
    }
  }

  lemma {:induction false} IndexHolds(windows: seq<Window>, id: string)
    ensures id in IndexWindows(windows) ==> IndexWindows(windows)[id] in windows && IndexWindows(windows)[id].id == id
    ensures (exists k :: 0 <= k < |windows| && windows[k].id == id) ==> id in IndexWindows(windows)
  {
    if windows != [] {
      IndexHolds(windows[..|windows| - 1], id);
    }
  }

  lemma {:induction false} GridRowHome(windows: seq<Window>, statuses: map<string, Status>,
                                       answers: map<string, Answer>, r: Row) returns (k: nat)
    requires r in GridRows(windows, statuses, answers)
    ensures k < |windows| && windows[k].id == r.tile && ValidWindow(windows[k])
    ensures r.tile in statuses && statuses[r.tile] == Analyzed
  {
    var n := |windows| - 1;
    if r in RowsAt(windows[n], statuses, answers) {
      k := n;
    } else {
      k := GridRowHome(windows[..n], statuses, answers, r);
    }
  }

  lemma {:induction false} GridRowsLocated(p: Plan, statuses: map<string, Status>)
    requires ValidPlan(p)
    ensures AllLocated(GridRows(p.windows, statuses, p.answers), IndexWindows(p.windows))
  {
    var rows, index := GridRows(p.windows, statuses, p.answers), IndexWindows(p.windows);
    forall i | 0 <= i < |rows| ensures Located(rows[i], index) {
      var k := GridRowHome(p.windows, statuses, p.answers, rows[i]);
      IndexHolds(p.windows, rows[i].tile);
    }
  }

  /** The answer that the statuses and the model's answers determine. */
  function Expected(p: Plan, statuses: map<string, Status>): seq<View>
    requires ValidPlan(p)
  {
    GridRowsLocated(p, statuses);
    Reconciled(GridRows(p.windows, statuses, p.answers), IndexWindows(p.windows))
  }

  // ---- from the model's answers to the candidates ----

  /** Change `j` in the answer for window `k`, which was analyzed. */
  predicate Reported(p: Plan, statuses: map<string, Status>, k: nat, j: nat) {
    k < |p.windows| && ValidWindow(p.windows[k]) && p.windows[k].id in statuses && statuses[p.windows[k].id] == Analyzed &&
    p.windows[k].id in p.answers && p.answers[p.windows[k].id].changes.Some? && j < |p.answers[p.windows[k].id].changes.value|
  }

  function ReportedRow(p: Plan, statuses: map<string, Status>, k: nat, j: nat): Row
    requires Reported(p, statuses, k, j)
  {
    ToRow(p.windows[k], p.answers[p.windows[k].id].changes.value[j])
  }

  lemma {:induction false} ReportedGathered(p: Plan, statuses: map<string, Status>, k: nat, j: nat)
    requires ValidPlan(p) && Reported(p, statuses, k, j)
    ensures ReportedRow(p, statuses, k, j) in GridRows(p.windows, statuses, p.answers)
  {
    var w := p.windows[k];
    var rows := GridRows(p.windows, statuses, p.answers);
    WindowRowsExact(p.windows, statuses, p.answers, k);
    assert TileRows(rows, w.id)[j] == ReportedRow(p, statuses, k, j);
    TileRowsIn(rows, w.id, ReportedRow(p, statuses, k, j));
  }

  lemma {:induction false} GatheredReported(p: Plan, statuses: map<string, Status>, r: Row) returns (k: nat, j: nat)
    requires ValidPlan(p) && r in GridRows(p.windows, statuses, p.answers)
    ensures Reported(p, statuses, k, j) && ReportedRow(p, statuses, k, j) == r
  {
    var rows := GridRows(p.windows, statuses, p.answers);
    k := GridRowHome(p.windows, statuses, p.answers, r);
    InPlan(p, k);
    WindowRowsExact(p.windows, statuses, p.answers, k);
    TileRowsIn(rows, r.tile, r);
    j :| 0 <= j < |TileRows(rows, r.tile)| && TileRows(rows, r.tile)[j] == r;
  }

  /** The observation says what the change says, about the window it was seen in, and its box
      is the change's box. */
  predicate Shows(o: Observation, w: Window, c: Change)
    requires ValidWindow(w)
  {
    o.tile == w.id && o.concept == c.concept && o.changeType == c.changeType && o.confidence == c.confidence &&
    o.before == c.before && o.after == c.after && o.evidence == c.evidence && FromBox(w, o.box) == c.box
  }

  predicate Explains(p: Plan, statuses: map<string, Status>, k: nat, j: nat, o: Observation) {
    Reported(p, statuses, k, j) && Shows(o, p.windows[k], p.answers[p.windows[k].id].changes.value[j])
  }

  ghost predicate Evident(p: Plan, statuses: map<string, Status>, o: Observation)
    requires ValidPlan(p)
  {
    exists v :: v in Expected(p, statuses) && o in v.observations
  }

  lemma {:induction false} EvidentExactly(p: Plan, statuses: map<string, Status>, o: Observation)
    requires ValidPlan(p)
    ensures AllLocated(GridRows(p.windows, statuses, p.answers), IndexWindows(p.windows))
    ensures Evident(p, statuses, o) <==>
              o in ObserveAll(GridRows(p.windows, statuses, p.answers), IndexWindows(p.windows))
  {
    hide GridRows, IndexWindows, Reconciled, Observe;
    GridRowsLocated(p, statuses);
    var rows, cs := GridRows(p.windows, statuses, p.answers), Expected(p, statuses);
    Partition(rows, IndexWindows(p.windows));
    FlattenIn(Evidence(cs), o);
    assert o in multiset(Flatten(Evidence(cs))) <==> o in multiset(ObserveAll(rows, IndexWindows(p.windows)));
    if v :| v in cs && o in v.observations {
      var c :| 0 <= c < |cs| && cs[c] == v;
      assert o in Evidence(cs)[c];
    }
    if c :| 0 <= c < |Evidence(cs)| && o in Evidence(cs)[c] { assert cs[c] in cs; }
  }

  /** Nothing that the model reported of an analyzed window is lost: some candidate holds an
      observation that shows it. */
  lemma {:induction false} ReportsEvident(p: Plan, statuses: map<string, Status>, k: nat, j: nat)
    requires ValidPlan(p) && Reported(p, statuses, k, j)
    ensures exists o :: Evident(p, statuses, o) && Explains(p, statuses, k, j, o)
  {
    hide GridRows, IndexWindows, Expected, ToRow, FromBox, ClippedEdges, ValidPlan;
    var rows, r := GridRows(p.windows, statuses, p.answers), ReportedRow(p, statuses, k, j);
    ReportedGathered(p, statuses, k, j);
    GridRowsLocated(p, statuses);
    var i :| 0 <= i < |rows| && rows[i] == r;
    var o := ObserveAll(rows, IndexWindows(p.windows))[i];
    EvidentExactly(p, statuses, o);
    RowExact(p.windows[k], p.answers[p.windows[k].id].changes.value[j]);
    assert Explains(p, statuses, k, j, o);
  }

  /** And nothing else is held: every observation of a candidate shows such a change. */
  lemma {:induction false} EvidentReported(p: Plan, statuses: map<string, Status>, o: Observation)
    requires ValidPlan(p) && Evident(p, statuses, o)
    ensures exists k, j: nat :: Explains(p, statuses, k, j, o)
  {
    hide GridRows, IndexWindows, Expected, ToRow, FromBox, ClippedEdges, ValidPlan, Evident;
    var rows := GridRows(p.windows, statuses, p.answers);
    EvidentExactly(p, statuses, o);
    var i :| 0 <= i < |rows| && ObserveAll(rows, IndexWindows(p.windows))[i] == o;
    var k, j := GatheredReported(p, statuses, rows[i]);
    RowExact(p.windows[k], p.answers[p.windows[k].id].changes.value[j]);
    assert Explains(p, statuses, k, j, o);
  }

  /** Both indices know the tile of a gathered row, and agree about it. */
  lemma {:induction false} SameHome(p: Plan, statuses: map<string, Status>, pulled: seq<Window>, r: Row)
    requires ValidPlan(p) && r in GridRows(p.windows, statuses, p.answers)
    requires forall k :: 0 <= k < |pulled| ==> pulled[k] in p.windows
    requires forall id :: id in statuses && statuses[id] == Analyzed ==> Pulled(pulled, id)
    ensures Located(r, IndexWindows(pulled)) && Located(r, IndexWindows(p.windows))
    ensures IndexWindows(pulled)[r.tile] == IndexWindows(p.windows)[r.tile]
  {
    hide GridRows, IndexWindows, IdsUpTo;
    var k := GridRowHome(p.windows, statuses, p.answers, r);
    IndexHolds(pulled, r.tile);
    IndexHolds(p.windows, r.tile);
    assert Pulled(pulled, r.tile);
    var a, b := IndexWindows(pulled)[r.tile], IndexWindows(p.windows)[r.tile];
    assert a in p.windows && b in p.windows;
  }

  /** Neither the order in which answers came in nor the unread windows change the result. */
  lemma {:induction false} ArrivalIrrelevant(p: Plan, statuses: map<string, Status>, rows: seq<Row>, pulled: seq<Window>)
    requires ValidPlan(p) && Gathered(p, statuses, rows)
    requires forall k :: 0 <= k < |pulled| ==> pulled[k] in p.windows
    requires forall id :: id in statuses && statuses[id] == Analyzed ==> Pulled(pulled, id)
    ensures AllLocated(rows, IndexWindows(pulled))
    ensures Reconciled(rows, IndexWindows(pulled)) == Expected(p, statuses)
  {
    var grid := GridRows(p.windows, statuses, p.answers);
    forall i | 0 <= i < |rows|
      ensures Located(rows[i], IndexWindows(pulled)) && Located(rows[i], IndexWindows(p.windows))
      ensures IndexWindows(pulled)[rows[i].tile] == IndexWindows(p.windows)[rows[i].tile]
    {
      assert rows[i] in multiset(rows);
      assert rows[i] in multiset(grid);
      SameHome(p, statuses, pulled, rows[i]);
    }
    GridRowsLocated(p, statuses);
    OtherWindowsIrrelevant(rows, IndexWindows(pulled), IndexWindows(p.windows));
    OrderIndependent(rows, grid, IndexWindows(p.windows));
  }

  // ---- the end of a run, seen from its result ----

  ghost predicate Final(p: Plan, s: State, statuses: map<string, Status>, failures: map<string, string>) {
    Drained(p, s) &&
    statuses == (if s.cancel then SweptStatuses(s.statuses) else s.statuses) &&
    failures == (if s.cancel then SweptFailures(s.statuses, s.failures) else s.failures)
  }

  lemma {:induction false} FinalFacts(p: Plan, s: State, statuses: map<string, Status>, failures: map<string, string>)
    requires Final(p, s, statuses, failures)
    ensures Good(p, s, None) && Ends(p, statuses, s.timed, s.cancel) && Logged(s.log, {}, s.timed, p.concurrency)
    ensures Counted(p, s.timed, s.attempted, s.requests)
    ensures Gathered(p, statuses, s.rows) && Failures(p, statuses, s.timed, failures)
  {
    hide Placed, Logged, Sourced, Counted, Gathered, Failures, FlagOk, IdsUpTo, Ends, ValidPlan, SweptStatuses, SweptFailures;
    DrainedEnds(p, s);
    if s.cancel { SweepCounts(p, s); }
    assert s.pending.Keys == {};
  }

  lemma {:induction false} FinalUndisturbed(p: Plan, s: State, statuses: map<string, Status>, failures: map<string, string>)
    requires Final(p, s, statuses, failures) && !s.cancel
    ensures ValidPlan(p) && statuses == FinalStatuses(p) && s.timed == AskedIds(p)
  {
    hide Placed, Logged, Sourced, Counted, Gathered, Failures, FlagOk, IdsUpTo, Ends, ValidPlan, FinalStatuses, AskedIds, Final;
    FinalFacts(p, s, statuses, failures);
    Undisturbed(p, statuses, s.timed);
  }

  lemma {:induction false} FinalReasons(p: Plan, s: State, statuses: map<string, Status>, failures: map<string, string>)
    requires Final(p, s, statuses, failures)
    ensures statuses.Keys <= p.answers.Keys && failures.Values == ReasonsOf(p, statuses, s.timed)
  {
    hide Placed, Logged, Sourced, Counted, Gathered, Failures, FlagOk, IdsUpTo, Final, ReasonsOf, EndAt;
    FinalFacts(p, s, statuses, failures);
    ReasonsExact(p, statuses, s.timed, failures);
  }

  lemma {:induction false} FinalAnswer(p: Plan, s: State, statuses: map<string, Status>, failures: map<string, string>)
    requires Final(p, s, statuses, failures)
    ensures ValidPlan(p) && AllLocated(s.rows, IndexWindows(s.pulled))
    ensures Reconciled(s.rows, IndexWindows(s.pulled)) == Expected(p, statuses)
    ensures |s.rows| == |GridRows(p.windows, statuses, p.answers)|
  {
    hide Placed, Logged, Counted, Failures, IdsUpTo, Final, Ends, Pulled, ValidPlan, Expected, Reconciled;
    FinalFacts(p, s, statuses, failures);
    forall id | id in statuses && statuses[id] == Analyzed ensures Pulled(s.pulled, id) {
      AnalyzedPulled(p, s, statuses, s.cancel, id);
    }
    ArrivalIrrelevant(p, statuses, s.rows, s.pulled);
    assert |multiset(s.rows)| == |s.rows|;
  }

  lemma {:induction false} FinalComplete(p: Plan, s: State, statuses: map<string, Status>, failures: map<string, string>)
    requires Final(p, s, statuses, failures)
    requires forall id :: id in statuses ==> statuses[id] == Analyzed
    ensures failures == map[]
  {
    hide Placed, Logged, Sourced, Counted, Gathered, Failures, FlagOk, IdsUpTo, Final, Ends;
    FinalFacts(p, s, statuses, failures);
    CompleteExact(p, s, statuses, failures, s.cancel);
  }

  datatype Summary = Summary(failures: map<string, string>, timed: set<string>, requests: nat, attempted: nat,
                             complete: bool, rawCandidates: nat, candidates: nat)

  /** Failed stands for the raised error, with the reasons it names. */
  datatype Outcome = Failed(reasons: set<string>) | Finished(summary: Summary)

  /** What the summary says, in terms of the final statuses and the collected calls. */
  ghost predicate Summarizes(p: Plan, statuses: map<string, Status>, timed: set<string>, summary: Summary)
    requires ValidPlan(p)
  {
    summary.timed == timed && FailuresListed(p, statuses, timed, summary.failures) &&
    summary.requests == |Tried(p.windows, timed, p.answers)| &&
    summary.attempted == TotalAttempts(p.windows, timed, p.answers) &&
    (summary.complete <==> forall id :: id in statuses ==> statuses[id] == Analyzed) &&
    summary.rawCandidates == |GridRows(p.windows, statuses, p.answers)| &&
    summary.candidates == |Expected(p, statuses)|
  }

  lemma {:induction false} PlanDistinct(p: Plan)
    requires ValidPlan(p)
    ensures DistinctIds(p.windows)
  {}

  lemma {:induction false} FinalSummary(p: Plan, s: State, statuses: map<string, Status>,
                                        failures: map<string, string>, candidates: nat)
    requires Final(p, s, statuses, failures) && ValidPlan(p) && candidates == |Expected(p, statuses)|
    ensures var complete := failures == map[] && forall id :: id in statuses ==> statuses[id] == Analyzed;
            Summarizes(p, statuses, s.timed,
                       Summary(failures, s.timed, s.requests, s.attempted, complete, |s.rows|, candidates))
  {
    hide Placed, Logged, Sourced, Gathered, Failures, FlagOk, IdsUpTo, Final, Ends, Good, ValidPlan, Expected,
         FailuresListed, ReasonsListed, Tried, DistinctIds, TotalRequests, TotalAttempts;
    FinalFacts(p, s, statuses, failures);
    FinalAnswer(p, s, statuses, failures);
    FailuresAreListed(p, statuses, s.timed, failures);
    PlanDistinct(p);
    RequestsExact(p.windows, s.timed, p.answers);
    if forall id :: id in statuses ==> statuses[id] == Analyzed {
      FinalComplete(p, s, statuses, failures);
    }
  }
}
