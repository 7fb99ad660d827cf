/** The inference loop as it runs: a main thread that reads image pairs, submits calls to
    a bounded pool and collects those that finished. Which calls are finished at a wait,
    the order in which they are collected, and when a cancellation arrives are all left
    open, so the contracts hold for every schedule. */
module InferenceRun {
  import opened Wrappers
  import opened Boxes
  import opened ChangeBoxes
  import opened ConflictFlags
  import opened Reconciliation
  import opened VisionChange
  import opened Inference
  import opened InferenceSteps
  import opened InferenceEnd

  /** Reads the two vintages in order and stops at the first that fails. */
  method ReadPair(readings: (Reading, Reading)) returns (status: Status)
    ensures status == ReadStatus(readings)
    ensures status == Errored <==> readings.0 == ReadError || (readings.0 == Png && readings.1 == ReadError)
    ensures status == MissingA <==> readings.0 == NoImagery
    ensures status == MissingB <==> readings.0 == Png && readings.1 == NoImagery
    ensures status == Unset <==> readings.0 == Png && readings.1 == Png
  {
    var tags := [(readings.0, MissingA), (readings.1, MissingB)];
    status := Unset;
    var k := 0;
    while k < |tags| && status == Unset
      invariant 0 <= k <= 2
      invariant k == 0 ==> status == Unset
      invariant k == 1 && readings.0 == Png ==> status == Unset
      invariant k >= 1 && readings.0 != Png ==> status == ReadStatus(readings)
      invariant k == 2 ==> status == ReadStatus(readings)
    {
      match tags[k].0 {
        case ReadError => status := Errored;
        case NoImagery => status := tags[k].1;
        case Png =>
      }
      k := k + 1;
    }
  }

  class Run {
    const plan: Plan
    var statuses: map<string, Status>
    var next: nat
    var pulled: seq<Window>
    var pending: map<string, Window>
    var rows: seq<Row>
    var failures: map<string, string>
    var timed: set<string>
    var attempted: nat
    var requests: nat
    var cancel: bool
    ghost var log: seq<Event>

    ghost function S(): State
      reads this
    {
      State(statuses, next, pulled, pending, rows, failures, timed, attempted, requests, cancel, log)
    }

    ghost predicate Valid(hand: Option<string>)
      reads this
    {
      Good(plan, S(), hand)
    }

    constructor (p: Plan)
      requires ValidPlan(p)
      ensures plan == p && Valid(None) && S() == Start(p)
    {
      plan := p;
      statuses, next, pulled, pending := p.initial, 0, [], map[];
      rows, failures, timed, attempted, requests, cancel, log := [], map[], {}, 0, 0, false, [];
      StartGood(p);
    }

    /** The caller, or a call that is out and stops all, may raise the cancel flag. */
    method MayCancel(ghost hand: Option<string>)
      requires Valid(hand)
      modifies `cancel
      ensures Valid(hand) && (old(cancel) ==> cancel)
    {
      hide Good;
      var raised := *;
      if raised && (plan.interruptible || exists id :: id in pending.Keys && Stops(plan, id)) {
        CancelGood(plan, S(), hand);
        cancel := true;
      }
    }

    // ---- reading image pairs ----

    method Pass(status: Status)
      requires Valid(None) && next < |plan.windows|
      requires var id := plan.windows[next].id;
               id in plan.initial && id in plan.readings && id in plan.answers &&
               !Asked(plan, id) && status == FinalStatus(plan, id)
      modifies `statuses, `next
      ensures Valid(None) && S() == PassNext(plan, old(S()))
    {
      hide Good, FinalStatus, Asked;
      PassGood(plan, S());
      statuses := statuses[plan.windows[next].id := status];
      next := next + 1;
    }

    /** The next window whose two images could be read; the others are settled on the way. */
    method NextPair() returns (w: Option<Window>)
      requires Valid(None)
      modifies `statuses, `next
      ensures next >= old(next)
      ensures w.None? ==> Valid(None) && next >= |plan.windows|
      ensures w.Some? ==> Valid(Some(w.value.id)) && w.value in plan.windows && next > old(next)
      ensures w.Some? ==> next <= |plan.windows|
    {
      hide Good;
      while next < |plan.windows|
        invariant Valid(None) && next >= old(next)
      {
        var window := plan.windows[next];
        NextKnown(plan, S());
        var status := statuses[window.id];
        if status == Unset {
          status := ReadPair(plan.readings[window.id]);
        }
        if status == Unset {
          HoldGood(plan, S());
          next := next + 1;
          return Some(window);
        }
        Pass(status);
      }
      return None;
    }

    // ---- submitting and dropping ----

    method Pull(window: Window, ghost hand: Option<string>)
      requires Valid(hand) && window in plan.windows
      modifies `pulled
      ensures Valid(hand) && pulled == old(pulled) + [window]
    {
      hide Good;
      PullGood(plan, S(), hand, window);
      pulled := pulled + [window];
    }

    method Submit(window: Window)
      requires Valid(Some(window.id)) && window in pulled && |pending| < plan.concurrency
      modifies `pending, `log
      ensures Valid(None) && S() == SubmitCall(old(S()), window)
    {
      hide Good;
      SubmitGood(plan, S(), window);
      pending := pending[window.id := window];
      log := log + [Event.Submit(window.id)];
    }

    method Drop(window: Window)
      requires Valid(Some(window.id)) && cancel
      modifies `statuses, `failures
      ensures Valid(None) && S() == DropWindow(old(S()), window.id)
    {
      hide Good;
      DropGood(plan, S(), window.id);
      statuses := statuses[window.id := Cancelled];
      failures := failures[window.id := "cancelled"];
    }

    // ---- collecting ----

    /** Blocks until at least one call is done; which ones are, is up to the pool. A call
        that stops all has raised the flag by then. */
    method Wait(ghost hand: Option<string>) returns (done: set<string>)
      requires Valid(hand) && pending.Keys != {}
      modifies `cancel
      ensures Valid(hand) && done != {} && done <= pending.Keys && (old(cancel) ==> cancel)
      ensures forall id :: id in done && Stops(plan, id) ==> cancel
    {
      hide Good;
      assert pending.Keys <= pending.Keys;
      done :| done != {} && done <= pending.Keys;
      if exists id :: id in done && Stops(plan, id) {
        CancelGood(plan, S(), hand);
        cancel := true;
      }
    }

    method CollectOne(id: string, ghost hand: Option<string>)
      requires Valid(hand) && id in pending && id in plan.answers && ValidWindow(pending[id])
      requires plan.answers[id].stops ==> cancel
      modifies this
      ensures Valid(hand) && S() == CollectCall(plan, old(S()), id)
    {
      hide Good, AnswerRows, AnswerStatus, ValidWindow, TotalAttempts, Outstanding;
      CollectGood(plan, S(), hand, id);
      var window, answer := pending[id], plan.answers[id];
      ghost var before := S();
      Finish(id, answer.attempts);
      Record(id, window, answer);
      assert S() == CollectCall(plan, before, id);
    }

    /** Takes a call out of the pending ones and counts its attempts. */
    method Finish(id: string, tries: nat)
      modifies `pending, `timed, `log, `attempted, `requests
      ensures pending == old(pending) - {id} && timed == old(timed) + {id} && log == old(log) + [Collected(id)]
      ensures attempted == old(attempted) + tries && requests == old(requests) + if tries > 0 then 1 else 0
    {
      pending, timed, log := pending - {id}, timed + {id}, log + [Collected(id)];
      attempted, requests := attempted + tries, requests + if tries > 0 then 1 else 0;
    }

    /** Turns an answer into a failure or into rows. */
    method Record(id: string, window: Window, answer: Answer)
      requires ValidWindow(window)
      modifies `statuses, `failures, `rows
      ensures statuses == old(statuses)[id := AnswerStatus(answer)]
      ensures failures == if answer.changes.Some? then old(failures) else old(failures)[id := answer.failure]
      ensures rows == old(rows) + AnswerRows(window, answer)
    {
      if answer.changes.None? {
        statuses := statuses[id := if answer.failure == "cancelled" then Cancelled else Errored];
        failures := failures[id := answer.failure];
      } else {
        var found := CandidateRows(window, answer.changes.value);
        rows := rows + found;
        statuses := statuses[id := Analyzed];
      }
    }

    method Collect(done: set<string>, ghost hand: Option<string>)
      requires Valid(hand) && done <= pending.Keys && forall id :: id in done && Stops(plan, id) ==> cancel
      modifies this
      ensures Valid(hand) && pending.Keys == old(pending.Keys) - done
      ensures next == old(next) && pulled == old(pulled) && cancel == old(cancel)
    {
      hide Good;
      var left := done;
      while left != {}
        invariant Valid(hand) && left <= done && pending.Keys == old(pending.Keys) - (done - left)
        invariant next == old(next) && pulled == old(pulled) && cancel == old(cancel)
      {
        var id :| id in left;
        ghost var k := PendingKnown(plan, S(), hand, id);
        CollectOne(id, hand);
        left := left - {id};
      }
    }

    // ---- the main loop ----

    method Drain()
      requires Valid(None)
      modifies this
      ensures Valid(None) && pending == map[] && next == old(next) && (old(cancel) ==> cancel)
    {
      hide Good;
      while pending.Keys != {}
        invariant Valid(None) && next == old(next) && (old(cancel) ==> cancel)
        decreases pending.Keys
      {
        MayCancel(None);
        var done := Wait(None);
        Collect(done, None);
      }
      assert pending == map[];
      MayCancel(None);
    }

    /** Submits or drops the window that was just read. */
    method Offer(window: Window) returns (dropped: bool)
      requires Valid(Some(window.id)) && window in plan.windows
      modifies this
      ensures Valid(None) && next == old(next) && (dropped ==> cancel)
    {
      hide Good;
      ghost var hand := Some(window.id);
      Pull(window, hand);
      assert window == pulled[|pulled| - 1];
      if |pending| >= plan.concurrency {
        assert pending.Keys != {} && |pending.Keys| <= plan.concurrency by { AtLeastOne(plan, S(), hand); }
        ghost var before := pending.Keys;
        var done := Wait(hand);
        Collect(done, hand);
        RoomNow(before, done, plan.concurrency);
      }
      MayCancel(hand);
      if cancel {
        Drop(window);
        return true;
      }
      Submit(window);
      return false;
    }

    method Process()
      requires Valid(None)
      modifies this
      ensures Drained(plan, S())
    {
      hide Good;
      var dropped := false;
      var pair := NextPair();
      while pair.Some? && !dropped
        invariant pair.Some? && !dropped ==> Valid(Some(pair.value.id)) && pair.value in plan.windows && next <= |plan.windows|
        invariant pair.None? || dropped ==> Valid(None) && (next >= |plan.windows| || cancel)
        decreases |plan.windows| - next, pair.Some? && !dropped
      {
        dropped := Offer(pair.value);
        if !dropped {
          pair := NextPair();
        }
      }
      Drain();
    }
  }

  /** Windows left open by a cancellation are recorded as cancelled. */
  method SweepOpen(statuses: map<string, Status>, failures: map<string, string>)
    returns (statuses': map<string, Status>, failures': map<string, string>)
    ensures statuses' == SweptStatuses(statuses) && failures' == SweptFailures(statuses, failures)
  {
    hide SweptIn, FailuresIn, SweptStatuses, SweptFailures;
    statuses', failures' := statuses, failures;
    var left := statuses.Keys;
    SweepStarts(statuses, failures);
    assert statuses.Keys - left == {};
    while left != {}
      invariant left <= statuses.Keys
      invariant statuses' == SweptIn(statuses, statuses.Keys - left)
      invariant failures' == FailuresIn(statuses, failures, statuses.Keys - left)
    {
      var id :| id in left;
      SweepsNext(statuses, failures, statuses.Keys - left, id);
      assert statuses.Keys - left + {id} == statuses.Keys - (left - {id});
      if statuses'[id] == Unset {
        statuses' := statuses'[id := Cancelled];
        failures' := failures'[id := "cancelled"];
      }
      left := left - {id};
    }
    assert statuses.Keys - left == statuses.Keys;
  }

  method Infer(p: Plan)
    returns (outcome: Outcome, candidates: seq<Candidate>, statuses: map<string, Status>, ghost end: State)
    requires ValidPlan(p)
    ensures Ends(p, statuses, end.timed, end.cancel) && Logged(end.log, {}, end.timed, p.concurrency)
    ensures !end.cancel ==> statuses == FinalStatuses(p) && end.timed == AskedIds(p)
    ensures !p.interruptible ==> (end.cancel <==> SomeAnswerStops(p))
    ensures AllDecided(p, statuses, end.cancel)
    ensures outcome.Failed? <==> Analyzed !in statuses.Values && Errored in statuses.Values
    ensures !p.interruptible && NothingReadable(p) ==> outcome == Failed({})
    ensures statuses.Keys <= p.answers.Keys
    ensures outcome.Failed? ==> ReasonsListed(p, statuses, end.timed, outcome.reasons)
    ensures outcome.Finished? ==> Summarizes(p, statuses, end.timed, outcome.summary)
    ensures outcome.Finished? ==> Values(candidates) == Expected(p, statuses)
  {
    hide Drained, Final, SomeAnswerStops, Ends, Logged, FinalStatuses, AskedIds, Summarizes, Expected, ValidPlan, Good, Start,
         AllDecided, NothingReadable, ReasonsListed;
    var run := new Run(p);
    run.Process();
    end := run.S();
    statuses := run.statuses;
    var failures := run.failures;
    if run.cancel {
      statuses, failures := SweepOpen(statuses, failures);
    }
    FinishedRun(p, end, statuses, failures);
    candidates := [];
    if Analyzed !in statuses.Values && Errored in statuses.Values {
      outcome := Failed(failures.Values);
      return;
    }
    candidates := Reconcile(run.rows, run.pulled);
    FinalSummary(p, end, statuses, failures, |candidates|);
    var complete := failures == map[] && forall id :: id in statuses ==> statuses[id] == Analyzed;
    outcome := Finished(Summary(failures, run.timed, run.requests, run.attempted, complete,
                                |run.rows|, |candidates|));
  }

  /** Everything the final state promises about the result. */
  lemma {:induction false} FinishedRun(p: Plan, s: State, statuses: map<string, Status>, failures: map<string, string>)
    requires ValidPlan(p) && Drained(p, s)
    requires statuses == if s.cancel then SweptStatuses(s.statuses) else s.statuses
    requires failures == if s.cancel then SweptFailures(s.statuses, s.failures) else s.failures
    ensures Final(p, s, statuses, failures)
    ensures Ends(p, statuses, s.timed, s.cancel) && Logged(s.log, {}, s.timed, p.concurrency)
    ensures !s.cancel ==> statuses == FinalStatuses(p) && s.timed == AskedIds(p)
    ensures !p.interruptible ==> (s.cancel <==> SomeAnswerStops(p))
    ensures statuses.Keys <= p.answers.Keys && ReasonsListed(p, statuses, s.timed, failures.Values)
    ensures AllDecided(p, statuses, s.cancel)
    ensures !p.interruptible && NothingReadable(p) ==>
              Analyzed !in statuses.Values && Errored in statuses.Values && failures.Values == {}
    ensures AllLocated(s.rows, IndexWindows(s.pulled))
    ensures Reconciled(s.rows, IndexWindows(s.pulled)) == Expected(p, statuses)
  {
    hide Drained, SomeAnswerStops, Ends, Logged, FinalStatuses, AskedIds, ReasonsOf, Expected, ValidPlan, Failures,
         AllDecided, NothingReadable, FailuresListed;
    FinalFacts(p, s, statuses, failures);
    if !p.interruptible { CancelledExactly(p, s, statuses); }
    if !s.cancel { FinalUndisturbed(p, s, statuses, failures); }
    FinalReasons(p, s, statuses, failures);
    FinalAnswer(p, s, statuses, failures);
    EndsDecided(p, statuses, s.timed, s.cancel);
    FailuresAreListed(p, statuses, s.timed, failures);
    if !p.interruptible && NothingReadable(p) { UnreadableFails(p, statuses, s.timed, s.cancel); }
  }
}
