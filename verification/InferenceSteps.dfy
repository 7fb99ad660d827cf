/** The state of a run as one value, and the steps of the main loop, each of which keeps
    the run invariant. */
module InferenceSteps {
  import opened Wrappers
  import opened Boxes
  import opened ChangeBoxes
  import opened Inference

  datatype State = State(statuses: map<string, Status>, next: nat, pulled: seq<Window>,
                         pending: map<string, Window>, rows: seq<Row>, failures: map<string, string>,
                         timed: set<string>, attempted: nat, requests: nat, cancel: bool, log: seq<Event>)

  /** `hand` is the window that was read but neither submitted nor dropped yet. */
  ghost predicate Good(p: Plan, s: State, hand: Option<string>) {
    ValidPlan(p) && s.next <= |p.windows| && |s.pending| <= p.concurrency &&
    Placed(p, s.statuses, IdsUpTo(p.windows, s.next), s.pending.Keys, s.timed, s.cancel, hand) &&
    Logged(s.log, s.pending.Keys, s.timed, p.concurrency) && Sourced(p.windows, s.pulled, s.pending, s.timed) &&
    Counted(p, s.timed, s.attempted, s.requests) && Gathered(p, s.statuses, s.rows) &&
    Failures(p, s.statuses, s.timed, s.failures) && FlagOk(p, s.pending.Keys, s.timed, s.cancel)
  }

  function Start(p: Plan): State {
    State(p.initial, 0, [], map[], [], map[], {}, 0, 0, false, [])
  }

  lemma {:induction false} StartGood(p: Plan)
    requires ValidPlan(p)
    ensures Good(p, Start(p), None)
  {
    NothingYet(p);
  }

  /** Somebody may raise the flag now: the caller, or a call that is out and stops all. */
  predicate MayRaise(p: Plan, s: State) {
    p.interruptible || exists id :: id in s.pending.Keys && Stops(p, id)
  }

  lemma {:induction false} CancelGood(p: Plan, s: State, hand: Option<string>)
    requires Good(p, s, hand) && MayRaise(p, s)
    ensures Good(p, s.(cancel := true), hand)
  {
    hide Placed, Logged, Sourced, Counted, Gathered, Failures, FlagOk, IdsUpTo, ValidPlan;
    FlagRaise(p, s.pending.Keys, s.timed, s.cancel);
    CancelKeeps(p, s.statuses, IdsUpTo(p.windows, s.next), s.pending.Keys, s.timed, s.cancel, hand);
  }

  /** The next window gets no call: its status is already decided. */
  function PassNext(p: Plan, s: State): State
    requires s.next < |p.windows|
  {
    var id := p.windows[s.next].id;
    if id in p.initial && id in p.readings && id in p.answers
    then s.(statuses := s.statuses[id := FinalStatus(p, id)], next := s.next + 1) else s
  }

  lemma {:induction false} NextKnown(p: Plan, s: State)
    requires Good(p, s, None) && s.next < |p.windows|
    ensures var id := p.windows[s.next].id;
            id in p.initial && id in p.readings && id in p.answers && id in s.statuses &&
            s.statuses[id] == p.initial[id]
  {
    NextUntouched(p, s.statuses, s.next, s.pending.Keys, s.timed, s.cancel);
  }

  lemma {:induction false} PassGood(p: Plan, s: State)
    requires Good(p, s, None) && s.next < |p.windows| && !Asked(p, p.windows[s.next].id)
    ensures Good(p, PassNext(p, s), None)
  {
    hide Placed, Logged, Sourced, Counted, Gathered, Failures, FlagOk, IdsUpTo, ValidPlan, FinalStatus, Asked;
    var id := p.windows[s.next].id;
    NextUntouched(p, s.statuses, s.next, s.pending.Keys, s.timed, s.cancel);
    PassPlaced(p, s.statuses, s.next, s.pending.Keys, s.timed, s.cancel);
    PassedStatus(p, id);
    PassCounts(p, s.statuses, s.timed, s.rows, s.failures, s.next, FinalStatus(p, id));
  }

  lemma {:induction false} HoldGood(p: Plan, s: State)
    requires Good(p, s, None) && s.next < |p.windows| && Asked(p, p.windows[s.next].id)
    ensures Good(p, s.(next := s.next + 1), Some(p.windows[s.next].id))
  {
    hide Placed, Logged, Sourced, Counted, Gathered, Failures, FlagOk, IdsUpTo, ValidPlan, Asked;
    HoldPlaced(p, s.statuses, s.next, s.pending.Keys, s.timed, s.cancel);
  }

  lemma {:induction false} PullGood(p: Plan, s: State, hand: Option<string>, w: Window)
    requires Good(p, s, hand) && w in p.windows
    ensures Good(p, s.(pulled := s.pulled + [w]), hand)
  {
    hide Placed, Logged, Sourced, Counted, Gathered, Failures, FlagOk, IdsUpTo, ValidPlan;
    PullMore(p.windows, s.pulled, s.pending, s.timed, w);
  }

  lemma {:induction false} PendingMore(pending: map<string, Window>, w: Window)
    ensures pending[w.id := w].Keys == pending.Keys + {w.id}
    ensures |pending[w.id := w]| == |pending.Keys + {w.id}| <= |pending| + 1
  {
    assert |pending[w.id := w]| == |pending[w.id := w].Keys|;
  }

  lemma {:induction false} PendingLess(pending: map<string, Window>, id: string)
    ensures (pending - {id}).Keys == pending.Keys - {id}
    ensures |pending - {id}| == |pending.Keys - {id}| <= |pending|
  {
    assert |pending - {id}| == |(pending - {id}).Keys|;
    assert |pending.Keys - {id}| <= |pending.Keys|;
  }

  function SubmitCall(s: State, w: Window): State {
    s.(pending := s.pending[w.id := w], log := s.log + [Submit(w.id)])
  }

  lemma {:induction false} SubmitGood(p: Plan, s: State, w: Window)
    requires Good(p, s, Some(w.id)) && w in s.pulled && |s.pending| < p.concurrency
    ensures Good(p, SubmitCall(s, w), None)
  {
    hide Placed, Logged, Sourced, Counted, Gathered, Failures, FlagOk, IdsUpTo, ValidPlan;
    SubmitPlaced(p, s.statuses, IdsUpTo(p.windows, s.next), s.pending.Keys, s.timed, s.cancel, w.id);
    SubmitSourced(p.windows, s.pulled, s.pending, s.timed, w);
    PendingMore(s.pending, w);
    FlagSubmit(p, s.pending.Keys, s.timed, s.cancel, w.id);
    LogMore(s.log, s.pending.Keys, s.timed, p.concurrency, Submit(w.id), s.pending.Keys + {w.id}, s.timed);
  }

  function DropWindow(s: State, id: string): State {
    s.(statuses := s.statuses[id := Cancelled], failures := s.failures[id := "cancelled"])
  }

  lemma {:induction false} DropGood(p: Plan, s: State, id: string)
    requires Good(p, s, Some(id)) && s.cancel
    ensures Good(p, DropWindow(s, id), None)
  {
    hide Placed, Logged, Sourced, Counted, Gathered, Failures, FlagOk, IdsUpTo, ValidPlan;
    DropPlaced(p, s.statuses, IdsUpTo(p.windows, s.next), s.pending.Keys, s.timed, id);
    DropCounts(p, s.statuses, s.timed, s.rows, s.failures, id);
  }

  function CollectCall(p: Plan, s: State, id: string): State
    requires id in s.pending && id in p.answers && ValidWindow(s.pending[id])
  {
    var a := p.answers[id];
    State(s.statuses[id := AnswerStatus(a)], s.next, s.pulled, s.pending - {id}, s.rows + AnswerRows(s.pending[id], a),
          if a.changes.Some? then s.failures else s.failures[id := a.failure], s.timed + {id},
          s.attempted + a.attempts, s.requests + (if a.attempts > 0 then 1 else 0), s.cancel,
          s.log + [Collected(id)])
  }

  lemma {:induction false} PendingKnown(p: Plan, s: State, hand: Option<string>, id: string) returns (k: nat)
    requires Good(p, s, hand) && id in s.pending
    ensures k < |p.windows| && p.windows[k] == s.pending[id] && p.windows[k].id == id
    ensures id in p.answers && ValidWindow(s.pending[id])
  {
    hide Placed, Logged, Sourced, Counted, Gathered, Failures, FlagOk, IdsUpTo, ValidPlan;
    k := PendingWindow(p.windows, s.pulled, s.pending, s.timed, id);
    InPlan(p, k);
  }

  lemma {:induction false} CollectFields(p: Plan, s: State, id: string)
    requires id in s.pending && id in p.answers && ValidWindow(s.pending[id])
    ensures var s', a := CollectCall(p, s, id), p.answers[id];
            s'.next == s.next && s'.pulled == s.pulled && s'.cancel == s.cancel && s'.pending == s.pending - {id} &&
            s'.log == s.log + [Collected(id)] && s'.timed == s.timed + {id} &&
            s'.attempted == s.attempted + a.attempts && s'.requests == s.requests + (if a.attempts > 0 then 1 else 0) &&
            s'.statuses == s.statuses[id := AnswerStatus(a)] && s'.rows == s.rows + AnswerRows(s.pending[id], a) &&
            s'.failures == if a.changes.Some? then s.failures else s.failures[id := a.failure]
  {
    hide AnswerStatus, AnswerRows, ValidWindow;
  }

  /** What a collection changes besides the totals. */
  lemma {:induction false} CollectMoves(p: Plan, s: State, s': State, hand: Option<string>, id: string)
    requires Good(p, s, hand) && id in s.pending && id in p.answers && (p.answers[id].stops ==> s.cancel)
    requires s'.next == s.next && s'.pulled == s.pulled && s'.cancel == s.cancel && s'.pending == s.pending - {id}
    requires s'.log == s.log + [Collected(id)] && s'.timed == s.timed + {id}
    requires s'.statuses == s.statuses[id := AnswerStatus(p.answers[id])]
    ensures Placed(p, s'.statuses, IdsUpTo(p.windows, s'.next), s'.pending.Keys, s'.timed, s'.cancel, hand)
    ensures Sourced(p.windows, s'.pulled, s'.pending, s'.timed)
    ensures Logged(s'.log, s'.pending.Keys, s'.timed, p.concurrency) && |s'.pending| <= p.concurrency
    ensures FlagOk(p, s'.pending.Keys, s'.timed, s'.cancel)
    ensures id in s.statuses && id !in s.timed && s.statuses[id] == Unset
  {
    hide Placed, Logged, Sourced, Counted, Gathered, Failures, FlagOk, IdsUpTo, ValidPlan, AnswerStatus;
    var pending', timed' := s.pending.Keys - {id}, s.timed + {id};
    PendingLess(s.pending, id);
    CollectPlaced(p, s.statuses, IdsUpTo(p.windows, s.next), s.pending.Keys, s.timed, s.cancel, hand, id);
    CollectSourced(p.windows, s.pulled, s.pending, s.timed, id);
    FlagCollect(p, s.pending.Keys, s.timed, s.cancel, id);
    LogMore(s.log, s.pending.Keys, s.timed, p.concurrency, Collected(id), pending', timed');
  }

  lemma {:induction false} CollectGood(p: Plan, s: State, hand: Option<string>, id: string)
    requires Good(p, s, hand) && id in s.pending && id in p.answers && ValidWindow(s.pending[id])
    requires p.answers[id].stops ==> s.cancel
    ensures Good(p, CollectCall(p, s, id), hand)
  {
    hide Placed, Logged, Sourced, Counted, Gathered, Failures, FlagOk, IdsUpTo, ValidPlan, AnswerRows, AnswerStatus, ValidWindow,
         CollectCall;
    var k := PendingKnown(p, s, hand, id);
    CollectFields(p, s, id);
    CollectMoves(p, s, CollectCall(p, s, id), hand, id);
    CollectCounts(p, s.statuses, s.timed, s.rows, s.failures, s.attempted, s.requests, k);
  }

  lemma {:induction false} AtLeastOne(p: Plan, s: State, hand: Option<string>)
    requires Good(p, s, hand) && |s.pending| >= p.concurrency
    ensures s.pending.Keys != {} && |s.pending.Keys| <= p.concurrency
  {
    hide Placed, Logged, Sourced, Counted, Gathered, Failures, FlagOk, IdsUpTo;
  }

  /** Collecting something makes room for the next call. */
  lemma {:induction false} RoomNow(before: set<string>, done: set<string>, limit: nat)
    requires |before| <= limit && done != {} && done <= before
    ensures |before - done| < limit
  {
    var id :| id in done;
    assert before == (before - done) + done && |done| >= |{id}|;
  }
}
