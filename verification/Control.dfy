/** At-most-once maintenance actions, over every interleaving of request threads with the
    single executor thread, with crashes at any point and restarts under any configuration. */
module Control {
  import opened Wrappers

  datatype Target = Target(actions: seq<string>, disabled: bool)

  datatype Request = Request(id: string, service: string, action: string, actor: string)

  /** A row of the actions table; its id is its key. */
  datatype Row = Row(service: string, action: string, actor: string)

  /** How a running action ends; Completed is the command's own success, Unforeseen an
      exception that no handler names, Unrecorded a result row that could not be written.
      The others may come before the command was issued, as when the container lookup fails. */
  datatype Outcome = Completed | TimedOut | Rejected | Unforeseen | Unrecorded

  /** The action that the executor has taken up, and whether its command was issued. */
  datatype Performing = Performing(id: string, issued: bool)

  /** `inserted` holds the ids whose request thread has written the row and not yet handed it
      to the executor; `started` and `issued` are history: what was taken up, and whose
      command was issued. */
  datatype State = State(up: bool, targets: map<string, Target>, actions: map<string, Row>, results: map<string, string>,
                         inserted: set<string>, queue: seq<string>, running: Option<Performing>, started: set<string>,
                         issued: set<string>)

  datatype Action = Boot(targets: map<string, Target>) | Submit(request: Request) | HandOver(id: string)
                  | Start | Issue | Finish(outcome: Outcome) | Crash

  datatype Reply = Down | NotAllowed | IdUsed | ServiceBusy | Accepted

  const EMPTY := State(false, map[], map[], map[], {}, [], None, {}, {})

  predicate Allowed(targets: map<string, Target>, r: Request) {
    r.service in targets && !targets[r.service].disabled && r.action in targets[r.service].actions
  }

  function RowOf(r: Request): Row {
    Row(r.service, r.action, r.actor)
  }

  /** Some action of the service has no result yet. */
  predicate Pending(s: State, service: string) {
    exists id :: id in s.actions && s.actions[id].service == service && id !in s.results
  }

  function ReplyTo(s: State, r: Request): Reply {
    if !s.up then Down
    else if !Allowed(s.targets, r) then NotAllowed
    else if r.id in s.actions then (if s.actions[r.id] == RowOf(r) then Accepted else IdUsed)
    else if Pending(s, r.service) then ServiceBusy
    else Accepted
  }

  /** The request is new and accepted: its row is written. */
  predicate Inserts(s: State, r: Request) {
    ReplyTo(s, r) == Accepted && r.id !in s.actions
  }

  /** Starting up marks what was interrupted; it may or may not have run. */
  function Uncertain(s: State): map<string, string> {
    map id | id in s.actions :: if id in s.results then s.results[id] else "unknown"
  }

  function StatusOf(outcome: Outcome): string {
    match outcome
    case Completed => "success"
    case TimedOut => "unknown"
    case Rejected => "error"
    case Unforeseen => "success"
    case Unrecorded => ""
  }

  predicate Starts(s: State, a: Action) {
    a.Start? && s.up && s.running.None? && s.queue != []
  }

  /** The executor issues the command of the action it has taken up. */
  predicate Issues(s: State, a: Action) {
    a.Issue? && s.up && s.running.Some? && !s.running.value.issued
  }

  /** Only an issued command completes. */
  predicate Finishes(s: State, a: Action) {
    a.Finish? && s.up && s.running.Some? && (a.outcome.Completed? ==> s.running.value.issued)
  }

  /** One step; a step that is not possible now changes nothing. */
  function Apply(s: State, a: Action): State {
    match a
    case Boot(targets) =>
      if s.up then s
      else State(true, targets, s.actions, s.results + Uncertain(s), {}, [], None, s.started, s.issued)
    case Submit(r) =>
      if Inserts(s, r) then s.(actions := s.actions[r.id := RowOf(r)], inserted := s.inserted + {r.id}) else s
    case HandOver(id) =>
      if s.up && id in s.inserted then s.(inserted := s.inserted - {id}, queue := s.queue + [id]) else s
    case Start =>
      if Starts(s, a)
      then s.(running := Some(Performing(s.queue[0], false)), queue := s.queue[1..], started := s.started + {s.queue[0]})
      else s
    case Issue =>
      if Issues(s, a)
      then s.(running := Some(Performing(s.running.value.id, true)), issued := s.issued + {s.running.value.id})
      else s
    case Finish(outcome) =>
      if Finishes(s, a)
      then s.(running := None,
              results := if outcome.Unrecorded? then s.results else s.results[s.running.value.id := StatusOf(outcome)])
      else s
    case Crash => s.(up := false, inserted := {}, queue := [], running := None)
  }

  function Run(s: State, steps: seq<Action>): State {
    if steps == [] then s else Apply(Run(s, steps[..|steps| - 1]), steps[|steps| - 1])
  }

  // ---- the invariant ----

  predicate QueueOk(queue: seq<string>, inserted: set<string>) {
    (forall i, j :: 0 <= i < j < |queue| ==> queue[i] != queue[j]) &&
    forall i :: 0 <= i < |queue| ==> queue[i] !in inserted
  }

  /** What waits has not been started and has no result; what runs has been started. */
  predicate PlacesOk(s: State) {
    (forall id :: id in s.inserted ==> id in s.actions && id !in s.results && id !in s.started) &&
    (forall i :: 0 <= i < |s.queue| ==> s.queue[i] in s.actions && s.queue[i] !in s.results && s.queue[i] !in s.started) &&
    (s.running.Some? ==> var id := s.running.value.id;
       id in s.actions && id !in s.results && id in s.started && (id in s.issued <==> s.running.value.issued)) &&
    (!s.up ==> s.inserted == {} && s.queue == [] && s.running.None?)
  }

  predicate OnePending(actions: map<string, Row>, results: map<string, string>) {
    forall i, j :: i in actions && j in actions && i !in results && j !in results && i != j ==>
      actions[i].service != actions[j].service
  }

  predicate HistoryOk(s: State) {
    s.results.Keys <= s.actions.Keys && s.issued <= s.started <= s.actions.Keys &&
    forall id :: id in s.results && s.results[id] != "unknown" ==> id in s.started
  }

  predicate Inv(s: State) {
    QueueOk(s.queue, s.inserted) && PlacesOk(s) && OnePending(s.actions, s.results) && HistoryOk(s)
  }

  lemma {:induction false} SubmitKeeps(s: State, r: Request)
    requires Inv(s) && Inserts(s, r)
    ensures Inv(Apply(s, Submit(r)))
  {
    var s' := Apply(s, Submit(r));
    forall i, j | i in s'.actions && j in s'.actions && i !in s'.results && j !in s'.results && i != j
      ensures s'.actions[i].service != s'.actions[j].service
    {
      if i == r.id { assert j in s.actions; }
      if j == r.id { assert i in s.actions; }
    }
  }

  lemma {:induction false} StartKeeps(s: State)
    requires Inv(s) && Starts(s, Start)
    ensures Inv(Apply(s, Start)) && s.queue[0] !in s.started
  {
    hide OnePending;
    var id := s.queue[0];
    assert forall i :: 0 <= i < |s.queue[1..]| ==> s.queue[1..][i] == s.queue[i + 1] && s.queue[i + 1] != id;
  }

  lemma {:induction false} OtherStepsKeep(s: State, a: Action)
    requires Inv(s) && (a.Boot? || a.HandOver? || a.Issue? || a.Finish? || a.Crash?)
    ensures Inv(Apply(s, a))
  {
    if a.Finish? && s.running.Some? {
      forall i | 0 <= i < |s.queue| ensures s.queue[i] != s.running.value.id {
        assert s.queue[i] !in s.started;
      }
    }
  }

  lemma {:induction false} StepKeeps(s: State, a: Action)
    requires Inv(s)
    ensures Inv(Apply(s, a))
  {
    hide Inv;
    match a
    case Submit(r) => if Inserts(s, r) { SubmitKeeps(s, r); }
    case Start => if Starts(s, a) { StartKeeps(s); }
    case _ => OtherStepsKeep(s, a);
  }

  lemma {:induction false} RunKeeps(s: State, steps: seq<Action>)
    requires Inv(s)
    ensures Inv(Run(s, steps))
  {
    hide Inv, Apply;
    if steps != [] {
      RunKeeps(s, steps[..|steps| - 1]);
      StepKeeps(Run(s, steps[..|steps| - 1]), steps[|steps| - 1]);
    }
  }

  lemma {:induction false} EmptyOk()
    ensures Inv(EMPTY)
  {}

  // ---- at most once ----

  function StartCount(s: State, steps: seq<Action>, id: string): nat {
    if steps == [] then 0
    else
      var front := steps[..|steps| - 1];
      var now := Run(s, front);
      StartCount(s, front, id) + if Starts(now, steps[|steps| - 1]) && now.queue[0] == id then 1 else 0
  }

  function Started(s: State, id: string): nat {
    if id in s.started then 1 else 0
  }

  lemma {:induction false} StepStarts(s: State, a: Action, id: string)
    requires Inv(s)
    ensures Started(Apply(s, a), id) == Started(s, id) + if Starts(s, a) && s.queue[0] == id then 1 else 0
  {
    hide Inv;
    if Starts(s, a) { StartKeeps(s); }
  }

  lemma {:induction false} StartsCounted(s: State, steps: seq<Action>, id: string)
    requires Inv(s)
    ensures Started(s, id) + StartCount(s, steps, id) == Started(Run(s, steps), id)
  {
    hide Inv, Apply, Started, Starts;
    if steps != [] {
      var front := steps[..|steps| - 1];
      StartsCounted(s, front, id);
      RunKeeps(s, front);
      StepStarts(Run(s, front), steps[|steps| - 1], id);
    }
  }

  /** Through any crashes and restarts, a request id is taken up by the executor at
      most once, and never if it was not accepted. */
  lemma {:induction false} StartedOnce(steps: seq<Action>, id: string)
    ensures StartCount(EMPTY, steps, id) <= 1
    ensures StartCount(EMPTY, steps, id) == 1 ==> id in Run(EMPTY, steps).actions
  {
    EmptyOk();
    StartsCounted(EMPTY, steps, id);
    RunKeeps(EMPTY, steps);
  }

  /** No service ever has two unresolved actions. */
  lemma {:induction false} OneUnresolved(steps: seq<Action>, i: string, j: string)
    requires var s := Run(EMPTY, steps);
             i in s.actions && j in s.actions && s.actions[i].service == s.actions[j].service &&
             i !in s.results && j !in s.results
    ensures i == j
  {
    EmptyOk();
    RunKeeps(EMPTY, steps);
  }

  // ---- rows are written once ----

  lemma {:induction false} StepPreserves(s: State, a: Action, id: string)
    requires Inv(s)
    ensures id in s.actions ==> id in Apply(s, a).actions && Apply(s, a).actions[id] == s.actions[id]
    ensures id in s.results ==> id in Apply(s, a).results && Apply(s, a).results[id] == s.results[id]
    ensures a.Boot? && !s.up && id in s.actions ==> id in Apply(s, a).results
    ensures id in s.results ==> !(Starts(s, a) && s.queue[0] == id)
  {
    hide OnePending, QueueOk, HistoryOk;
  }

  /** An action keeps its one row and its one result, and a resolved action is never
      started: in particular nothing is retried after a restart. */
  lemma {:induction false} Preserved(s: State, steps: seq<Action>, id: string)
    requires Inv(s)
    ensures id in s.actions ==> id in Run(s, steps).actions && Run(s, steps).actions[id] == s.actions[id]
    ensures id in s.results ==>
              id in Run(s, steps).results && Run(s, steps).results[id] == s.results[id] && StartCount(s, steps, id) == 0
  {
    hide Inv, Apply, Starts;
    if steps != [] {
      var front := steps[..|steps| - 1];
      Preserved(s, front, id);
      RunKeeps(s, front);
      StepPreserves(Run(s, front), steps[|steps| - 1], id);
    }
  }

  /** After a restart every action accepted before it is resolved for good. */
  lemma {:induction false} NeverRetried(s: State, targets: map<string, Target>, rest: seq<Action>, id: string)
    requires Inv(s) && id in s.actions
    ensures var booted := Apply(Apply(s, Crash), Boot(targets));
            id in booted.results && id in Run(booted, rest).actions && Run(booted, rest).actions[id] == s.actions[id] &&
            booted.results[id] == (if id in s.results then s.results[id] else "unknown") &&
            id in Run(booted, rest).results && Run(booted, rest).results[id] == booted.results[id] &&
            StartCount(booted, rest, id) == 0
  {
    hide Inv;
    var down := Apply(s, Crash);
    var booted := Apply(down, Boot(targets));
    StepKeeps(s, Crash);
    StepKeeps(down, Boot(targets));
    Preserved(booted, rest, id);
  }

  /** A repeated request, as long as it is still allowed, is accepted again and changes
      nothing; the id with any other content is refused and changes nothing either. */
  lemma {:induction false} Repeated(s: State, first: Request, between: seq<Action>, again: Request)
    requires Inv(s) && Inserts(s, first) && again.id == first.id
    ensures var now := Run(Apply(s, Submit(first)), between);
            Apply(now, Submit(again)) == now &&
            (now.up && Allowed(now.targets, again) ==>
               ReplyTo(now, again) == if RowOf(again) == RowOf(first) then Accepted else IdUsed)
  {
    hide Inv;
    StepKeeps(s, Submit(first));
    Preserved(Apply(s, Submit(first)), between, first.id);
  }

  // ---- the command itself ----

  function IssueCount(s: State, steps: seq<Action>, id: string): nat {
    if steps == [] then 0
    else
      var front := steps[..|steps| - 1];
      var now := Run(s, front);
      IssueCount(s, front, id) + if Issues(now, steps[|steps| - 1]) && now.running.value.id == id then 1 else 0
  }

  function Issued(s: State, id: string): nat {
    if id in s.issued then 1 else 0
  }

  lemma {:induction false} StepIssues(s: State, a: Action, id: string)
    requires Inv(s)
    ensures Issued(Apply(s, a), id) == Issued(s, id) + if Issues(s, a) && s.running.value.id == id then 1 else 0
  {
    hide OnePending, QueueOk;
  }

  lemma {:induction false} IssuesCounted(s: State, steps: seq<Action>, id: string)
    requires Inv(s)
    ensures Issued(s, id) + IssueCount(s, steps, id) == Issued(Run(s, steps), id)
  {
    hide Inv, Apply, Issued, Issues;
    if steps != [] {
      var front := steps[..|steps| - 1];
      IssuesCounted(s, front, id);
      RunKeeps(s, front);
      StepIssues(Run(s, front), steps[|steps| - 1], id);
    }
  }

  /** Through any crashes and restarts, the command of a request id is issued at most once,
      and only after the executor has taken the action up. */
  lemma {:induction false} IssuedOnce(steps: seq<Action>, id: string)
    ensures IssueCount(EMPTY, steps, id) <= StartCount(EMPTY, steps, id) <= 1
  {
    EmptyOk();
    IssuesCounted(EMPTY, steps, id);
    StartsCounted(EMPTY, steps, id);
    RunKeeps(EMPTY, steps);
  }

  /** A result other than "unknown" is never made up: the action was taken up. */
  lemma {:induction false} ResultsMeanStarted(steps: seq<Action>, id: string)
    requires var s := Run(EMPTY, steps); id in s.results && s.results[id] != "unknown"
    ensures StartCount(EMPTY, steps, id) == 1
  {
    EmptyOk();
    RunKeeps(EMPTY, steps);
    StartsCounted(EMPTY, steps, id);
  }

  /** The step ends this action, before its command was issued, by an exception that no
      handler names. */
  predicate EndsUnforeseen(s: State, a: Action, id: string) {
    a == Finish(Unforeseen) && Finishes(s, a) && s.running.value == Performing(id, false)
  }

  ghost predicate Foreseen(steps: seq<Action>, id: string) {
    forall k :: 0 <= k < |steps| ==> !EndsUnforeseen(Run(EMPTY, steps[..k]), steps[k], id)
  }

  predicate SuccessIssued(s: State, id: string) {
    id in s.results && s.results[id] == "success" ==> id in s.issued
  }

  lemma {:induction false} StepSucceeds(s: State, a: Action, id: string)
    requires Inv(s) && SuccessIssued(s, id) && !EndsUnforeseen(s, a, id)
    ensures SuccessIssued(Apply(s, a), id)
  {
    hide OnePending, QueueOk;
  }

  lemma {:induction false} RunSucceeds(steps: seq<Action>, id: string)
    requires Foreseen(steps, id)
    ensures SuccessIssued(Run(EMPTY, steps), id)
  {
    hide Inv, Apply, EndsUnforeseen;
    if steps != [] {
      var front := steps[..|steps| - 1];
      forall k | 0 <= k < |front| ensures !EndsUnforeseen(Run(EMPTY, front[..k]), front[k], id) {
        assert front[..k] == steps[..k];
      }
      RunSucceeds(front, id);
      EmptyOk();
      RunKeeps(EMPTY, front);
      StepSucceeds(Run(EMPTY, front), steps[|steps| - 1], id);
    }
  }

  /** Unless an exception that no handler names ended this very action before its command,
      a success means that the command was issued, once. */
  lemma {:induction false} SuccessMeansIssued(steps: seq<Action>, id: string)
    requires Foreseen(steps, id)
    requires var s := Run(EMPTY, steps); id in s.results && s.results[id] == "success"
    ensures IssueCount(EMPTY, steps, id) == 1
  {
    EmptyOk();
    RunSucceeds(steps, id);
    IssuesCounted(EMPTY, steps, id);
  }
}
