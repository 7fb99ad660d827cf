/** The job queue as one machine: clients enqueue and cancel, a single worker claims,
    reports, may die at any point and recovers when it starts again. Every statement is
    about all runs, that is, all interleavings of these steps. */
module Jobs {
  import opened Wrappers

  datatype Status = Queued | Running | Done | Error | Cancelled

  /** A row of the job table; its id is its position. Time stamps are any numbers: they may
      repeat, and a job may appear with an earlier stamp than the jobs before it. */
  datatype Job = Job(workspace: string, created: int, status: Status, attempts: nat,
                     error: Option<string>, result: Option<string>, finished: bool)

  /** What the worker remembers: the claimed job and the attempt number it read. */
  datatype Worker = Down | Idle | Busy(id: nat, attempt: nat)

  datatype Queue = Queue(jobs: seq<Job>, worker: Worker)

  const MAX_ATTEMPTS := 2

  datatype Action = Enqueue(workspace: string, created: int) | Claim(id: nat)
                  | Succeed(result: string) | Fail(message: string) | Cancel(id: nat) | Crash | Recover

  predicate Terminal(s: Status) {
    s in {Done, Error, Cancelled}
  }

  predicate QueuedAt(jobs: seq<Job>, id: nat) {
    id < |jobs| && jobs[id].status == Queued
  }

  /** A queued job that no queued job precedes; ties may be broken either way. */
  predicate Oldest(jobs: seq<Job>, id: nat) {
    QueuedAt(jobs, id) && forall k :: 0 <= k < |jobs| && jobs[k].status == Queued ==> jobs[id].created <= jobs[k].created
  }

  function Claimed(j: Job): Job {
    j.(status := Running, attempts := j.attempts + 1)
  }

  function Succeeded(j: Job, result: string): Job {
    j.(status := Done, result := Some(result), error := None, finished := true)
  }

  function Failed(j: Job, attempt: nat, message: string): Job {
    if attempt < MAX_ATTEMPTS then j.(status := Queued, error := Some(message))
    else j.(status := Error, error := Some(message), finished := true)
  }

  function CancelledJob(j: Job): Job {
    if j.status == Queued
    then j.(status := Cancelled, error := Some("cancelled before start"), finished := true) else j
  }

  /** The sweep at start-up, for one job. */
  function Recovered(j: Job): Job {
    if j.status != Running then j
    else j.(status := if j.attempts < MAX_ATTEMPTS then Queued else Error,
            error := if j.error.Some? then j.error else Some("worker restarted mid-job"),
            finished := j.attempts >= MAX_ATTEMPTS)
  }

  function RecoveredJobs(jobs: seq<Job>): (r: seq<Job>)
    ensures |r| == |jobs| && forall k :: 0 <= k < |jobs| ==> r[k] == Recovered(jobs[k])
  {
    seq(|jobs|, k requires 0 <= k < |jobs| => Recovered(jobs[k]))
  }

  predicate Reporting(q: Queue) {
    q.worker.Busy? && q.worker.id < |q.jobs|
  }

  predicate Claims(q: Queue, a: Action) {
    a.Claim? && q.worker.Idle? && Oldest(q.jobs, a.id)
  }

  /** One step; a step that is not possible now changes nothing. */
  function Apply(q: Queue, a: Action): Queue {
    match a
    case Enqueue(w, t) => q.(jobs := q.jobs + [Job(w, t, Queued, 0, None, None, false)])
    case Claim(id) =>
      if Claims(q, a)
      then Queue(q.jobs[id := Claimed(q.jobs[id])], Busy(id, q.jobs[id].attempts + 1)) else q
    case Succeed(r) =>
      if Reporting(q)
      then Queue(q.jobs[q.worker.id := Succeeded(q.jobs[q.worker.id], r)], Idle) else q
    case Fail(m) =>
      if Reporting(q)
      then Queue(q.jobs[q.worker.id := Failed(q.jobs[q.worker.id], q.worker.attempt, m)], Idle) else q
    case Cancel(id) =>
      if id < |q.jobs| then q.(jobs := q.jobs[id := CancelledJob(q.jobs[id])]) else q
    case Crash => q.(worker := Down)
    case Recover => if q.worker.Down? then Queue(RecoveredJobs(q.jobs), Idle) else q
  }

  function Run(q: Queue, actions: seq<Action>): Queue {
    if actions == [] then q else Apply(Run(q, actions[..|actions| - 1]), actions[|actions| - 1])
  }

  lemma {:induction false} RunAppend(q: Queue, first: seq<Action>, second: seq<Action>)
    ensures Run(q, first + second) == Run(Run(q, first), second)
  {
    hide Apply;
    if second == [] {
      assert first + second == first;
    } else {
      var n := |second| - 1;
      RunAppend(q, first, second[..n]);
      assert (first + second)[..|first + second| - 1] == first + second[..n];
    }
  }

  lemma {:induction false} RunOne(q: Queue, a: Action)
    ensures Run(q, [a]) == Apply(q, a)
  {
    hide Apply;
    assert [a][..0] == [];
    assert Run(q, []) == q;
  }

  lemma {:induction false} RunNone(q: Queue)
    ensures Run(q, []) == q
  {}

  lemma {:induction false} RunNext(q: Queue, actions: seq<Action>, a: Action)
    ensures Run(q, actions + [a]) == Apply(Run(q, actions), a)
  {
    hide Apply;
    RunAppend(q, actions, [a]);
    RunOne(Run(q, actions), a);
  }

  const EMPTY := Queue([], Down)

  // ---- what every step keeps ----

  predicate JobOk(j: Job) {
    j.attempts <= MAX_ATTEMPTS && (j.finished <==> Terminal(j.status)) &&
    match j.status
    case Queued => j.attempts < MAX_ATTEMPTS && (j.attempts >= 1 <==> j.error.Some?)
    case Running => j.attempts >= 1
    case Done => j.attempts >= 1 && j.error.None? && j.result.Some?
    case Error => j.attempts == MAX_ATTEMPTS && j.error.Some?
    case Cancelled => j.attempts < MAX_ATTEMPTS && j.error.Some?
  }

  predicate WorkerOk(q: Queue) {
    match q.worker
    case Idle => forall k :: 0 <= k < |q.jobs| ==> q.jobs[k].status != Running
    case Busy(id, attempt) =>
      id < |q.jobs| && q.jobs[id].attempts == attempt &&
      forall k :: 0 <= k < |q.jobs| ==> (q.jobs[k].status == Running <==> k == id)
    case Down => forall i, k :: 0 <= i < k < |q.jobs| ==> q.jobs[i].status != Running || q.jobs[k].status != Running
  }

  predicate Inv(q: Queue) {
    (forall k :: 0 <= k < |q.jobs| ==> JobOk(q.jobs[k])) && WorkerOk(q)
  }

  lemma {:induction false} StepKeeps(q: Queue, a: Action)
    requires Inv(q)
    ensures Inv(Apply(q, a))
  {}

  /** In every run: attempts never exceed two, a job that ended in error was tried twice,
      and no two jobs run at the same time. */
  lemma {:induction false} RunKeeps(q: Queue, actions: seq<Action>)
    requires Inv(q)
    ensures Inv(Run(q, actions))
  {
    hide Inv;
    if actions != [] {
      RunKeeps(q, actions[..|actions| - 1]);
      StepKeeps(Run(q, actions[..|actions| - 1]), actions[|actions| - 1]);
    }
  }

  lemma {:induction false} OneRunning(actions: seq<Action>, i: nat, k: nat)
    requires var jobs := Run(EMPTY, actions).jobs;
             i < |jobs| && k < |jobs| && jobs[i].status == Running && jobs[k].status == Running
    ensures i == k
  {
    RunKeeps(EMPTY, actions);
  }

  // ---- claims ----

  /** How often the run claims job `id`. */
  function ClaimsOf(q: Queue, actions: seq<Action>, id: nat): nat {
    if actions == [] then 0
    else
      var front, a := actions[..|actions| - 1], actions[|actions| - 1];
      ClaimsOf(q, front, id) + if Claims(Run(q, front), a) && a.id == id then 1 else 0
  }

  function AttemptsOf(q: Queue, id: nat): nat {
    if id < |q.jobs| then q.jobs[id].attempts else 0
  }

  lemma {:induction false} StepAttempts(q: Queue, a: Action, id: nat)
    ensures AttemptsOf(Apply(q, a), id) == AttemptsOf(q, id) + if Claims(q, a) && a.id == id then 1 else 0
  {}

  /** The attempt counter counts claims, through crashes and recoveries. */
  lemma {:induction false} AttemptsCountClaims(q: Queue, actions: seq<Action>, id: nat)
    ensures AttemptsOf(Run(q, actions), id) == AttemptsOf(q, id) + ClaimsOf(q, actions, id)
  {
    if actions != [] {
      AttemptsCountClaims(q, actions[..|actions| - 1], id);
      StepAttempts(Run(q, actions[..|actions| - 1]), actions[|actions| - 1], id);
    }
  }

  /** Nobody is tried a third time; an error means both tries were spent, and a
      cancelled job has at most one behind it. */
  lemma {:induction false} ClaimBound(actions: seq<Action>, id: nat)
    requires id < |Run(EMPTY, actions).jobs|
    ensures var n, status := ClaimsOf(EMPTY, actions, id), Run(EMPTY, actions).jobs[id].status;
            n <= MAX_ATTEMPTS && (status == Error ==> n == MAX_ATTEMPTS) &&
            (status in {Queued, Cancelled} ==> n <= 1) && (status in {Running, Done} ==> n >= 1)
  {
    RunKeeps(EMPTY, actions);
    AttemptsCountClaims(EMPTY, actions, id);
    assert JobOk(Run(EMPTY, actions).jobs[id]);
  }

  // ---- absorbing states ----

  lemma {:induction false} StepAbsorbs(q: Queue, a: Action, id: nat)
    requires Inv(q) && id < |q.jobs|
    ensures id < |Apply(q, a).jobs| && Apply(q, a).jobs[id].created == q.jobs[id].created
    ensures Terminal(q.jobs[id].status) ==> Apply(q, a).jobs[id] == q.jobs[id]
  {}

  /** A finished job is never touched again: not its status, result, error or counters. */
  lemma {:induction false} Absorbing(q: Queue, actions: seq<Action>, id: nat)
    requires Inv(q) && id < |q.jobs|
    ensures id < |Run(q, actions).jobs| && Run(q, actions).jobs[id].created == q.jobs[id].created
    ensures Terminal(q.jobs[id].status) ==> Run(q, actions).jobs[id] == q.jobs[id] && ClaimsOf(q, actions, id) == 0
  {
    if actions != [] {
      var front := actions[..|actions| - 1];
      Absorbing(q, front, id);
      RunKeeps(q, front);
      StepAbsorbs(Run(q, front), actions[|actions| - 1], id);
      AttemptsCountClaims(q, actions, id);
    }
  }

  // ---- what a row holds ----

  /** What the clients enqueued, in order. */
  function Enqueued(actions: seq<Action>): seq<(string, int)> {
    if actions == [] then []
    else
      var front, last := actions[..|actions| - 1], actions[|actions| - 1];
      Enqueued(front) + if last.Enqueue? then [(last.workspace, last.created)] else []
  }

  /** The result that the handler of job `id` returned, if the run reports one. */
  function Returned(q: Queue, actions: seq<Action>, id: nat): Option<string> {
    if actions == [] then None
    else
      var front, last := actions[..|actions| - 1], actions[|actions| - 1];
      var now := Run(q, front);
      if last.Succeed? && now.worker.Busy? && now.worker.id == id then Some(last.result) else Returned(q, front, id)
  }

  lemma {:induction false} StepHolds(q: Queue, a: Action, id: nat)
    requires Inv(q) && id < |q.jobs|
    ensures id < |Apply(q, a).jobs| && Apply(q, a).jobs[id].workspace == q.jobs[id].workspace
    ensures Apply(q, a).jobs[id].created == q.jobs[id].created
    ensures Apply(q, a).jobs[id].result ==
              if a.Succeed? && q.worker.Busy? && q.worker.id == id then Some(a.result) else q.jobs[id].result
  {}

  lemma {:induction false} StepAdds(q: Queue, a: Action)
    ensures |Apply(q, a).jobs| == |q.jobs| + if a.Enqueue? then 1 else 0
    ensures a.Enqueue? ==> Apply(q, a).jobs[|q.jobs|].workspace == a.workspace &&
                           Apply(q, a).jobs[|q.jobs|].created == a.created && Apply(q, a).jobs[|q.jobs|].result == None
  {}

  /** Jobs are the enqueued ones, in order: each keeps the workspace and the time stamp it was
      enqueued with, and its result is the one that its handler returned. */
  lemma {:induction false} RowsExact(actions: seq<Action>, id: nat)
    ensures |Run(EMPTY, actions).jobs| == |Enqueued(actions)|
    ensures id < |Run(EMPTY, actions).jobs| ==>
              var job := Run(EMPTY, actions).jobs[id];
              (job.workspace, job.created) == Enqueued(actions)[id] && job.result == Returned(EMPTY, actions, id)
    ensures id >= |Run(EMPTY, actions).jobs| ==> Returned(EMPTY, actions, id).None?
  {
    hide Apply, Inv;
    if actions != [] {
      var front, last := actions[..|actions| - 1], actions[|actions| - 1];
      var now := Run(EMPTY, front);
      RowsExact(front, id);
      EmptyOk();
      RunKeeps(EMPTY, front);
      StepAdds(now, last);
      if id < |now.jobs| { StepHolds(now, last, id); }
      BusyKnown(now);
    }
  }

  lemma {:induction false} EmptyOk()
    ensures Inv(EMPTY)
  {}

  lemma {:induction false} BusyKnown(q: Queue)
    requires Inv(q)
    ensures q.worker.Busy? ==> q.worker.id < |q.jobs|
  {}

  // ---- order ----

  /** When a job is claimed, every strictly older job in the table is finished: a failed
      job goes back to its old place, so nobody overtakes it for good. */
  lemma {:induction false} NoOvertaking(q: Queue, a: Action, k: nat)
    requires Inv(q) && Claims(q, a) && k < |q.jobs| && q.jobs[k].created < q.jobs[a.id].created
    ensures Terminal(q.jobs[k].status)
  {}

  /** Attempts spent on jobs created no later than `t`, and the number of such jobs. */
  function Spent(jobs: seq<Job>, t: int): nat {
    if jobs == [] then 0
    else
      var last := jobs[|jobs| - 1];
      Spent(jobs[..|jobs| - 1], t) + if last.created <= t then last.attempts else 0
  }

  function Contenders(jobs: seq<Job>, t: int): nat {
    if jobs == [] then 0
    else Contenders(jobs[..|jobs| - 1], t) + if jobs[|jobs| - 1].created <= t then 1 else 0
  }

  lemma {:induction false} SpentBounded(jobs: seq<Job>, t: int)
    requires forall k :: 0 <= k < |jobs| ==> JobOk(jobs[k])
    ensures Spent(jobs, t) <= MAX_ATTEMPTS * Contenders(jobs, t)
  {
    if jobs != [] {
      SpentBounded(jobs[..|jobs| - 1], t);
      assert JobOk(jobs[|jobs| - 1]);
    }
  }

  /** Spent moves with the attempts of one job. */
  lemma {:induction false} SpentUpdate(jobs: seq<Job>, k: nat, j: Job, t: int)
    requires k < |jobs| && j.created == jobs[k].created
    ensures Spent(jobs[k := j], t) == Spent(jobs, t) + if j.created <= t then j.attempts - jobs[k].attempts else 0
  {
    var n := |jobs| - 1;
    if k < n {
      SpentUpdate(jobs[..n], k, j, t);
      assert jobs[k := j][..n] == jobs[..n][k := j];
    } else {
      assert jobs[k := j][..n] == jobs[..n];
    }
  }

  lemma {:induction false} SpentSame(jobs: seq<Job>, jobs': seq<Job>, t: int)
    requires |jobs'| == |jobs|
    requires forall k :: 0 <= k < |jobs| ==> jobs'[k].attempts == jobs[k].attempts && jobs'[k].created == jobs[k].created
    ensures Spent(jobs', t) == Spent(jobs, t)
  {
    if jobs != [] { SpentSame(jobs[..|jobs| - 1], jobs'[..|jobs| - 1], t); }
  }

  lemma {:induction false} StepSpends(q: Queue, a: Action, t: int)
    ensures Spent(Apply(q, a).jobs, t)
         == Spent(q.jobs, t) + if Claims(q, a) && q.jobs[a.id].created <= t then 1 else 0
  {
    match a
    case Enqueue(w, c) =>
      assert Apply(q, a).jobs[..|q.jobs|] == q.jobs;
    case Claim(id) =>
      if Claims(q, a) { SpentUpdate(q.jobs, id, Claimed(q.jobs[id]), t); }
    case Succeed(r) =>
      if Reporting(q) { SpentUpdate(q.jobs, q.worker.id, Succeeded(q.jobs[q.worker.id], r), t); }
    case Fail(m) =>
      if Reporting(q) { SpentUpdate(q.jobs, q.worker.id, Failed(q.jobs[q.worker.id], q.worker.attempt, m), t); }
    case Cancel(id) =>
      if id < |q.jobs| { SpentUpdate(q.jobs, id, CancelledJob(q.jobs[id]), t); }
    case Crash =>
    case Recover =>
      SpentSame(q.jobs, RecoveredJobs(q.jobs), t);
  }

  /** How many claims, of any job, the run makes. */
  function ClaimCount(q: Queue, actions: seq<Action>): nat {
    if actions == [] then 0
    else
      var front := actions[..|actions| - 1];
      ClaimCount(q, front) + if Claims(Run(q, front), actions[|actions| - 1]) then 1 else 0
  }

  lemma {:induction false} ClaimsSpend(q: Queue, actions: seq<Action>, j: nat)
    requires Inv(q) && j < |q.jobs| && j < |Run(q, actions).jobs|
    requires !Terminal(Run(q, actions).jobs[j].status)
    ensures Spent(Run(q, actions).jobs, q.jobs[j].created)
         == Spent(q.jobs, q.jobs[j].created) + ClaimCount(q, actions)
  {
    if actions != [] {
      var front, a := actions[..|actions| - 1], actions[|actions| - 1];
      var mid := Run(q, front);
      RunKeeps(q, front);
      Absorbing(q, front, j);
      StepAbsorbs(mid, a, j);
      ClaimsSpend(q, front, j);
      StepSpends(mid, a, q.jobs[j].created);
    }
  }

  /** Waiting is bounded: while a job is unfinished, the worker makes at most two claims
      for each job created no later than it, less the attempts those had already spent. */
  lemma {:induction false} WaitBound(q: Queue, actions: seq<Action>, j: nat)
    requires Inv(q) && j < |q.jobs| && j < |Run(q, actions).jobs|
    requires !Terminal(Run(q, actions).jobs[j].status)
    ensures ClaimCount(q, actions) + Spent(q.jobs, q.jobs[j].created)
         <= MAX_ATTEMPTS * Contenders(Run(q, actions).jobs, q.jobs[j].created)
  {
    RunKeeps(q, actions);
    ClaimsSpend(q, actions, j);
    SpentBounded(Run(q, actions).jobs, q.jobs[j].created);
  }

  // ---- cancelling ----

  datatype Reply = NoJob | CancelledReply | StillRunning | AlreadyFinished(status: Status)

  /** Another workspace's job is reported as missing. */
  function Lookup(q: Queue, id: nat, workspace: Option<string>): Option<Job> {
    if id < |q.jobs| && (workspace.None? || workspace.value == q.jobs[id].workspace) then Some(q.jobs[id]) else None
  }

  /** The reply to a cancel request: a look, the conditional update, and a second look,
      with other steps possible in between. */
  function CancelReply(looked: Queue, updating: Queue, latest: Queue, id: nat, workspace: Option<string>): Reply {
    if Lookup(looked, id, workspace).None? then NoJob
    else if Lookup(updating, id, workspace).Some? && QueuedAt(updating.jobs, id) then CancelledReply
    else
      match Lookup(latest, id, workspace)
      case None => NoJob
      case Some(job) => if job.status == Running then StillRunning else AlreadyFinished(job.status)
  }

  /** The middle step of a cancel request. */
  function CancelUpdate(q: Queue, id: nat, workspace: Option<string>): Queue {
    if Lookup(q, id, workspace).Some? then Apply(q, Cancel(id)) else q
  }

  lemma {:induction false} WorkspaceFixed(q: Queue, actions: seq<Action>, id: nat)
    requires id < |q.jobs|
    ensures id < |Run(q, actions).jobs| && Run(q, actions).jobs[id].workspace == q.jobs[id].workspace
  {
    if actions != [] { WorkspaceFixed(q, actions[..|actions| - 1], id); }
  }

  /** The reply when `before` runs between the first look and the update, and `after`
      between the update and the second look. */
  function ReplyIn(q: Queue, before: seq<Action>, after: seq<Action>, id: nat, workspace: Option<string>): Reply {
    var updating := Run(q, before);
    CancelReply(q, updating, Run(CancelUpdate(updating, id, workspace), after), id, workspace)
  }

  /** A job that does not exist or is another workspace's is answered as missing and stays as
      it is; "cancelled" means that it was queued at the update, and is final; "already
      finished" names the latest status, which is final or queued. */
  lemma {:induction false} CancelReplyMeans(q: Queue, before: seq<Action>, after: seq<Action>, later: seq<Action>,
                                            id: nat, workspace: Option<string>)
    requires Inv(q)
    ensures var updating := Run(q, before);
            var updated := CancelUpdate(updating, id, workspace);
            var latest := Run(updated, after);
            var reply := ReplyIn(q, before, after, id, workspace);
            var own := id < |q.jobs| && (workspace.None? || q.jobs[id].workspace == workspace.value);
            (reply == NoJob <==> !own) && (id < |q.jobs| && !own ==> updated == updating) &&
            (reply == CancelledReply <==> own && id < |updating.jobs| && updating.jobs[id].status == Queued) &&
            (reply == CancelledReply ==>
               id < |updated.jobs| && updated.jobs[id].status == Cancelled &&
               id < |Run(updated, later).jobs| && Run(updated, later).jobs[id] == updated.jobs[id] &&
               ClaimsOf(updated, later, id) == 0) &&
            (reply.AlreadyFinished? ==>
               updated == updating && id < |updating.jobs| && id < |latest.jobs| &&
               latest.jobs[id].status == reply.status &&
               (Terminal(reply.status) || (reply.status == Queued && updating.jobs[id].status == Running)))
  {
    var updating := Run(q, before);
    var updated := CancelUpdate(updating, id, workspace);
    RunKeeps(q, before);
    StepKeeps(updating, Cancel(id));
    if id < |q.jobs| {
      WorkspaceFixed(q, before, id);
      assert updated.jobs[id].workspace == q.jobs[id].workspace;
      WorkspaceFixed(updated, after, id);
      Absorbing(updated, later, id);
      Absorbing(updated, after, id);
      if Lookup(q, id, workspace).Some? && !QueuedAt(updating.jobs, id) {
        assert updated.jobs == updating.jobs;
      }
    }
  }

  // ---- when a queued job can be called finished ----

  /** Some interleaving makes the reply call the job finished although it is queued. */
  ghost predicate CanMislead(q: Queue, id: nat, workspace: Option<string>) {
    exists before, after :: ReplyIn(q, before, after, id, workspace) == AlreadyFinished(Queued)
  }

  /** The job is in its first try, or has not been tried. */
  predicate FirstTryAhead(j: Job) {
    (j.status == Queued && j.attempts == 0) || (j.status == Running && j.attempts == 1)
  }

  lemma {:induction false} StepIdles(q: Queue, a: Action, id: nat)
    requires Inv(q) && id < |q.jobs| && q.jobs[id].status == Queued && !(Claims(q, a) && a.id == id)
    ensures id < |Apply(q, a).jobs| && Apply(q, a).jobs[id].status in {Queued, Cancelled}
  {}

  /** A queued job that nobody claims does not run. */
  lemma {:induction false} Unclaimed(q: Queue, actions: seq<Action>, id: nat)
    requires Inv(q) && id < |q.jobs| && q.jobs[id].status == Queued && ClaimsOf(q, actions, id) == 0
    ensures id < |Run(q, actions).jobs| && Run(q, actions).jobs[id].status in {Queued, Cancelled}
  {
    hide Inv, Apply, Claims;
    if actions != [] {
      var front, last := actions[..|actions| - 1], actions[|actions| - 1];
      Unclaimed(q, front, id);
      RunKeeps(q, front);
      if Run(q, front).jobs[id].status == Queued {
        StepIdles(Run(q, front), last, id);
      } else {
        StepAbsorbs(Run(q, front), last, id);
      }
    }
  }

  lemma {:induction false} MisleadOnlyIf(q: Queue, before: seq<Action>, after: seq<Action>, id: nat, workspace: Option<string>)
    requires Inv(q) && ReplyIn(q, before, after, id, workspace) == AlreadyFinished(Queued)
    ensures Lookup(q, id, workspace).Some? && FirstTryAhead(q.jobs[id])
  {
    hide Apply;
    var updating := Run(q, before);
    CancelReplyMeans(q, before, after, [], id, workspace);
    var latest := Run(updating, after);
    RunKeeps(q, before);
    RunKeeps(updating, after);
    AttemptsCountClaims(q, before, id);
    AttemptsCountClaims(updating, after, id);
    assert JobOk(q.jobs[id]) && JobOk(updating.jobs[id]) && JobOk(latest.jobs[id]);
    Absorbing(q, before, id);
    if q.jobs[id].status == Queued && ClaimsOf(q, before, id) == 0 { Unclaimed(q, before, id); }
  }

  /** Cancels the first `n` jobs except one. */
  function CancelOthers(n: nat, id: nat): seq<Action> {
    if n == 0 then [] else CancelOthers(n - 1, id) + if n - 1 == id then [] else [Cancel(n - 1)]
  }

  lemma {:induction false} OthersCancelled(q: Queue, n: nat, id: nat)
    requires id < |q.jobs| && n <= |q.jobs|
    ensures var q' := Run(q, CancelOthers(n, id));
            q'.worker == q.worker && |q'.jobs| == |q.jobs| && q'.jobs[id] == q.jobs[id] &&
            forall k :: 0 <= k < n && k != id ==> q'.jobs[k].status != Queued
  {
    hide Run;
    if n == 0 {
      assert Run(q, []) == q by { RunNone(q); }
    } else {
      OthersCancelled(q, n - 1, id);
      if n - 1 == id {
        assert CancelOthers(n, id) == CancelOthers(n - 1, id);
      } else {
        RunNext(q, CancelOthers(n - 1, id), Cancel(n - 1));
      }
    }
  }

  /** An idle worker can be made to take up any queued job next. */
  lemma {:induction false} CanBeClaimed(q: Queue, id: nat) returns (actions: seq<Action>)
    requires Inv(q) && QueuedAt(q.jobs, id)
    ensures id < |Run(q, actions).jobs| && Run(q, actions).worker == Busy(id, q.jobs[id].attempts + 1)
    ensures Run(q, actions).jobs[id].status == Running
    ensures Run(q, actions).jobs[id].attempts == q.jobs[id].attempts + 1
  {
    var down := Apply(q, Crash);
    var idle := Apply(down, Recover);
    RunOne(q, Crash);
    RunNext(q, [Crash], Recover);
    assert idle.jobs[id] == q.jobs[id];
    var others := CancelOthers(|idle.jobs|, id);
    OthersCancelled(idle, |idle.jobs|, id);
    RunAppend(q, [Crash] + [Recover], others);
    var alone := Run(idle, others);
    RunNext(q, [Crash] + [Recover] + others, Claim(id));
    assert Oldest(alone.jobs, id) && Claims(alone, Claim(id));
    actions := [Crash] + [Recover] + others + [Claim(id)];
  }

  /** A job in its first try can go back to the queue. */
  lemma {:induction false} CanBeRequeued(q: Queue, id: nat) returns (actions: seq<Action>)
    requires Inv(q) && id < |q.jobs| && q.jobs[id].status == Running && q.jobs[id].attempts == 1
    ensures QueuedAt(Run(q, actions).jobs, id)
  {
    if q.worker.Down? {
      RunOne(q, Recover);
      actions := [Recover];
    } else {
      assert q.worker == Busy(id, 1);
      RunOne(q, Fail("error"));
      actions := [Fail("error")];
    }
  }

  lemma {:induction false} MisleadIf(q: Queue, id: nat, workspace: Option<string>)
    requires Inv(q) && Lookup(q, id, workspace).Some? && FirstTryAhead(q.jobs[id])
    ensures CanMislead(q, id, workspace)
  {
    hide Inv, Apply, CancelReply;
    var before: seq<Action> := [];
    assert Run(q, before) == q;
    if q.jobs[id].status == Queued { before := CanBeClaimed(q, id); }
    var updating := Run(q, before);
    RunKeeps(q, before);
    WorkspaceFixed(q, before, id);
    assert CancelUpdate(updating, id, workspace) == updating by { NothingToCancel(updating, id, workspace); }
    var after := CanBeRequeued(updating, id);
    WorkspaceFixed(updating, after, id);
    assert ReplyIn(q, before, after, id, workspace) == AlreadyFinished(Queued) by {
      LateReply(q, updating, Run(updating, after), id, workspace);
    }
  }

  lemma {:induction false} NothingToCancel(q: Queue, id: nat, workspace: Option<string>)
    requires id < |q.jobs| && q.jobs[id].status != Queued
    ensures CancelUpdate(q, id, workspace) == q
  {
    assert q.jobs[id := q.jobs[id]] == q.jobs;
  }

  lemma {:induction false} LateReply(looked: Queue, updating: Queue, latest: Queue, id: nat, workspace: Option<string>)
    requires Lookup(looked, id, workspace).Some? && !QueuedAt(updating.jobs, id)
    requires Lookup(latest, id, workspace).Some? && QueuedAt(latest.jobs, id)
    ensures CancelReply(looked, updating, latest, id, workspace) == AlreadyFinished(Queued)
  {}

  /** A cancel request may be told that a queued job has finished exactly when, at the
      request, the caller can see the job and its first try is ahead or under way. */
  lemma {:induction false} MisleadExactly(q: Queue, id: nat, workspace: Option<string>)
    requires Inv(q)
    ensures CanMislead(q, id, workspace) <==>
              id < |q.jobs| && (workspace.None? || q.jobs[id].workspace == workspace.value) &&
              ((q.jobs[id].status == Queued && q.jobs[id].attempts == 0) ||
               (q.jobs[id].status == Running && q.jobs[id].attempts == 1))
  {
    hide Inv, ReplyIn;
    if CanMislead(q, id, workspace) {
      var before, after :| ReplyIn(q, before, after, id, workspace) == AlreadyFinished(Queued);
      MisleadOnlyIf(q, before, after, id, workspace);
    }
    if Lookup(q, id, workspace).Some? && FirstTryAhead(q.jobs[id]) {
      MisleadIf(q, id, workspace);
    }
  }

  /** The run in which it happens: the first attempt fails between the two statements. */
  lemma {:induction false} MisleadingReply()
    ensures var q := Run(EMPTY, [Recover, Enqueue("w", 0), Claim(0)]);
            var latest := Run(q, [Fail("timeout")]);
            CancelUpdate(q, 0, Some("w")) == q &&
            CancelReply(q, q, latest, 0, Some("w")) == AlreadyFinished(Queued)
  {
    var s1 := Apply(EMPTY, Recover);
    var s2 := Apply(s1, Enqueue("w", 0));
    var s3 := Apply(s2, Claim(0));
    var all := [Recover, Enqueue("w", 0), Claim(0)];
    assert all[..2] == [Recover, Enqueue("w", 0)] && all[..2][..1] == [Recover] && all[..2][..1][..0] == [];
    assert Run(EMPTY, []) == EMPTY;
    assert Run(EMPTY, [Recover]) == s1;
    assert Run(EMPTY, [Recover, Enqueue("w", 0)]) == s2;
    assert Run(EMPTY, all) == s3;
    assert [Fail("timeout")][..0] == [];
    assert Run(s3, []) == s3;
    assert Run(s3, [Fail("timeout")]) == Apply(s3, Fail("timeout"));
    assert s3.jobs[0].status == Running;
  }
}
