/** The table of jobs as the statements of the worker and of its clients change it. */
module JobTable {
  import opened Wrappers
  import opened Jobs

  /** How the handler of a claimed job ends. */
  datatype Handled = Result(result: string) | Raised(message: string)

  function Report(h: Handled): Action {
    match h case Result(r) => Succeed(r) case Raised(m) => Fail(m)
  }

  predicate ClientStep(a: Action) {
    a.Enqueue? || a.Cancel?
  }

  /** Some queued job is an oldest one. */
  lemma {:induction false} OldestExists(jobs: seq<Job>, n: nat) returns (id: nat)
    requires n <= |jobs| && exists k :: 0 <= k < n && QueuedAt(jobs, k)
    ensures QueuedAt(jobs, id) && id < n
    ensures forall k :: 0 <= k < n && jobs[k].status == Queued ==> jobs[id].created <= jobs[k].created
  {
    if exists k :: 0 <= k < n - 1 && QueuedAt(jobs, k) {
      id := OldestExists(jobs, n - 1);
      if jobs[n - 1].status == Queued && jobs[n - 1].created < jobs[id].created { id := n - 1; }
    } else {
      id := n - 1;
      forall k | 0 <= k < n && jobs[k].status == Queued ensures k == id { assert QueuedAt(jobs, k); }
    }
  }

  /** A client cannot disturb the job that the worker is busy with. */
  lemma {:induction false} ClientsKeepClaim(q: Queue, others: seq<Action>)
    requires Inv(q) && q.worker.Busy? && forall k :: 0 <= k < |others| ==> ClientStep(others[k])
    ensures Inv(Run(q, others)) && Run(q, others).worker == q.worker
  {
    if others != [] {
      ClientsKeepClaim(q, others[..|others| - 1]);
      StepKeeps(Run(q, others[..|others| - 1]), others[|others| - 1]);
    }
  }

  /** How a claimed job ends a try: with the handler's result, back in the queue after a first
      failure, or with an error after the second. */
  function EndOf(job: Job, attempt: nat, handled: Handled): Job {
    match handled
    case Result(r) => Job(job.workspace, job.created, Done, job.attempts, None, Some(r), true)
    case Raised(m) =>
      if attempt < 2 then Job(job.workspace, job.created, Queued, job.attempts, Some(m), job.result, job.finished)
      else Job(job.workspace, job.created, Error, job.attempts, Some(m), job.result, true)
  }

  /** Job `id` was claimed and ended as its handler did. */
  predicate Reports(before: seq<Job>, after: seq<Job>, id: nat, handled: Handled) {
    id < |before| && id < |after| && after[id].attempts == before[id].attempts + 1 &&
    after[id].workspace == before[id].workspace && after[id].created == before[id].created &&
    match handled
    case Result(r) => after[id].status == Done && after[id].result == Some(r) && after[id].error == None
    case Raised(m) => after[id].status == (if before[id].attempts == 0 then Queued else Error) && after[id].error == Some(m)
  }

  /** What starting up does to one job: a running one goes back if it has a try left. */
  predicate Swept(before: Job, after: Job) {
    if before.status != Running then after == before
    else
      after.status == (if before.attempts < 2 then Queued else Error) && after.finished == (before.attempts >= 2) &&
      after.error == (if before.error.Some? then before.error else Some("worker restarted mid-job")) &&
      after.attempts == before.attempts && after.workspace == before.workspace && after.created == before.created &&
      after.result == before.result
  }

  /** Clients leave the running job as it is. */
  lemma {:induction false} ClientsLeave(q: Queue, others: seq<Action>)
    requires Inv(q) && q.worker.Busy? && forall k :: 0 <= k < |others| ==> ClientStep(others[k])
    ensures q.worker.id < |q.jobs| && q.worker.id < |Run(q, others).jobs|
    ensures Run(q, others).jobs[q.worker.id] == q.jobs[q.worker.id]
  {
    if others != [] {
      ClientsLeave(q, others[..|others| - 1]);
      ClientsKeepClaim(q, others[..|others| - 1]);
    }
  }

  class Table {
    var jobs: seq<Job>
    var worker: Worker

    ghost function Q(): Queue
      reads this
    {
      Queue(jobs, worker)
    }

    constructor ()
      ensures Q() == EMPTY
    {
      jobs, worker := [], Down;
    }

    method Enqueue(workspace: string, created: int) returns (id: nat)
      modifies `jobs
      ensures Q() == Apply(old(Q()), Action.Enqueue(workspace, created))
      ensures id == |old(jobs)| && jobs == old(jobs) + [Job(workspace, created, Queued, 0, None, None, false)]
    {
      id := |jobs|;
      jobs := jobs + [Job(workspace, created, Queued, 0, None, None, false)];
    }

    /** The conditional update: only a queued job of the right workspace changes. */
    method CancelQueued(id: nat, workspace: Option<string>) returns (changed: bool)
      modifies `jobs
      ensures Q() == CancelUpdate(old(Q()), id, workspace)
      ensures changed <==> id < |old(jobs)| && old(jobs)[id].status == Queued &&
                           (workspace.None? || old(jobs)[id].workspace == workspace.value)
      ensures !changed ==> jobs == old(jobs)
      ensures changed ==> jobs == old(jobs)[id := old(jobs)[id].(status := Cancelled, finished := true,
                                                                 error := Some("cancelled before start"))]
    {
      changed := id < |jobs| && jobs[id].status == Queued
                 && (workspace.None? || jobs[id].workspace == workspace.value);
      if changed {
        jobs := jobs[id := jobs[id].(status := Cancelled, error := Some("cancelled before start"), finished := true)];
      }
    }

    /** Steps that other processes take while a request is under way. */
    method Interleave(others: seq<Action>)
      modifies this
      ensures Q() == Run(old(Q()), others)
    {
      var after := Run(Queue(jobs, worker), others);
      jobs, worker := after.jobs, after.worker;
    }

    /** The oldest queued job, whichever it is among equals. */
    method FetchOldest() returns (id: Option<nat>)
      ensures id.Some? ==> Oldest(jobs, id.value)
      ensures id.Some? ==> id.value < |jobs| && jobs[id.value].status == Queued &&
                           forall k :: 0 <= k < |jobs| && jobs[k].status == Queued ==> jobs[id.value].created <= jobs[k].created
      ensures id.None? ==> forall k :: 0 <= k < |jobs| ==> jobs[k].status != Queued
    {
      if exists k :: 0 <= k < |jobs| && QueuedAt(jobs, k) {
        ghost var witnessed := OldestExists(jobs, |jobs|);
        assert Oldest(jobs, witnessed);
        var chosen: nat :| chosen < |jobs| && Oldest(jobs, chosen);
        return Some(chosen);
      }
      assert forall k :: 0 <= k < |jobs| && jobs[k].status == Queued ==> QueuedAt(jobs, k);
      return None;
    }

    /** One round of the worker, with client steps between its two transactions. */
    method PollOnce(handled: Handled, others: seq<Action>) returns (worked: bool)
      requires Inv(Q()) && worker.Idle? && forall k :: 0 <= k < |others| ==> ClientStep(others[k])
      modifies this
      ensures Inv(Q()) && worker.Idle?
      ensures worked <==> exists k :: 0 <= k < |old(jobs)| && QueuedAt(old(jobs), k)
      ensures !worked ==> Q() == old(Q())
      ensures worked ==> exists id: nat :: (Oldest(old(jobs), id) &&
                                            Q() == Run(old(Q()), [Claim(id)] + others + [Report(handled)]) &&
                                            Reports(old(jobs), jobs, id, handled))
    {
      var fetched := FetchOldest();
      if fetched.None? {
        return false;
      }
      var id := fetched.value;
      ghost var start, claimed := Q(), jobs[id];
      assert JobOk(claimed);
      worker, jobs := Busy(id, jobs[id].attempts + 1), jobs[id := jobs[id].(status := Running, attempts := jobs[id].attempts + 1)];
      assert Q() == Apply(start, Claim(id));
      StepKeeps(start, Claim(id));
      ClientsKeepClaim(Q(), others);
      ClientsLeave(Q(), others);
      Interleave(others);
      ghost var busy := Q();
      Settle(handled);
      assert Reports(start.jobs, jobs, id, handled);
      StepKeeps(busy, Report(handled));
      WholeRound(start, id, others, Report(handled));
      return true;
    }

    /** Records what the handler did, by the attempt number read at the claim. */
    method Settle(handled: Handled)
      requires worker.Busy? && worker.id < |jobs|
      modifies this
      ensures Q() == Apply(old(Q()), Report(handled)) && worker.Idle?
      ensures jobs == old(jobs)[old(worker).id := EndOf(old(jobs)[old(worker).id], old(worker).attempt, handled)]
    {
      var id, attempt := worker.id, worker.attempt;
      match handled {
        case Raised(message) =>
          if attempt < MAX_ATTEMPTS {
            jobs := jobs[id := jobs[id].(status := Queued, error := Some(message))];
          } else {
            jobs := jobs[id := jobs[id].(status := Error, error := Some(message), finished := true)];
          }
        case Result(result) =>
          jobs := jobs[id := jobs[id].(status := Done, result := Some(result), error := None, finished := true)];
      }
      worker := Idle;
    }

    /** The process dies: what was committed stays. */
    method Die()
      modifies `worker
      ensures Q() == Apply(old(Q()), Crash)
    {
      worker := Down;
    }

    /** Starting up: every job left running goes back, or ends if its tries are spent. */
    method RequeueOrphans()
      requires worker.Down?
      modifies this
      ensures Q() == Apply(old(Q()), Recover)
      ensures |jobs| == |old(jobs)| && forall k :: 0 <= k < |jobs| ==> Swept(old(jobs)[k], jobs[k])
    {
      var swept: seq<Job> := [];
      for k := 0 to |jobs|
        invariant swept == RecoveredJobs(jobs[..k])
      {
        var job := jobs[k];
        if job.status == Running {
          job := job.(status := if job.attempts < 2 then Queued else Error,
                      error := if job.error.Some? then job.error else Some("worker restarted mid-job"),
                      finished := job.attempts >= 2);
        }
        swept := swept + [job];
      }
      assert jobs[..|jobs|] == jobs;
      jobs, worker := swept, Idle;
    }

    /** A cancel request: a look, the conditional update, and a look at why it failed, while
        clients and the worker go on. */
    method Cancel(id: nat, workspace: Option<string>, first: seq<Action>, second: seq<Action>) returns (reply: Reply)
      modifies this
      ensures !(id < |old(jobs)| && (workspace.None? || old(jobs)[id].workspace == workspace.value)) ==>
                reply == NoJob && Q() == old(Q())
      ensures reply == CancelReply(old(Q()), Run(old(Q()), first),
                                   Run(CancelUpdate(Run(old(Q()), first), id, workspace), second), id, workspace)
      ensures Q() == if reply == NoJob then old(Q())
                     else if reply == CancelledReply then CancelUpdate(Run(old(Q()), first), id, workspace)
                     else Run(CancelUpdate(Run(old(Q()), first), id, workspace), second)
    {
      hide Run;
      var looked := Queue(jobs, worker);
      if Lookup(looked, id, workspace).None? {
        return NoJob;
      }
      WorkspaceFixed(looked, first, id);
      Interleave(first);
      var changed := CancelQueued(id, workspace);
      if changed {
        return CancelledReply;
      }
      WorkspaceFixed(Q(), second, id);
      Interleave(second);
      var job := jobs[id];
      return if job.status == Running then StillRunning else AlreadyFinished(job.status);
    }
  }

  lemma {:induction false} WholeRound(q: Queue, id: nat, others: seq<Action>, report: Action)
    ensures Run(q, [Claim(id)] + others + [report]) == Apply(Run(Apply(q, Claim(id)), others), report)
  {
    hide Apply;
    RunOne(q, Claim(id));
    RunAppend(q, [Claim(id)], others);
    RunAppend(q, [Claim(id)] + others, [report]);
    RunOne(Run(q, [Claim(id)] + others), report);
  }
}
