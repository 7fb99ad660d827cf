/** The controller object: two tables on disk, and what the process holds in memory. */
module Controller {
  import opened Wrappers
  import opened Control

  class Service {
    const targets: map<string, Target>
    var actions: map<string, Row>
    var results: map<string, string>
    var inserted: set<string>
    var queue: seq<string>
    var running: Option<Performing>
    ghost var started: set<string>
    ghost var issued: set<string>

    ghost function S(): State
      reads this
    {
      State(true, targets, actions, results, inserted, queue, running, started, issued)
    }

    /** Starting a process over the tables that the last one left. */
    constructor (targets: map<string, Target>, actions: map<string, Row>, results: map<string, string>,
                 ghost started: set<string>, ghost issued: set<string>)
      ensures S() == Apply(State(false, map[], actions, results, {}, [], None, started, issued), Boot(targets))
    {
      this.targets, this.actions := targets, actions;
      this.results := results + map id | id in actions && id !in results :: "unknown";
      this.inserted, this.queue, this.running, this.started, this.issued := {}, [], None, started, issued;
      new;
      assert this.results == results + Uncertain(State(false, map[], actions, results, {}, [], None, started, issued));
    }

    /** The part under the lock: look the id up, look for a pending action, insert. */
    method Submit(r: Request) returns (reply: Reply)
      modifies this
      ensures reply == ReplyTo(old(S()), r)
      ensures S() == Apply(old(S()), Action.Submit(r))
      ensures reply == NotAllowed <==> r.service !in targets || targets[r.service].disabled || r.action !in targets[r.service].actions
      ensures reply == IdUsed <==> reply != NotAllowed && r.id in old(actions) && old(actions)[r.id] != Row(r.service, r.action, r.actor)
      ensures reply == ServiceBusy <==>
                reply != NotAllowed && r.id !in old(actions) &&
                exists id :: id in old(actions) && old(actions)[id].service == r.service && id !in old(results)
      ensures if reply == Accepted && r.id !in old(actions)
              then actions == old(actions)[r.id := Row(r.service, r.action, r.actor)] && inserted == old(inserted) + {r.id}
              else actions == old(actions) && inserted == old(inserted)
      ensures results == old(results) && queue == old(queue) && running == old(running)
    {
      if r.service !in targets || targets[r.service].disabled || r.action !in targets[r.service].actions {
        return NotAllowed;
      }
      if r.id in actions {
        var existing := actions[r.id];
        if existing.service != r.service || existing.action != r.action || existing.actor != r.actor {
          return IdUsed;
        }
        return Accepted;
      }
      if exists id :: id in actions && actions[id].service == r.service && id !in results {
        return ServiceBusy;
      }
      actions := actions[r.id := Row(r.service, r.action, r.actor)];
      inserted := inserted + {r.id};
      return Accepted;
    }

    /** The request thread gives its action to the executor. */
    method HandOver(id: string)
      requires id in inserted
      modifies this
      ensures S() == Apply(old(S()), Action.HandOver(id)) && queue == old(queue) + [id]
    {
      inserted := inserted - {id};
      queue := queue + [id];
    }

    /** The executor thread takes up the oldest action that was handed over. */
    method BeginPerform() returns (id: string)
      requires running.None? && queue != []
      modifies this
      ensures S() == Apply(old(S()), Start) && id == old(queue)[0]
    {
      id := queue[0];
      queue := queue[1..];
      running := Some(Performing(id, false));
      started := started + {id};
    }

    /** Issues the command of the action under way. */
    method IssueCommand()
      requires running.Some? && !running.value.issued
      modifies this
      ensures S() == Apply(old(S()), Issue)
    {
      running := Some(Performing(running.value.id, true));
      issued := issued + {running.value.id};
    }

    /** Writes the result row, whatever ended the command. */
    method EndPerform(outcome: Outcome)
      requires running.Some? && (outcome.Completed? ==> running.value.issued)
      modifies this
      ensures S() == Apply(old(S()), Finish(outcome))
      ensures running.None? && actions == old(actions) && queue == old(queue)
      ensures outcome == Completed || outcome == Unforeseen ==> results == old(results)[old(running).value.id := "success"]
      ensures outcome == TimedOut ==> results == old(results)[old(running).value.id := "unknown"]
      ensures outcome == Rejected ==> results == old(results)[old(running).value.id := "error"]
      ensures outcome == Unrecorded ==> results == old(results)
    {
      var status := "success";
      match outcome {
        case TimedOut => status := "unknown";
        case Rejected => status := "error";
        case Completed =>
        case Unforeseen =>
        case Unrecorded =>
      }
      if outcome != Unrecorded {
        results := results[running.value.id := status];
      }
      running := None;
    }
  }
}
