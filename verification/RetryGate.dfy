/** One cooldown and one cancel flag shared by all inference threads. First the decisions
    of a single call, then every interleaving of the threads' atomic steps. */
module RetryGate {
  import opened Wrappers
  import opened VisionChange
  import opened Inference
  import Boxes
  import Decimal

  // ---- what a reply means for the call ----

  /** A Retry-After header as read: missing or unreadable, a number, NaN, infinity, or the
      seconds left until a date. */
  datatype Header = Unusable | Number(x: real) | NotANumber | Infinity | Until(left: real)

  datatype Delay = Seconds(x: real) | Endless

  /** Negative delays and NaN count as none. */
  function RetryAfter(h: Header): Option<Delay> {
    match h
    case Unusable => None
    case Number(x) => Some(Seconds(Boxes.Max(0.0, x)))
    case NotANumber => Some(Seconds(0.0))
    case Infinity => Some(Endless)
    case Until(left) => Some(Seconds(Boxes.Max(0.0, left)))
  }

  /** What one call to the model brings back. */
  datatype Reply = Parsed(changes: Option<seq<Change>>) | Endpoint(status: nat, header: Header)
                 | Transport(deadline: bool) | Broken

  const FATAL := {400, 401, 403, 404}
  const RETRYABLE := {408, 429, 500, 502, 503, 504}
  const ATTEMPTS: nat := 3

  /** Finish ends the call, and stops all others when `stop`; Cooldown publishes a delay and
      goes on; Again goes on without one. */
  datatype Next = Finish(changes: Option<seq<Change>>, failure: string, stop: bool)
                | Cooldown(failure: string, seconds: real)
                | Again(failure: string)

  function Backoff(attempt: nat): real {
    if attempt == 0 then 1.0 else 2.0 * Backoff(attempt - 1)
  }

  function StatusText(status: nat): string {
    "http_" + Decimal.Digits(status)
  }

  function AfterReply(attempt: nat, r: Reply): Next {
    match r
    case Parsed(changes) => Finish(changes, if changes.None? then "invalid_output" else "", false)
    case Broken => Finish(None, "invalid_response", false)
    case Transport(deadline) =>
      var failure := if deadline then "stream_deadline" else "transport_error";
      if attempt < 2 then Cooldown(failure, Backoff(attempt)) else Again(failure)
    case Endpoint(status, header) =>
      if status in FATAL then Finish(None, StatusText(status), true)
      else if status !in RETRYABLE then Finish(None, StatusText(status), false)
      else
        match RetryAfter(header)
        case Some(Endless) => Finish(None, StatusText(status) + "_retry_deferred", true)
        case Some(Seconds(x)) =>
          if x > 60.0 then Finish(None, StatusText(status) + "_retry_deferred", true)
          else Cooldown(StatusText(status), x)
        case None => Cooldown(StatusText(status), Backoff(attempt))
  }

  lemma {:induction false} BackoffPositive(attempt: nat)
    ensures Backoff(attempt) >= 1.0
  {
    if attempt > 0 { BackoffPositive(attempt - 1); }
  }

  /** A published delay is never negative, and a failure is never reported as "cancelled". */
  lemma {:induction false} NextSound(attempt: nat, r: Reply)
    ensures var n := AfterReply(attempt, r);
            n.failure != "cancelled" && (n.Cooldown? ==> n.seconds >= 0.0) &&
            (n.Finish? && n.changes.Some? ==> r.Parsed? && !n.stop)
  {
    BackoffPositive(attempt);
    if r.Endpoint? {
      assert StatusText(r.status)[0] == 'h' && (StatusText(r.status) + "_retry_deferred")[0] == 'h';
    }
  }

  // ---- the gate and the loop of one call ----

  class Gate {
    var until: real
    var cancel: bool

    constructor ()
      ensures until == 0.0 && !cancel
    {
      until, cancel := 0.0, false;
    }

    /** Under the lock: a cooldown is only ever extended. */
    method Defer(now: real, seconds: real)
      modifies `until
      ensures until == Boxes.Max(old(until), now + seconds)
    {
      if now + seconds > until {
        until := now + seconds;
      }
    }
  }

  /** What the loop of one call returns, given whether it gets through the gate before each
      attempt and what the endpoint would then reply. */
  function CallFrom(attempt: nat, failure: string, passes: seq<bool>, replies: seq<Reply>): Answer
    requires |passes| == |replies| == ATTEMPTS && attempt <= ATTEMPTS
    decreases ATTEMPTS - attempt
  {
    if attempt == ATTEMPTS || !passes[attempt] then Answer(None, attempt, failure, false)
    else
      match AfterReply(attempt, replies[attempt])
      case Finish(changes, f, stop) => Answer(changes, attempt + 1, f, stop)
      case Cooldown(f, _) => CallFrom(attempt + 1, f, passes, replies)
      case Again(f) => CallFrom(attempt + 1, f, passes, replies)
  }

  /** At most three attempts; a call counts as cancelled exactly when it made none. */
  lemma {:induction false} CallBounded(attempt: nat, failure: string, passes: seq<bool>, replies: seq<Reply>)
    requires |passes| == |replies| == ATTEMPTS && attempt <= ATTEMPTS
    requires failure == "cancelled" <==> attempt == 0
    ensures var a := CallFrom(attempt, failure, passes, replies);
            a.attempts <= ATTEMPTS && (a.failure == "cancelled" <==> a.attempts == 0) &&
            (a.changes.Some? ==> a.attempts >= 1)
    decreases ATTEMPTS - attempt
  {
    if attempt < ATTEMPTS && passes[attempt] {
      NextSound(attempt, replies[attempt]);
      match AfterReply(attempt, replies[attempt])
      case Finish(_, _, _) =>
      case Cooldown(f, _) => CallBounded(attempt + 1, f, passes, replies);
      case Again(f) => CallBounded(attempt + 1, f, passes, replies);
    }
  }

  /** The attempt after which the loop ends: the gate stayed shut, or the reply was final. */
  predicate GoesOn(k: nat, passes: seq<bool>, replies: seq<Reply>)
    requires |passes| == |replies| == ATTEMPTS && k < ATTEMPTS
  {
    passes[k] && !AfterReply(k, replies[k]).Finish?
  }

  /** The loop goes on exactly as long as it may: every attempt before the last was let
      through and not final, and only three of those in a row, a shut gate or a final reply
      end it. */
  lemma {:induction false} CallExact(attempt: nat, failure: string, passes: seq<bool>, replies: seq<Reply>)
    requires |passes| == |replies| == ATTEMPTS && attempt <= ATTEMPTS
    ensures var n := CallFrom(attempt, failure, passes, replies).attempts;
            attempt <= n <= ATTEMPTS && (forall k: nat :: attempt <= k < n - 1 ==> GoesOn(k, passes, replies)) &&
            (n > attempt ==> passes[n - 1]) &&
            (n == ATTEMPTS || !passes[n] || (n > attempt && !GoesOn(n - 1, passes, replies)))
    decreases ATTEMPTS - attempt
  {
    hide AfterReply;
    if attempt < ATTEMPTS && passes[attempt] {
      match AfterReply(attempt, replies[attempt])
      case Finish(_, _, _) =>
      case Cooldown(f, _) => CallExact(attempt + 1, f, passes, replies);
      case Again(f) => CallExact(attempt + 1, f, passes, replies);
    }
  }

  /** The reply to attempt `k` stops all other calls. */
  predicate StopsAll(k: nat, replies: seq<Reply>)
    requires k < |replies|
  {
    AfterReply(k, replies[k]).Finish? && AfterReply(k, replies[k]).stop
  }

  /** Exactly a fatal status, or a retryable one with a delay that is too long, stops the others. */
  lemma {:induction false} StopsAllExactly(k: nat, replies: seq<Reply>)
    requires k < |replies|
    ensures StopsAll(k, replies) <==>
              replies[k].Endpoint? &&
              (replies[k].status in FATAL ||
               (replies[k].status in RETRYABLE && RetryAfter(replies[k].header).Some? &&
                (RetryAfter(replies[k].header).value == Endless || RetryAfter(replies[k].header).value.x > 60.0)))
  {}

  method TileCall(gate: Gate, passes: seq<bool>, replies: seq<Reply>, clock: seq<real>) returns (answer: Answer)
    requires |passes| == |replies| == |clock| == ATTEMPTS
    modifies gate
    ensures answer == CallFrom(0, "cancelled", passes, replies)
    ensures answer.attempts <= ATTEMPTS && gate.until >= old(gate.until)
    ensures answer.stops <==> exists k: nat :: k < answer.attempts && StopsAll(k, replies)
    ensures gate.cancel <==> old(gate.cancel) || answer.stops
    ensures forall k :: 0 <= k < answer.attempts && AfterReply(k, replies[k]).Cooldown? ==>
              gate.until >= clock[k] + AfterReply(k, replies[k]).seconds
  {
    hide AfterReply;
    var failure, attempt := "cancelled", 0;
    while attempt < ATTEMPTS
      invariant attempt <= ATTEMPTS
      invariant CallFrom(attempt, failure, passes, replies) == CallFrom(0, "cancelled", passes, replies)
      invariant gate.until >= old(gate.until) && gate.cancel == old(gate.cancel)
      invariant forall k: nat :: k < attempt ==> !StopsAll(k, replies)
      invariant forall k :: 0 <= k < attempt && AfterReply(k, replies[k]).Cooldown? ==>
                  gate.until >= clock[k] + AfterReply(k, replies[k]).seconds
    {
      if !passes[attempt] {
        break;
      }
      match AfterReply(attempt, replies[attempt]) {
        case Finish(changes, f, stop) =>
          if stop { gate.cancel := true; }
          assert StopsAll(attempt, replies) <==> stop;
          return Answer(changes, attempt + 1, f, stop);
        case Cooldown(f, seconds) =>
          failure := f;
          gate.Defer(clock[attempt], seconds);
        case Again(f) =>
          failure := f;
      }
      attempt := attempt + 1;
    }
    return Answer(None, attempt, failure, false);
  }

  // ---- all interleavings ----

  /** Where a thread is: about to look at the flag, past the flag and about to read the
      clock under the lock, asleep, in the call, about to publish a delay, or done. */
  datatype Pc = Testing | Measuring | Sleeping(wake: real) | Calling | Deferring(seconds: real)
              | Returned(changes: Option<seq<Change>>, stops: bool)

  datatype Thread = Thread(pc: Pc, attempt: nat, attempts: nat, failure: string)

  /** `deadlines` records every published cooldown. */
  datatype System = System(clock: real, until: real, cancel: bool, threads: seq<Thread>, deadlines: seq<real>)

  datatype Action = Tick(seconds: real) | Cancel | Test(i: nat) | Measure(i: nat) | Wake(i: nat)
                  | Receive(i: nat, reply: Reply) | Publish(i: nat)

  predicate At(s: System, i: nat, pc: Pc) {
    i < |s.threads| && s.threads[i].pc == pc
  }

  /** Going on after an attempt: the loop has three rounds. */
  function Onward(t: Thread, failure: string): Thread {
    if t.attempt + 1 < ATTEMPTS then t.(pc := Testing, attempt := t.attempt + 1, failure := failure)
    else t.(pc := Returned(None, false), failure := failure)
  }

  function Put(s: System, i: nat, t: Thread): System
    requires i < |s.threads|
  {
    s.(threads := s.threads[i := t])
  }

  /** The gate opens for thread `i` now. */
  predicate Passes(s: System, a: Action, i: nat) {
    a == Measure(i) && At(s, i, Measuring) && s.until - s.clock <= 0.0
  }

  function Received(s: System, i: nat, reply: Reply): System
    requires i < |s.threads|
  {
    var t := s.threads[i];
    match AfterReply(t.attempt, reply)
    case Finish(changes, f, stop) =>
      Put(s, i, t.(pc := Returned(changes, stop), failure := f)).(cancel := s.cancel || stop)
    case Cooldown(f, seconds) => Put(s, i, t.(pc := Deferring(seconds), failure := f))
    case Again(f) => Put(s, i, Onward(t, f))
  }

  function Published(s: System, i: nat): System
    requires i < |s.threads| && s.threads[i].pc.Deferring?
  {
    var t := s.threads[i];
    var deadline := s.clock + t.pc.seconds;
    Put(s, i, Onward(t, t.failure)).(until := Boxes.Max(s.until, deadline), deadlines := s.deadlines + [deadline])
  }

  /** One atomic step; a step that is not possible now changes nothing. */
  function Apply(s: System, a: Action): System {
    match a
    case Tick(seconds) => if seconds >= 0.0 then s.(clock := s.clock + seconds) else s
    case Cancel => s.(cancel := true)
    case Test(i) =>
      if !At(s, i, Testing) then s
      else if s.cancel then Put(s, i, s.threads[i].(pc := Returned(None, false)))
      else Put(s, i, s.threads[i].(pc := Measuring))
    case Measure(i) =>
      if !At(s, i, Measuring) then s
      else if s.until - s.clock <= 0.0
        then Put(s, i, s.threads[i].(pc := Calling, attempts := s.threads[i].attempts + 1))
      else Put(s, i, s.threads[i].(pc := Sleeping(s.until)))
    case Wake(i) =>
      if i < |s.threads| && s.threads[i].pc.Sleeping? && (s.cancel || s.clock >= s.threads[i].pc.wake)
      then Put(s, i, s.threads[i].(pc := Testing)) else s
    case Receive(i, reply) => if At(s, i, Calling) then Received(s, i, reply) else s
    case Publish(i) => if i < |s.threads| && s.threads[i].pc.Deferring? then Published(s, i) else s
  }

  function Run(s: System, actions: seq<Action>): System {
    if actions == [] then s else Apply(Run(s, actions[..|actions| - 1]), actions[|actions| - 1])
  }

  function Start(n: nat): System {
    System(0.0, 0.0, false, seq(n, _ => Thread(Testing, 0, 0, "cancelled")), [])
  }

  // ---- the cooldown ----

  predicate Cooled(s: System) {
    forall k :: 0 <= k < |s.deadlines| ==> s.deadlines[k] <= s.until
  }

  lemma {:induction false} StepCools(s: System, a: Action)
    requires Cooled(s)
    ensures Cooled(Apply(s, a)) && Apply(s, a).until >= s.until && Apply(s, a).clock >= s.clock
    ensures s.deadlines <= Apply(s, a).deadlines
  {}

  /** The shared cooldown and the record of cooldowns only grow. */
  lemma {:induction false} RunCools(s: System, actions: seq<Action>)
    requires Cooled(s)
    ensures var s' := Run(s, actions);
            Cooled(s') && s'.until >= s.until && s'.clock >= s.clock && s.deadlines <= s'.deadlines
  {
    if actions != [] {
      RunCools(s, actions[..|actions| - 1]);
      StepCools(Run(s, actions[..|actions| - 1]), actions[|actions| - 1]);
    }
  }

  /** An accepted delay is never shortened: once a thread has published it, no thread starts
      a call before it is over, whatever the others publish or do in between. */
  lemma {:induction false} DelayHonoured(s: System, i: nat, rest: seq<Action>, a: Action, k: nat)
    requires Cooled(s) && i < |s.threads| && s.threads[i].pc.Deferring?
    requires Passes(Run(Apply(s, Publish(i)), rest), a, k)
    ensures Run(Apply(s, Publish(i)), rest).clock >= s.clock + s.threads[i].pc.seconds
  {
    var m := Apply(s, Publish(i));
    StepCools(s, Publish(i));
    RunCools(m, rest);
    var end := Run(m, rest);
    var n := |s.deadlines|;
    assert m.deadlines[n] == s.clock + s.threads[i].pc.seconds;
    assert end.deadlines[n] == m.deadlines[n];
  }

  /** The retryable status with an acceptable Retry-After is what gets published. */
  lemma {:induction false} RetryAfterPublished(s: System, i: nat, status: nat, x: real)
    requires At(s, i, Calling) && status in RETRYABLE && 0.0 <= x <= 60.0
    ensures Apply(s, Receive(i, Endpoint(status, Header.Number(x)))).threads[i].pc == Deferring(x)
    ensures Apply(s, Receive(i, Endpoint(status, Header.Number(x)))).cancel == s.cancel
  {}

  /** No pass happens before the expiry of any cooldown published up to then. */
  lemma {:induction false} NoEarlyPass(n: nat, actions: seq<Action>, a: Action, i: nat)
    requires Passes(Run(Start(n), actions), a, i)
    ensures var s := Run(Start(n), actions);
            forall k :: 0 <= k < |s.deadlines| ==> s.clock >= s.deadlines[k]
  {
    RunCools(Start(n), actions);
  }

  /** The wait before the next attempt when the endpoint names none: 1, 2 and 4 seconds. */
  function OwnDelay(attempt: nat): real
    requires attempt <= 2
  {
    if attempt == 0 then 1.0 else if attempt == 1 then 2.0 else 4.0
  }

  /** What becomes of a call that got no answer out of this reply: it goes on after a wait,
      ends, or ends and stops the others. */
  predicate Waits(s: System, s': System, i: nat, seconds: real, failure: string) {
    At(s', i, Deferring(seconds)) && s'.threads[i].failure == failure && s'.cancel == s.cancel && s'.until == s.until
  }

  predicate Gives(s: System, s': System, i: nat, changes: Option<seq<Change>>, stops: bool, failure: string) {
    At(s', i, Returned(changes, stops)) && s'.threads[i].failure == failure && s'.cancel == (s.cancel || stops) &&
    s'.until == s.until
  }

  /** A status of the endpoint. What a Retry-After asks for is waited for, without
      one the waits double, and more than 60 seconds are not waited for. */
  predicate StatusTaken(s: System, s': System, i: nat, attempt: nat, status: nat, header: Header)
    requires attempt <= 2
  {
    var name := "http_" + Decimal.Digits(status);
    if status in {400, 401, 403, 404} then Gives(s, s', i, None, true, name)
    else if status !in {408, 429, 500, 502, 503, 504} then Gives(s, s', i, None, false, name)
    else
      match header
      case Unusable => Waits(s, s', i, OwnDelay(attempt), name)
      case NotANumber => Waits(s, s', i, 0.0, name)
      case Infinity => Gives(s, s', i, None, true, name + "_retry_deferred")
      case Number(x) =>
        if x > 60.0 then Gives(s, s', i, None, true, name + "_retry_deferred")
        else Waits(s, s', i, if x < 0.0 then 0.0 else x, name)
      case Until(left) =>
        if left > 60.0 then Gives(s, s', i, None, true, name + "_retry_deferred")
        else Waits(s, s', i, if left < 0.0 then 0.0 else left, name)
  }

  lemma {:induction false} BackoffDoubles(attempt: nat)
    requires attempt <= 2
    ensures Backoff(attempt) == OwnDelay(attempt)
  {
    assert Backoff(0) == 1.0 && Backoff(1) == 2.0;
  }

  /** What every reply does to the call that gets it. A lost connection is tried again as long
      as attempts are left; malformed output and broken answers are not. */
  lemma {:induction false} ReceiveExact(s: System, i: nat, reply: Reply)
    requires At(s, i, Calling) && ThreadOk(s.threads[i])
    ensures s.threads[i].attempt <= 2
    ensures var s', attempt := Apply(s, Receive(i, reply)), s.threads[i].attempt;
            match reply
            case Parsed(Some(changes)) => Gives(s, s', i, Some(changes), false, "")
            case Parsed(None) => Gives(s, s', i, None, false, "invalid_output")
            case Broken => Gives(s, s', i, None, false, "invalid_response")
            case Transport(deadline) =>
              var failure := if deadline then "stream_deadline" else "transport_error";
              if attempt < 2 then Waits(s, s', i, OwnDelay(attempt), failure) else Gives(s, s', i, None, false, failure)
            case Endpoint(status, header) => StatusTaken(s, s', i, attempt, status, header)
  {
    hide Backoff, Decimal.Digits;
    BackoffDoubles(s.threads[i].attempt);
  }

  /** Publishing makes everybody wait for the longer of the two cooldowns, and the call goes
      on with its next attempt if it has one left. */
  lemma {:induction false} PublishExact(s: System, i: nat)
    requires i < |s.threads| && s.threads[i].pc.Deferring? && ThreadOk(s.threads[i])
    ensures var s', t := Apply(s, Publish(i)), s.threads[i];
            var deadline := s.clock + t.pc.seconds;
            s'.until == (if s.until < deadline then deadline else s.until) && s'.deadlines == s.deadlines + [deadline] &&
            s'.clock == s.clock && s'.cancel == s.cancel && i < |s'.threads| && s'.threads[i].failure == t.failure &&
            if t.attempt < 2 then s'.threads[i].pc == Testing && s'.threads[i].attempt == t.attempt + 1
            else s'.threads[i].pc == Returned(None, false)
  {}

  // ---- attempts ----

  predicate ThreadOk(t: Thread) {
    t.attempt < ATTEMPTS &&
    match t.pc
    case Testing => t.attempts == t.attempt && (t.failure == "cancelled" <==> t.attempts == 0)
    case Measuring => t.attempts == t.attempt && (t.failure == "cancelled" <==> t.attempts == 0)
    case Sleeping(_) => t.attempts == t.attempt && (t.failure == "cancelled" <==> t.attempts == 0)
    case Calling => t.attempts == t.attempt + 1
    case Deferring(seconds) => t.attempts == t.attempt + 1 && t.failure != "cancelled" && seconds >= 0.0
    case Returned(changes, _) =>
      t.attempts <= ATTEMPTS && (t.failure == "cancelled" <==> t.attempts == 0) && (changes.Some? ==> t.attempts >= 1)
  }

  predicate AllOk(s: System) {
    forall i :: 0 <= i < |s.threads| ==> ThreadOk(s.threads[i])
  }

  lemma {:induction false} StepOk(s: System, a: Action)
    requires AllOk(s)
    ensures AllOk(Apply(s, a)) && |Apply(s, a).threads| == |s.threads|
  {
    if a.Receive? && At(s, a.i, Calling) { NextSound(s.threads[a.i].attempt, a.reply); }
  }

  /** How often thread `i` passes the gate during the run. */
  function PassCount(s: System, actions: seq<Action>, i: nat): nat {
    if actions == [] then 0
    else
      var front := actions[..|actions| - 1];
      PassCount(s, front, i) + if Passes(Run(s, front), actions[|actions| - 1], i) then 1 else 0
  }

  lemma {:induction false} StepCounts(s: System, a: Action, i: nat)
    requires i < |s.threads|
    ensures i < |Apply(s, a).threads|
    ensures Apply(s, a).threads[i].attempts == s.threads[i].attempts + if Passes(s, a, i) then 1 else 0
  {}

  /** Attempts are exactly the passes, and a call that returned "cancelled" made none. */
  lemma {:induction false} AttemptsCountPasses(n: nat, actions: seq<Action>, i: nat)
    requires i < n
    ensures var s := Run(Start(n), actions);
            |s.threads| == n && AllOk(s) && s.threads[i].attempts == PassCount(Start(n), actions, i)
  {
    if actions != [] {
      AttemptsCountPasses(n, actions[..|actions| - 1], i);
      StepOk(Run(Start(n), actions[..|actions| - 1]), actions[|actions| - 1]);
      StepCounts(Run(Start(n), actions[..|actions| - 1]), actions[|actions| - 1], i);
    }
  }

  lemma {:induction false} ThreeAttempts(n: nat, actions: seq<Action>, i: nat)
    requires i < n
    ensures PassCount(Start(n), actions, i) <= ATTEMPTS
    ensures var s := Run(Start(n), actions);
            i < |s.threads| && s.threads[i].pc.Returned? ==>
              (s.threads[i].failure == "cancelled" <==> PassCount(Start(n), actions, i) == 0)
  {
    AttemptsCountPasses(n, actions, i);
    assert ThreadOk(Run(Start(n), actions).threads[i]);
  }

  // ---- cancelling ----

  function MayStillPass(s: System, i: nat): nat {
    if At(s, i, Measuring) then 1 else 0
  }

  lemma {:induction false} StepAfterCancel(s: System, a: Action, i: nat)
    requires s.cancel
    ensures Apply(s, a).cancel
    ensures MayStillPass(Apply(s, a), i) + (if Passes(s, a, i) then 1 else 0) <= MayStillPass(s, i)
  {}

  lemma {:induction false} PassesAfterCancel(s: System, actions: seq<Action>, i: nat)
    requires s.cancel
    ensures Run(s, actions).cancel
    ensures PassCount(s, actions, i) + MayStillPass(Run(s, actions), i) <= MayStillPass(s, i)
  {
    if actions != [] {
      PassesAfterCancel(s, actions[..|actions| - 1], i);
      StepAfterCancel(Run(s, actions[..|actions| - 1]), actions[|actions| - 1], i);
    }
  }

  /** After a cancel no thread starts another call, except one that had already looked at
      the flag and was about to read the clock: exactly such a thread still can, once. */
  lemma {:induction false} CancelExact(s: System, i: nat)
    requires s.cancel
    ensures forall actions :: PassCount(s, actions, i) <= MayStillPass(s, i)
    ensures (exists actions :: PassCount(s, actions, i) >= 1) <==> At(s, i, Measuring)
  {
    forall actions: seq<Action> ensures PassCount(s, actions, i) <= MayStillPass(s, i) {
      PassesAfterCancel(s, actions, i);
    }
    if At(s, i, Measuring) {
      var wait := Tick(Boxes.Max(0.0, s.until - s.clock));
      var actions := [wait, Measure(i)];
      assert actions[..1] == [wait] && [wait][..0] == [];
      assert Run(s, []) == s;
      assert Run(s, [wait]) == Apply(s, wait);
      assert Passes(Run(s, [wait]), Measure(i), i);
      assert actions[..|actions| - 1] == [wait];
      assert PassCount(s, actions, i) == PassCount(s, [wait], i) + 1;
    }
  }

  /** And a thread that is not in a call need not wait for the clock: woken by the cancel, it
      returns at its next look at the flag, without another attempt. */
  lemma {:induction false} CancelEnds(s: System, i: nat)
    requires s.cancel && i < |s.threads| && (s.threads[i].pc.Sleeping? || s.threads[i].pc.Testing?)
    ensures var s' := Run(s, [Wake(i), Test(i)]);
            s'.clock == s.clock && At(s', i, Returned(None, false)) && s'.threads[i].attempts == s.threads[i].attempts &&
            s'.threads[i].failure == s.threads[i].failure
  {
    var steps := [Wake(i), Test(i)];
    assert steps[..1] == [Wake(i)] && steps[..1][..0] == [];
    assert Run(s, []) == s;
    assert Run(s, [Wake(i)]) == Apply(s, Wake(i));
    assert Run(s, steps) == Apply(Apply(s, Wake(i)), Test(i));
  }

  /** A run in which it does: the flag is raised between the look and the clock. */
  lemma {:induction false} LateStart()
    ensures var s := Run(Start(1), [Test(0), Cancel]);
            s.cancel && At(s, 0, Measuring) && Passes(s, Measure(0), 0) && At(Apply(s, Measure(0)), 0, Calling)
  {
    var steps := [Test(0), Cancel];
    assert steps[..1] == [Test(0)] && steps[..1][..0] == [];
    assert Run(Start(1), []) == Start(1);
    assert Run(Start(1), [Test(0)]) == Apply(Start(1), Test(0));
    assert Run(Start(1), steps) == Apply(Apply(Start(1), Test(0)), Cancel);
  }

  // ---- every thread runs the loop ----

  /** The first `n` rounds of a loop that went on in each: the replies came in, and the last
      one left this failure. */
  predicate Rounds(replies: seq<Reply>, failure: string) {
    |replies| <= ATTEMPTS && (forall k :: 0 <= k < |replies| ==> !AfterReply(k, replies[k]).Finish?) &&
    failure == if replies == [] then "cancelled" else AfterReply(|replies| - 1, replies[|replies| - 1]).failure
  }

  function Padded(replies: seq<Reply>): (r: seq<Reply>)
    requires |replies| <= ATTEMPTS
    ensures |r| == ATTEMPTS && replies <= r
  {
    replies + seq(ATTEMPTS - |replies|, _ => Broken)
  }

  /** The gate opens for the first `n` attempts. */
  function Opens(n: nat): (r: seq<bool>)
    ensures |r| == ATTEMPTS && forall k :: 0 <= k < ATTEMPTS ==> r[k] == (k < n)
  {
    seq(ATTEMPTS, k => k < n)
  }

  /** The answer is that of a loop that got exactly these replies and no further turn. */
  predicate AnswersFrom(got: seq<Reply>, answer: Answer) {
    |got| == answer.attempts <= ATTEMPTS && CallFrom(0, "cancelled", Opens(|got|), Padded(got)) == answer
  }

  /** Where the loop of a thread is after the replies it got. */
  predicate Follows(t: Thread, got: seq<Reply>) {
    match t.pc
    case Deferring(_) => |got| == t.attempt + 1 && Rounds(got, t.failure)
    case Returned(changes, stops) => AnswersFrom(got, Answer(changes, t.attempts, t.failure, stops))
    case _ => |got| == t.attempt && Rounds(got, t.failure)
  }

  /** The reply that the step brings to thread `i`, if it brings one. */
  function Gets(s: System, a: Action, i: nat): seq<Reply> {
    if a.Receive? && a.i == i && At(s, i, Calling) then [a.reply] else []
  }

  /** What the endpoint sent to thread `i` during the run. */
  function RepliesOf(s: System, actions: seq<Action>, i: nat): seq<Reply> {
    if actions == [] then []
    else
      var front := actions[..|actions| - 1];
      RepliesOf(s, front, i) + Gets(Run(s, front), actions[|actions| - 1], i)
  }

  /** Rounds that went on lead the loop to where they end. */
  lemma {:induction false} RoundsLead(replies: seq<Reply>, failure: string, passes: seq<bool>, all: seq<Reply>, n: nat)
    requires Rounds(replies, failure) && n <= |replies| && |passes| == |all| == ATTEMPTS && replies <= all
    requires forall k :: 0 <= k < |replies| ==> passes[k]
    ensures var f := if n == 0 then "cancelled" else AfterReply(n - 1, replies[n - 1]).failure;
            CallFrom(0, "cancelled", passes, all) == CallFrom(n, f, passes, all)
  {
    hide AfterReply;
    if n > 0 {
      RoundsLead(replies, failure, passes, all, n - 1);
      assert all[n - 1] == replies[n - 1];
    }
  }

  lemma {:induction false} RoundsEnd(replies: seq<Reply>, failure: string)
    requires Rounds(replies, failure)
    ensures |replies| <= ATTEMPTS
    ensures failure == if replies == [] then "cancelled" else AfterReply(|replies| - 1, replies[|replies| - 1]).failure
  {}

  /** A loop that stops at a shut gate, or after its last round, without an answer. */
  lemma {:induction false} ShutAnswers(failure: string, got: seq<Reply>)
    requires Rounds(got, failure)
    ensures AnswersFrom(got, Answer(None, |got|, failure, false))
  {
    hide AfterReply, Rounds;
    RoundsEnd(got, failure);
    RoundsLead(got, failure, Opens(|got|), Padded(got), |got|);
  }

  /** A loop that a final reply ends. */
  lemma {:induction false} FinalAnswers(got: seq<Reply>, failure: string, reply: Reply)
    requires Rounds(got, failure) && |got| < ATTEMPTS && AfterReply(|got|, reply).Finish?
    ensures var end := AfterReply(|got|, reply);
            AnswersFrom(got + [reply], Answer(end.changes, |got| + 1, end.failure, end.stop))
  {
    hide AfterReply, Rounds;
    var n := |got|;
    var passes, all := Opens(n + 1), Padded(got + [reply]);
    assert all[n] == reply && got <= all;
    RoundsEnd(got, failure);
    RoundsLead(got, failure, passes, all, n);
  }

  lemma {:induction false} OneMoreRound(replies: seq<Reply>, failure: string, reply: Reply)
    requires Rounds(replies, failure) && |replies| < ATTEMPTS && !AfterReply(|replies|, reply).Finish?
    ensures Rounds(replies + [reply], AfterReply(|replies|, reply).failure)
  {
    hide AfterReply;
  }

  lemma {:induction false} OnwardFollows(t: Thread, got: seq<Reply>, failure: string)
    requires ThreadOk(t) && Rounds(got, failure) && |got| == t.attempt + 1 == t.attempts
    ensures Follows(Onward(t, failure), got)
  {
    hide AfterReply, AnswersFrom, Rounds;
    if t.attempt + 1 >= ATTEMPTS { ShutAnswers(failure, got); }
  }

  lemma {:induction false} ReceiveFollows(s: System, i: nat, reply: Reply, got: seq<Reply>)
    requires At(s, i, Calling) && ThreadOk(s.threads[i]) && Follows(s.threads[i], got)
    ensures |Received(s, i, reply).threads| == |s.threads| && Follows(Received(s, i, reply).threads[i], got + [reply])
  {
    hide AfterReply, AnswersFrom, Rounds;
    var t := s.threads[i];
    match AfterReply(t.attempt, reply)
    case Finish(changes, f, stop) => FinalAnswers(got, t.failure, reply);
    case Cooldown(f, seconds) => OneMoreRound(got, t.failure, reply);
    case Again(f) =>
      OneMoreRound(got, t.failure, reply);
      OnwardFollows(t, got + [reply], f);
  }

  lemma {:induction false} ReceiveLeaves(s: System, j: nat, reply: Reply, i: nat)
    requires j < |s.threads| && i < |s.threads| && i != j
    ensures |Received(s, j, reply).threads| == |s.threads| && Received(s, j, reply).threads[i] == s.threads[i]
  {
    hide AfterReply;
  }

  lemma {:induction false} StepFollows(s: System, a: Action, i: nat, got: seq<Reply>)
    requires AllOk(s) && i < |s.threads| && Follows(s.threads[i], got)
    ensures i < |Apply(s, a).threads| && Follows(Apply(s, a).threads[i], got + Gets(s, a, i))
  {
    hide AfterReply, AnswersFrom, Rounds, Received;
    assert got + [] == got;
    match a
    case Test(j) => if j == i && At(s, i, Testing) { ShutAnswers(s.threads[i].failure, got); }
    case Receive(j, reply) =>
      if At(s, j, Calling) {
        if j == i { ReceiveFollows(s, i, reply, got); } else { ReceiveLeaves(s, j, reply, i); }
      }
    case Publish(j) =>
      if j == i && s.threads[i].pc.Deferring? { OnwardFollows(s.threads[i], got, s.threads[i].failure); }
    case _ =>
  }

  /** In every interleaving each thread is where the loop of one call is after exactly the
      replies that the endpoint sent to that thread; what it returns is what the loop returns
      for those replies. */
  lemma {:induction false} ThreadsRunTheLoop(n: nat, actions: seq<Action>, i: nat)
    requires i < n
    ensures var s := Run(Start(n), actions);
            var got := RepliesOf(Start(n), actions, i);
            i < |s.threads| && Follows(s.threads[i], got) &&
            (s.threads[i].pc.Returned? ==>
               |got| == s.threads[i].attempts <= ATTEMPTS &&
               CallFrom(0, "cancelled", Opens(|got|), Padded(got))
                 == Answer(s.threads[i].pc.changes, |got|, s.threads[i].failure, s.threads[i].pc.stops))
  {
    hide Apply, CallFrom, Gets;
    if actions == [] {
      assert Rounds([], "cancelled");
    } else {
      var front := actions[..|actions| - 1];
      ThreadsRunTheLoop(n, front, i);
      AttemptsCountPasses(n, front, i);
      StepFollows(Run(Start(n), front), actions[|actions| - 1], i, RepliesOf(Start(n), front, i));
    }
  }

  // ---- who raises the flag ----

  predicate Stopped(s: System, i: nat) {
    i < |s.threads| && s.threads[i].pc.Returned? && s.threads[i].pc.stops
  }

  ghost predicate SomeStopped(s: System) {
    exists i: nat :: Stopped(s, i)
  }

  lemma {:induction false} StepRaises(s: System, a: Action)
    ensures SomeStopped(s) ==> SomeStopped(Apply(s, a))
    ensures s.cancel || a == Cancel ==> Apply(s, a).cancel
    ensures Apply(s, a).cancel ==> s.cancel || a == Cancel || SomeStopped(Apply(s, a))
    ensures SomeStopped(Apply(s, a)) ==> SomeStopped(s) || Apply(s, a).cancel
  {
    hide AfterReply;
    if a.Receive? && At(s, a.i, Calling) && !s.cancel && Apply(s, a).cancel { assert Stopped(Apply(s, a), a.i); }
    forall i: nat | Stopped(s, i) ensures Stopped(Apply(s, a), i) {}
    forall i: nat | Stopped(Apply(s, a), i) && !Stopped(s, i) ensures a.Receive? && a.i == i && Apply(s, a).cancel {}
  }

  /** The flag is up exactly when somebody outside raised it or some thread has returned an
      answer that stops all: such a thread raised it before it returned, and nothing else
      ever does. */
  lemma {:induction false} FlagExactly(n: nat, actions: seq<Action>)
    ensures var s := Run(Start(n), actions);
            s.cancel <==> Cancel in actions || SomeStopped(s)
  {
    hide Apply;
    if actions != [] {
      var front, last := actions[..|actions| - 1], actions[|actions| - 1];
      FlagExactly(n, front);
      StepRaises(Run(Start(n), front), last);
      assert actions == front + [last];
    }
  }
}
