/**
 What becomes of a request, told by the steps of a run alone: which one settled it and how, which replies
 armed a timer and for how long, and in which order first calls are made.
 */
module QueueOutcomes {
  import opened Wrappers
  import opened RequestQueue

  // ---- What one reply does ----

  /** Seconds from a Retry-After header, otherwise a backoff that doubles three times. */
  predicate IsDelay(base: nat, retryAfter: Option<nat>, failures: nat, delay: nat) {
    match retryAfter
    case Some(seconds) => delay == seconds * 1000
    case None =>
      && (failures == 0 ==> delay == base)
      && (failures == 1 ==> delay == 2 * base)
      && (failures == 2 ==> delay == 4 * base)
      && (failures >= 3 ==> delay == 8 * base)
  }

  lemma DelayIs(base: nat, retryAfter: Option<nat>, failures: nat, delay: nat)
    ensures IsDelay(base, retryAfter, failures, delay) <==> delay == RetryDelay(base, retryAfter, failures)
  {
    assert Pow2(0) == 1 && Pow2(1) == 2 && Pow2(2) == 4 && Pow2(3) == 8;
    assert base * 1 == base && base * 2 == 2 * base && base * 4 == 4 * base && base * 8 == 8 * base;
  }

  /** The failure may be tried again, and the request has a retry left. */
  predicate MayRetry(kind: ErrorKind, failures: nat, maxRetries: nat) {
    (kind == TooManyRequests || kind == Transient) && failures < maxRetries
  }

  /** A reply after so many failures settles the request in this way. */
  predicate ReplySettles(base: nat, maxRetries: nat, failures: nat, reply: Reply, outcome: Outcome) {
    match outcome
    case Resolve => reply.Resolved?
    case RejectRateLimit(delay) =>
      && reply.Failed? && reply.kind == TooManyRequests && failures >= maxRetries
      && IsDelay(base, reply.retryAfter, failures, delay)
    case RejectError =>
      reply.Failed? && (reply.kind == Other || (reply.kind == Transient && failures >= maxRetries))
    case RejectDisposed => false
  }

  /** What the reply leaves of the request. */
  ghost predicate Answered(base: nat, r: Request, reply: Reply, t: Request) {
    && t == r.(retries := t.retries, phase := t.phase)
    && (forall outcome :: t.phase == Settled(outcome) <==>
        ReplySettles(base, r.maxRetries, r.retries, reply, outcome))
    && (t.phase.Settled? ==> t.retries == r.retries)
    && (!t.phase.Settled? ==>
        && reply.Failed? && MayRetry(reply.kind, r.retries, r.maxRetries)
        && t.retries == r.retries + 1 && t.phase.Waiting?
        && IsDelay(base, reply.retryAfter, r.retries, t.phase.delay))
  }

  lemma ReplyAnswers(s: State, r: Request, reply: Reply, t: Request)
    requires t == Replied(s, r, reply)
    ensures Answered(s.retryDelay, r, reply, t)
  {
    if reply.Failed? {
      DelayIs(s.retryDelay, reply.retryAfter, r.retries, RetryDelay(s.retryDelay, reply.retryAfter, r.retries));
      forall delay: nat
        ensures IsDelay(s.retryDelay, reply.retryAfter, r.retries, delay)
          <==> delay == RetryDelay(s.retryDelay, reply.retryAfter, r.retries)
      {
        DelayIs(s.retryDelay, reply.retryAfter, r.retries, delay);
      }
    }
  }

  // ---- A request's history ----

  /** How many calls of the request have failed in the first n steps. */
  function Failures(steps: seq<Step>, n: nat, id: nat): nat
    requires n <= |steps|
  {
    if n == 0 then 0
    else Failures(steps, n - 1, id) + Count(IsFailure(steps[n - 1], id))
  }

  predicate IsFailure(step: Step, id: nat) {
    step.Return? && step.id == id && step.reply.Failed?
  }

  predicate IsSettled(s: State, id: nat, outcome: Outcome) {
    id in s.requests && s.requests[id].phase == Settled(outcome)
  }

  /** The request was accepted with these retries. */
  predicate AcceptedWith(states: seq<State>, steps: seq<Step>, n: nat, id: nat, maxRetries: nat)
    requires n <= |steps| <= |states|
  {
    exists k :: 0 <= k < n && steps[k] == Enqueue(id, maxRetries) && !states[k].disposed
  }

  /** Step i settles the request: it is the reply that does, or the first dispose while the request is queued. */
  ghost predicate Settles(states: seq<State>, steps: seq<Step>, i: nat, id: nat, outcome: Outcome)
    requires i < |steps| <= |states|
  {
    match steps[i]
    case Return(returned, reply) =>
      returned == id
      && exists maxRetries :: (AcceptedWith(states, steps, i, id, maxRetries)
        && ReplySettles(states[0].retryDelay, maxRetries, Failures(steps, i, id), reply, outcome))
    case Dispose =>
      outcome == RejectDisposed && id in states[i].queue && forall k :: 0 <= k < i ==> steps[k] != Dispose
    case _ => false
  }

  predicate IsFullRun(states: seq<State>, steps: seq<Step>) {
    IsRun(states, steps) && states[0] == Initial(states[0].maxConcurrent, states[0].retryDelay, states[0].servers)
  }

  lemma StateHolds(states: seq<State>, steps: seq<Step>, n: nat)
    requires IsFullRun(states, steps) && n < |states|
    ensures Invariant(states[n])
  {
    assert RunningIds(states[0]) == {};
    RunKeeps(states, steps, n);
  }

  /** What no step changes, and what only the steps named change. */
  predicate StepLeaves(s: State, step: Step, next: State) {
    && next.retryDelay == s.retryDelay
    && next.disposed == (s.disposed || step == Dispose)
    && (forall id :: id in s.requests ==>
        && id in next.requests
        && next.requests[id].maxRetries == s.requests[id].maxRetries
        && (s.requests[id].phase.Settled? ==> next.requests[id].phase.Settled?)
        && (!(step.Return? && step.id == id) ==> next.requests[id].retries == s.requests[id].retries)
        && (step.Return? && step.id == id && !next.requests[id].phase.Settled? ==>
          step.reply.Failed? && next.requests[id].retries == s.requests[id].retries + 1))
    && (forall id :: id in next.requests && id !in s.requests ==>
        && step == Enqueue(id, next.requests[id].maxRetries)
        && !s.disposed
        && next.requests[id].retries == 0 && next.requests[id].phase.Queued?)
  }

  lemma DisposeLeft(s: State, next: State)
    requires Invariant(s) && next == Next(s, Dispose)
    ensures StepLeaves(s, Dispose, next)
  {
    if !s.disposed {
      SettleAllEffect(s.(disposed := true), s.queue, SettleAll(s.(disposed := true), s.queue));
    }
  }

  lemma StepLeft(s: State, step: Step, next: State)
    requires Invariant(s) && Enabled(s, step) && next == Next(s, step)
    ensures StepLeaves(s, step, next)
  {
    if step == Dispose {
      DisposeLeft(s, next);
    } else {
      HeadIsQueued(s);
      OtherStepLeft(s, step, next);
    }
  }

  lemma OtherStepLeft(s: State, step: Step, next: State)
    requires s.queue != [] ==> s.queue[0] in s.requests && s.requests[s.queue[0]].phase.Queued?
    requires Enabled(s, step) && step != Dispose && next == Next(s, step)
    ensures StepLeaves(s, step, next)
  {
  }

  lemma HeadIsQueued(s: State)
    requires QueueOk(s)
    ensures s.queue != [] ==> s.queue[0] in s.requests && s.requests[s.queue[0]].phase.Queued?
  {
    assert s.queue != [] ==> s.queue[0] in s.queue;
  }

  /** What the state keeps of the steps before it. */
  ghost predicate Remembers(states: seq<State>, steps: seq<Step>, n: nat, id: nat)
    requires n <= |steps| < |states|
  {
    && states[n].retryDelay == states[0].retryDelay
    && (states[n].disposed <==> exists k :: 0 <= k < n && steps[k] == Dispose)
    && (id !in states[n].requests ==> Failures(steps, n, id) == 0)
    && (forall maxRetries :: AcceptedWith(states, steps, n, id, maxRetries) <==>
        id in states[n].requests && states[n].requests[id].maxRetries == maxRetries)
    && (id in states[n].requests && !states[n].requests[id].phase.Settled? ==>
        states[n].requests[id].retries == Failures(steps, n, id))
  }

  lemma AcceptedInOneMore(states: seq<State>, steps: seq<Step>, n: nat, id: nat, maxRetries: nat)
    requires n < |steps| <= |states|
    ensures AcceptedWith(states, steps, n + 1, id, maxRetries) <==>
      AcceptedWith(states, steps, n, id, maxRetries)
      || (steps[n] == Enqueue(id, maxRetries) && !states[n].disposed)
  {
  }

  lemma StepRemembers(states: seq<State>, steps: seq<Step>, n: nat, id: nat, after: nat)
    requires n < |steps| < |states| && Remembers(states, steps, n, id) && Invariant(states[n])
    requires Enabled(states[n], steps[n]) && states[n + 1] == Next(states[n], steps[n]) && after == n + 1
    ensures Remembers(states, steps, after, id)
  {
    var s, step, next := states[n], steps[n], states[after];
    StepLeft(s, step, next);
    assert Failures(steps, after, id) == Failures(steps, n, id) + Count(IsFailure(step, id));
    forall maxRetries
      ensures AcceptedWith(states, steps, after, id, maxRetries) <==>
        id in next.requests && next.requests[id].maxRetries == maxRetries
    {
      AcceptedInOneMore(states, steps, n, id, maxRetries);
      assert AcceptedWith(states, steps, n, id, maxRetries) <==>
        id in s.requests && s.requests[id].maxRetries == maxRetries;
    }
    assert next.disposed <==> exists k :: 0 <= k < after && steps[k] == Dispose by {
      if next.disposed && !s.disposed {
        assert steps[n] == Dispose;
      }
    }
  }

  lemma {:induction false} RunRemembers(states: seq<State>, steps: seq<Step>, n: nat, id: nat)
    requires IsFullRun(states, steps) && n < |states|
    ensures Remembers(states, steps, n, id)
  {
    if n > 0 {
      RunRemembers(states, steps, n - 1, id);
      StateHolds(states, steps, n - 1);
      RunStep(states, steps, n);
      StepRemembers(states, steps, n - 1, id, n);
    }
  }

  // ---- Outcomes ----

  lemma ReturnSettles(states: seq<State>, steps: seq<Step>, n: nat, id: nat, outcome: Outcome)
    requires n < |steps| < |states| && Remembers(states, steps, n, id) && Enabled(states[n], steps[n])
    requires steps[n].Return? && states[n + 1] == Next(states[n], steps[n])
    ensures IsSettled(states[n + 1], id, outcome) <==>
      IsSettled(states[n], id, outcome) || Settles(states, steps, n, id, outcome)
  {
    var s := states[n];
    if steps[n].id == id {
      ReplyAnswers(s, s.requests[id], steps[n].reply, states[n + 1].requests[id]);
      assert AcceptedWith(states, steps, n, id, s.requests[id].maxRetries);
    }
  }

  lemma DisposeSettles(states: seq<State>, steps: seq<Step>, n: nat, id: nat, outcome: Outcome)
    requires n < |steps| < |states| && Remembers(states, steps, n, id) && Invariant(states[n])
    requires steps[n] == Dispose && states[n + 1] == Next(states[n], steps[n])
    ensures IsSettled(states[n + 1], id, outcome) <==>
      IsSettled(states[n], id, outcome) || Settles(states, steps, n, id, outcome)
  {
    var s := states[n];
    if !s.disposed {
      SettleAllEffect(s.(disposed := true), s.queue, SettleAll(s.(disposed := true), s.queue));
    }
  }

  /** No other step settles anything. */
  lemma OthersSettleNothing(s: State, step: Step, next: State, id: nat, outcome: Outcome)
    requires QueueOk(s) && Enabled(s, step) && next == Next(s, step) && !step.Return? && !step.Dispose?
    ensures IsSettled(next, id, outcome) <==> IsSettled(s, id, outcome)
  {
    assert s.queue != [] ==> s.queue[0] in s.queue;
  }

  lemma OneStepSettles(states: seq<State>, steps: seq<Step>, n: nat, id: nat, outcome: Outcome)
    requires n < |steps| < |states| && Remembers(states, steps, n, id) && Invariant(states[n])
    requires Enabled(states[n], steps[n]) && states[n + 1] == Next(states[n], steps[n])
    ensures IsSettled(states[n + 1], id, outcome) <==>
      IsSettled(states[n], id, outcome) || Settles(states, steps, n, id, outcome)
  {
    if steps[n].Return? {
      ReturnSettles(states, steps, n, id, outcome);
    } else if steps[n].Dispose? {
      DisposeSettles(states, steps, n, id, outcome);
    } else {
      OthersSettleNothing(states[n], steps[n], states[n + 1], id, outcome);
    }
  }

  ghost predicate SettledWithin(states: seq<State>, steps: seq<Step>, n: nat, id: nat, outcome: Outcome)
    requires n <= |steps| <= |states|
  {
    exists i :: 0 <= i < n && Settles(states, steps, i, id, outcome)
  }

  lemma SettledInOneMore(states: seq<State>, steps: seq<Step>, n: nat, id: nat, outcome: Outcome)
    requires 0 < n <= |steps| <= |states|
    ensures SettledWithin(states, steps, n, id, outcome) <==>
      SettledWithin(states, steps, n - 1, id, outcome) || Settles(states, steps, n - 1, id, outcome)
  {
  }

  lemma RunStepSettles(states: seq<State>, steps: seq<Step>, n: nat, id: nat, outcome: Outcome)
    requires IsFullRun(states, steps) && 0 < n < |states|
    ensures IsSettled(states[n], id, outcome) <==>
      IsSettled(states[n - 1], id, outcome) || Settles(states, steps, n - 1, id, outcome)
  {
    StateHolds(states, steps, n - 1);
    RunStep(states, steps, n);
    RunRemembers(states, steps, n - 1, id);
    OneStepSettles(states, steps, n - 1, id, outcome);
  }

  /** A request is settled in a way exactly when some step settled it so. */
  lemma {:induction false} OutcomeIff(states: seq<State>, steps: seq<Step>, n: nat, id: nat, outcome: Outcome)
    requires IsFullRun(states, steps) && n < |states|
    ensures IsSettled(states[n], id, outcome) <==> SettledWithin(states, steps, n, id, outcome)
  {
    if n > 0 {
      OutcomeIff(states, steps, n - 1, id, outcome);
      RunStepSettles(states, steps, n, id, outcome);
      SettledInOneMore(states, steps, n, id, outcome);
    }
  }

  /** The promise of a request resolves exactly when one of its calls returned. */
  lemma ResolvesIff(states: seq<State>, steps: seq<Step>, n: nat, id: nat)
    requires IsFullRun(states, steps) && n < |states|
    ensures IsSettled(states[n], id, Resolve) <==> exists i :: 0 <= i < n && steps[i] == Return(id, Resolved)
  {
    OutcomeIff(states, steps, n, id, Resolve);
    if i :| 0 <= i < n && steps[i] == Return(id, Resolved) {
      RunRemembers(states, steps, i, id);
      assert AcceptedWith(states, steps, i, id, states[i].requests[id].maxRetries);
      assert Settles(states, steps, i, id, Resolve);
    }
  }

  /**
   A call that ends arms a timer exactly when it failed in a way that may be tried again with fewer failures
   before it than the request has retries; the timer waits as long as the reply or the backoff says.
   */
  lemma TimerIff(states: seq<State>, steps: seq<Step>, i: nat, id: nat, reply: Reply, maxRetries: nat, delay: nat)
    requires IsFullRun(states, steps) && i < |steps| && steps[i] == Return(id, reply)
    requires AcceptedWith(states, steps, i, id, maxRetries)
    ensures id in states[i + 1].requests
    ensures states[i + 1].requests[id].phase == Waiting(delay) <==>
      && reply.Failed? && MayRetry(reply.kind, Failures(steps, i, id), maxRetries)
      && IsDelay(states[0].retryDelay, reply.retryAfter, Failures(steps, i, id), delay)
  {
    RunRemembers(states, steps, i, id);
    RunStep(states, steps, i + 1);
    var s := states[i];
    ReplyAnswers(s, s.requests[id], reply, Replied(s, s.requests[id], reply));
    if reply.Failed? {
      DelayIs(s.retryDelay, reply.retryAfter, s.requests[id].retries, delay);
    }
  }

  // ---- Order ----

  /** The first `started` requests accepted have had a call and the others none. */
  predicate RunsInOrder(s: State, started: nat) {
    && started <= |s.accepted|
    && forall i :: 0 <= i < |s.accepted| ==>
        s.accepted[i] in s.requests && (s.requests[s.accepted[i]].runs > 0 <==> i < started)
  }

  /** The requests that wait for their first call, in the order of their acceptance. */
  function Unstarted(s: State, started: nat): seq<nat>
    requires started <= |s.accepted|
  {
    if s.disposed then [] else s.accepted[started..]
  }

  predicate AllTried(s: State, ids: seq<nat>) {
    forall j :: 0 <= j < |ids| ==> ids[j] in s.requests && s.requests[ids[j]].runs > 0
  }

  /** The queue is some requests to be tried again, and then those that wait for their first call. */
  predicate WaitsInOrder(s: State, started: nat, again: nat) {
    && started <= |s.accepted| && again <= |s.queue|
    && AllTried(s, s.queue[..again])
    && s.queue[again..] == Unstarted(s, started)
  }

  predicate InOrder(s: State, started: nat, again: nat) {
    RunsInOrder(s, started) && WaitsInOrder(s, started, again)
  }

  /** A turn that calls a request which was called before. */
  lemma RetryTurnKeepsOrder(s: State, started: nat, again: nat, next: State)
    requires Invariant(s) && InOrder(s, started, again) && s.processing && next == Next(s, LoopTurn)
    requires again > 0 && s.active < s.maxConcurrent
    ensures InOrder(next, started, again - 1)
  {
    var id := s.queue[0];
    assert id == s.queue[..again][0] && id in s.queue;
    assert next.queue[again - 1..] == s.queue[again..];
    var tried := next.queue[..again - 1];
    forall j | 0 <= j < |tried| ensures tried[j] in next.requests && next.requests[tried[j]].runs > 0 {
      assert tried[j] == s.queue[..again][j + 1];
    }
  }

  /** A turn that calls a request for the first time. */
  lemma FirstTurnKeepsOrder(s: State, started: nat, next: State)
    requires Invariant(s) && InOrder(s, started, 0) && s.processing && next == Next(s, LoopTurn)
    requires s.queue != [] && s.active < s.maxConcurrent
    ensures started < |s.accepted| && s.queue[0] == s.accepted[started]
    ensures InOrder(next, started + 1, 0)
  {
    assert s.queue == s.queue[0..] == s.accepted[started..];
    var id := s.queue[0];
    assert id in s.queue && id == s.accepted[started];
    assert next.queue == s.accepted[started + 1..];
    assert forall i :: 0 <= i < |s.accepted| && i != started ==> s.accepted[i] != id;
  }

  lemma EnqueueKeepsOrder(s: State, started: nat, again: nat, step: Step, next: State)
    requires Invariant(s) && InOrder(s, started, again) && step.Enqueue? && Enabled(s, step) && next == Next(s, step)
    ensures InOrder(next, started, again)
  {
    if !s.disposed {
      assert next.queue[..again] == s.queue[..again];
      assert next.queue[again..] == s.queue[again..] + [step.id];
      assert next.accepted[started..] == s.accepted[started..] + [step.id];
    }
  }

  lemma TimerKeepsOrder(s: State, started: nat, again: nat, step: Step, next: State)
    requires Invariant(s) && InOrder(s, started, again) && step.Timer? && Enabled(s, step) && next == Next(s, step)
    requires s.requests[step.id].runs > 0
    ensures InOrder(next, started, again + 1)
  {
    FrontKeepsOrder(s, started, again, step.id, next);
  }

  lemma FrontKeepsOrder(s: State, started: nat, again: nat, id: nat, next: State)
    requires InOrder(s, started, again) && id in s.requests && s.requests[id].runs > 0
    requires next.queue == [id] + s.queue && next.accepted == s.accepted && next.disposed == s.disposed
    requires forall x :: x in s.requests ==> x in next.requests && next.requests[x].runs == s.requests[x].runs
    ensures InOrder(next, started, again + 1)
  {
    assert next.queue[again + 1..] == s.queue[again..];
    var tried := next.queue[..again + 1];
    forall j | 0 <= j < |tried| ensures tried[j] in next.requests && next.requests[tried[j]].runs > 0 {
      assert j > 0 ==> tried[j] == s.queue[..again][j - 1];
    }
  }

  lemma TurnKeepsOrder(s: State, started: nat, again: nat, next: State) returns (nowStarted: nat, nowAgain: nat)
    requires Invariant(s) && InOrder(s, started, again) && s.processing && next == Next(s, LoopTurn)
    ensures InOrder(next, nowStarted, nowAgain)
  {
    nowStarted, nowAgain := started, again;
    if s.queue == [] || s.active >= s.maxConcurrent {
      SameQueueKeepsOrder(s, started, again, next);
    } else if again > 0 {
      RetryTurnKeepsOrder(s, started, again, next);
      nowAgain := again - 1;
    } else {
      FirstTurnKeepsOrder(s, started, next);
      nowStarted := started + 1;
    }
  }

  lemma DisposeKeepsOrder(s: State, started: nat, again: nat, next: State)
    requires Invariant(s) && InOrder(s, started, again) && next == Next(s, Dispose)
    ensures InOrder(next, started, if s.disposed then again else 0)
  {
    if !s.disposed {
      SettleAllEffect(s.(disposed := true), s.queue, SettleAll(s.(disposed := true), s.queue));
    }
  }

  lemma OthersLeaveQueue(s: State, step: Step, next: State)
    requires Enabled(s, step) && next == Next(s, step) && (step.Attempt? || step.Return? || step.Release?)
    ensures next.queue == s.queue && next.accepted == s.accepted && next.disposed == s.disposed
    ensures forall id :: id in s.requests ==> id in next.requests && next.requests[id].runs == s.requests[id].runs
  {
  }

  lemma StepKeepsOrder(s: State, started: nat, again: nat, step: Step, next: State)
    returns (nowStarted: nat, nowAgain: nat)
    requires Invariant(s) && InOrder(s, started, again) && Enabled(s, step) && next == Next(s, step)
    ensures InOrder(next, nowStarted, nowAgain)
  {
    nowStarted, nowAgain := started, again;
    match step
    case Enqueue(_, _) => EnqueueKeepsOrder(s, started, again, step, next);
    case Dispose =>
      DisposeKeepsOrder(s, started, again, next);
      nowAgain := if s.disposed then again else 0;
    case LoopTurn => nowStarted, nowAgain := TurnKeepsOrder(s, started, again, next);
    case Timer(id) =>
      WaitingWasCalled(s, id);
      TimerKeepsOrder(s, started, again, step, next);
      nowAgain := again + 1;
    case _ =>
      OthersLeaveQueue(s, step, next);
      SameQueueKeepsOrder(s, started, again, next);
  }

  lemma WaitingWasCalled(s: State, id: nat)
    requires BudgetsOk(s) && id in s.requests && s.requests[id].phase.Waiting?
    ensures s.requests[id].runs > 0
  {
    assert BudgetOk(s.servers, s.requests[id]);
  }

  lemma SameQueueKeepsOrder(s: State, started: nat, again: nat, next: State)
    requires InOrder(s, started, again)
    requires next.queue == s.queue && next.accepted == s.accepted && next.disposed == s.disposed
    requires forall id :: id in s.requests ==> id in next.requests && next.requests[id].runs == s.requests[id].runs
    ensures InOrder(next, started, again)
  {
    assert next.queue[..again] == s.queue[..again];
  }

  lemma {:induction false} RunKeepsOrder(states: seq<State>, steps: seq<Step>, n: nat)
    returns (started: nat, again: nat)
    requires IsFullRun(states, steps) && n < |states|
    ensures InOrder(states[n], started, again)
  {
    if n == 0 {
      started, again := 0, 0;
    } else {
      started, again := RunKeepsOrder(states, steps, n - 1);
      StateHolds(states, steps, n - 1);
      RunStep(states, steps, n);
      started, again := StepKeepsOrder(states[n - 1], started, again, steps[n - 1], states[n]);
    }
  }

  predicate WasCalled(s: State, id: nat) {
    id in s.requests && s.requests[id].runs > 0
  }

  /** Requests are called for the first time in the order in which they were accepted. */
  lemma FirstCallsInOrder(states: seq<State>, steps: seq<Step>, n: nat, i: nat, j: nat)
    requires IsFullRun(states, steps) && n < |states| && i < j < |states[n].accepted|
    ensures WasCalled(states[n], states[n].accepted[j]) ==> WasCalled(states[n], states[n].accepted[i])
  {
    var _, _ := RunKeepsOrder(states, steps, n);
  }

  /** A request to be tried again is ahead of every request that waits for its first call. */
  lemma RetriesGoFirst(states: seq<State>, steps: seq<Step>, n: nat, i: nat, j: nat)
    requires IsFullRun(states, steps) && n < |states| && i < j < |states[n].queue|
    ensures WasCalled(states[n], states[n].queue[j]) ==> WasCalled(states[n], states[n].queue[i])
  {
    var started, again := RunKeepsOrder(states, steps, n);
    var s := states[n];
    if i < again {
      assert s.queue[i] == s.queue[..again][i];
    } else {
      assert s.queue[j] == s.queue[again..][j - again] == s.accepted[started + j - again];
    }
  }

  /** A call is made exactly for the head of the queue, at a turn of the loop that finds a free slot. */
  lemma CallsTheHead(s: State, step: Step, next: State, id: nat)
    requires Invariant(s) && Enabled(s, step) && next == Next(s, step) && id in s.requests
    ensures id in next.requests
    ensures next.requests[id].runs == s.requests[id].runs +
      Count(step == LoopTurn && s.queue != [] && s.queue[0] == id && s.active < s.maxConcurrent)
  {
    if step == Dispose && !s.disposed {
      SettleAllEffect(s.(disposed := true), s.queue, SettleAll(s.(disposed := true), s.queue));
    }
  }
}
