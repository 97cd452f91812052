/** The request queue never stalls: a measure falls at every step that is not a new call from outside. */
module RequestQueueProgress {
  import opened RequestQueue

  predicate IsInternal(step: Step) {
    !step.Enqueue? && !step.Dispose?
  }

  /** Steps that one retry can still cause: timer, start, attempts, return, release and loop turns. */
  function RetryWork(servers: nat, retriesLeft: nat): nat {
    if retriesLeft == 0 then 0 else 6 + servers + RetryWork(servers, retriesLeft - 1)
  }

  function Work(servers: nat, r: Request): nat {
    var left := if r.retries <= r.maxRetries then r.maxRetries - r.retries else 0;
    match r.phase
    case Settled(_) => 0
    case Queued => 4 + servers + RetryWork(servers, left)
    case Waiting(_) => 6 + servers + RetryWork(servers, left)
    case Running(tried) => 3 + (if tried <= servers then servers - tried else 0) + RetryWork(servers, left)
  }

  function TotalWork(servers: nat, requests: map<nat, Request>, ids: seq<nat>): nat
    requires forall id :: id in ids ==> id in requests
    decreases |ids|
  {
    if ids == [] then 0
    else Work(servers, requests[ids[|ids| - 1]]) + TotalWork(servers, requests, ids[..|ids| - 1])
  }

  ghost function Measure(s: State): nat
    requires AcceptedOk(s)
  {
    TotalWork(s.servers, s.requests, s.accepted) + 2 * s.releasing + if s.processing then 1 else 0
  }

  lemma {:induction false} OthersSameWork(servers: nat, a: map<nat, Request>, b: map<nat, Request>, ids: seq<nat>)
    requires forall id :: id in ids ==> id in a && id in b && a[id] == b[id]
    ensures TotalWork(servers, a, ids) == TotalWork(servers, b, ids)
    decreases |ids|
  {
    if ids != [] {
      OthersSameWork(servers, a, b, ids[..|ids| - 1]);
    }
  }

  lemma {:induction false} OneRequestChanges(
      servers: nat, a: map<nat, Request>, b: map<nat, Request>, ids: seq<nat>, id: nat)
    requires Distinct(ids) && id in ids
    requires forall x :: x in ids ==> x in a && x in b && (x != id ==> a[x] == b[x])
    ensures TotalWork(servers, b, ids) == TotalWork(servers, a, ids) - Work(servers, a[id]) + Work(servers, b[id])
    decreases |ids|
  {
    var front, last := ids[..|ids| - 1], ids[|ids| - 1];
    if last == id {
      OthersSameWork(servers, a, b, front);
    } else {
      OneRequestChanges(servers, a, b, front, id);
    }
  }

  lemma InternalStepKeepsAccepted(s: State, step: Step)
    requires Invariant(s) && Enabled(s, step) && IsInternal(step)
    ensures Next(s, step).accepted == s.accepted && Next(s, step).servers == s.servers
    ensures Next(s, step).maxConcurrent == s.maxConcurrent
    ensures Invariant(Next(s, step))
  {
    StepKeeps(s, step);
  }

  /** A call that ends frees more work than giving back its slot costs. */
  lemma ReplyWorkFalls(s: State, r: Request, reply: Reply)
    requires r.phase.Running? && BudgetOk(s.servers, r)
    ensures Work(s.servers, Replied(s, r, reply)) + 2 < Work(s.servers, r)
  {
  }

  /** If only one request changes, its work and the pending callbacks decide. */
  lemma OneRequestDecides(s: State, t: State, id: nat)
    requires AcceptedOk(s) && AcceptedOk(t) && id in s.requests
    requires t.accepted == s.accepted && t.servers == s.servers
    requires forall x :: x in s.requests && x != id ==> x in t.requests && t.requests[x] == s.requests[x]
    requires id in t.requests
    requires Work(t.servers, t.requests[id]) + 2 * t.releasing + (if t.processing then 1 else 0)
      < Work(s.servers, s.requests[id]) + 2 * s.releasing + (if s.processing then 1 else 0)
    ensures Measure(t) < Measure(s)
  {
    OneRequestChanges(s.servers, s.requests, t.requests, s.accepted, id);
  }

  // What one request has left, before and after a step.

  lemma StartWorkFalls(servers: nat, r: Request, t: Request)
    requires r.phase.Queued? && t == r.(runs := r.runs + 1, phase := Running(0))
    ensures Work(servers, t) < Work(servers, r)
  {
  }

  lemma AttemptWorkFalls(servers: nat, r: Request, t: Request)
    requires r.phase.Running? && r.phase.tried < servers
    requires t == r.(attempts := r.attempts + 1, phase := Running(r.phase.tried + 1))
    ensures Work(servers, t) < Work(servers, r)
  {
  }

  lemma TimerWorkFalls(servers: nat, r: Request, t: Request)
    requires r.phase.Waiting? && t == r.(phase := Queued)
    ensures Work(servers, t) + 1 < Work(servers, r)
  {
  }

  lemma StartFalls(s: State, next: State)
    requires Invariant(s) && Enabled(s, LoopTurn) && s.queue != [] && s.active < s.maxConcurrent
    requires next == Next(s, LoopTurn) && AcceptedOk(next)
    ensures Measure(next) < Measure(s)
  {
    var id := s.queue[0];
    assert id in s.queue;
    StartWorkFalls(s.servers, s.requests[id], next.requests[id]);
    OneRequestDecides(s, next, id);
  }

  lemma AttemptFalls(s: State, step: Step, next: State)
    requires AcceptedOk(s) && Enabled(s, step) && step.Attempt?
    requires next == Next(s, step) && AcceptedOk(next)
    ensures Measure(next) < Measure(s)
  {
    AttemptWorkFalls(s.servers, s.requests[step.id], next.requests[step.id]);
    OneRequestDecides(s, next, step.id);
  }

  lemma ReturnFalls(s: State, step: Step, next: State)
    requires Invariant(s) && Enabled(s, step) && step.Return?
    requires next == Next(s, step) && AcceptedOk(next)
    ensures Measure(next) < Measure(s)
  {
    ReplyWorkFalls(s, s.requests[step.id], step.reply);
    OneRequestDecides(s, next, step.id);
  }

  lemma TimerFalls(s: State, step: Step, next: State)
    requires AcceptedOk(s) && Enabled(s, step) && step.Timer?
    requires next == Next(s, step) && AcceptedOk(next)
    ensures Measure(next) < Measure(s)
  {
    TimerWorkFalls(s.servers, s.requests[step.id], next.requests[step.id]);
    OneRequestDecides(s, next, step.id);
  }

  /** Every loop turn, attempt, return, release and timer makes the measure smaller. */
  lemma MeasureFalls(s: State, step: Step)
    requires Invariant(s) && Enabled(s, step) && IsInternal(step)
    ensures Invariant(Next(s, step)) && Measure(Next(s, step)) < Measure(s)
  {
    InternalStepKeepsAccepted(s, step);
    var next := Next(s, step);
    match step
    case LoopTurn =>
      if s.queue != [] && s.active < s.maxConcurrent {
        StartFalls(s, next);
      }
    case Attempt(_) => AttemptFalls(s, step, next);
    case Return(_, _) => ReturnFalls(s, step, next);
    case Release =>
    case Timer(_) => TimerFalls(s, step, next);
  }

  /** A run of internal steps is no longer than the measure it starts with. */
  lemma {:induction false} InternalRunsAreShort(states: seq<State>, steps: seq<Step>, n: nat)
    requires IsRun(states, steps) && Invariant(states[0]) && n < |states|
    requires forall i :: 0 <= i < n ==> IsInternal(steps[i])
    ensures Invariant(states[n]) && Measure(states[n]) + n <= Measure(states[0])
  {
    if n > 0 {
      InternalRunsAreShort(states, steps, n - 1);
      MeasureFalls(states[n - 1], steps[n - 1]);
    }
  }

  ghost predicate AllSettled(s: State) {
    forall id :: id in s.accepted ==> id in s.requests && s.requests[id].phase.Settled?
  }

  /**
   Where a run of internal steps can stop: with at least one slot, as long as a request is not
   settled some call can return, some timer can fire, some slot can be given back or the loop turns.
   */
  lemma SomeStepIsEnabled(s: State, id: nat) returns (step: Step)
    requires Invariant(s) && s.maxConcurrent > 0
    requires id in s.requests && !s.requests[id].phase.Settled?
    ensures Enabled(s, step) && IsInternal(step)
  {
    if s.processing {
      step := LoopTurn;
    } else if s.releasing > 0 {
      step := Release;
    } else {
      match s.requests[id].phase
      case Running(_) => step := Return(id, Resolved);
      case Waiting(_) => step := Timer(id);
      case Queued =>
        assert id in s.queue;
        assert |RunningIds(s)| > 0;
        var other :| other in RunningIds(s);
        step := Return(other, Resolved);
    }
  }

  /** A run of internal steps that cannot be continued has settled every request, if there is a slot. */
  lemma MaximalRunsSettleAll(states: seq<State>, steps: seq<Step>)
    requires IsRun(states, steps) && Invariant(states[0]) && states[0].maxConcurrent > 0
    requires forall i :: 0 <= i < |steps| ==> IsInternal(steps[i])
    requires forall step :: Enabled(states[|steps|], step) ==> !IsInternal(step)
    ensures AllSettled(states[|steps|]) && |steps| <= Measure(states[0])
  {
    var n := |steps|;
    InternalRunsAreShort(states, steps, n);
    SlotsStay(states, steps, n);
    forall id | id in states[n].accepted ensures states[n].requests[id].phase.Settled? {
      if !states[n].requests[id].phase.Settled? {
        var step := SomeStepIsEnabled(states[n], id);
      }
    }
  }

  lemma StepKeepsSlots(s: State, step: Step, next: State)
    requires Invariant(s) && Enabled(s, step) && next == Next(s, step)
    ensures next.maxConcurrent == s.maxConcurrent
  {
    if step == Dispose && !s.disposed {
      var disposed := s.(disposed := true);
      SettleAllEffect(disposed, s.queue, SettleAll(disposed, s.queue));
    }
  }

  lemma {:induction false} SlotsStay(states: seq<State>, steps: seq<Step>, n: nat)
    requires IsRun(states, steps) && Invariant(states[0]) && n < |states|
    ensures states[n].maxConcurrent == states[0].maxConcurrent
  {
    if n > 0 {
      SlotsStay(states, steps, n - 1);
      RunKeeps(states, steps, n - 1);
      RunStep(states, steps, n);
      StepKeepsSlots(states[n - 1], steps[n - 1], states[n]);
    }
  }

  /** The request was never called, and waits in the queue unless the queue was disposed of. */
  predicate NeverCalled(s: State, id: nat) {
    id in s.requests && s.requests[id].runs == 0 && (!s.disposed ==> s.requests[id].phase.Queued?)
  }

  lemma NoSlotDispose(s: State, id: nat)
    requires Invariant(s) && !s.disposed && NeverCalled(s, id)
    ensures NeverCalled(Next(s, Dispose), id)
  {
    SettleAllEffect(s.(disposed := true), s.queue, SettleAll(s.(disposed := true), s.queue));
  }

  lemma NoSlotStep(s: State, step: Step, id: nat, next: State)
    requires Invariant(s) && Enabled(s, step) && next == Next(s, step) && s.maxConcurrent == 0
    requires (id in s.requests ==> NeverCalled(s, id)) && id in next.requests
    ensures NeverCalled(next, id)
  {
    assert RunningIds(s) == {};
    assert forall x :: x in s.requests ==> (s.requests[x].phase.Running? <==> x in RunningIds(s));
    if step == Dispose && !s.disposed {
      SettleAllEffect(s.(disposed := true), s.queue, SettleAll(s.(disposed := true), s.queue));
      NoSlotDispose(s, id);
    }
  }

  /** Without a slot nothing ever runs: a queue built with maxConcurrent 0 settles nothing but by dispose. */
  lemma {:induction false} NoSlotNoCall(states: seq<State>, steps: seq<Step>, n: nat, id: nat)
    requires IsRun(states, steps) && n < |states|
    requires states[0] == Initial(0, states[0].retryDelay, states[0].servers)
    requires id in states[n].requests
    ensures states[n].requests[id].runs == 0
    ensures !states[n].disposed ==> states[n].requests[id].phase.Queued?
  {
    assert RunningIds(states[0]) == {};
    if n > 0 {
      RunKeeps(states, steps, n - 1);
      SlotsStay(states, steps, n - 1);
      RunStep(states, steps, n);
      if id in states[n - 1].requests {
        NoSlotNoCall(states, steps, n - 1, id);
      }
      NoSlotStep(states[n - 1], steps[n - 1], id, states[n]);
    }
  }
}
