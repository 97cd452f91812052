/**
 The SDK's request queue (sdk/src/request-queue.ts) as a step machine. Every callback the runtime
 may run next is a step, so a run is any interleaving of calls finishing, slots being given back,
 timers firing, loop turns, enqueues (also from within a call) and dispose.
 */
module RequestQueue {
  import opened Wrappers

  /** How a failed call is classified by its message. */
  datatype ErrorKind = TooManyRequests | Transient | Other

  datatype Reply = Resolved | Failed(kind: ErrorKind, retryAfter: Option<nat>)

  datatype Outcome = Resolve | RejectError | RejectRateLimit(delay: nat) | RejectDisposed

  datatype Phase = Queued | Running(tried: nat) | Waiting(delay: nat) | Settled(outcome: Outcome)

  /** `runs` counts the calls of the request's function, `attempts` the RPC attempts inside them. */
  datatype Request = Request(maxRetries: nat, retries: nat, runs: nat, attempts: nat, phase: Phase)

  /** `releasing` counts calls that ended but whose slot is not given back yet. */
  datatype State = State(
    maxConcurrent: nat,
    retryDelay: nat,
    servers: nat,
    queue: seq<nat>,
    active: nat,
    releasing: nat,
    processing: bool,
    disposed: bool,
    requests: map<nat, Request>,
    accepted: seq<nat>,
    settleLog: seq<nat>)

  datatype Step =
    | Enqueue(id: nat, maxRetries: nat)
    | Dispose
    | LoopTurn
    | Attempt(id: nat)
    | Return(id: nat, reply: Reply)
    | Release
    | Timer(id: nat)

  function Initial(maxConcurrent: nat, retryDelay: nat, servers: nat): State {
    State(maxConcurrent, retryDelay, servers, [], 0, 0, false, false, map[], [], [])
  }

  // ---- The code ----

  function Pow2(n: nat): nat { if n == 0 then 1 else 2 * Pow2(n - 1) }

  function RetryDelay(base: nat, retryAfter: Option<nat>, retries: nat): nat {
    if retryAfter.Some? then retryAfter.value * 1000
    else base * Pow2(if retries < 3 then retries else 3)
  }

  predicate ShouldRetry(kind: ErrorKind, r: Request) {
    r.retries < r.maxRetries && kind != Other
  }

  /** The guard at the top of processQueue. */
  function Kick(s: State): State {
    if s.processing || s.active >= s.maxConcurrent || s.queue == [] then s else s.(processing := true)
  }

  predicate QueueKnown(s: State) {
    forall id :: id in s.queue ==> id in s.requests
  }

  predicate Enabled(s: State, step: Step) {
    QueueKnown(s) &&
    match step
    case Enqueue(id, _) => id !in s.requests
    case Dispose => true
    case LoopTurn => s.processing
    case Attempt(id) => id in s.requests && s.requests[id].phase.Running? && s.requests[id].phase.tried < s.servers
    case Return(id, _) => id in s.requests && s.requests[id].phase.Running?
    case Release => s.releasing > 0 && s.active > 0
    case Timer(id) => id in s.requests && s.requests[id].phase.Waiting?
  }

  function Settle(s: State, id: nat, outcome: Outcome): State
    requires id in s.requests
  {
    s.(requests := s.requests[id := s.requests[id].(phase := Settled(outcome))], settleLog := s.settleLog + [id])
  }

  /** dispose settles the queued requests one by one. */
  function SettleAll(s: State, ids: seq<nat>): State
    requires forall id :: id in ids ==> id in s.requests
    decreases |ids|
  {
    if ids == [] then s else SettleAll(Settle(s, ids[0], RejectDisposed), ids[1..])
  }

  /** What a call that ended with a reply leaves of its request. */
  function Replied(s: State, r: Request, reply: Reply): (t: Request)
    ensures t.phase.Waiting? || t.phase.Settled?
    ensures t.runs == r.runs && t.attempts == r.attempts && t.maxRetries == r.maxRetries
    ensures t.retries == r.retries + if t.phase.Waiting? then 1 else 0
    ensures t.phase.Waiting? ==> r.retries < r.maxRetries
  {
    if reply.Resolved? then r.(phase := Settled(Resolve))
    else
      var delay := RetryDelay(s.retryDelay, reply.retryAfter, r.retries);
      if ShouldRetry(reply.kind, r) then r.(retries := r.retries + 1, phase := Waiting(delay))
      else if reply.kind == TooManyRequests then r.(phase := Settled(RejectRateLimit(delay)))
      else r.(phase := Settled(RejectError))
  }

  /** The state after the call of request `id` ended, leaving the request as `r`. */
  function EndCall(s: State, id: nat, r: Request): State {
    s.(requests := s.requests[id := r], releasing := s.releasing + 1,
       settleLog := if r.phase.Settled? then s.settleLog + [id] else s.settleLog)
  }

  function Next(s: State, step: Step): State
    requires Enabled(s, step)
  {
    match step
    case Enqueue(id, maxRetries) =>
      if s.disposed then s
      else Kick(s.(queue := s.queue + [id],
                   requests := s.requests[id := Request(maxRetries, 0, 0, 0, Queued)],
                   accepted := s.accepted + [id]))
    case Dispose =>
      if s.disposed then s
      else SettleAll(s.(disposed := true), s.queue).(queue := [])
    case LoopTurn =>
      if s.queue != [] && s.active < s.maxConcurrent then
        var id := s.queue[0];
        var r := s.requests[id];
        s.(queue := s.queue[1..], active := s.active + 1,
           requests := s.requests[id := r.(runs := r.runs + 1, phase := Running(0))])
      else s.(processing := false)
    case Attempt(id) =>
      var r := s.requests[id];
      s.(requests := s.requests[id := r.(attempts := r.attempts + 1, phase := Running(r.phase.tried + 1))])
    case Return(id, reply) =>
      EndCall(s, id, Replied(s, s.requests[id], reply))
    case Release => Kick(s.(releasing := s.releasing - 1, active := s.active - 1))
    case Timer(id) =>
      Kick(s.(queue := [id] + s.queue, requests := s.requests[id := s.requests[id].(phase := Queued)]))
  }

  predicate IsRun(states: seq<State>, steps: seq<Step>) {
    && |states| == |steps| + 1
    && forall i :: 0 <= i < |steps| ==> Enabled(states[i], steps[i]) && states[i + 1] == Next(states[i], steps[i])
  }

  // ---- Safety ----

  predicate Distinct(ids: seq<nat>) {
    forall i, j :: 0 <= i < j < |ids| ==> ids[i] != ids[j]
  }

  function RunningIds(s: State): set<nat> {
    set id | id in s.requests && s.requests[id].phase.Running?
  }

  /** The attempts that a number of whole calls may make: servers * runs. */
  function AttemptBound(servers: nat, runs: nat): nat {
    if runs == 0 then 0 else servers + AttemptBound(servers, runs - 1)
  }

  /** Calls and attempts made so far are those the retry budget allows. */
  predicate BudgetOk(servers: nat, r: Request) {
    && r.retries <= r.maxRetries
    && match r.phase
       case Queued => r.runs == r.retries && r.attempts <= AttemptBound(servers, r.runs)
       case Waiting(_) => r.runs == r.retries > 0 && r.attempts <= AttemptBound(servers, r.runs)
       case Running(tried) =>
         r.runs == r.retries + 1 && tried <= servers && r.attempts <= AttemptBound(servers, r.retries) + tried
       case Settled(_) => r.runs <= r.retries + 1 && r.attempts <= AttemptBound(servers, r.runs)
  }

  predicate BudgetsOk(s: State) {
    forall id :: id in s.requests ==> BudgetOk(s.servers, s.requests[id])
  }

  ghost predicate AcceptedOk(s: State) {
    Distinct(s.accepted) && forall id :: id in s.requests <==> id in s.accepted
  }

  /** The queue lists exactly the requests in the queued phase, once each. */
  ghost predicate QueueOk(s: State) {
    Distinct(s.queue) && forall id :: id in s.queue <==> id in s.requests && s.requests[id].phase.Queued?
  }

  /** Exactly the settled requests were settled, once each. */
  ghost predicate SettledOk(s: State) {
    Distinct(s.settleLog) && forall id :: id in s.settleLog <==> id in s.requests && s.requests[id].phase.Settled?
  }

  /** Each held slot belongs to a running call or to one that just ended. */
  predicate SlotsOk(s: State) {
    s.active == |RunningIds(s)| + s.releasing && s.active <= s.maxConcurrent
  }

  /** No idle slot beside a queued request, unless the loop is at work. */
  predicate NoIdleSlot(s: State) {
    !s.processing && s.queue != [] ==> s.active == s.maxConcurrent
  }

  ghost predicate Invariant(s: State) {
    AcceptedOk(s) && QueueOk(s) && SettledOk(s) && SlotsOk(s) && BudgetsOk(s) && NoIdleSlot(s)
  }

  lemma DistinctAppend(ids: seq<nat>, id: nat)
    requires Distinct(ids) && id !in ids
    ensures Distinct(ids + [id]) && Distinct([id] + ids)
  {
  }

  lemma DistinctConcat(a: seq<nat>, b: seq<nat>)
    requires Distinct(a) && Distinct(b) && forall id :: id in a ==> id !in b
    ensures Distinct(a + b)
  {
    var c := a + b;
    forall i, j | 0 <= i < j < |c| ensures c[i] != c[j] {
      if i < |a| <= j {
        assert c[i] in a && c[j] in b;
      }
    }
  }

  lemma EnqueueKeeps(s: State, step: Step)
    requires step.Enqueue? && Invariant(s) && Enabled(s, step)
    ensures Invariant(Next(s, step))
  {
    if !s.disposed {
      DistinctAppend(s.queue, step.id);
      DistinctAppend(s.accepted, step.id);
      assert RunningIds(Next(s, step)) == RunningIds(s);
    }
  }

  lemma {:induction false} SettleAllEffect(s: State, ids: seq<nat>, t: State)
    requires forall id :: id in ids ==> id in s.requests
    requires Distinct(ids) && t == SettleAll(s, ids)
    ensures t == s.(requests := t.requests, settleLog := s.settleLog + ids)
    ensures t.requests.Keys == s.requests.Keys
    ensures forall id :: id in s.requests ==>
      t.requests[id] == if id in ids then s.requests[id].(phase := Settled(RejectDisposed)) else s.requests[id]
    decreases |ids|
  {
    if ids != [] {
      assert ids == [ids[0]] + ids[1..];
      assert ids[0] !in ids[1..];
      SettleAllEffect(Settle(s, ids[0], RejectDisposed), ids[1..], t);
      assert s.settleLog + ids == s.settleLog + [ids[0]] + ids[1..];
    }
  }

  /** The queued requests are settled, and no other request changes. */
  lemma DisposeKeepsLogs(s: State, t: State)
    requires AcceptedOk(s) && QueueOk(s) && SettledOk(s) && BudgetsOk(s)
    requires t.accepted == s.accepted && t.servers == s.servers && t.queue == []
    requires t.requests.Keys == s.requests.Keys && t.settleLog == s.settleLog + s.queue
    requires forall id :: id in s.requests ==>
      t.requests[id] == if id in s.queue then s.requests[id].(phase := Settled(RejectDisposed)) else s.requests[id]
    ensures AcceptedOk(t) && QueueOk(t) && SettledOk(t) && BudgetsOk(t)
  {
    DistinctConcat(s.settleLog, s.queue);
    assert forall id :: id in t.settleLog <==> id in s.settleLog || id in s.queue;
  }

  lemma DisposeKeeps(s: State)
    requires Invariant(s) && !s.disposed
    ensures Invariant(Next(s, Dispose))
  {
    var all := SettleAll(s.(disposed := true), s.queue);
    SettleAllEffect(s.(disposed := true), s.queue, all);
    var t := Next(s, Dispose);
    assert t == all.(queue := []);
    DisposeKeepsLogs(s, t);
    assert RunningIds(t) == RunningIds(s);
  }

  /** The request at the head of the queue leaves it and runs. */
  lemma StartKeepsQueue(s: State, t: State, id: nat, r: Request)
    requires QueueOk(s) && s.queue != [] && id == s.queue[0]
    requires t.queue == s.queue[1..] && t.requests == s.requests[id := r] && r.phase.Running?
    ensures QueueOk(t)
  {
    assert s.queue == [id] + s.queue[1..];
    assert id !in s.queue[1..];
  }

  lemma StartKeepsSlots(s: State, t: State, id: nat, r: Request)
    requires SlotsOk(s) && s.active < s.maxConcurrent && id in s.requests && !s.requests[id].phase.Running?
    requires t.requests == s.requests[id := r] && r.phase.Running?
    requires t.active == s.active + 1 && t.releasing == s.releasing && t.maxConcurrent == s.maxConcurrent
    ensures SlotsOk(t)
  {
    assert RunningIds(t) == RunningIds(s) + {id};
  }

  lemma StartKeepsLogs(s: State, t: State, id: nat, r: Request)
    requires AcceptedOk(s) && SettledOk(s) && BudgetsOk(s)
    requires id in s.requests && s.requests[id].phase.Queued?
    requires r == s.requests[id].(runs := s.requests[id].runs + 1, phase := Running(0))
    requires t == s.(queue := t.queue, active := t.active, requests := s.requests[id := r])
    ensures AcceptedOk(t) && SettledOk(t) && BudgetsOk(t)
  {
    assert BudgetOk(s.servers, s.requests[id]);
  }

  lemma LoopTurnKeeps(s: State)
    requires Invariant(s) && Enabled(s, LoopTurn)
    ensures Invariant(Next(s, LoopTurn))
  {
    if s.queue != [] && s.active < s.maxConcurrent {
      var t, id := Next(s, LoopTurn), s.queue[0];
      assert id in s.queue;
      var r := s.requests[id].(runs := s.requests[id].runs + 1, phase := Running(0));
      StartKeepsQueue(s, t, id, r);
      StartKeepsSlots(s, t, id, r);
      StartKeepsLogs(s, t, id, r);
    }
  }

  lemma EndCallKeeps(s: State, id: nat, r: Request)
    requires Invariant(s) && id in s.requests && s.requests[id].phase.Running?
    requires (r.phase.Waiting? || r.phase.Settled?) && BudgetOk(s.servers, r)
    ensures Invariant(EndCall(s, id, r))
  {
    var t := EndCall(s, id, r);
    assert RunningIds(t) == RunningIds(s) - {id};
    if r.phase.Settled? {
      DistinctAppend(s.settleLog, id);
    }
  }

  lemma ReturnKeeps(s: State, step: Step)
    requires step.Return? && Invariant(s) && Enabled(s, step)
    ensures Invariant(Next(s, step))
  {
    var r := s.requests[step.id];
    assert AttemptBound(s.servers, r.retries + 1) == s.servers + AttemptBound(s.servers, r.retries);
    EndCallKeeps(s, step.id, Replied(s, r, step.reply));
  }

  lemma TimerKeeps(s: State, step: Step)
    requires step.Timer? && Invariant(s) && Enabled(s, step)
    ensures Invariant(Next(s, step))
  {
    DistinctAppend(s.queue, step.id);
    assert RunningIds(Next(s, step)) == RunningIds(s);
  }

  lemma AttemptKeeps(s: State, step: Step)
    requires Invariant(s) && Enabled(s, step) && step.Attempt?
    ensures Invariant(Next(s, step))
  {
    assert RunningIds(Next(s, step)) == RunningIds(s);
  }

  lemma ReleaseKeeps(s: State)
    requires Invariant(s) && Enabled(s, Release)
    ensures Invariant(Next(s, Release))
  {
    assert RunningIds(Next(s, Release)) == RunningIds(s);
  }

  lemma StepKeeps(s: State, step: Step)
    requires Invariant(s) && Enabled(s, step)
    ensures Invariant(Next(s, step))
  {
    match step
    case Enqueue(_, _) => EnqueueKeeps(s, step);
    case Dispose =>
      if !s.disposed {
        DisposeKeeps(s);
      }
    case LoopTurn => LoopTurnKeeps(s);
    case Attempt(_) => AttemptKeeps(s, step);
    case Return(_, _) => ReturnKeeps(s, step);
    case Release => ReleaseKeeps(s);
    case Timer(_) => TimerKeeps(s, step);
  }

  lemma {:induction false} RunKeeps(states: seq<State>, steps: seq<Step>, n: nat)
    requires IsRun(states, steps) && Invariant(states[0]) && n < |states|
    ensures Invariant(states[n])
  {
    if n > 0 {
      RunKeeps(states, steps, n - 1);
      StepKeeps(states[n - 1], steps[n - 1]);
    }
  }

  // ---- Main results ----

  function WaitingIds(s: State): set<nat> {
    set id | id in s.requests && s.requests[id].phase.Waiting?
  }

  function Count(b: bool): nat { if b then 1 else 0 }

  lemma {:induction false} AttemptBoundIsProduct(servers: nat, runs: nat)
    ensures AttemptBound(servers, runs) == servers * runs
  {
    if runs > 0 {
      AttemptBoundIsProduct(servers, runs - 1);
    }
  }

  lemma {:induction false} AttemptBoundGrows(servers: nat, a: nat, b: nat)
    requires a <= b
    ensures AttemptBound(servers, a) <= AttemptBound(servers, b)
  {
    if a < b {
      AttemptBoundGrows(servers, a, b - 1);
    }
  }

  /**
   In every reachable state each accepted request is in exactly one place, was settled at most once
   and made no more calls and attempts than its retry budget allows; slots are never exceeded.
   */
  lemma QueueSafety(states: seq<State>, steps: seq<Step>, n: nat, id: nat)
    requires IsRun(states, steps) && n < |states|
    requires states[0] == Initial(states[0].maxConcurrent, states[0].retryDelay, states[0].servers)
    requires id in states[n].accepted
    ensures states[n].active <= states[n].maxConcurrent && |RunningIds(states[n])| <= states[n].maxConcurrent
    ensures Distinct(states[n].settleLog) && Distinct(states[n].queue)
    ensures Count(id in states[n].queue) + Count(id in RunningIds(states[n]))
      + Count(id in WaitingIds(states[n])) + Count(id in states[n].settleLog) == 1
    ensures id in states[n].requests
    ensures states[n].requests[id].runs <= states[n].requests[id].maxRetries + 1
    ensures states[n].requests[id].attempts <= (states[n].requests[id].maxRetries + 1) * states[n].servers
  {
    assert RunningIds(states[0]) == {};
    RunKeeps(states, steps, n);
    InOnePlace(states[n], id);
    WithinBudget(states[n], id);
  }

  lemma InOnePlace(s: State, id: nat)
    requires Invariant(s) && id in s.accepted
    ensures id in s.requests
    ensures Count(id in s.queue) + Count(id in RunningIds(s))
      + Count(id in WaitingIds(s)) + Count(id in s.settleLog) == 1
  {
  }

  lemma WithinBudget(s: State, id: nat)
    requires BudgetsOk(s) && id in s.requests
    ensures s.requests[id].runs <= s.requests[id].maxRetries + 1
    ensures s.requests[id].attempts <= (s.requests[id].maxRetries + 1) * s.servers
  {
    var r := s.requests[id];
    var all := r.maxRetries + 1;
    AttemptBoundIsProduct(s.servers, all);
    AttemptBoundGrows(s.servers, r.runs, all);
    if r.phase.Running? {
      AttemptBoundGrows(s.servers, r.retries + 1, all);
    }
  }

  /** Between loop turns a request waits in the queue only while every slot is taken. */
  lemma QueueNeverIdle(states: seq<State>, steps: seq<Step>, n: nat)
    requires IsRun(states, steps) && n < |states|
    requires states[0] == Initial(states[0].maxConcurrent, states[0].retryDelay, states[0].servers)
    ensures !states[n].processing && states[n].queue != [] ==> states[n].active == states[n].maxConcurrent
  {
    assert RunningIds(states[0]) == {};
    RunKeeps(states, steps, n);
  }

  /** A request settles once and for all. */
  lemma SettledIsFinal(s: State, step: Step, id: nat)
    requires Invariant(s) && Enabled(s, step) && id in s.requests && s.requests[id].phase.Settled?
    ensures id in Next(s, step).requests && Next(s, step).requests[id] == s.requests[id]
  {
    if step == Dispose && !s.disposed {
      SettleAllEffect(s.(disposed := true), s.queue, SettleAll(s.(disposed := true), s.queue));
    }
  }

  lemma {:induction false} SettledStays(states: seq<State>, steps: seq<Step>, m: nat, n: nat, id: nat)
    requires IsRun(states, steps) && m <= n < |states| && Invariant(states[0])
    requires id in states[m].requests && states[m].requests[id].phase.Settled?
    ensures id in states[n].requests && states[n].requests[id] == states[m].requests[id]
    decreases n
  {
    if m < n {
      SettledStays(states, steps, m, n - 1, id);
      RunKeeps(states, steps, n - 1);
      SettledIsFinal(states[n - 1], steps[n - 1], id);
    }
  }

  // ---- After dispose ----

  /** Calls that a request may still make: the retries it has not performed yet. */
  function CallsLeft(r: Request): int {
    match r.phase
    case Settled(_) => 0
    case _ => r.maxRetries + 1 - r.runs
  }

  lemma DisposedStep(s: State, step: Step, id: nat, next: State)
    requires QueueOk(s) && BudgetsOk(s) && Enabled(s, step) && s.disposed
    requires id in s.requests && next == Next(s, step)
    ensures next.disposed && next.accepted == s.accepted
    ensures id in next.requests && SpendsCalls(s.requests[id], next.requests[id])
  {
    assert BudgetOk(s.servers, s.requests[id]);
    assert step == LoopTurn && s.queue != [] ==> s.queue[0] in s.queue;
  }

  /** The calls made between two moments come out of the calls that were left at the first. */
  predicate SpendsCalls(r: Request, t: Request) {
    0 <= t.runs - r.runs <= CallsLeft(r) - CallsLeft(t)
  }

  lemma RunStep(states: seq<State>, steps: seq<Step>, n: nat)
    requires IsRun(states, steps) && 0 < n < |states|
    ensures Enabled(states[n - 1], steps[n - 1]) && states[n] == Next(states[n - 1], steps[n - 1])
  {
  }

  lemma DisposedRunStep(states: seq<State>, steps: seq<Step>, n: nat, id: nat)
    requires IsRun(states, steps) && 0 < n < |states| && Invariant(states[0])
    requires states[n - 1].disposed && id in states[n - 1].requests
    ensures states[n].disposed && states[n].accepted == states[n - 1].accepted
    ensures id in states[n].requests && SpendsCalls(states[n - 1].requests[id], states[n].requests[id])
  {
    RunKeeps(states, steps, n - 1);
    RunStep(states, steps, n);
    QueueAndBudgets(states[n - 1]);
    DisposedStep(states[n - 1], steps[n - 1], id, states[n]);
  }

  lemma QueueAndBudgets(s: State)
    requires Invariant(s)
    ensures QueueOk(s) && BudgetsOk(s)
  {
  }

  lemma SpendingAddsUp(r: Request, s: Request, t: Request)
    requires SpendsCalls(r, s) && SpendsCalls(s, t)
    ensures SpendsCalls(r, t)
  {
  }

  lemma CallsLeftNotNegative(s: State, id: nat)
    requires Invariant(s) && id in s.requests
    ensures 0 <= CallsLeft(s.requests[id])
  {
    assert BudgetOk(s.servers, s.requests[id]);
  }

  /**
   After dispose nothing is accepted any more; a request that was settled, or queued when dispose
   ran, makes no call, and any other one at most as many as it had retries left to perform.
   */
  lemma {:induction false} DisposedCalls(states: seq<State>, steps: seq<Step>, m: nat, n: nat, id: nat)
    requires IsRun(states, steps) && m <= n < |states| && Invariant(states[0])
    requires states[m].disposed && id in states[m].requests
    ensures states[n].disposed && states[n].accepted == states[m].accepted
    ensures id in states[n].requests && SpendsCalls(states[m].requests[id], states[n].requests[id])
    ensures states[n].requests[id].runs - states[m].requests[id].runs <= CallsLeft(states[m].requests[id])
    decreases n
  {
    if m < n {
      DisposedCalls(states, steps, m, n - 1, id);
      DisposedRunStep(states, steps, n, id);
      SpendingAddsUp(states[m].requests[id], states[n - 1].requests[id], states[n].requests[id]);
    }
    RunKeeps(states, steps, n);
    CallsLeftNotNegative(states[n], id);
  }

  lemma DisposeRejectsQueued(s: State, id: nat)
    requires Invariant(s) && !s.disposed && id in s.requests
    ensures QueueKnown(s) && id in Next(s, Dispose).requests && Next(s, Dispose).queue == []
    ensures Next(s, Dispose).requests[id] ==
      if id in s.queue then s.requests[id].(phase := Settled(RejectDisposed)) else s.requests[id]
  {
    SettleAllEffect(s.(disposed := true), s.queue, SettleAll(s.(disposed := true), s.queue));
  }
}
