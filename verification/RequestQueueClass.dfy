/**
 RequestQueue as the object the SDK holds: its methods update fields in place and run the
 processing loop to its end, which is a run of the step machine. A request's function is called at
 its start and replies later; calls it makes to the queue meanwhile are steps of the machine.
 */
module RequestQueueClass {
  import opened RequestQueue
  import opened QueueOutcomes

  /** The loop of processQueue, turn by turn, until its guard fails. */
  function Drained(s: State): State
    requires QueueKnown(s)
    decreases |s.queue|
  {
    if !s.processing then s
    else if s.queue != [] && s.active < s.maxConcurrent then
      var t := Next(s, LoopTurn);
      assert QueueKnown(t) by {
        assert forall id :: id in t.queue ==> id in s.queue;
      }
      Drained(t)
    else Next(s, LoopTurn)
  }

  lemma LongerRun(s: State, states: seq<State>, steps: seq<Step>) returns (longer: seq<State>, taken: seq<Step>)
    requires Enabled(s, LoopTurn) && IsRun(states, steps) && states[0] == Next(s, LoopTurn)
    requires forall i :: 0 <= i < |steps| ==> steps[i] == LoopTurn
    ensures IsRun(longer, taken) && longer[0] == s && longer[|taken|] == states[|steps|]
    ensures forall i :: 0 <= i < |taken| ==> taken[i] == LoopTurn
  {
    longer, taken := [s] + states, [LoopTurn] + steps;
    forall i | 0 <= i < |taken|
      ensures Enabled(longer[i], taken[i]) && longer[i + 1] == Next(longer[i], taken[i])
    {
      if i > 0 {
        assert longer[i] == states[i - 1] && taken[i] == steps[i - 1] && longer[i + 1] == states[i];
      }
    }
  }

  lemma {:induction false} DrainedIsRun(s: State) returns (states: seq<State>, steps: seq<Step>)
    requires Invariant(s)
    ensures IsRun(states, steps) && states[0] == s && states[|steps|] == Drained(s)
    ensures forall i :: 0 <= i < |steps| ==> steps[i] == LoopTurn
    ensures Invariant(Drained(s)) && !Drained(s).processing
    decreases |s.queue|
  {
    if !s.processing {
      states, steps := [s], [];
    } else {
      StepKeeps(s, LoopTurn);
      var t := Next(s, LoopTurn);
      if s.queue != [] && s.active < s.maxConcurrent {
        states, steps := DrainedIsRun(t);
      } else {
        states, steps := [t], [];
      }
      states, steps := LongerRun(s, states, steps);
    }
  }

  class Queue {
    const maxConcurrent: nat
    const retryDelay: nat
    const servers: nat
    var queue: seq<nat>
    var activeRequests: nat
    var processing: bool
    var disposed: bool
    /** What the closures of the runtime hold: the requests, pending finally-callbacks, settled promises. */
    var requests: map<nat, Request>
    var releasing: nat
    var accepted: seq<nat>
    var settleLog: seq<nat>

    function Now(): State
      reads this
    {
      State(maxConcurrent, retryDelay, servers, queue, activeRequests, releasing, processing, disposed,
            requests, accepted, settleLog)
    }

    /** Between two callbacks the loop is not at work. */
    ghost predicate Valid()
      reads this
    {
      Invariant(Now()) && !processing
    }

    constructor (maxConcurrent: nat, retryDelay: nat, servers: nat)
      ensures Valid() && Now() == Initial(maxConcurrent, retryDelay, servers)
    {
      this.maxConcurrent, this.retryDelay, this.servers := maxConcurrent, retryDelay, servers;
      queue, activeRequests, processing, disposed := [], 0, false, false;
      requests, releasing, accepted, settleLog := map[], 0, [], [];
      new;
      assert RunningIds(Now()) == {};
    }

    /** The body of the processing loop. */
    method StartNext()
      requires processing && QueueKnown(Now()) && queue != [] && activeRequests < maxConcurrent
      modifies this
      ensures Now() == Next(old(Now()), LoopTurn)
    {
      var id := queue[0];
      queue := queue[1..];
      activeRequests := activeRequests + 1;
      var r := requests[id];
      requests := requests[id := r.(runs := r.runs + 1, phase := Running(0))];
    }

    method ProcessQueue()
      requires Invariant(Kick(Now())) && !processing
      modifies this
      ensures Valid() && Now() == Drained(Kick(old(Now())))
    {
      ghost var final := Drained(Kick(Now()));
      ghost var _, _ := DrainedIsRun(Kick(Now()));
      if activeRequests >= maxConcurrent || queue == [] {
        return;
      }
      processing := true;
      RunLoop();
      assert Now() == final;
    }

    method RunLoop()
      requires processing && QueueKnown(Now())
      modifies this
      ensures Now() == Drained(old(Now()))
    {
      while queue != [] && activeRequests < maxConcurrent
        invariant processing && QueueKnown(Now()) && Drained(Now()) == Drained(old(Now()))
        decreases |queue|
      {
        label before:
        StartNext();
        assert forall x :: x in queue ==> x in old@before(queue);
      }
      processing := false;
    }

    method Enqueue(id: nat, maxRetries: nat) returns (ok: bool)
      requires Valid() && id !in requests
      modifies this
      ensures Valid() && ok == !old(disposed)
      ensures Now() == Drained(Next(old(Now()), RequestQueue.Enqueue(id, maxRetries)))
    {
      if disposed {
        return false;
      }
      StepKeeps(Now(), RequestQueue.Enqueue(id, maxRetries));
      queue := queue + [id];
      requests := requests[id := Request(maxRetries, 0, 0, 0, Queued)];
      accepted := accepted + [id];
      ProcessQueue();
      ok := true;
    }

    method Dispose()
      requires Valid()
      modifies this
      ensures Valid() && Now() == Next(old(Now()), RequestQueue.Dispose)
    {
      if disposed {
        return;
      }
      ghost var before := Now();
      StepKeeps(before, RequestQueue.Dispose);
      disposed := true;
      var pending := queue;
      ghost var final := SettleAll(Now(), pending);
      SettleAllEffect(Now(), pending, final);
      while pending != []
        invariant forall id :: id in pending ==> id in requests
        invariant SettleAll(Now(), pending) == final
        decreases |pending|
      {
        var id := pending[0];
        requests := requests[id := requests[id].(phase := Settled(RejectDisposed))];
        settleLog := settleLog + [id];
        pending := pending[1..];
      }
      queue := [];
    }

    /** The continuation of executeRequest: resolve, reject, or arm a retry timer. */
    method CallReturned(id: nat, reply: Reply)
      requires Valid() && id in requests && requests[id].phase.Running?
      modifies this
      ensures Valid() && Now() == Next(old(Now()), Return(id, reply))
      ensures id in requests && Answered(retryDelay, old(requests)[id], reply, requests[id])
      ensures requests == old(requests)[id := requests[id]] && releasing == old(releasing) + 1
      ensures settleLog == old(settleLog) + if requests[id].phase.Settled? then [id] else []
      ensures queue == old(queue) && activeRequests == old(activeRequests) && disposed == old(disposed)
    {
      ghost var before := Now();
      ReplyAnswers(Now(), requests[id], reply, Replied(Now(), requests[id], reply));
      var r := Replied(Now(), requests[id], reply);
      requests := requests[id := r];
      releasing := releasing + 1;
      if r.phase.Settled? {
        settleLog := settleLog + [id];
      }
      assert Now() == Next(before, Return(id, reply));
      ReturnKeeps(before, Return(id, reply));
    }

    method SlotReleased()
      requires Valid() && releasing > 0
      modifies this
      ensures Valid() && Now() == Drained(Next(old(Now()), Release))
    {
      ghost var before := Now();
      releasing := releasing - 1;
      activeRequests := activeRequests - 1;
      assert Kick(Now()) == Next(before, Release);
      StepKeeps(before, Release);
      ProcessQueue();
    }

    method TimerFired(id: nat)
      requires Valid() && id in requests && requests[id].phase.Waiting?
      modifies this
      ensures Valid() && Now() == Drained(Next(old(Now()), Timer(id)))
    {
      StepKeeps(Now(), Timer(id));
      queue := [id] + queue;
      requests := requests[id := requests[id].(phase := Queued)];
      ProcessQueue();
    }
  }
}
