/**
 The bounded mapper of sdk/src/utils.ts. Workers share one counter; a worker runs until its call is awaited,
 and which awaited call settles next is an arbitrary choice, so the proof covers every interleaving.
 */
module RunConcurrent {
  import opened Wrappers

  function Min(a: int, b: int): int {
    if a < b then a else b
  }

  /** How many workers are started; a negative length makes an empty array. */
  function WorkerCount(concurrency: int, n: nat): nat {
    if concurrency < 0 then 0 else Min(concurrency, n)
  }

  /** A worker awaits the call for one index, or has returned. */
  type Worker = Option<nat>

  function InFlight(workers: seq<Worker>): nat {
    if workers == [] then 0
    else InFlight(workers[..|workers| - 1]) + if workers[|workers| - 1].Some? then 1 else 0
  }

  lemma {:induction false} InFlightUpdate(workers: seq<Worker>, w: nat, x: Worker)
    requires w < |workers|
    ensures InFlight(workers[w := x]) + (if workers[w].Some? then 1 else 0)
         == InFlight(workers) + (if x.Some? then 1 else 0)
  {
    var last := |workers| - 1;
    if w == last {
      assert workers[w := x][..last] == workers[..last];
    } else {
      InFlightUpdate(workers[..last], w, x);
      assert workers[w := x][..last] == workers[..last][w := x];
    }
  }

  /** All workers wait: the count is the number of workers. None waits: it is zero. */
  lemma {:induction false} InFlightExtremes(workers: seq<Worker>)
    ensures InFlight(workers) <= |workers|
    ensures (forall w :: 0 <= w < |workers| ==> workers[w].Some?) ==> InFlight(workers) == |workers|
    ensures InFlight(workers) > 0 <==> exists w :: 0 <= w < |workers| && workers[w].Some?
  {
    if workers != [] {
      var last := |workers| - 1;
      InFlightExtremes(workers[..last]);
      if w :| 0 <= w < |workers| && workers[w].Some? {
        assert w < last ==> workers[..last][w].Some?;
      }
    }
  }

  /** The calls made so far are those for 0, 1, .., next - 1, in that order. */
  predicate IsCountUp(calls: seq<nat>, next: nat) {
    |calls| == next && forall i :: 0 <= i < next ==> calls[i] == i
  }

  predicate Rejects<T, R, E>(items: seq<T>, f: (T, nat) -> Result<R, E>, i: nat)
    requires i < |items|
  {
    f(items[i], i).Err?
  }

  /** What holds whenever every worker is waiting, has returned or was stopped by a rejection. */
  ghost predicate Consistent<T, R, E>(
    items: seq<T>, f: (T, nat) -> Result<R, E>, workers: seq<Worker>, next: nat, results: seq<Option<R>>)
  {
    && |results| == |items| && next <= |items|
    && (forall w :: 0 <= w < |workers| && workers[w].Some? ==> workers[w].value < next)
    && (forall w :: 0 <= w < |workers| && workers[w].Some? ==> results[workers[w].value].None?)
    && (forall v, w :: 0 <= v < w < |workers| && workers[v].Some? ==> workers[v] != workers[w])
    && (forall i :: 0 <= i < next && results[i].None? ==> Some(i) in workers || Rejects(items, f, i))
    && (forall i :: 0 <= i < next && results[i].Some? ==> f(items[i], i) == Ok(results[i].value))
    && (forall i :: next <= i < |items| ==> results[i].None?)
  }

  /** No call was rejected yet: those that will be are still awaited, and no worker stops while work is left. */
  ghost predicate NoneRejected<T, R, E>(
    items: seq<T>, f: (T, nat) -> Result<R, E>, workers: seq<Worker>, next: nat)
    requires next <= |items|
  {
    && (forall i :: 0 <= i < next && Rejects(items, f, i) ==> Some(i) in workers)
    && (next < |items| ==> forall w :: 0 <= w < |workers| ==> workers[w].Some?)
  }

  /** The head of a worker's loop: take the next index, or return. */
  method TakeNext(n: nat, next: nat, ghost calls: seq<nat>) returns (worker: Worker, after: nat, ghost made: seq<nat>)
    requires next <= n && IsCountUp(calls, next)
    ensures worker == if next < n then Some(next) else None
    ensures after == Min(next + 1, n) && IsCountUp(made, after)
  {
    if next < n {
      worker, after, made := Some(next), next + 1, calls + [next];
    } else {
      worker, after, made := None, next, calls;
    }
  }

  /** Replacing one worker's index keeps every other awaited index awaited. */
  lemma OthersStay(workers: seq<Worker>, w: nat, x: Worker, j: nat)
    requires w < |workers| && Some(j) in workers && workers[w] != Some(j)
    ensures Some(j) in workers[w := x]
  {
    var v :| 0 <= v < |workers| && workers[v] == Some(j);
    assert workers[w := x][v] == Some(j);
  }

  /** A call that resolves puts its result in place, and its worker goes on. */
  lemma ResolveKeeps<T, R, E>(
    items: seq<T>, f: (T, nat) -> Result<R, E>, workers: seq<Worker>, next: nat, results: seq<Option<R>>, w: nat)
    requires Consistent(items, f, workers, next, results) && w < |workers| && workers[w].Some?
    requires f(items[workers[w].value], workers[w].value).Ok?
    ensures
      var i := workers[w].value;
      var taken: Worker := if next < |items| then Some(next) else None;
      var after := Min(next + 1, |items|);
      && Consistent(items, f, workers[w := taken], after, results[i := Some(f(items[i], i).value)])
      && (NoneRejected(items, f, workers, next) ==> NoneRejected(items, f, workers[w := taken], after))
  {
    var i := workers[w].value;
    var taken: Worker := if next < |items| then Some(next) else None;
    var workers', next' := workers[w := taken], Min(next + 1, |items|);
    forall j | 0 <= j < next' && j != i && (j == next || Some(j) in workers) ensures Some(j) in workers' {
      if j == next {
        assert workers'[w] == Some(j);
      } else {
        OthersStay(workers, w, taken, j);
      }
    }
  }

  /** A call that rejects stops its worker; the others go on. */
  lemma RejectKeeps<T, R, E>(
    items: seq<T>, f: (T, nat) -> Result<R, E>, workers: seq<Worker>, next: nat, results: seq<Option<R>>, w: nat)
    requires Consistent(items, f, workers, next, results) && w < |workers| && workers[w].Some?
    requires Rejects(items, f, workers[w].value)
    ensures Consistent(items, f, workers[w := None], next, results)
  {
    var i := workers[w].value;
    forall j | 0 <= j < next && j != i && Some(j) in workers ensures Some(j) in workers[w := None] {
      OthersStay(workers, w, None, j);
    }
  }

  /** Starts the workers one after the other; no call settles before the last of them waits. */
  method StartWorkers<T, R, E>(items: seq<T>, ghost f: (T, nat) -> Result<R, E>, concurrency: int)
    returns (workers: seq<Worker>, next: nat, ghost calls: seq<nat>)
    ensures |workers| == WorkerCount(concurrency, |items|) && InFlight(workers) == |workers| == next
    ensures IsCountUp(calls, next)
    ensures Consistent(items, f, workers, next, seq(|items|, _ => None)) && NoneRejected(items, f, workers, next)
  {
    workers, next, calls := [], 0, [];
    while |workers| < WorkerCount(concurrency, |items|)
      invariant |workers| == next <= WorkerCount(concurrency, |items|)
      invariant IsCountUp(calls, next)
      invariant forall w :: 0 <= w < |workers| ==> workers[w] == Some(w)
    {
      var worker;
      worker, next, calls := TakeNext(|items|, next, calls);
      workers := workers + [worker];
    }
    InFlightExtremes(workers);
    assert forall i :: 0 <= i < next ==> workers[i] == Some(i);
  }

  /** How many calls were in flight before each settlement: at most the limit or what is left, or exactly that. */
  predicate FlightsOk(inFlight: seq<nat>, limit: nat, n: nat, exact: bool) {
    forall k :: 0 <= k < |inFlight| ==>
      0 < inFlight[k] <= Min(limit, n - k) && (exact ==> inFlight[k] == Min(limit, n - k))
  }

  lemma FlightAdds(inFlight: seq<nat>, workers: seq<Worker>, next: nat, n: nat, exact: bool)
    requires |inFlight| + InFlight(workers) == next <= n && InFlight(workers) > 0
    requires exact && next < n ==> forall w :: 0 <= w < |workers| ==> workers[w].Some?
    requires FlightsOk(inFlight, |workers|, n, exact)
    ensures FlightsOk(inFlight + [InFlight(workers)], |workers|, n, exact)
  {
    InFlightExtremes(workers);
  }

  /** A weaker claim about the same flights. */
  lemma FlightsAtMost(inFlight: seq<nat>, limit: nat, n: nat, exact: bool, weaker: bool)
    requires FlightsOk(inFlight, limit, n, exact) && (weaker ==> exact)
    ensures FlightsOk(inFlight, limit, n, weaker)
  {
  }

  /** What one settlement does: the worker's next index, its result in place, and the first rejection kept. */
  method SettleOne<T, R, E>(
    items: seq<T>, f: (T, nat) -> Result<R, E>, workers: seq<Worker>, next: nat, results: seq<Option<R>>,
    rejection: Option<E>, w: nat, ghost calls: seq<nat>)
    returns (
      workers': seq<Worker>, next': nat, results': seq<Option<R>>, rejection': Option<E>, ghost calls': seq<nat>)
    requires Consistent(items, f, workers, next, results) && IsCountUp(calls, next)
    requires w < |workers| && workers[w].Some?
    requires rejection.None? ==> NoneRejected(items, f, workers, next)
    requires rejection.Some? ==> exists i :: 0 <= i < next && f(items[i], i) == Err(rejection.value)
    ensures Consistent(items, f, workers', next', results') && IsCountUp(calls', next') && next <= next'
    ensures |workers'| == |workers| && InFlight(workers') + 1 + next == InFlight(workers) + next'
    ensures rejection'.None? ==> rejection.None? && NoneRejected(items, f, workers', next')
    ensures rejection'.Some? ==> exists i :: 0 <= i < next' && f(items[i], i) == Err(rejection'.value)
    ensures rejection.Some? ==> rejection' == rejection
  {
    var i := workers[w].value;
    match f(items[i], i)
    case Ok(value) =>
      ResolveKeeps(items, f, workers, next, results, w);
      results', rejection' := results[i := Some(value)], rejection;
      var worker;
      worker, next', calls' := TakeNext(|items|, next, calls);
      InFlightUpdate(workers, w, worker);
      workers' := workers[w := worker];
    case Err(error) =>
      RejectKeeps(items, f, workers, next, results, w);
      InFlightUpdate(workers, w, None);
      results', next', calls' := results, next, calls;
      rejection' := if rejection.None? then Some(error) else rejection;
      workers' := workers[w := None];
  }

  /** The promise the caller gets: rejected as soon as one worker is, else resolved with the results. */
  function Joined<R, E>(results: seq<Option<R>>, rejection: Option<E>): Result<seq<Option<R>>, E> {
    if rejection.Some? then Err(rejection.value) else Ok(results)
  }

  /**
   Every interleaving ends with the same answer. It is rejected exactly when the mapper rejects some item, with
   the error of a call that was made; otherwise each result is in its place and each index was called once and
   in order. Indices are called at most once and in order in any case, and every call made settles, those after
   a rejection too. Before the k-th settlement at most min(workers, n - k) calls are in flight, and exactly that
   many if none rejects: never more than the limit, and never fewer while work is left. With no positive
   concurrency nothing runs.
   */
  method Run<T, R, E>(items: seq<T>, f: (T, nat) -> Result<R, E>, concurrency: int)
    returns (r: Result<seq<Option<R>>, E>, ghost calls: seq<nat>, ghost inFlight: seq<nat>)
    ensures concurrency >= 1 ==> (r.Ok? <==> forall i :: 0 <= i < |items| ==> !Rejects(items, f, i))
    ensures concurrency >= 1 && r.Ok? ==> |r.value| == |items| == |calls|
    ensures concurrency >= 1 && r.Ok? ==>
      forall i :: 0 <= i < |items| ==> f(items[i], i).Ok? && r.value[i] == Some(f(items[i], i).value)
    ensures r.Err? ==> exists i :: 0 <= i < |calls| <= |items| && f(items[i], i) == Err(r.error)
    ensures concurrency < 1 ==> r == Ok(seq(|items|, _ => None)) && calls == []
    ensures IsCountUp(calls, |calls|) && |inFlight| == |calls| <= |items|
    ensures forall k :: 0 <= k < |inFlight| ==>
      && 0 < inFlight[k] <= concurrency && inFlight[k] <= |items| - k
      && (r.Ok? ==> inFlight[k] == concurrency || inFlight[k] == |items| - k)
  {
    var results: seq<Option<R>> := seq(|items|, _ => None);
    var rejection: Option<E> := None;
    var workers, next;
    workers, next, calls := StartWorkers(items, f, concurrency);
    inFlight := [];
    ghost var limit := WorkerCount(concurrency, |items|);
    while exists w :: 0 <= w < |workers| && workers[w].Some?
      invariant |workers| == limit
      invariant Consistent(items, f, workers, next, results) && IsCountUp(calls, next)
      invariant rejection.None? ==> NoneRejected(items, f, workers, next)
      invariant rejection.Some? ==> exists i :: 0 <= i < next && f(items[i], i) == Err(rejection.value)
      invariant concurrency < 1 ==> next == 0 && rejection.None? && results == seq(|items|, _ => None)
      invariant |inFlight| + InFlight(workers) == next
      invariant FlightsOk(inFlight, limit, |items|, rejection.None?)
      decreases |items| - |inFlight|
    {
      InFlightExtremes(workers);
      FlightAdds(inFlight, workers, next, |items|, rejection.None?);
      inFlight := inFlight + [InFlight(workers)];
      ghost var exact := rejection.None?;
      var w :| 0 <= w < |workers| && workers[w].Some?;
      workers, next, results, rejection, calls := SettleOne(items, f, workers, next, results, rejection, w, calls);
      FlightsAtMost(inFlight, limit, |items|, exact, rejection.None?);
    }
    InFlightExtremes(workers);
    r := Joined(results, rejection);
  }
}
