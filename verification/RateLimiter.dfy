/**
 The fixed-window rate limiter (server/skipper/rateLimit.ts). A client's window opens with its first request
 and lasts windowMs; the clock is a parameter of each call.
 */
module RateLimiter {
  import opened Wrappers

  datatype Config = Config(windowMs: int, maxRequests: int)

  datatype Client = Client(count: int, resetTime: int)

  type Clients = map<string, Client>

  // ---- One client ----

  /** No window is open at this time. */
  predicate Closed(s: Option<Client>, now: int) {
    s.None? || now >= s.value.resetTime
  }

  predicate Limited(c: Config, s: Option<Client>, now: int) {
    !Closed(s, now) && s.value.count + 1 > c.maxRequests
  }

  function Next(c: Config, s: Option<Client>, now: int): Client {
    if Closed(s, now) then Client(1, now + c.windowMs) else Client(s.value.count + 1, s.value.resetTime)
  }

  function Remaining(c: Config, s: Option<Client>, now: int): int {
    if Closed(s, now) then c.maxRequests
    else if c.maxRequests - s.value.count > 0 then c.maxRequests - s.value.count else 0
  }

  // ---- The limiter object ----

  function Get(clients: Clients, id: string): Option<Client> {
    if id in clients then Some(clients[id]) else None
  }

  function Kept(clients: Clients, now: int): Clients {
    map id | id in clients && now < clients[id].resetTime :: clients[id]
  }

  class Limiter {
    const config: Config
    var clients: Clients

    constructor (config: Config)
      ensures this.config == config && clients == map[]
    {
      this.config, clients := config, map[];
    }

    method IsLimited(id: string, now: int) returns (limited: bool)
      modifies this
      ensures limited == Limited(config, Get(old(clients), id), now)
      ensures clients == old(clients)[id := Next(config, Get(old(clients), id), now)]
      ensures id in old(clients) && now < old(clients)[id].resetTime ==>
        && clients == old(clients)[id := Client(old(clients)[id].count + 1, old(clients)[id].resetTime)]
        && (limited <==> old(clients)[id].count >= config.maxRequests)
      ensures id !in old(clients) || now >= old(clients)[id].resetTime ==>
        clients == old(clients)[id := Client(1, now + config.windowMs)] && !limited
    {
      if id !in clients || now >= clients[id].resetTime {
        clients := clients[id := Client(1, now + config.windowMs)];
        return false;
      }
      var state := clients[id];
      clients := clients[id := state.(count := state.count + 1)];
      limited := clients[id].count > config.maxRequests;
    }

    method GetRemaining(id: string, now: int) returns (remaining: int)
      ensures remaining == Remaining(config, Get(clients, id), now)
      ensures id !in clients || now >= clients[id].resetTime ==> remaining == config.maxRequests
      ensures id in clients && now < clients[id].resetTime ==>
        remaining >= 0 && remaining + clients[id].count >= config.maxRequests
        && (remaining > 0 ==> remaining + clients[id].count == config.maxRequests)
    {
      if id !in clients || now >= clients[id].resetTime {
        return config.maxRequests;
      }
      var left := config.maxRequests - clients[id].count;
      remaining := if left > 0 then left else 0;
    }

    /** A client that is limited now stays so, if it makes no further call, exactly until this time. */
    method GetResetTime(id: string, now: int) returns (resetTime: int)
      ensures resetTime == if id in clients then clients[id].resetTime else now
      ensures Limited(config, Get(clients, id), now) ==>
        forall t :: now <= t ==> (Limited(config, Get(clients, id), t) <==> t < resetTime)
    {
      resetTime := if id in clients then clients[id].resetTime else now;
    }

    /** Deletes the expired entries, in whatever order they are visited. */
    method Cleanup(now: int)
      modifies this
      ensures clients == Kept(old(clients), now)
      ensures forall id :: id in clients <==> id in old(clients) && now < old(clients)[id].resetTime
      ensures forall id :: id in clients ==> clients[id] == old(clients)[id]
    {
      var todo := clients.Keys;
      while todo != {}
        invariant todo <= old(clients).Keys
        invariant clients ==
          map id | id in old(clients) && (id in todo || now < old(clients)[id].resetTime) :: old(clients)[id]
        decreases todo
      {
        var id :| id in todo;
        if now >= clients[id].resetTime {
          clients := clients - {id};
        }
        todo := todo - {id};
      }
    }

    /** Every client has its whole limit again. */
    method Reset()
      modifies this
      ensures clients == map[]
      ensures forall id, t :: Remaining(config, Get(clients, id), t) == config.maxRequests
    {
      clients := map[];
    }
  }

  // ---- getRemaining ----

  /** How many of the next k calls at one instant are let through. */
  function AdmitsAtOnce(c: Config, s: Option<Client>, now: int, k: nat): nat
    decreases k
  {
    if k == 0 then 0
    else (if Limited(c, s, now) then 0 else 1) + AdmitsAtOnce(c, Some(Next(c, s, now)), now, k - 1)
  }

  function Min(a: int, b: int): int {
    if a < b then a else b
  }

  lemma {:induction false} OpenWindowAdmits(c: Config, s: Option<Client>, now: int, k: nat)
    requires !Closed(s, now)
    ensures AdmitsAtOnce(c, s, now, k) == Min(k, Remaining(c, s, now))
    decreases k
  {
    if k > 0 {
      OpenWindowAdmits(c, Some(Next(c, s, now)), now, k - 1);
    }
  }

  /**
   The remaining count is the number of further calls that would be let through at this instant, exactly when
   the configured window and limit are positive or a window is already open.
   */
  lemma RemainingIsExact(c: Config, s: Option<Client>, now: int)
    ensures (forall k: nat :: AdmitsAtOnce(c, s, now, k) == Min(k, Remaining(c, s, now)))
       <==> !Closed(s, now) || (c.windowMs >= 1 && c.maxRequests >= 1)
  {
    var next := Some(Next(c, s, now));
    if !Closed(s, now) || (c.windowMs >= 1 && c.maxRequests >= 1) {
      forall k: nat ensures AdmitsAtOnce(c, s, now, k) == Min(k, Remaining(c, s, now)) {
        if !Closed(s, now) {
          OpenWindowAdmits(c, s, now, k);
        } else if k > 0 {
          OpenWindowAdmits(c, next, now, k - 1);
        }
      }
    } else if c.maxRequests < 1 {
      assert AdmitsAtOnce(c, s, now, 1) == 1 + AdmitsAtOnce(c, next, now, 0);
    } else {
      var k := c.maxRequests + 1;
      EmptyWindowAdmitsAll(c, s, now, k);
    }
  }

  lemma {:induction false} EmptyWindowAdmitsAll(c: Config, s: Option<Client>, now: int, k: nat)
    requires Closed(s, now) && c.windowMs < 1
    ensures AdmitsAtOnce(c, s, now, k) == k
    decreases k
  {
    if k > 0 {
      EmptyWindowAdmitsAll(c, Some(Next(c, s, now)), now, k - 1);
    }
  }

  // ---- Runs of one client ----

  predicate NonDecreasing(times: seq<int>) {
    forall i, j :: 0 <= i < j < |times| ==> times[i] <= times[j]
  }

  function StateAfter(c: Config, times: seq<int>): Option<Client> {
    if times == [] then None
    else Some(Next(c, StateAfter(c, times[..|times| - 1]), times[|times| - 1]))
  }

  /** The requests let through at times from a on. */
  function Since(c: Config, times: seq<int>, a: int): nat {
    if times == [] then 0
    else
      var before, t := times[..|times| - 1], times[|times| - 1];
      Since(c, before, a) + if a <= t && !Limited(c, StateAfter(c, before), t) then 1 else 0
  }

  /** The requests let through at times in [a, b). */
  function Between(c: Config, times: seq<int>, a: int, b: int): nat {
    if times == [] then 0
    else
      var before, t := times[..|times| - 1], times[|times| - 1];
      Between(c, before, a, b) + if a <= t < b && !Limited(c, StateAfter(c, before), t) then 1 else 0
  }

  lemma {:induction false} SinceNone(c: Config, times: seq<int>, a: int)
    requires forall i :: 0 <= i < |times| ==> times[i] < a
    ensures Since(c, times, a) == 0
  {
    if times != [] {
      SinceNone(c, times[..|times| - 1], a);
    }
  }

  lemma {:induction false} SinceIsBetween(c: Config, times: seq<int>, a: int, b: int)
    requires forall i :: 0 <= i < |times| ==> times[i] < b
    ensures Since(c, times, a) == Between(c, times, a, b)
  {
    if times != [] {
      SinceIsBetween(c, times[..|times| - 1], a, b);
    }
  }

  /** The limit in force: the request that opens a window always gets through. */
  function Limit(c: Config): int {
    if c.maxRequests < 1 then 1 else c.maxRequests
  }

  /** The last window is still open at the last request, and holds at least that one. */
  lemma {:induction false} WindowIsOpen(c: Config, times: seq<int>)
    requires NonDecreasing(times) && times != [] && c.windowMs >= 1
    ensures
      var s := StateAfter(c, times).value;
      s.resetTime - c.windowMs <= times[|times| - 1] < s.resetTime && s.count >= 1
  {
    if |times| > 1 {
      WindowIsOpen(c, times[..|times| - 1]);
    }
  }

  /** How many were let through since a, by where a lies relative to the last window and the one before. */
  lemma {:induction false} WindowBound(c: Config, times: seq<int>, a: int)
    requires NonDecreasing(times) && times != [] && c.windowMs >= 1
    ensures
      var s := StateAfter(c, times).value;
      var start, used := s.resetTime - c.windowMs, Min(s.count, Limit(c));
      && (a > start ==> Since(c, times, a) <= used - 1)
      && (a == start ==> Since(c, times, a) <= used)
      && (a > start - c.windowMs ==> Since(c, times, a) <= used + Limit(c) - 1)
  {
    var before, t := times[..|times| - 1], times[|times| - 1];
    var was := StateAfter(c, before);
    if before != [] {
      WindowBound(c, before, a);
      WindowIsOpen(c, before);
    }
    if Closed(was, t) && a >= t {
      assert before != [] ==> before[|before| - 1] < t;
      SinceNone(c, before, a);
    }
  }

  lemma {:induction false} SingleClientBound(c: Config, times: seq<int>, a: int)
    requires NonDecreasing(times)
    ensures Between(c, times, a, a + c.windowMs) <= 2 * Limit(c) - 1
  {
    if c.windowMs < 1 {
      BetweenNone(c, times, a, a + c.windowMs);
    } else if times != [] {
      var before, t := times[..|times| - 1], times[|times| - 1];
      SingleClientBound(c, before, a);
      if t < a + c.windowMs {
        SinceIsBetween(c, times, a, a + c.windowMs);
        WindowBound(c, times, a);
        WindowIsOpen(c, times);
      }
    }
  }

  lemma {:induction false} BetweenNone(c: Config, times: seq<int>, a: int, b: int)
    requires b <= a
    ensures Between(c, times, a, b) == 0
  {
    if times != [] {
      BetweenNone(c, times[..|times| - 1], a, b);
    }
  }

  /** The same requests, then k more at one time. */
  function Burst(times: seq<int>, t: int, k: nat): (r: seq<int>)
    ensures r != [] || times == []
    decreases k
  {
    if k == 0 then times else Burst(times, t, k - 1) + [t]
  }

  lemma OneMore(c: Config, times: seq<int>, t: int, a: int, b: int)
    ensures StateAfter(c, times + [t]) == Some(Next(c, StateAfter(c, times), t))
    ensures Between(c, times + [t], a, b)
         == Between(c, times, a, b) + if a <= t < b && !Limited(c, StateAfter(c, times), t) then 1 else 0
  {
    assert (times + [t])[..|times|] == times;
  }

  lemma {:induction false} BurstInOrder(times: seq<int>, t: int, k: nat)
    requires NonDecreasing(times) && (times != [] ==> times[|times| - 1] <= t)
    ensures NonDecreasing(Burst(times, t, k))
    ensures forall i :: 0 <= i < |Burst(times, t, k)| ==> Burst(times, t, k)[i] <= t
    decreases k
  {
    if k > 0 {
      BurstInOrder(times, t, k - 1);
    }
  }

  lemma OneMoreAdmitted(c: Config, times: seq<int>, t: int, a: int, b: int)
    requires StateAfter(c, times).Some? && a <= t < b
    requires t < StateAfter(c, times).value.resetTime && StateAfter(c, times).value.count + 1 <= c.maxRequests
    ensures StateAfter(c, times + [t])
         == Some(Client(StateAfter(c, times).value.count + 1, StateAfter(c, times).value.resetTime))
    ensures Between(c, times + [t], a, b) == Between(c, times, a, b) + 1
  {
    OneMore(c, times, t, a, b);
  }

  /** A burst inside an open window with room for all of it. */
  lemma {:induction false} BurstIsAdmitted(c: Config, times: seq<int>, t: int, k: nat, a: int, b: int)
    requires StateAfter(c, times).Some? && a <= t < b
    requires t < StateAfter(c, times).value.resetTime && StateAfter(c, times).value.count + k <= c.maxRequests
    ensures StateAfter(c, Burst(times, t, k))
         == Some(Client(StateAfter(c, times).value.count + k, StateAfter(c, times).value.resetTime))
    ensures Between(c, Burst(times, t, k), a, b) == Between(c, times, a, b) + k
    decreases k
  {
    if k > 0 {
      BurstIsAdmitted(c, times, t, k - 1, a, b);
      OneMoreAdmitted(c, Burst(times, t, k - 1), t, a, b);
    }
  }

  /** One request, and the rest of the limit at the end of its window. */
  function FirstWindow(c: Config): seq<int>
    requires c.maxRequests >= 1
  {
    Burst([0], c.windowMs - 1, c.maxRequests - 1)
  }

  /** Then a full limit as the next window opens. */
  function WorstRun(c: Config): seq<int>
    requires c.maxRequests >= 1
  {
    Burst(FirstWindow(c) + [c.windowMs], c.windowMs, c.maxRequests - 1)
  }

  lemma FirstBurst(c: Config, a: int, b: int)
    requires c.windowMs >= 2 && c.maxRequests >= 1 && a == c.windowMs - 1 && a < b
    ensures StateAfter(c, FirstWindow(c)) == Some(Client(c.maxRequests, c.windowMs))
    ensures Between(c, FirstWindow(c), a, b) == c.maxRequests - 1
  {
    OneMore(c, [], 0, a, b);
    assert [] + [0] == [0];
    BurstIsAdmitted(c, [0], a, c.maxRequests - 1, a, b);
  }

  lemma SecondBurst(c: Config, first: seq<int>, a: int, b: int)
    requires c.maxRequests >= 1 && a <= c.windowMs < b && c.windowMs >= 1
    requires StateAfter(c, first) == Some(Client(c.maxRequests, c.windowMs))
    ensures Between(c, Burst(first + [c.windowMs], c.windowMs, c.maxRequests - 1), a, b)
         == Between(c, first, a, b) + c.maxRequests
  {
    OneMore(c, first, c.windowMs, a, b);
    BurstIsAdmitted(c, first + [c.windowMs], c.windowMs, c.maxRequests - 1, a, b);
  }

  lemma WorstRunInOrder(c: Config)
    requires c.windowMs >= 1 && c.maxRequests >= 1
    ensures NonDecreasing(WorstRun(c))
  {
    BurstInOrder([0], c.windowMs - 1, c.maxRequests - 1);
    BurstInOrder(FirstWindow(c) + [c.windowMs], c.windowMs, c.maxRequests - 1);
  }

  /** The bound is reached, whatever the limit, once the window is two ticks long. */
  lemma BoundIsReached(c: Config, a: int)
    requires c.windowMs >= 2 && c.maxRequests >= 1 && a == c.windowMs - 1
    ensures Between(c, WorstRun(c), a, a + c.windowMs) == 2 * c.maxRequests - 1
  {
    FirstBurst(c, a, a + c.windowMs);
    SecondBurst(c, FirstWindow(c), a, a + c.windowMs);
  }

  // ---- Runs of the limiter: any clients, and cleanups at any moment ----

  datatype Action = Request(id: string, now: int) | Sweep(now: int)

  function Step(c: Config, clients: Clients, a: Action): Clients {
    match a
    case Request(id, now) => clients[id := Next(c, Get(clients, id), now)]
    case Sweep(now) => Kept(clients, now)
  }

  function Run(c: Config, actions: seq<Action>): Clients {
    if actions == [] then map[] else Step(c, Run(c, actions[..|actions| - 1]), actions[|actions| - 1])
  }

  /** Whether the i-th action is a request that is let through. */
  predicate Admitted(c: Config, actions: seq<Action>, i: nat)
    requires i < |actions|
  {
    actions[i].Request? && !Limited(c, Get(Run(c, actions[..i]), actions[i].id), actions[i].now)
  }

  /** The requests of one client let through at times in [a, b). */
  function Admits(c: Config, actions: seq<Action>, id: string, a: int, b: int): nat {
    if actions == [] then 0
    else
      var n := |actions| - 1;
      var counted := Admitted(c, actions, n) && actions[n].id == id && a <= actions[n].now < b;
      Admits(c, actions[..n], id, a, b) + if counted then 1 else 0
  }

  predicate Timely(actions: seq<Action>) {
    forall i, j :: 0 <= i < j < |actions| ==> actions[i].now <= actions[j].now
  }

  /** The request times of one client. */
  function Times(actions: seq<Action>, id: string): seq<int> {
    if actions == [] then []
    else
      var n := |actions| - 1;
      Times(actions[..n], id) + if actions[n].Request? && actions[n].id == id then [actions[n].now] else []
  }

  lemma {:induction false} TimesAreTimely(actions: seq<Action>, id: string)
    requires Timely(actions)
    ensures NonDecreasing(Times(actions, id))
    ensures forall i :: 0 <= i < |Times(actions, id)| ==> Times(actions, id)[i] <= actions[|actions| - 1].now
  {
    if actions != [] {
      TimesAreTimely(actions[..|actions| - 1], id);
    }
  }

  /** Same answer now and at any later time. */
  predicate Alike(s: Option<Client>, r: Option<Client>, now: int) {
    s == r || (Closed(s, now) && Closed(r, now))
  }

  /** A limiter shared with other clients and swept at any moment treats a client as one it had to itself. */
  lemma {:induction false} RunIsAlike(c: Config, actions: seq<Action>, id: string, now: int)
    requires Timely(actions) && (actions != [] ==> actions[|actions| - 1].now <= now)
    ensures Alike(Get(Run(c, actions), id), StateAfter(c, Times(actions, id)), now)
  {
    if actions != [] {
      var n := |actions| - 1;
      var times := Times(actions[..n], id);
      RunIsAlike(c, actions[..n], id, actions[n].now);
      if actions[n].Request? && actions[n].id == id {
        assert (times + [actions[n].now])[..|times|] == times;
      } else {
        assert Times(actions, id) == times;
      }
    }
  }

  lemma {:induction false} AdmitsIsBetween(c: Config, actions: seq<Action>, id: string, a: int, b: int)
    requires Timely(actions)
    ensures Admits(c, actions, id, a, b) == Between(c, Times(actions, id), a, b)
  {
    if actions != [] {
      var n := |actions| - 1;
      var times := Times(actions[..n], id);
      AdmitsIsBetween(c, actions[..n], id, a, b);
      if actions[n].Request? && actions[n].id == id {
        RunIsAlike(c, actions[..n], id, actions[n].now);
        assert (times + [actions[n].now])[..|times|] == times;
      } else {
        assert Times(actions, id) == times;
      }
    }
  }

  /** In any half-open interval as long as the window a client is let through less than twice the limit. */
  lemma AdmitsBound(c: Config, actions: seq<Action>, id: string, a: int)
    requires Timely(actions) && c.maxRequests >= 1
    ensures Admits(c, actions, id, a, a + c.windowMs) <= 2 * c.maxRequests - 1
  {
    AdmitsIsBetween(c, actions, id, a, a + c.windowMs);
    TimesAreTimely(actions, id);
    SingleClientBound(c, Times(actions, id), a);
  }

  /** The actions without the cleanups. */
  function Unswept(actions: seq<Action>): seq<Action> {
    if actions == [] then []
    else
      var n := |actions| - 1;
      Unswept(actions[..n]) + if actions[n].Sweep? then [] else [actions[n]]
  }

  lemma {:induction false} UnsweptTimes(actions: seq<Action>, id: string)
    requires Timely(actions)
    ensures Times(Unswept(actions), id) == Times(actions, id) && Timely(Unswept(actions))
    ensures forall i :: 0 <= i < |Unswept(actions)| ==> Unswept(actions)[i].now <= actions[|actions| - 1].now
  {
    if actions != [] {
      var n := |actions| - 1;
      UnsweptTimes(actions[..n], id);
      var kept := Unswept(actions[..n]);
      if !actions[n].Sweep? {
        assert (kept + [actions[n]])[..|kept|] == kept;
      } else {
        assert kept + [] == kept;
      }
    }
  }

  /** Cleanups change neither whether a client is limited nor how much it has left, at any later time. */
  lemma CleanupChangesNoAnswer(c: Config, actions: seq<Action>, id: string, now: int)
    requires Timely(actions) && (actions != [] ==> actions[|actions| - 1].now <= now)
    ensures Limited(c, Get(Run(c, actions), id), now) == Limited(c, Get(Run(c, Unswept(actions)), id), now)
    ensures Remaining(c, Get(Run(c, actions), id), now) == Remaining(c, Get(Run(c, Unswept(actions)), id), now)
  {
    UnsweptTimes(actions, id);
    RunIsAlike(c, actions, id, now);
    RunIsAlike(c, Unswept(actions), id, now);
  }
}
