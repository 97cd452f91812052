/** The call that executeWithFailover puts on the request queue (sdk/src/base-client.ts). */
module Failover {
  import opened Wrappers

  /** Only a network error moves on to the next server. */
  datatype Reply = Success | NetworkError | OtherError

  datatype CallResult = Returned(server: nat) | Thrown | AllServersFailed

  /** The server of attempt i when the shared index then reads `current`. */
  function ServerAt(servers: nat, current: nat, i: nat): nat
    requires servers > 0
  {
    (current + i) % servers
  }

  /**
   The shared index as attempt i reads it: what another call left there just before, or else what
   the attempt before it read.
   */
  function Observed(others: seq<Option<nat>>, start: nat, i: nat): nat
    requires i < |others|
  {
    if others[i].Some? then others[i].value else if i == 0 then start else Observed(others, start, i - 1)
  }

  /** The shared index after n attempts that all failed. */
  function IndexAfter(others: seq<Option<nat>>, start: nat, n: nat): nat
    requires n <= |others|
  {
    if n == 0 then start else Observed(others, start, n - 1)
  }

  function ServersTried(servers: nat, others: seq<Option<nat>>, start: nat, n: nat): (tried: seq<nat>)
    requires n <= servers && n <= |others|
    ensures |tried| == n
  {
    if n == 0 then []
    else ServersTried(servers, others, start, n - 1) + [ServerAt(servers, Observed(others, start, n - 1), n - 1)]
  }

  /** The value read at attempt i: what other calls left there last, or else where the call started. */
  predicate IsIndexAt(others: seq<Option<nat>>, start: nat, i: nat, index: nat)
    requires i < |others|
  {
    && ((forall j :: 0 <= j <= i ==> others[j].None?) ==> index == start)
    && forall j :: 0 <= j <= i && others[j].Some? && (forall k :: j < k <= i ==> others[k].None?) ==>
      index == others[j].value
  }

  /** Attempt i goes to the i-th server after the index it reads. */
  ghost predicate AttemptsFollow(servers: nat, others: seq<Option<nat>>, start: nat, tried: seq<nat>)
    requires servers > 0 && |tried| <= |others|
  {
    forall i :: 0 <= i < |tried| ==> IsAttempt(servers, others, start, i, tried[i])
  }

  ghost predicate IsAttempt(servers: nat, others: seq<Option<nat>>, start: nat, i: nat, server: nat)
    requires servers > 0 && i < |others|
  {
    exists index: nat :: IsIndexAt(others, start, i, index) && server == (index + i) % servers
  }

  lemma {:induction false} ObservedIs(others: seq<Option<nat>>, start: nat, i: nat)
    requires i < |others|
    ensures IsIndexAt(others, start, i, Observed(others, start, i))
  {
    if others[i].None? && i > 0 {
      ObservedIs(others, start, i - 1);
    }
  }

  lemma TriedFollow(servers: nat, others: seq<Option<nat>>, start: nat, tried: seq<nat>)
    requires 0 < servers <= |others| && |tried| <= servers
    requires tried == ServersTried(servers, others, start, |tried|)
    ensures AttemptsFollow(servers, others, start, tried)
    ensures (forall i :: 0 <= i < servers ==> others[i].None?) ==>
      forall i :: 0 <= i < |tried| ==> tried[i] == (start + i) % servers
  {
    forall i | 0 <= i < |tried|
      ensures IsAttempt(servers, others, start, i, tried[i])
      ensures (forall j :: 0 <= j < servers ==> others[j].None?) ==> tried[i] == (start + i) % servers
    {
      ObservedIs(others, start, i);
      TriedAt(servers, others, start, |tried|, i);
      assert IsIndexAt(others, start, i, Observed(others, start, i));
    }
  }

  class BaseClient {
    const servers: nat
    var currentServerIndex: nat

    constructor (servers: nat)
      ensures this.servers == servers && currentServerIndex == 0
    {
      this.servers := servers;
      currentServerIndex := 0;
    }

    /**
     One run of the attempt loop. `others[i]`, when it is Some, is the value that other calls left in
     the shared index before attempt i reads it; `replies[i]` is what attempt i gets.
     */
    method Call(others: seq<Option<nat>>, replies: seq<Reply>) returns (result: CallResult, tried: seq<nat>)
      requires |others| >= servers && |replies| >= servers
      modifies this
      // one attempt per server at most; all but the last got a network error
      ensures |tried| <= servers
      ensures forall i :: 0 <= i < |tried| - 1 ==> replies[i] == NetworkError
      // each attempt uses the shared index as it is at that moment
      ensures tried == ServersTried(servers, others, old(currentServerIndex), |tried|)
      ensures servers > 0 ==> AttemptsFollow(servers, others, old(currentServerIndex), tried)
      ensures (forall i :: 0 <= i < servers ==> others[i].None?) ==>
        forall i :: 0 <= i < |tried| ==> tried[i] == (old(currentServerIndex) + i) % servers
      // the result is that of the last attempt, and only success moves the shared index
      ensures result.Returned? ==>
        tried != [] && replies[|tried| - 1] == Success && result.server == currentServerIndex == tried[|tried| - 1]
      ensures result.Thrown? ==> tried != [] && replies[|tried| - 1] == OtherError
      ensures result.AllServersFailed? ==>
        |tried| == servers && forall i :: 0 <= i < servers ==> replies[i] == NetworkError
      ensures !result.Returned? && tried != [] ==>
        IsIndexAt(others, old(currentServerIndex), |tried| - 1, currentServerIndex)
      ensures !result.Returned? ==> currentServerIndex == IndexAfter(others, old(currentServerIndex), |tried|)
    {
      tried := [];
      var attempt := 0;
      while attempt < servers
        invariant |tried| == attempt <= servers
        invariant forall i :: 0 <= i < attempt ==> replies[i] == NetworkError
        invariant tried == ServersTried(servers, others, old(currentServerIndex), attempt)
        invariant currentServerIndex == IndexAfter(others, old(currentServerIndex), attempt)
      {
        if others[attempt].Some? {
          currentServerIndex := others[attempt].value;
        }
        var serverIndex := (currentServerIndex + attempt) % servers;
        tried := tried + [serverIndex];
        TriedFollow(servers, others, old(currentServerIndex), tried);
        ObservedIs(others, old(currentServerIndex), attempt);
        if replies[attempt] == Success {
          currentServerIndex := serverIndex;
          return Returned(serverIndex), tried;
        }
        if replies[attempt] == OtherError {
          return Thrown, tried;
        }
        attempt := attempt + 1;
      }
      result := AllServersFailed;
      if servers > 0 {
        TriedFollow(servers, others, old(currentServerIndex), tried);
        ObservedIs(others, old(currentServerIndex), servers - 1);
      }
    }
  }

  lemma {:induction false} MultipleIsLarge(n: nat, k: nat)
    requires n > 0 && k > 0
    ensures k * n >= n
  {
    if k > 1 {
      MultipleIsLarge(n, k - 1);
      assert k * n == (k - 1) * n + n;
    }
  }

  lemma ModDistinct(n: nat, a: nat, i: nat, j: nat)
    requires i < j < i + n
    ensures (a + i) % n != (a + j) % n
  {
    var x, y := a + i, a + j;
    if x % n == y % n {
      var k := y / n - x / n;
      assert y - x == k * n;
      if k > 0 {
        MultipleIsLarge(n, k);
      }
    }
  }

  lemma {:induction false} TriedAt(servers: nat, others: seq<Option<nat>>, start: nat, n: nat, i: nat)
    requires i < n <= servers && n <= |others|
    ensures ServersTried(servers, others, start, n)[i] == ServerAt(servers, Observed(others, start, i), i)
  {
    if i < n - 1 {
      TriedAt(servers, others, start, n - 1, i);
    }
  }

  // ---- Which servers a call reaches ----

  predicate Distinct(tried: seq<nat>) {
    forall i, j :: 0 <= i < j < |tried| ==> tried[i] != tried[j]
  }

  /** How far other calls moved the shared index between attempts i and j. */
  function Moved(others: seq<Option<nat>>, start: nat, i: nat, j: nat): int
    requires i < |others| && j < |others|
  {
    Observed(others, start, j) - Observed(others, start, i)
  }

  /**
   Between no two attempts do other calls move the shared index back by the number of attempts in between,
   up to whole rounds over the servers.
   */
  predicate NeverUndone(servers: nat, others: seq<Option<nat>>, start: nat, n: nat)
    requires servers > 0 && n <= |others|
  {
    forall i, j :: 0 <= i < j < n ==> (Moved(others, start, i, j) + j - i) % servers != 0
  }

  lemma NegativeProduct(k: int, n: int)
    ensures -k * n == -(k * n)
  {
  }

  lemma SmallMultiple(n: nat, k: int)
    requires n > 0 && k * n < n && 0 < k * n + n
    ensures k == 0
  {
    NegativeProduct(k, n);
    if k > 0 {
      MultipleIsLarge(n, k);
    } else if k < 0 {
      MultipleIsLarge(n, -k);
    }
  }

  lemma RoundsAreExact(n: nat, q: int, r: int)
    requires n > 0 && r == q * n
    ensures r % n == 0
  {
    var k := q - r / n;
    assert k * n == q * n - r / n * n == r % n;
    SmallMultiple(n, k);
  }

  lemma SameServerIff(n: nat, a: nat, b: nat)
    requires n > 0
    ensures a % n == b % n <==> (b - a) % n == 0
  {
    var x, y, d := a / n, b / n, b - a;
    assert a == x * n + a % n && b == y * n + b % n;
    if a % n == b % n {
      assert d == (y - x) * n;
      RoundsAreExact(n, y - x, d);
    } else if d % n == 0 {
      var q := d / n;
      assert d == q * n;
      assert b % n - a % n == (q - y + x) * n;
      RoundsAreExact(n, q - y + x, b % n - a % n);
      SmallMultiple(n, q - y + x);
    }
  }

  /** A call tries no server twice exactly when other calls never undo its progress. */
  lemma TriesEachOnceIff(servers: nat, others: seq<Option<nat>>, start: nat, tried: seq<nat>)
    requires servers > 0 && |tried| <= servers && |tried| <= |others|
    requires tried == ServersTried(servers, others, start, |tried|)
    ensures Distinct(tried) <==> NeverUndone(servers, others, start, |tried|)
  {
    forall i, j | 0 <= i < j < |tried|
      ensures tried[i] == tried[j] <==> (Moved(others, start, i, j) + j - i) % servers == 0
    {
      TriedAt(servers, others, start, |tried|, i);
      TriedAt(servers, others, start, |tried|, j);
      var a, b := Observed(others, start, i) + i, Observed(others, start, j) + j;
      SameServerIff(servers, a, b);
      assert b - a == Moved(others, start, i, j) + j - i;
    }
    if Distinct(tried) {
      forall i, j | 0 <= i < j < |tried| ensures (Moved(others, start, i, j) + j - i) % servers != 0 {
        assert tried[i] != tried[j];
      }
    }
  }

  function Below(n: nat): (b: set<nat>)
    ensures |b| == n && forall x: nat :: x in b <==> x < n
  {
    if n == 0 then {} else Below(n - 1) + {n - 1}
  }

  function Values(s: seq<nat>): set<nat> {
    set x | x in s
  }

  /** A sequence has as many values as places exactly when no value repeats. */
  lemma {:induction false} ValuesSize(s: seq<nat>)
    ensures |Values(s)| <= |s|
    ensures |Values(s)| == |s| <==> Distinct(s)
  {
    if s != [] {
      var front, last := s[..|s| - 1], s[|s| - 1];
      ValuesSize(front);
      assert Values(s) == Values(front) + {last};
      if last in front {
        var i :| 0 <= i < |front| && front[i] == last;
        assert s[i] == s[|s| - 1];
      } else if Distinct(front) {
        assert forall i, j :: 0 <= i < j < |s| ==> s[i] != s[j];
      } else {
        var i, j :| 0 <= i < j < |front| && front[i] == front[j];
        assert s[i] == s[j];
      }
    }
  }

  lemma SubsetOfSameSize(a: set<nat>, b: set<nat>)
    requires a <= b && |a| == |b|
    ensures a == b
  {
    if a != b {
      var x :| x in b && x !in a;
      SubsetSize(a, b - {x});
    }
  }

  lemma {:induction false} SubsetSize(a: set<nat>, b: set<nat>)
    requires a <= b
    ensures |a| <= |b|
  {
    if a != {} {
      var x :| x in a;
      SubsetSize(a - {x}, b - {x});
    }
  }

  lemma {:induction false} TriedAreServers(servers: nat, others: seq<Option<nat>>, start: nat, n: nat)
    requires n <= servers && n <= |others|
    ensures Values(ServersTried(servers, others, start, n)) <= Below(servers)
  {
    if n > 0 {
      TriedAreServers(servers, others, start, n - 1);
    }
  }

  predicate ReachesAll(servers: nat, tried: seq<nat>) {
    forall server: nat :: server < servers ==> server in tried
  }

  lemma ReachingAllTakesAsMany(n: nat, s: seq<nat>)
    requires ReachesAll(n, s)
    ensures |Values(s)| >= n
  {
    assert Below(n) <= Values(s);
    SubsetSize(Below(n), Values(s));
  }

  /** n values below n are all of them exactly when none repeats. */
  lemma ReachesAllIffDistinct(n: nat, s: seq<nat>)
    requires |s| == n && Values(s) <= Below(n)
    ensures ReachesAll(n, s) <==> Distinct(s)
  {
    ValuesSize(s);
    if Distinct(s) {
      SubsetOfSameSize(Values(s), Below(n));
      forall server: nat | server < n ensures server in s {
        assert server in Below(n);
      }
    }
    if ReachesAll(n, s) {
      ReachingAllTakesAsMany(n, s);
    }
  }

  /** A call that made all its attempts reached every server exactly when other calls never undid its progress. */
  lemma ReachesAllIff(servers: nat, others: seq<Option<nat>>, start: nat, tried: seq<nat>)
    requires servers > 0 && |tried| == servers <= |others|
    requires tried == ServersTried(servers, others, start, servers)
    ensures ReachesAll(servers, tried) <==> NeverUndone(servers, others, start, servers)
  {
    TriesEachOnceIff(servers, others, start, tried);
    TriedAreServers(servers, others, start, servers);
    ReachesAllIffDistinct(servers, tried);
  }

  /** If no other call moves the shared index meanwhile, a call tries no server twice. */
  lemma UndisturbedCallTriesEachOnce(servers: nat, others: seq<Option<nat>>, start: nat, tried: seq<nat>)
    requires |tried| <= servers && |tried| <= |others|
    requires forall i :: 0 <= i < |others| ==> others[i].None?
    requires tried == ServersTried(servers, others, start, |tried|)
    ensures Distinct(tried)
  {
    forall i, j | 0 <= i < j < |tried| ensures tried[i] != tried[j] {
      TriedAt(servers, others, start, |tried|, i);
      TriedAt(servers, others, start, |tried|, j);
      UndisturbedIndexStays(others, start, i);
      UndisturbedIndexStays(others, start, j);
      ModDistinct(servers, start, i, j);
    }
  }

  lemma {:induction false} UndisturbedIndexStays(others: seq<Option<nat>>, start: nat, i: nat)
    requires i < |others| && forall k :: 0 <= k < |others| ==> others[k].None?
    ensures Observed(others, start, i) == start
  {
    if i > 0 {
      UndisturbedIndexStays(others, start, i - 1);
    }
  }

  /** One move of the shared index after the first attempt, to the last server. */
  function OneMove(servers: nat): seq<Option<nat>>
    requires servers >= 2
  {
    seq(servers, i => if i == 1 then Some(servers - 1) else None)
  }

  lemma {:induction false} OneMoveObserved(servers: nat, i: nat)
    requires servers >= 2 && i < servers
    ensures Observed(OneMove(servers), 0, i) == if i == 0 then 0 else servers - 1
  {
    if i > 0 {
      OneMoveObserved(servers, i - 1);
    }
  }

  lemma WrapsAround(servers: nat, i: nat)
    requires 0 < i <= servers
    ensures ServerAt(servers, servers - 1, i) == i - 1
  {
    RoundsAreExact(servers, 1, servers);
    SameServerIff(servers, i - 1, servers - 1 + i);
  }

  lemma OneMoveTries(servers: nat, i: nat)
    requires servers >= 2 && i < servers
    ensures ServersTried(servers, OneMove(servers), 0, servers)[i] == if i == 0 then 0 else i - 1
  {
    var others := OneMove(servers);
    OneMoveObserved(servers, i);
    TriedAt(servers, others, 0, servers, i);
    if i == 0 {
      assert ServerAt(servers, 0, 0) == 0;
    } else {
      WrapsAround(servers, i);
    }
  }

  /** With any number of servers, one such move makes a call try server 0 twice and the last server never. */
  lemma DisturbedCallCanSkipAServer(servers: nat, tried: seq<nat>)
    requires servers >= 2 && tried == ServersTried(servers, OneMove(servers), 0, servers)
    ensures tried[0] == tried[1] == 0 && servers - 1 !in tried
  {
    forall i | 0 <= i < servers ensures tried[i] == if i == 0 then 0 else i - 1 {
      OneMoveTries(servers, i);
    }
  }
}
