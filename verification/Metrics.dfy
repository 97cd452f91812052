/** Time buckets and counting (analytics/src/metrics.ts). Timestamps are whole milliseconds. */
module Metrics {

  const HOUR: int := 3600000
  const DAY: int := 24 * HOUR

  /** The start of the bucket that holds ts. Division rounds down, as Math.floor does. */
  function FloorTo(ts: int, size: int): (r: int)
    requires size > 0
    ensures r <= ts < r + size
  {
    DivisionRoundsDown(ts, size);
    ts / size * size
  }

  lemma DivisionRoundsDown(ts: int, size: int)
    requires size > 0
    ensures ts / size * size <= ts < ts / size * size + size
  {
    assert ts == size * (ts / size) + ts % size;
  }

  lemma ProductOrder(a: int, b: int, size: int)
    requires size > 0
    ensures a < b ==> a * size + size <= b * size
  {
    if a < b {
      ProductNotNegative(b - a - 1, size);
      assert (b - a - 1) * size == b * size - a * size - size;
    }
  }

  lemma ProductNotNegative(a: nat, b: nat)
    ensures a * b >= 0
  {
  }

  /** A bucket start is the floor of exactly the timestamps inside its bucket. */
  lemma FloorIsBucket(ts: int, q: int, size: int)
    requires size > 0
    ensures FloorTo(ts, size) == q * size <==> q * size <= ts < q * size + size
  {
    DivisionRoundsDown(ts, size);
    ProductOrder(ts / size, q, size);
    ProductOrder(q, ts / size, size);
  }

  /** Contiguous buckets from the first timestamp's to the last one's, both included. */
  method Buckets(start: int, end: int, size: int) returns (out: seq<int>)
    requires size > 0
    ensures |out| == if start / size <= end / size then end / size - start / size + 1 else 0
    ensures forall i :: 0 <= i < |out| ==> out[i] == (start / size + i) * size
  {
    out := [];
    var t := FloorTo(start, size);
    ghost var first, last := start / size, end / size;
    ghost var q := first;
    while t <= FloorTo(end, size)
      invariant t == q * size && q == first + |out|
      invariant q <= last + 1 || out == []
      invariant forall i :: 0 <= i < |out| ==> out[i] == (first + i) * size
      decreases last + 1 - q
    {
      ProductOrder(last, q, size);
      out := out + [t];
      NextProduct(q, size);
      t := t + size;
      q := q + 1;
    }
    ProductOrder(q, last, size);
  }

  lemma NextProduct(q: int, size: int)
    ensures (q + 1) * size == q * size + size
  {
  }

  // ---- Counting ----

  function CountKey<T>(items: seq<T>, key: T -> int, k: int): nat {
    if items == [] then 0
    else CountKey(items[..|items| - 1], key, k) + if key(items[|items| - 1]) == k then 1 else 0
  }

  /** The map holds the count of every key that occurs, and no other key. */
  method CountBy<T>(items: seq<T>, key: T -> int) returns (m: map<int, nat>)
    ensures forall k :: CountKey(items, key, k) == if k in m then m[k] else 0
    ensures forall k :: k in m ==> m[k] > 0
  {
    m := map[];
    for i := 0 to |items|
      invariant forall k :: CountKey(items[..i], key, k) == if k in m then m[k] else 0
      invariant forall k :: k in m ==> m[k] > 0
    {
      assert items[..i + 1][..i] == items[..i];
      var k := key(items[i]);
      m := m[k := (if k in m then m[k] else 0) + 1];
    }
    assert items[..|items|] == items;
  }

  /** How many timestamps lie in [a, b). */
  function CountIn(times: seq<int>, a: int, b: int): nat {
    if times == [] then 0
    else CountIn(times[..|times| - 1], a, b) + if a <= times[|times| - 1] < b then 1 else 0
  }

  function Day(ts: int): int {
    FloorTo(ts, DAY)
  }

  lemma {:induction false} CountDay(times: seq<int>, q: int)
    ensures CountKey(times, Day, q * DAY) == CountIn(times, q * DAY, q * DAY + DAY)
  {
    if times != [] {
      CountDay(times[..|times| - 1], q);
      FloorIsBucket(times[|times| - 1], q, DAY);
    }
  }

  lemma {:induction false} CountSplit(times: seq<int>, a: int, b: int, c: int)
    requires a <= b <= c
    ensures CountIn(times, a, c) == CountIn(times, a, b) + CountIn(times, b, c)
  {
    if times != [] {
      CountSplit(times[..|times| - 1], a, b, c);
    }
  }

  /** Everything is counted exactly when everything lies in the range. */
  lemma {:induction false} CountAll(times: seq<int>, a: int, b: int)
    ensures CountIn(times, a, b) <= |times|
    ensures CountIn(times, a, b) == |times| <==> forall i :: 0 <= i < |times| ==> a <= times[i] < b
  {
    if times != [] {
      CountAll(times[..|times| - 1], a, b);
      assert forall i :: 0 <= i < |times| - 1 ==> times[..|times| - 1][i] == times[i];
    }
  }

  // ---- Series ----

  function Sum<T>(rows: seq<T>, value: T -> int): int {
    if rows == [] then 0 else Sum(rows[..|rows| - 1], value) + value(rows[|rows| - 1])
  }

  /** Daily counts over contiguous days add up to the count over all of them. */
  lemma {:induction false} SeriesAddsUp<T>(rows: seq<T>, value: T -> int, times: seq<int>, first: int)
    requires forall i :: 0 <= i < |rows| ==> value(rows[i]) == CountIn(times, first + i * DAY, first + i * DAY + DAY)
    ensures Sum(rows, value) == CountIn(times, first, first + |rows| * DAY)
  {
    if rows == [] {
      EmptyRange(times, first);
    } else {
      var n := |rows| - 1;
      SeriesAddsUp(rows[..n], value, times, first);
      CountSplit(times, first, first + n * DAY, first + n * DAY + DAY);
    }
  }

  lemma {:induction false} EmptyRange(times: seq<int>, a: int)
    ensures CountIn(times, a, a) == 0
  {
    if times != [] {
      EmptyRange(times[..|times| - 1], a);
    }
  }
}
