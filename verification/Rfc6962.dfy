/**
 The Merkle tree of section 2.1 of RFC 6962, over an arbitrary hash with 32-byte digests:
 tree hashes, audit paths, and what a collision-free hash makes of them.
 */
module Rfc6962 {
  import opened Hex

  type Digest = d: Bytes | |d| == 32 witness seq(32, _ => 0)

  type Hasher = Bytes -> Digest

  function Pow2(e: nat): (p: nat)
    ensures p >= 1
  {
    if e == 0 then 1 else 2 * Pow2(e - 1)
  }

  /** The largest power of two smaller than n. */
  function Split(n: nat): (k: nat)
    requires n > 1
    ensures 0 < k < n <= 2 * k
  {
    if n == 2 then 1 else 2 * Split((n + 1) / 2)
  }

  lemma {:induction false} SplitIsPowerOfTwo(n: nat)
    requires n > 1
    ensures exists e: nat :: Split(n) == Pow2(e)
  {
    if n == 2 {
      assert Split(n) == Pow2(0);
    } else {
      SplitIsPowerOfTwo((n + 1) / 2);
      var e: nat :| Split((n + 1) / 2) == Pow2(e);
      assert Split(n) == Pow2(e + 1);
    }
  }

  function LeafInput(d: Bytes): Bytes { [0] + d }

  function NodeInput(left: Digest, right: Digest): Bytes { [1] + left + right }

  /** MTH of section 2.1. */
  function Mth(sha: Hasher, data: seq<Bytes>): Digest {
    if data == [] then sha([])
    else if |data| == 1 then sha(LeafInput(data[0]))
    else
      var k := Split(|data|);
      sha(NodeInput(Mth(sha, data[..k]), Mth(sha, data[k..])))
  }

  /** PATH of section 2.1.1. */
  function AuditPath(sha: Hasher, m: nat, data: seq<Bytes>): seq<Digest>
    requires m < |data|
    decreases |data|
  {
    if |data| == 1 then []
    else
      var k := Split(|data|);
      if m < k then AuditPath(sha, m, data[..k]) + [Mth(sha, data[k..])]
      else AuditPath(sha, m - k, data[k..]) + [Mth(sha, data[..k])]
  }

  /** Two different inputs with the same digest. */
  predicate Collides(sha: Hasher, pair: (Bytes, Bytes)) {
    pair.0 != pair.1 && sha(pair.0) == sha(pair.1)
  }

  lemma NodeInputInjective(a: Digest, b: Digest, c: Digest, d: Digest)
    requires NodeInput(a, b) == NodeInput(c, d)
    ensures a == c && b == d
  {
    assert a == NodeInput(a, b)[1..33] && c == NodeInput(c, d)[1..33];
    assert b == NodeInput(a, b)[33..] && d == NodeInput(c, d)[33..];
  }

  // ---- Root binding ----

  /** Two inputs that collide when two different non-empty lists have the same tree hash. */
  function BindingCollision(sha: Hasher, a: seq<Bytes>, b: seq<Bytes>): (Bytes, Bytes)
    requires a != [] && b != []
    decreases |a|
  {
    if |a| == 1 && |b| == 1 then (LeafInput(a[0]), LeafInput(b[0]))
    else if |a| == 1 then (LeafInput(a[0]), RootInput(sha, b))
    else if |b| == 1 then (RootInput(sha, a), LeafInput(b[0]))
    else if RootInput(sha, a) != RootInput(sha, b) then (RootInput(sha, a), RootInput(sha, b))
    else
      var i, j := Split(|a|), Split(|b|);
      if a[..i] != b[..j] then BindingCollision(sha, a[..i], b[..j])
      else BindingCollision(sha, a[i..], b[j..])
  }

  function RootInput(sha: Hasher, data: seq<Bytes>): (input: Bytes)
    requires |data| > 1
    ensures sha(input) == Mth(sha, data)
  {
    var k := Split(|data|);
    NodeInput(Mth(sha, data[..k]), Mth(sha, data[k..]))
  }

  /** A tree hash fixes the order and the number of its leaves, up to a collision. */
  lemma {:induction false} RootBinding(sha: Hasher, a: seq<Bytes>, b: seq<Bytes>)
    requires a != [] && b != [] && a != b
    requires Mth(sha, a) == Mth(sha, b)
    ensures Collides(sha, BindingCollision(sha, a, b))
    decreases |a|
  {
    if |a| == 1 && |b| == 1 {
      assert LeafInput(a[0])[1..] == a[0] && LeafInput(b[0])[1..] == b[0];
    } else if |a| == 1 {
      assert LeafInput(a[0])[0] == 0 && RootInput(sha, b)[0] == 1;
    } else if |b| == 1 {
      assert LeafInput(b[0])[0] == 0 && RootInput(sha, a)[0] == 1;
    } else if RootInput(sha, a) == RootInput(sha, b) {
      var i, j := Split(|a|), Split(|b|);
      NodeInputInjective(Mth(sha, a[..i]), Mth(sha, a[i..]), Mth(sha, b[..j]), Mth(sha, b[j..]));
      assert a == a[..i] + a[i..] && b == b[..j] + b[j..];
      if a[..i] != b[..j] {
        RootBinding(sha, a[..i], b[..j]);
      } else {
        RootBinding(sha, a[i..], b[j..]);
      }
    }
  }

  // ---- Soundness of path folding ----

  /** A sibling digest and the side on which it is concatenated. */
  datatype Step<T> = Step(hash: T, onLeft: bool)

  function Resolve(sha: Hasher, leaf: Digest, path: seq<Step<Digest>>): Digest {
    if path == [] then leaf
    else
      var last := path[|path| - 1];
      var below := Resolve(sha, leaf, path[..|path| - 1]);
      if last.onLeft then sha(NodeInput(last.hash, below)) else sha(NodeInput(below, last.hash))
  }

  /** Each step hashes 01 with the sibling on its side. */
  lemma ResolveMeans(sha: Hasher, leaf: Digest, path: seq<Step<Digest>>, last: Step<Digest>)
    ensures Resolve(sha, leaf, []) == leaf
    ensures last.onLeft ==> Resolve(sha, leaf, path + [last]) == sha([1] + last.hash + Resolve(sha, leaf, path))
    ensures !last.onLeft ==> Resolve(sha, leaf, path + [last]) == sha([1] + Resolve(sha, leaf, path) + last.hash)
  {
    assert (path + [last])[..|path|] == path;
  }

  /** The last input hashed when a path is resolved for one datum. */
  function ResolveInput(sha: Hasher, d: Bytes, path: seq<Step<Digest>>): (input: Bytes)
    ensures sha(input) == Resolve(sha, sha(LeafInput(d)), path)
  {
    if path == [] then LeafInput(d)
    else
      var last := path[|path| - 1];
      var below := Resolve(sha, sha(LeafInput(d)), path[..|path| - 1]);
      if last.onLeft then NodeInput(last.hash, below) else NodeInput(below, last.hash)
  }

  /** Walks the path from the root down, next to the tree, until the two hash inputs differ. */
  function SoundnessCollision(sha: Hasher, data: seq<Bytes>, d: Bytes, path: seq<Step<Digest>>): (Bytes, Bytes)
    requires data != []
    decreases |data|
  {
    var input := ResolveInput(sha, d, path);
    if |data| == 1 then (input, LeafInput(data[0]))
    else if input != RootInput(sha, data) || path == [] then (input, RootInput(sha, data))
    else
      var k := Split(|data|);
      SoundnessCollision(sha, if path[|path| - 1].onLeft then data[k..] else data[..k], d, path[..|path| - 1])
  }

  /** A path of any length and any sides resolves to the root for a member only, up to a collision. */
  lemma {:induction false} PathSoundness(sha: Hasher, data: seq<Bytes>, d: Bytes, path: seq<Step<Digest>>)
    requires data != [] && d !in data
    requires Resolve(sha, sha(LeafInput(d)), path) == Mth(sha, data)
    ensures Collides(sha, SoundnessCollision(sha, data, d, path))
    decreases |data|
  {
    var input := ResolveInput(sha, d, path);
    if |data| == 1 {
      assert input != LeafInput(data[0]) by {
        if path == [] {
          assert data[0] in data;
          assert input[1..] == d && LeafInput(data[0])[1..] == data[0];
        } else {
          assert input[0] == 1 && LeafInput(data[0])[0] == 0;
        }
      }
    } else if path == [] {
      assert input[0] == 0 && RootInput(sha, data)[0] == 1;
    } else if input == RootInput(sha, data) {
      var k := Split(|data|);
      var last := path[|path| - 1];
      var below := Resolve(sha, sha(LeafInput(d)), path[..|path| - 1]);
      if last.onLeft {
        NodeInputInjective(last.hash, below, Mth(sha, data[..k]), Mth(sha, data[k..]));
        PathSoundness(sha, data[k..], d, path[..|path| - 1]);
      } else {
        NodeInputInjective(below, last.hash, Mth(sha, data[..k]), Mth(sha, data[k..]));
        PathSoundness(sha, data[..k], d, path[..|path| - 1]);
      }
    }
  }
}
