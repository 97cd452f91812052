/**
 A binary tree built level by level, the odd node of a level being promoted unchanged, and the
 recursive tree that splits at the largest power of two: same root, same sibling paths.
 */
module LevelTree {
  import opened Rfc6962

  // ---- The recursive tree ----

  function Root<T>(node: (T, T) -> T, xs: seq<T>): T
    requires xs != []
  {
    if |xs| == 1 then xs[0]
    else
      var k := Split(|xs|);
      node(Root(node, xs[..k]), Root(node, xs[k..]))
  }

  function Path<T>(node: (T, T) -> T, xs: seq<T>, i: nat): seq<Step<T>>
    requires i < |xs|
    decreases |xs|
  {
    if |xs| == 1 then []
    else
      var k := Split(|xs|);
      if i < k then Path(node, xs[..k], i) + [Step(Root(node, xs[k..]), false)]
      else Path(node, xs[k..], i - k) + [Step(Root(node, xs[..k]), true)]
  }

  function Fold<T>(node: (T, T) -> T, leaf: T, path: seq<Step<T>>): T {
    if path == [] then leaf
    else
      var last := path[|path| - 1];
      var below := Fold(node, leaf, path[..|path| - 1]);
      if last.onLeft then node(last.hash, below) else node(below, last.hash)
  }

  lemma FoldStep<T>(node: (T, T) -> T, leaf: T, path: seq<Step<T>>, i: nat)
    requires i < |path|
    ensures var below := Fold(node, leaf, path[..i]);
      Fold(node, leaf, path[..i + 1]) ==
        if path[i].onLeft then node(path[i].hash, below) else node(below, path[i].hash)
  {
    assert path[..i + 1][..i] == path[..i];
  }

  lemma FoldLast<T>(node: (T, T) -> T, leaf: T, path: seq<Step<T>>, last: Step<T>)
    ensures var below := Fold(node, leaf, path);
      Fold(node, leaf, path + [last]) == if last.onLeft then node(last.hash, below) else node(below, last.hash)
  {
    assert (path + [last])[..|path|] == path;
  }

  lemma {:induction false} PathFoldsToRoot<T>(node: (T, T) -> T, xs: seq<T>, i: nat)
    requires i < |xs|
    ensures Fold(node, xs[i], Path(node, xs, i)) == Root(node, xs)
    decreases |xs|
  {
    if |xs| > 1 {
      var k := Split(|xs|);
      if i < k {
        PathFoldsToRoot(node, xs[..k], i);
        FoldLast(node, xs[i], Path(node, xs[..k], i), Step(Root(node, xs[k..]), false));
      } else {
        PathFoldsToRoot(node, xs[k..], i - k);
        FoldLast(node, xs[i], Path(node, xs[k..], i - k), Step(Root(node, xs[..k]), true));
      }
    }
  }

  // ---- Levels ----

  function Parent<T>(node: (T, T) -> T, xs: seq<T>, j: nat): T
    requires 2 * j < |xs|
  {
    if 2 * j + 1 < |xs| then node(xs[2 * j], xs[2 * j + 1]) else xs[2 * j]
  }

  function NextLevel<T>(node: (T, T) -> T, xs: seq<T>): (ys: seq<T>)
    ensures |ys| == (|xs| + 1) / 2
  {
    seq((|xs| + 1) / 2, j requires 0 <= j < (|xs| + 1) / 2 => Parent(node, xs, j))
  }

  /** The sibling of node i on its level, if it has one. */
  function Sibling<T>(xs: seq<T>, i: nat): (s: seq<Step<T>>)
    requires i < |xs|
    ensures |s| <= 1
  {
    if i % 2 == 1 then [Step(xs[i - 1], true)]
    else if i + 1 < |xs| then [Step(xs[i + 1], false)]
    else []
  }

  /** Siblings collected from the bottom level upwards. */
  function LevelPath<T>(node: (T, T) -> T, xs: seq<T>, i: nat): seq<Step<T>>
    requires i < |xs|
    decreases |xs|
  {
    if |xs| == 1 then [] else Sibling(xs, i) + LevelPath(node, NextLevel(node, xs), i / 2)
  }

  /** An even split of a level commutes with building the next level. */
  lemma NextLevelSplits<T>(node: (T, T) -> T, xs: seq<T>, h: nat)
    requires 0 < h && 2 * h < |xs|
    ensures var ys := NextLevel(node, xs);
      ys[..h] == NextLevel(node, xs[..2 * h]) && ys[h..] == NextLevel(node, xs[2 * h..])
  {
    var ys := NextLevel(node, xs);
    var left, right := NextLevel(node, xs[..2 * h]), NextLevel(node, xs[2 * h..]);
    forall j | 0 <= j < |right| ensures ys[h + j] == right[j] {
      assert 2 * (h + j) == 2 * h + 2 * j;
    }
  }

  lemma NextLevelOfOne<T>(node: (T, T) -> T, xs: seq<T>)
    requires |xs| == 1
    ensures NextLevel(node, xs) == xs
  {
  }

  /** One level up, the recursive tree has the same root. */
  lemma {:induction false} NextLevelKeepsRoot<T>(node: (T, T) -> T, xs: seq<T>)
    requires xs != []
    ensures Root(node, NextLevel(node, xs)) == Root(node, xs)
    decreases |xs|
  {
    var ys := NextLevel(node, xs);
    if |xs| == 1 {
      NextLevelOfOne(node, xs);
    } else if |xs| == 2 {
      assert Root(node, xs[..1]) == xs[0] && Root(node, xs[1..]) == xs[1];
      assert ys[0] == node(xs[0], xs[1]);
    } else {
      var h := Split(|ys|);
      assert Split(|xs|) == 2 * h;
      NextLevelSplits(node, xs, h);
      NextLevelKeepsRoot(node, xs[..2 * h]);
      NextLevelKeepsRoot(node, xs[2 * h..]);
    }
  }

  lemma SiblingLeft<T>(xs: seq<T>, i: nat, h: nat)
    requires i < 2 * h <= |xs|
    ensures Sibling(xs[..2 * h], i) == Sibling(xs, i)
  {
    if i % 2 == 0 {
      assert i + 1 < 2 * h by {
        assert i == 2 * (i / 2) && i / 2 < h;
      }
    }
  }

  lemma SiblingRight<T>(xs: seq<T>, i: nat, h: nat)
    requires 2 * h <= i < |xs|
    ensures Sibling(xs[2 * h..], i - 2 * h) == Sibling(xs, i)
  {
    assert (i - 2 * h) % 2 == i % 2;
  }

  lemma PathLeft<T>(node: (T, T) -> T, xs: seq<T>, i: nat)
    requires |xs| > 1 && i < Split(|xs|)
    ensures var k := Split(|xs|);
      Path(node, xs, i) == Path(node, xs[..k], i) + [Step(Root(node, xs[k..]), false)]
  {
  }

  lemma PathRight<T>(node: (T, T) -> T, xs: seq<T>, i: nat)
    requires |xs| > 1 && Split(|xs|) <= i < |xs|
    ensures var k := Split(|xs|);
      Path(node, xs, i) == Path(node, xs[k..], i - k) + [Step(Root(node, xs[..k]), true)]
  {
  }

  /** The recursive path starts with the sibling on the bottom level and goes on one level up. */
  lemma {:induction false} PathStep<T>(node: (T, T) -> T, xs: seq<T>, i: nat)
    requires i < |xs|
    ensures Path(node, xs, i) == Sibling(xs, i) + Path(node, NextLevel(node, xs), i / 2)
    decreases |xs|
  {
    var ys := NextLevel(node, xs);
    if |xs| == 1 {
      NextLevelOfOne(node, xs);
    } else if |xs| == 2 {
      assert Path(node, ys, 0) == [];
      assert Path(node, xs[..1], 0) == [] && Path(node, xs[1..], 0) == [];
      assert Root(node, xs[..1]) == xs[0] && Root(node, xs[1..]) == xs[1];
    } else if i < Split(|xs|) {
      PathStepLeft(node, xs, i, Split(|ys|));
    } else {
      PathStepRight(node, xs, i, Split(|ys|));
    }
  }

  lemma {:induction false} PathStepLeft<T>(node: (T, T) -> T, xs: seq<T>, i: nat, h: nat)
    requires |xs| > 2 && Split(|xs|) == 2 * h && Split((|xs| + 1) / 2) == h && i < 2 * h
    ensures Path(node, xs, i) == Sibling(xs, i) + Path(node, NextLevel(node, xs), i / 2)
    decreases |xs|, 0
  {
    var ys, left, right := NextLevel(node, xs), xs[..2 * h], xs[2 * h..];
    var below := Path(node, NextLevel(node, left), i / 2);
    var top := [Step(Root(node, right), false)];
    assert Path(node, xs, i) == Sibling(xs, i) + below + top by {
      PathLeft(node, xs, i);
      PathStep(node, left, i);
      SiblingLeft(xs, i, h);
    }
    assert Path(node, ys, i / 2) == below + top by {
      NextLevelSplits(node, xs, h);
      NextLevelKeepsRoot(node, right);
      PathLeft(node, ys, i / 2);
    }
  }

  lemma HalfIndex(i: nat, h: nat, n: nat)
    requires 2 * h <= i < n
    ensures i / 2 == h + (i - 2 * h) / 2 && (i - 2 * h) / 2 < (n - 2 * h + 1) / 2 == (n + 1) / 2 - h
  {
  }

  /** A path that starts on the right of the split goes on below the same top step. */
  lemma RightHere<T>(
      node: (T, T) -> T, xs: seq<T>, i: nat, k: nat, split: nat, first: seq<Step<T>>, above: seq<Step<T>>)
    requires |xs| > 1 && Split(|xs|) == split && k == i - split && i < |xs|
    requires Path(node, xs[split..], k) == first + above
    ensures Path(node, xs, i) == first + (above + [Step(Root(node, xs[..split]), true)])
  {
    PathRight(node, xs, i);
  }

  lemma {:induction false} PathStepRight<T>(node: (T, T) -> T, xs: seq<T>, i: nat, h: nat)
    requires |xs| > 2 && Split(|xs|) == 2 * h && Split((|xs| + 1) / 2) == h && 2 * h <= i < |xs|
    ensures Path(node, xs, i) == Sibling(xs, i) + Path(node, NextLevel(node, xs), i / 2)
    decreases |xs|, 0
  {
    var right, k := xs[2 * h..], i - 2 * h;
    var up, j := NextLevel(node, right), k / 2;
    HalfIndex(i, h, |xs|);
    assert Path(node, right, k) == Sibling(xs, i) + Path(node, up, j) by {
      PathStep(node, right, k);
      SiblingRight(xs, i, h);
    }
    RightHere(node, xs, i, k, 2 * h, Sibling(xs, i), Path(node, up, j));
    PathAbove(node, xs, i / 2, j, h);
  }

  /** On the next level, a node past the split. */
  lemma PathAbove<T>(node: (T, T) -> T, xs: seq<T>, i: nat, j: nat, h: nat)
    requires |xs| > 2 && Split(|xs|) == 2 * h && Split((|xs| + 1) / 2) == h
    requires j == i - h < (|xs| - 2 * h + 1) / 2 == (|xs| + 1) / 2 - h
    ensures Path(node, NextLevel(node, xs), i)
         == Path(node, NextLevel(node, xs[2 * h..]), j) + [Step(Root(node, xs[..2 * h]), true)]
  {
    NextLevelSplits(node, xs, h);
    PathRight(node, NextLevel(node, xs), i);
    NextLevelKeepsRoot(node, xs[..2 * h]);
  }

  lemma {:induction false} LevelPathIsPath<T>(node: (T, T) -> T, xs: seq<T>, i: nat)
    requires i < |xs|
    ensures LevelPath(node, xs, i) == Path(node, xs, i)
    decreases |xs|
  {
    if |xs| > 1 {
      PathStep(node, xs, i);
      LevelPathIsPath(node, NextLevel(node, xs), i / 2);
    }
  }

  lemma HalfFits(i: nat, n: nat, d: nat)
    requires i < n && 1 < n <= Pow2(d)
    ensures d > 0 && i / 2 < (n + 1) / 2 <= Pow2(d - 1)
  {
  }

  lemma LevelPathStep<T>(node: (T, T) -> T, xs: seq<T>, i: nat)
    requires |xs| > 1 && i < |xs|
    ensures LevelPath(node, xs, i) == Sibling(xs, i) + LevelPath(node, NextLevel(node, xs), i / 2)
  {
  }

  /** A level of at most 2^d nodes has paths of at most d siblings. */
  lemma {:induction false} LevelPathLength<T>(node: (T, T) -> T, xs: seq<T>, i: nat, d: nat)
    requires i < |xs| <= Pow2(d)
    ensures |LevelPath(node, xs, i)| <= d
    decreases |xs|
  {
    if |xs| > 1 {
      HalfFits(i, |xs|, d);
      LevelPathStep(node, xs, i);
      LevelPathLength(node, NextLevel(node, xs), i / 2, d - 1);
    }
  }

  // ---- The loops shared by both SDK implementations ----

  /** Levels from the leaves up, each built from the one below. */
  predicate IsLevelChain<T(==)>(node: (T, T) -> T, levels: seq<seq<T>>) {
    && levels != []
    && (forall j :: 0 <= j < |levels| ==> levels[j] != [])
    && (forall j :: 0 <= j < |levels| - 1 ==> |levels[j]| > 1 && levels[j + 1] == NextLevel(node, levels[j]))
  }

  method BuildNextLevel<T>(node: (T, T) -> T, current: seq<T>) returns (next: seq<T>)
    ensures next == NextLevel(node, current)
  {
    next := [];
    ghost var full := NextLevel(node, current);
    var i := 0;
    while i < |current|
      invariant i == 2 * |next| && |next| <= |full|
      invariant next == full[..|next|]
    {
      ghost var j := |next|;
      if i + 1 < |current| {
        next := next + [node(current[i], current[i + 1])];
      } else {
        next := next + [current[i]];
      }
      assert next[j] == full[j];
      i := i + 2;
    }
    assert |next| == |full|;
  }

  lemma ChainGrows<T>(node: (T, T) -> T, levels: seq<seq<T>>)
    requires IsLevelChain(node, levels) && |levels[|levels| - 1]| > 1
    ensures IsLevelChain(node, levels + [NextLevel(node, levels[|levels| - 1])])
  {
    var grown := levels + [NextLevel(node, levels[|levels| - 1])];
    forall j | 0 <= j < |grown| - 1 ensures |grown[j]| > 1 && grown[j + 1] == NextLevel(node, grown[j]) {
      if j + 1 < |levels| {
        assert grown[j + 1] == levels[j + 1];
      }
    }
  }

  method BuildLevels<T(==)>(node: (T, T) -> T, leaves: seq<T>) returns (levels: seq<seq<T>>)
    requires leaves != []
    ensures IsLevelChain(node, levels) && levels[0] == leaves
    ensures levels[|levels| - 1] == [Root(node, leaves)]
  {
    levels := [leaves];
    var current := leaves;
    while |current| > 1
      invariant current != []
      invariant IsLevelChain(node, levels) && levels[0] == leaves && levels[|levels| - 1] == current
      invariant Root(node, current) == Root(node, leaves)
      decreases |current|
    {
      var next := BuildNextLevel(node, current);
      NextLevelKeepsRoot(node, current);
      ChainGrows(node, levels);
      levels := levels + [next];
      current := next;
    }
  }

  lemma CollectStep<T>(node: (T, T) -> T, nodes: seq<T>, idx: nat, path: seq<Step<T>>, all: seq<Step<T>>)
    requires |nodes| > 1 && idx < |nodes| && all == path + LevelPath(node, nodes, idx)
    ensures all == path + Sibling(nodes, idx) + LevelPath(node, NextLevel(node, nodes), idx / 2)
    ensures idx / 2 < |NextLevel(node, nodes)|
  {
    LevelPathStep(node, nodes, idx);
  }

  /** The sibling by index arithmetic: a missing right sibling gives none. */
  method SiblingOf<T>(nodes: seq<T>, idx: nat) returns (sibling: seq<Step<T>>)
    requires idx < |nodes|
    ensures sibling == Sibling(nodes, idx)
  {
    var isRightNode := idx % 2 == 1;
    var siblingIdx := if isRightNode then idx - 1 else idx + 1;
    sibling := if siblingIdx < |nodes| then [Step(nodes[siblingIdx], isRightNode)] else [];
  }

  method CollectPath<T>(node: (T, T) -> T, levels: seq<seq<T>>, index: nat) returns (path: seq<Step<T>>)
    requires IsLevelChain(node, levels) && |levels[|levels| - 1]| == 1
    requires index < |levels[0]|
    ensures path == LevelPath(node, levels[0], index)
  {
    path := [];
    ghost var all := LevelPath(node, levels[0], index);
    var idx := index;
    var level := 0;
    while level < |levels| - 1
      invariant 0 <= level <= |levels| - 1
      invariant 0 <= idx < |levels[level]|
      invariant all == path + LevelPath(node, levels[level], idx)
    {
      var nodes := levels[level];
      CollectStep(node, nodes, idx, path, all);
      var sibling := SiblingOf(nodes, idx);
      path := path + sibling;
      idx := idx / 2;
      level := level + 1;
    }
  }
}
