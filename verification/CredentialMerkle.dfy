/**
 Merkle batches of credential IDs (sdk/src/credentials.ts): hexadecimal strings in, hexadecimal
 strings out. SHA-256 is the parameter `sha`; nothing is assumed of it but its digest length.
 */
module CredentialMerkle {
  import opened Wrappers
  import opened Hex
  import opened Rfc6962
  import LevelTree

  datatype MerkleError = EmptyBatch | InvalidCredentialId | NotInBatch

  datatype Position = Left | Right

  datatype PathNode = PathNode(hash: string, position: Position)

  datatype MerkleTree = MerkleTree(root: string, leaves: seq<string>, levels: seq<seq<string>>)

  datatype MerkleProof =
    MerkleProof(credentialId: string, path: seq<PathNode>, root: string, index: nat, leafCount: nat)

  // ---- Identifiers ----

  predicate IsHex64(s: string) {
    |s| == 64 && IsHex(s)
  }

  function NormalizeId(credentialId: string): (r: Option<string>)
    ensures r.Some? ==> |r.value| == 64 && IsLowerHex(r.value)
  {
    var hex := if |credentialId| >= 2 && credentialId[..2] == "0x" then credentialId[2..] else credentialId;
    if IsHex64(hex) then Some(Lower(hex)) else None
  }

  predicate AllValid(ids: seq<string>) {
    forall i :: 0 <= i < |ids| ==> NormalizeId(ids[i]).Some?
  }

  /** `credentialIds.map(normalizeCredentialIdHex)`. */
  function Normalized(ids: seq<string>): (r: seq<string>)
    requires AllValid(ids)
    ensures |r| == |ids|
    ensures forall i :: 0 <= i < |r| ==> |r[i]| == 64 && IsLowerHex(r[i]) && NormalizeId(ids[i]) == Some(r[i])
  {
    seq(|ids|, i requires 0 <= i < |ids| => NormalizeId(ids[i]).value)
  }

  predicate IsNormalized(ids: seq<string>) {
    forall i :: 0 <= i < |ids| ==> |ids[i]| == 64 && IsLowerHex(ids[i])
  }

  lemma LowerHexIsFixed(s: string)
    requires IsLowerHex(s)
    ensures Lower(s) == s
  {
    forall j | 0 <= j < |s| ensures Lower(s)[j] == s[j] {
      assert DigitValue(s[j]) >= 0;
    }
  }

  lemma NormalIdIsFixed(id: string)
    requires |id| == 64 && IsLowerHex(id)
    ensures NormalizeId(id) == Some(id)
  {
    assert id[..2] != "0x" by {
      assert DigitValue(id[1]) >= 0;
    }
    LowerHexIsFixed(id);
  }

  lemma NormalizingTwice(ids: seq<string>)
    requires IsNormalized(ids)
    ensures AllValid(ids) && Normalized(ids) == ids
  {
    forall i | 0 <= i < |ids| ensures NormalizeId(ids[i]) == Some(ids[i]) {
      NormalIdIsFixed(ids[i]);
    }
  }

  /** The 32-byte IDs that the leaves hash. */
  function DecodedIds(ids: seq<string>): (r: seq<Bytes>)
    requires AllValid(ids)
    ensures |r| == |ids|
  {
    seq(|ids|, i requires 0 <= i < |ids| => FromHex(Normalized(ids)[i]))
  }

  // ---- What the strings spell ----

  /** A credential ID is 32 bytes in hexadecimal of either case, with or without `0x`. */
  predicate SpellsId(id: string, b: Bytes) {
    |b| == 32 && (Spells(id, b) || (|id| >= 2 && id[0] == '0' && id[1] == 'x' && Spells(id[2..], b)))
  }

  predicate SpellsAll(ids: seq<string>, data: seq<Bytes>) {
    |ids| == |data| && forall i :: 0 <= i < |ids| ==> SpellsId(ids[i], data[i])
  }

  lemma DecodedLower(s: string)
    requires IsHex(s) && |s| % 2 == 0
    ensures FromHex(Lower(s)) == FromHex(s)
  {
    DecodedIsSpelled(s);
    LowerSpells(s, FromHex(s));
    SpelledIsDecoded(Lower(s), FromHex(s));
  }

  lemma SpelledIdIsValid(id: string, b: Bytes)
    requires SpellsId(id, b)
    ensures NormalizeId(id).Some? && FromHex(NormalizeId(id).value) == b
  {
    if Spells(id, b) {
      SpelledIsDecoded(id, b);
      assert id[..2] != "0x" by {
        assert DigitValue(id[1]) >= 0;
      }
      DecodedLower(id);
    } else {
      assert id[..2] == "0x";
      SpelledIsDecoded(id[2..], b);
      DecodedLower(id[2..]);
    }
  }

  /** An ID is valid exactly when it spells 32 bytes, and decodes to those. */
  lemma IdMeans(id: string, b: Bytes)
    ensures SpellsId(id, b) <==> NormalizeId(id).Some? && FromHex(NormalizeId(id).value) == b
  {
    if SpellsId(id, b) {
      SpelledIdIsValid(id, b);
    } else if NormalizeId(id).Some? {
      var hex := if |id| >= 2 && id[..2] == "0x" then id[2..] else id;
      DecodedIsSpelled(hex);
      DecodedLower(hex);
      assert |id| >= 2 && id[..2] == "0x" ==> id[0] == '0' && id[1] == 'x';
    }
  }

  /** The IDs of a batch are valid exactly when they spell some data, and that is what is decoded. */
  lemma AllMean(ids: seq<string>, data: seq<Bytes>)
    ensures SpellsAll(ids, data) <==> AllValid(ids) && DecodedIds(ids) == data
  {
    if |ids| == |data| {
      forall i | 0 <= i < |ids|
        ensures SpellsId(ids[i], data[i])
          <==> NormalizeId(ids[i]).Some? && FromHex(NormalizeId(ids[i]).value) == data[i]
      {
        IdMeans(ids[i], data[i]);
      }
      if AllValid(ids) {
        assert forall i :: 0 <= i < |ids| ==> DecodedIds(ids)[i] == FromHex(NormalizeId(ids[i]).value);
      }
    }
  }

  // ---- Hashes ----

  function HashLeaf(sha: Hasher, id: string): string {
    ToHex(sha(LeafInput(FromHex(id))))
  }

  function HashNode(sha: Hasher, left: string, right: string): string {
    ToHex(sha([1] + FromHex(left) + FromHex(right)))
  }

  function NodeOf(sha: Hasher): (string, string) -> string {
    (left, right) => HashNode(sha, left, right)
  }

  function LeafHashes(sha: Hasher, ids: seq<string>): (r: seq<string>)
    requires AllValid(ids)
    ensures |r| == |ids|
  {
    seq(|ids|, i requires 0 <= i < |ids| => HashLeaf(sha, Normalized(ids)[i]))
  }

  /** The root of a batch: the tree hash of section 2.1 of RFC 6962 over the decoded IDs. */
  function BatchRoot(sha: Hasher, ids: seq<string>): string
    requires ids != [] && AllValid(ids)
  {
    ToHex(Mth(sha, DecodedIds(ids)))
  }

  function HexLeaves(sha: Hasher, data: seq<Bytes>): (r: seq<string>)
    ensures |r| == |data|
  {
    seq(|data|, i requires 0 <= i < |data| => ToHex(sha(LeafInput(data[i]))))
  }

  lemma LeafHashesAreHexLeaves(sha: Hasher, ids: seq<string>)
    requires AllValid(ids)
    ensures LeafHashes(sha, ids) == HexLeaves(sha, DecodedIds(ids))
  {
  }

  /** On hexadecimal strings, the recursive tree is the RFC's. */
  lemma {:induction false} HexRootIsMth(sha: Hasher, data: seq<Bytes>)
    requires data != []
    ensures LevelTree.Root(NodeOf(sha), HexLeaves(sha, data)) == ToHex(Mth(sha, data))
    decreases |data|
  {
    if |data| > 1 {
      var k := Split(|data|);
      assert HexLeaves(sha, data)[..k] == HexLeaves(sha, data[..k]);
      assert HexLeaves(sha, data)[k..] == HexLeaves(sha, data[k..]);
      HexRootIsMth(sha, data[..k]);
      HexRootIsMth(sha, data[k..]);
      FromToHex(Mth(sha, data[..k]));
      FromToHex(Mth(sha, data[k..]));
    }
  }

  /** The hashes of the path are the digests, in order, in hexadecimal. */
  predicate PathSpells(path: seq<Step<string>>, audit: seq<Digest>) {
    |path| == |audit| && forall j :: 0 <= j < |audit| ==> path[j].hash == ToHex(audit[j])
  }

  lemma SpellsOneMore(
    below: seq<Step<string>>, digests: seq<Digest>, last: Step<string>, digest: Digest,
    path: seq<Step<string>>, audit: seq<Digest>)
    requires PathSpells(below, digests) && last.hash == ToHex(digest)
    requires path == below + [last] && audit == digests + [digest]
    ensures PathSpells(path, audit)
  {
  }

  lemma LeavesSplit(sha: Hasher, data: seq<Bytes>, k: nat)
    requires k <= |data|
    ensures HexLeaves(sha, data)[..k] == HexLeaves(sha, data[..k])
    ensures HexLeaves(sha, data)[k..] == HexLeaves(sha, data[k..])
  {
  }

  lemma AuditSplit(sha: Hasher, data: seq<Bytes>, m: nat)
    requires |data| > 1 && m < |data|
    ensures
      var k := Split(|data|);
      && (m < k ==> AuditPath(sha, m, data) == AuditPath(sha, m, data[..k]) + [Mth(sha, data[k..])])
      && (m >= k ==> AuditPath(sha, m, data) == AuditPath(sha, m - k, data[k..]) + [Mth(sha, data[..k])])
  {
  }

  lemma LeftParts(sha: Hasher, data: seq<Bytes>, m: nat, left: seq<Bytes>, right: seq<Bytes>)
    requires |data| > 1 && m < Split(|data|) && left == data[..Split(|data|)] && right == data[Split(|data|)..]
    ensures LevelTree.Path(NodeOf(sha), HexLeaves(sha, data), m)
         == LevelTree.Path(NodeOf(sha), HexLeaves(sha, left), m) + [Step(ToHex(Mth(sha, right)), false)]
    ensures AuditPath(sha, m, data) == AuditPath(sha, m, left) + [Mth(sha, right)]
  {
    LeavesSplit(sha, data, Split(|data|));
    HexRootIsMth(sha, right);
    LevelTree.PathLeft(NodeOf(sha), HexLeaves(sha, data), m);
    AuditSplit(sha, data, m);
  }

  lemma RightParts(sha: Hasher, data: seq<Bytes>, m: nat, i: nat, left: seq<Bytes>, right: seq<Bytes>)
    requires |data| > 1 && m < |data| && m == Split(|data|) + i
    requires left == data[..Split(|data|)] && right == data[Split(|data|)..]
    ensures LevelTree.Path(NodeOf(sha), HexLeaves(sha, data), m)
         == LevelTree.Path(NodeOf(sha), HexLeaves(sha, right), i) + [Step(ToHex(Mth(sha, left)), true)]
    ensures AuditPath(sha, m, data) == AuditPath(sha, i, right) + [Mth(sha, left)]
  {
    LeavesSplit(sha, data, Split(|data|));
    HexRootIsMth(sha, left);
    LevelTree.PathRight(NodeOf(sha), HexLeaves(sha, data), m);
    AuditSplit(sha, data, m);
  }

  /** On hexadecimal strings, the recursive sibling path is the RFC's audit path. */
  lemma {:induction false} HexPathIsAuditPath(
    sha: Hasher, data: seq<Bytes>, m: nat, path: seq<Step<string>>, audit: seq<Digest>)
    requires m < |data|
    requires path == LevelTree.Path(NodeOf(sha), HexLeaves(sha, data), m) && audit == AuditPath(sha, m, data)
    ensures PathSpells(path, audit)
    decreases |data|
  {
    if |data| > 1 {
      var k := Split(|data|);
      var left, right := data[..k], data[k..];
      if m < k {
        var below, digests := LevelTree.Path(NodeOf(sha), HexLeaves(sha, left), m), AuditPath(sha, m, left);
        HexPathIsAuditPath(sha, left, m, below, digests);
        LeftParts(sha, data, m, left, right);
        SpellsOneMore(below, digests, Step(ToHex(Mth(sha, right)), false), Mth(sha, right), path, audit);
      } else {
        var i: nat := m - k;
        var below, digests := LevelTree.Path(NodeOf(sha), HexLeaves(sha, right), i), AuditPath(sha, i, right);
        HexPathIsAuditPath(sha, right, i, below, digests);
        RightParts(sha, data, m, i, left, right);
        SpellsOneMore(below, digests, Step(ToHex(Mth(sha, left)), true), Mth(sha, left), path, audit);
      }
    }
  }

  // ---- buildMerkleTree ----

  /** A node is the digest of 01 and the two digests below it. */
  ghost predicate IsParent(sha: Hasher, left: string, right: string, node: string) {
    exists a: Bytes, b: Bytes :: Spells(left, a) && Spells(right, b) && SpellsLower(node, sha([1] + a + b))
  }

  /** Neighbours are paired; the odd node at the end moves up unchanged. */
  ghost predicate IsLevelAbove(sha: Hasher, below: seq<string>, above: seq<string>) {
    && |above| == (|below| + 1) / 2
    && (forall j :: 0 <= j < |above| && 2 * j + 1 < |below| ==> IsParent(sha, below[2 * j], below[2 * j + 1], above[j]))
    && (forall j :: 0 <= j < |above| && 2 * j + 1 == |below| ==> above[j] == below[2 * j])
  }

  /** A leaf is the digest of 00 and its datum. */
  predicate AreLeaves(sha: Hasher, data: seq<Bytes>, leaves: seq<string>) {
    |leaves| == |data| && forall i :: 0 <= i < |data| ==> SpellsLower(leaves[i], sha([0] + data[i]))
  }

  ghost predicate AreLevels(sha: Hasher, levels: seq<seq<string>>) {
    forall k :: 0 <= k < |levels| - 1 ==> |levels[k]| > 1 && IsLevelAbove(sha, levels[k], levels[k + 1])
  }

  /** The whole tree over the data, from the leaves to the root, which is the RFC's tree hash. */
  ghost predicate IsTreeOf(sha: Hasher, data: seq<Bytes>, tree: MerkleTree) {
    && AreLeaves(sha, data, tree.leaves) && AreLevels(sha, tree.levels)
    && tree.levels != [] && tree.levels[0] == tree.leaves && tree.levels[|tree.levels| - 1] == [tree.root]
    && data != [] && SpellsLower(tree.root, Mth(sha, data))
  }

  predicate AreHashes(level: seq<string>) {
    forall j :: 0 <= j < |level| ==> IsHex64(level[j])
  }

  lemma NodeIsParent(sha: Hasher, left: string, right: string)
    requires IsHex64(left) && IsHex64(right)
    ensures IsParent(sha, left, right, NodeOf(sha)(left, right)) && IsHex64(NodeOf(sha)(left, right))
  {
    DecodedIsSpelled(left);
    DecodedIsSpelled(right);
    EncodedIsSpelled(sha([1] + FromHex(left) + FromHex(right)));
  }

  lemma NextLevelIsAbove(sha: Hasher, below: seq<string>, above: seq<string>)
    requires AreHashes(below) && above == LevelTree.NextLevel(NodeOf(sha), below)
    ensures IsLevelAbove(sha, below, above) && AreHashes(above)
  {
    forall j | 0 <= j < |above|
      ensures 2 * j + 1 < |below| ==> IsParent(sha, below[2 * j], below[2 * j + 1], above[j])
      ensures 2 * j + 1 == |below| ==> above[j] == below[2 * j]
      ensures IsHex64(above[j])
    {
      assert above[j] == LevelTree.Parent(NodeOf(sha), below, j);
      if 2 * j + 1 < |below| {
        NodeIsParent(sha, below[2 * j], below[2 * j + 1]);
      }
    }
  }

  lemma {:induction false} LevelsAreHashes(sha: Hasher, levels: seq<seq<string>>, k: nat)
    requires LevelTree.IsLevelChain(NodeOf(sha), levels) && AreHashes(levels[0]) && k < |levels|
    ensures AreHashes(levels[k])
  {
    if k > 0 {
      LevelsAreHashes(sha, levels, k - 1);
      NextLevelIsAbove(sha, levels[k - 1], levels[k]);
    }
  }

  lemma LeavesAreLeaves(sha: Hasher, ids: seq<string>, data: seq<Bytes>)
    requires SpellsAll(ids, data) && AllValid(ids)
    ensures AreLeaves(sha, data, LeafHashes(sha, ids)) && AreHashes(LeafHashes(sha, ids))
  {
    AllMean(ids, data);
    forall i | 0 <= i < |ids| ensures SpellsLower(LeafHashes(sha, ids)[i], sha([0] + data[i])) {
      assert data[i] == DecodedIds(ids)[i];
      EncodedIsSpelled(sha([0] + data[i]));
    }
  }

  lemma BuiltTreeMeans(sha: Hasher, ids: seq<string>, data: seq<Bytes>, tree: MerkleTree)
    requires ids != [] && SpellsAll(ids, data) && AllValid(ids)
    requires tree.root == BatchRoot(sha, ids) && tree.leaves == LeafHashes(sha, ids)
    requires LevelTree.IsLevelChain(NodeOf(sha), tree.levels) && tree.levels[0] == tree.leaves
    requires tree.levels[|tree.levels| - 1] == [tree.root]
    ensures IsTreeOf(sha, data, tree)
  {
    AllMean(ids, data);
    LeavesAreLeaves(sha, ids, data);
    EncodedIsSpelled(Mth(sha, data));
    var levels := tree.levels;
    forall k | 0 <= k < |levels| - 1 ensures |levels[k]| > 1 && IsLevelAbove(sha, levels[k], levels[k + 1]) {
      LevelsAreHashes(sha, levels, k);
      NextLevelIsAbove(sha, levels[k], levels[k + 1]);
    }
  }

  /** What a result of building means, over the bytes that the IDs spell. */
  ghost predicate BuiltFrom(sha: Hasher, ids: seq<string>, r: Result<MerkleTree, MerkleError>) {
    && (r.Ok? <==> ids != [] && exists data :: SpellsAll(ids, data))
    && (r.Ok? ==> forall data :: SpellsAll(ids, data) ==> IsTreeOf(sha, data, r.value))
    && (r.Err? ==> r.error == if ids == [] then EmptyBatch else InvalidCredentialId)
  }

  lemma BuiltMeans(sha: Hasher, ids: seq<string>, tree: MerkleTree)
    requires ids != [] && AllValid(ids)
    requires tree.root == BatchRoot(sha, ids) && tree.leaves == LeafHashes(sha, ids)
    requires LevelTree.IsLevelChain(NodeOf(sha), tree.levels) && tree.levels[0] == tree.leaves
    requires tree.levels[|tree.levels| - 1] == [tree.root]
    ensures BuiltFrom(sha, ids, Ok(tree))
  {
    AllMean(ids, DecodedIds(ids));
    forall data | SpellsAll(ids, data) ensures IsTreeOf(sha, data, tree) {
      BuiltTreeMeans(sha, ids, data, tree);
    }
  }

  lemma NotBuiltMeans(sha: Hasher, ids: seq<string>, error: MerkleError)
    requires ids == [] || !AllValid(ids)
    requires error == if ids == [] then EmptyBatch else InvalidCredentialId
    ensures BuiltFrom(sha, ids, Err(error))
  {
    forall data ensures !SpellsAll(ids, data) || ids == [] {
      AllMean(ids, data);
    }
  }

  method BuildMerkleTree(sha: Hasher, credentialIds: seq<string>) returns (r: Result<MerkleTree, MerkleError>)
    ensures credentialIds == [] ==> r == Err(EmptyBatch)
    ensures credentialIds != [] && !AllValid(credentialIds) ==> r == Err(InvalidCredentialId)
    ensures credentialIds != [] && AllValid(credentialIds) ==>
      && r.Ok?
      && r.value.root == BatchRoot(sha, credentialIds)
      && r.value.leaves == LeafHashes(sha, credentialIds)
      && LevelTree.IsLevelChain(NodeOf(sha), r.value.levels)
      && r.value.levels[0] == r.value.leaves
      && r.value.levels[|r.value.levels| - 1] == [r.value.root]
    ensures BuiltFrom(sha, credentialIds, r)
  {
    if credentialIds == [] {
      NotBuiltMeans(sha, credentialIds, EmptyBatch);
      return Err(EmptyBatch);
    }
    if !AllValid(credentialIds) {
      NotBuiltMeans(sha, credentialIds, InvalidCredentialId);
      return Err(InvalidCredentialId);
    }
    var leaves := LeafHashes(sha, credentialIds);
    var node := NodeOf(sha);
    var levels := LevelTree.BuildLevels(node, leaves);
    LeafHashesAreHexLeaves(sha, credentialIds);
    HexRootIsMth(sha, DecodedIds(credentialIds));
    var tree := MerkleTree(levels[|levels| - 1][0], leaves, levels);
    BuiltMeans(sha, credentialIds, tree);
    r := Ok(tree);
  }

  // ---- generateMerkleProof ----

  function NodesOf(path: seq<Step<string>>): (nodes: seq<PathNode>)
    ensures |nodes| == |path|
  {
    seq(|path|, i requires 0 <= i < |path| => PathNode(path[i].hash, if path[i].onLeft then Left else Right))
  }

  /** The proof path of one leaf of a batch. */
  function BatchPath(sha: Hasher, ids: seq<string>, index: nat): seq<Step<string>>
    requires AllValid(ids) && index < |ids|
  {
    LevelTree.LevelPath(NodeOf(sha), LeafHashes(sha, ids), index)
  }

  /** The hashes of a proof path are an audit path, in order, in hexadecimal. */
  predicate SpellsAuditPath(sha: Hasher, path: seq<PathNode>, index: nat, data: seq<Bytes>)
    requires index < |data|
  {
    var audit := AuditPath(sha, index, data);
    |path| == |audit| && forall j :: 0 <= j < |audit| ==> path[j].hash == ToHex(audit[j])
  }

  predicate IsFirstIndexOf(target: string, ids: seq<string>, index: nat) {
    index < |ids| && ids[index] == target && target !in ids[..index]
  }

  /** `normalized.indexOf(target)`, with None for -1. */
  function IndexOf(ids: seq<string>, target: string): (r: Option<nat>)
    ensures r.None? ==> target !in ids
    ensures r.Some? ==> IsFirstIndexOf(target, ids, r.value)
  {
    if ids == [] then None
    else if ids[0] == target then Some(0)
    else
      match IndexOf(ids[1..], target)
      case None => None
      case Some(i) =>
        assert ids[..i + 1] == [ids[0]] + ids[1..][..i];
        Some(i + 1)
  }

  /** A proof over bytes: the first place of the datum, the root, and the audit path, which resolves to the root. */
  ghost predicate IsProofOf(sha: Hasher, data: seq<Bytes>, d: Bytes, proof: MerkleProof) {
    && proof.index < |data| == proof.leafCount && data[proof.index] == d && d !in data[..proof.index]
    && SpellsLower(proof.credentialId, d) && SpellsLower(proof.root, Mth(sha, data))
    && exists steps :: SpellsPath(proof.path, steps) && LeadsToRoot(sha, data, proof.index, d, steps)
  }

  predicate LeadsToRoot(sha: Hasher, data: seq<Bytes>, index: nat, d: Bytes, steps: seq<Step<Digest>>)
    requires index < |data|
  {
    AreSiblings(steps, AuditPath(sha, index, data)) && Resolve(sha, sha([0] + d), steps) == Mth(sha, data)
  }

  predicate AreSiblings(steps: seq<Step<Digest>>, audit: seq<Digest>) {
    |steps| == |audit| && forall j :: 0 <= j < |audit| ==> steps[j].hash == audit[j]
  }

  /** What a result of generating means, over the bytes that the IDs spell. */
  ghost predicate GeneratedFrom(sha: Hasher, ids: seq<string>, id: string, r: Result<MerkleProof, MerkleError>) {
    && (r == Err(InvalidCredentialId) <==> !(exists d :: SpellsId(id, d)) || !(exists data :: SpellsAll(ids, data)))
    && forall d, data :: SpellsId(id, d) && SpellsAll(ids, data) ==>
      if d in data then r.Ok? && IsProofOf(sha, data, d, r.value) else r == Err(NotInBatch)
  }

  lemma NormalizedMeans(id: string, d: Bytes)
    requires SpellsId(id, d)
    ensures NormalizeId(id) == Some(ToHex(d))
  {
    SpelledIdIsValid(id, d);
    ToFromHex(NormalizeId(id).value);
  }

  lemma EncodedApart(a: Bytes, b: Bytes)
    ensures ToHex(a) == ToHex(b) <==> a == b
  {
    FromToHex(a);
    FromToHex(b);
  }

  lemma NormalizedAre(ids: seq<string>, data: seq<Bytes>, d: Bytes)
    requires SpellsAll(ids, data) && AllValid(ids)
    ensures forall i :: 0 <= i < |ids| ==> (Normalized(ids)[i] == ToHex(d) <==> data[i] == d)
  {
    forall i | 0 <= i < |ids| ensures Normalized(ids)[i] == ToHex(d) <==> data[i] == d {
      NormalizedMeans(ids[i], data[i]);
      EncodedApart(data[i], d);
    }
  }

  lemma AuditPathSpelled(sha: Hasher, path: seq<PathNode>, index: nat, data: seq<Bytes>)
    returns (steps: seq<Step<Digest>>)
    requires index < |data| && SpellsAuditPath(sha, path, index, data)
    ensures SpellsPath(path, steps) && AreSiblings(steps, AuditPath(sha, index, data))
  {
    var audit := AuditPath(sha, index, data);
    forall j | 0 <= j < |path| ensures IsHex64(path[j].hash) && FromHex(Lower(path[j].hash)) == audit[j] {
      FromToHex(audit[j]);
      LowerHexIsFixed(path[j].hash);
    }
    steps := DecodedPath(path);
    PathMeans(path, steps);
  }

  lemma GeneratedResolves(
    sha: Hasher, ids: seq<string>, data: seq<Bytes>, d: Bytes, proof: MerkleProof, steps: seq<Step<Digest>>)
    requires SpellsAll(ids, data) && AllValid(ids) && |d| == 32 && proof.index < |ids|
    requires proof.credentialId == ToHex(d) == Normalized(ids)[proof.index]
    requires proof.root == BatchRoot(sha, ids) && proof.path == NodesOf(BatchPath(sha, ids, proof.index))
    requires SpellsPath(proof.path, steps)
    ensures Resolve(sha, sha([0] + d), steps) == Mth(sha, data)
  {
    AllMean(ids, data);
    ProofCompleteness(sha, ids, proof);
    EncodedId(d);
    AcceptsMeans(sha, proof, Some(proof.root), d, steps);
    EncodedIsSpelled(Mth(sha, data));
    SpellsOneThing(proof.root, Mth(sha, data), Resolve(sha, sha([0] + d), steps));
  }

  lemma ProofMeans(sha: Hasher, ids: seq<string>, data: seq<Bytes>, d: Bytes, proof: MerkleProof)
    requires SpellsAll(ids, data) && AllValid(ids) && |d| == 32
    requires proof.credentialId == ToHex(d) && IsFirstIndexOf(ToHex(d), Normalized(ids), proof.index)
    requires proof.leafCount == |ids| && proof.root == BatchRoot(sha, ids)
    requires proof.path == NodesOf(BatchPath(sha, ids, proof.index))
    requires SpellsAuditPath(sha, proof.path, proof.index, DecodedIds(ids))
    ensures IsProofOf(sha, data, d, proof)
  {
    AllMean(ids, data);
    var steps := AuditPathSpelled(sha, proof.path, proof.index, data);
    GeneratedResolves(sha, ids, data, d, proof, steps);
    assert LeadsToRoot(sha, data, proof.index, d, steps);
    NormalizedAre(ids, data, d);
    EncodedIsSpelled(d);
    EncodedIsSpelled(Mth(sha, data));
  }

  lemma EncodedId(d: Bytes)
    requires |d| == 32
    ensures SpellsId(ToHex(d), d)
  {
    EncodedIsSpelled(d);
    LowerSpelling(ToHex(d), d);
  }

  lemma GeneratedMeans(sha: Hasher, ids: seq<string>, id: string, r: Result<MerkleProof, MerkleError>)
    requires NormalizeId(id).Some? && AllValid(ids)
    requires
      var target := NormalizeId(id).value;
      if target in Normalized(ids) then
        && r.Ok? && r.value.credentialId == target && IsFirstIndexOf(target, Normalized(ids), r.value.index)
        && r.value.leafCount == |ids| && r.value.root == BatchRoot(sha, ids)
        && r.value.path == NodesOf(BatchPath(sha, ids, r.value.index))
        && SpellsAuditPath(sha, r.value.path, r.value.index, DecodedIds(ids))
      else r == Err(NotInBatch)
    ensures GeneratedFrom(sha, ids, id, r)
  {
    IdMeans(id, FromHex(NormalizeId(id).value));
    AllMean(ids, DecodedIds(ids));
    forall d, data | SpellsId(id, d) && SpellsAll(ids, data)
      ensures if d in data then r.Ok? && IsProofOf(sha, data, d, r.value) else r == Err(NotInBatch)
    {
      NormalizedMeans(id, d);
      NormalizedAre(ids, data, d);
      if d in data {
        var i :| 0 <= i < |data| && data[i] == d;
        assert Normalized(ids)[i] == ToHex(d);
        ProofMeans(sha, ids, data, d, r.value);
      }
    }
  }

  lemma NotGeneratedMeans(sha: Hasher, ids: seq<string>, id: string)
    requires NormalizeId(id).None? || !AllValid(ids)
    ensures GeneratedFrom(sha, ids, id, Err(InvalidCredentialId))
  {
    forall d, data ensures !(SpellsId(id, d) && SpellsAll(ids, data)) {
      IdMeans(id, d);
      AllMean(ids, data);
    }
    if NormalizeId(id).None? {
      forall d ensures !SpellsId(id, d) {
        IdMeans(id, d);
      }
    } else {
      forall data ensures !SpellsAll(ids, data) {
        AllMean(ids, data);
      }
    }
  }

  method GenerateMerkleProof(sha: Hasher, credentialIds: seq<string>, credentialId: string)
    returns (r: Result<MerkleProof, MerkleError>)
    ensures NormalizeId(credentialId).None? || !AllValid(credentialIds) ==> r == Err(InvalidCredentialId)
    ensures NormalizeId(credentialId).Some? && AllValid(credentialIds) ==>
      var target := NormalizeId(credentialId).value;
      var ids := Normalized(credentialIds);
      if target in ids then
        && r.Ok?
        && r.value.credentialId == target
        && IsFirstIndexOf(target, ids, r.value.index)
        && r.value.leafCount == |ids|
        && r.value.root == BatchRoot(sha, credentialIds)
        && r.value.path == NodesOf(BatchPath(sha, credentialIds, r.value.index))
        && SpellsAuditPath(sha, r.value.path, r.value.index, DecodedIds(credentialIds))
      else r == Err(NotInBatch)
    ensures GeneratedFrom(sha, credentialIds, credentialId, r)
  {
    var normal := NormalizeId(credentialId);
    if normal.None? || !AllValid(credentialIds) {
      NotGeneratedMeans(sha, credentialIds, credentialId);
      return Err(InvalidCredentialId);
    }
    var target := normal.value;
    var normalized := Normalized(credentialIds);
    var found := IndexOf(normalized, target);
    if found.None? {
      GeneratedMeans(sha, credentialIds, credentialId, Err(NotInBatch));
      return Err(NotInBatch);
    }
    var index := found.value;
    NormalizingTwice(normalized);
    assert DecodedIds(normalized) == DecodedIds(credentialIds);
    assert LeafHashes(sha, normalized) == LeafHashes(sha, credentialIds);
    var built := BuildMerkleTree(sha, normalized);
    var tree := built.value;
    var siblings := LevelTree.CollectPath(NodeOf(sha), tree.levels, index);
    var path := NodesOf(siblings);
    GeneratedPathIsAuditPath(sha, credentialIds, index);
    var proof := MerkleProof(target, path, tree.root, index, |normalized|);
    GeneratedMeans(sha, credentialIds, credentialId, Ok(proof));
    r := Ok(proof);
  }

  // ---- verifyMerkleProof ----

  function StepsOf(path: seq<PathNode>): (steps: seq<Step<string>>)
    ensures |steps| == |path|
  {
    seq(|path|, i requires 0 <= i < |path| => Step(Lower(path[i].hash), path[i].position == Left))
  }

  predicate ValidPath(path: seq<PathNode>) {
    forall i :: 0 <= i < |path| ==> IsHex64(path[i].hash)
  }

  function Expected(proof: MerkleProof, root: Option<string>): string {
    Lower(if root.Some? then root.value else proof.root)
  }

  predicate Accepts(sha: Hasher, proof: MerkleProof, root: Option<string>) {
    && NormalizeId(proof.credentialId).Some?
    && ValidPath(proof.path)
    && LevelTree.Fold(NodeOf(sha), HashLeaf(sha, NormalizeId(proof.credentialId).value), StepsOf(proof.path))
       == Expected(proof, root)
  }

  /** The loop of verifyMerkleProof; None for an entry that is not 64 hexadecimal digits. */
  method FoldEntries(node: (string, string) -> string, leaf: string, path: seq<PathNode>)
    returns (r: Option<string>)
    ensures r == if ValidPath(path) then Some(LevelTree.Fold(node, leaf, StepsOf(path))) else None
  {
    ghost var steps := StepsOf(path);
    var current := leaf;
    var i := 0;
    while i < |path|
      invariant 0 <= i <= |path|
      invariant forall j :: 0 <= j < i ==> IsHex64(path[j].hash)
      invariant current == LevelTree.Fold(node, leaf, steps[..i])
    {
      var entry := path[i];
      if !IsHex64(entry.hash) {
        return None;
      }
      LevelTree.FoldStep(node, leaf, steps, i);
      var sibling := Lower(entry.hash);
      current := if entry.position == Left then node(sibling, current) else node(current, sibling);
      i := i + 1;
    }
    assert steps[..i] == steps;
    r := Some(current);
  }

  /** The siblings that the path spells, and their sides. */
  predicate SpellsPath(path: seq<PathNode>, steps: seq<Step<Digest>>) {
    && |path| == |steps|
    && forall i :: 0 <= i < |path| ==>
      Spells(path[i].hash, steps[i].hash) && (steps[i].onLeft <==> path[i].position == Left)
  }

  /**
   The verdict over bytes: the proof spells an ID and siblings, and they resolve to the digest that the expected
   root spells, in either case.
   */
  ghost predicate IsVerdict(sha: Hasher, proof: MerkleProof, root: Option<string>, ok: bool) {
    && (ok ==> exists d, steps :: SpellsId(proof.credentialId, d) && SpellsPath(proof.path, steps))
    && forall d, steps :: SpellsId(proof.credentialId, d) && SpellsPath(proof.path, steps) ==>
      (ok <==> Spells(if root.Some? then root.value else proof.root, Resolve(sha, sha([0] + d), steps)))
  }

  lemma SpelledHash(s: string, h: Digest)
    ensures Spells(s, h) <==> IsHex64(s) && FromHex(Lower(s)) == h
  {
    if Spells(s, h) {
      SpelledIsDecoded(s, h);
      DecodedLower(s);
    } else if IsHex64(s) {
      DecodedIsSpelled(s);
      DecodedLower(s);
    }
  }

  lemma PathMeans(path: seq<PathNode>, steps: seq<Step<Digest>>)
    ensures SpellsPath(path, steps) <==> ValidPath(path) && DecodedPath(path) == steps
  {
    if |path| == |steps| {
      forall i | 0 <= i < |path|
        ensures Spells(path[i].hash, steps[i].hash)
          <==> IsHex64(path[i].hash) && FromHex(Lower(path[i].hash)) == steps[i].hash
      {
        SpelledHash(path[i].hash, steps[i].hash);
      }
    }
  }

  lemma AcceptsMeans(sha: Hasher, proof: MerkleProof, root: Option<string>, d: Bytes, steps: seq<Step<Digest>>)
    requires SpellsId(proof.credentialId, d) && SpellsPath(proof.path, steps)
    ensures Accepts(sha, proof, root) <==>
      Spells(if root.Some? then root.value else proof.root, Resolve(sha, sha([0] + d), steps))
  {
    IdMeans(proof.credentialId, d);
    PathMeans(proof.path, steps);
    HexFoldIsResolve(sha, sha([0] + d), proof.path);
    LowerEqualsEncodedIff(if root.Some? then root.value else proof.root, Resolve(sha, sha([0] + d), steps));
  }

  lemma VerdictMeans(sha: Hasher, proof: MerkleProof, root: Option<string>)
    ensures IsVerdict(sha, proof, root, Accepts(sha, proof, root))
  {
    if Accepts(sha, proof, root) {
      IdMeans(proof.credentialId, FromHex(NormalizeId(proof.credentialId).value));
      PathMeans(proof.path, DecodedPath(proof.path));
    }
    forall d, steps | SpellsId(proof.credentialId, d) && SpellsPath(proof.path, steps)
      ensures Accepts(sha, proof, root) <==>
        Spells(if root.Some? then root.value else proof.root, Resolve(sha, sha([0] + d), steps))
    {
      AcceptsMeans(sha, proof, root, d, steps);
    }
  }

  method VerifyMerkleProof(sha: Hasher, proof: MerkleProof, root: Option<string>) returns (ok: bool)
    ensures ok == Accepts(sha, proof, root)
    ensures IsVerdict(sha, proof, root, ok)
  {
    VerdictMeans(sha, proof, root);
    var id := NormalizeId(proof.credentialId);
    if id.None? {
      return false;
    }
    var current := FoldEntries(NodeOf(sha), HashLeaf(sha, id.value), proof.path);
    ok := current.Some? && current.value == Expected(proof, root);
  }

  // ---- Main results ----

  /** The siblings of a generated path are, in order, the audit path of section 2.1.1 of RFC 6962. */
  lemma GeneratedPathIsAuditPath(sha: Hasher, ids: seq<string>, index: nat)
    requires AllValid(ids) && index < |ids|
    ensures SpellsAuditPath(sha, NodesOf(BatchPath(sha, ids, index)), index, DecodedIds(ids))
  {
    LevelTree.LevelPathIsPath(NodeOf(sha), LeafHashes(sha, ids), index);
    LeafHashesAreHexLeaves(sha, ids);
    var data := DecodedIds(ids);
    HexPathIsAuditPath(
      sha, data, index, LevelTree.Path(NodeOf(sha), HexLeaves(sha, data), index), AuditPath(sha, index, data));
  }

  /** The least d with n <= 2^d. */
  function CeilLog2(n: nat): (d: nat)
    requires n > 0
    ensures n <= Pow2(d) && (d > 0 ==> Pow2(d - 1) < n)
  {
    if n == 1 then 0 else CeilLog2((n + 1) / 2) + 1
  }

  /** The generated siblings fold to the batch root. */
  lemma GeneratedPathFolds(sha: Hasher, ids: seq<string>, index: nat)
    requires AllValid(ids) && index < |ids|
    ensures LevelTree.Fold(NodeOf(sha), LeafHashes(sha, ids)[index], BatchPath(sha, ids, index)) == BatchRoot(sha, ids)
  {
    var node, leaves := NodeOf(sha), LeafHashes(sha, ids);
    LevelTree.LevelPathIsPath(node, leaves, index);
    LevelTree.PathFoldsToRoot(node, leaves, index);
    LeafHashesAreHexLeaves(sha, ids);
    HexRootIsMth(sha, DecodedIds(ids));
  }

  /** Printing siblings as proof entries and reading them back loses nothing. */
  lemma GeneratedPathReads(sha: Hasher, ids: seq<string>, index: nat)
    requires AllValid(ids) && index < |ids|
    ensures var path := NodesOf(BatchPath(sha, ids, index));
      ValidPath(path) && StepsOf(path) == BatchPath(sha, ids, index)
  {
    var steps := BatchPath(sha, ids, index);
    var path := NodesOf(steps);
    GeneratedPathIsAuditPath(sha, ids, index);
    forall i | 0 <= i < |steps| ensures IsHex64(path[i].hash) && StepsOf(path)[i] == steps[i] {
      LowerHexIsFixed(path[i].hash);
    }
  }

  /** Every generated proof verifies, and is as short as the tree is deep. */
  lemma ProofCompleteness(sha: Hasher, ids: seq<string>, proof: MerkleProof)
    requires AllValid(ids) && proof.index < |ids|
    requires proof.credentialId == Normalized(ids)[proof.index]
    requires proof.path == NodesOf(BatchPath(sha, ids, proof.index))
    ensures Accepts(sha, proof, Some(BatchRoot(sha, ids)))
    ensures |proof.path| <= CeilLog2(|ids|)
  {
    LevelTree.LevelPathLength(NodeOf(sha), LeafHashes(sha, ids), proof.index, CeilLog2(|ids|));
    GeneratedPathFolds(sha, ids, proof.index);
    GeneratedPathReads(sha, ids, proof.index);
    LowerHexIsFixed(BatchRoot(sha, ids));
    NormalIdIsFixed(proof.credentialId);
  }

  /** The digests that a valid hexadecimal path spells. */
  function DecodedPath(path: seq<PathNode>): (steps: seq<Step<Digest>>)
    requires ValidPath(path)
    ensures |steps| == |path|
  {
    seq(|path|, i requires 0 <= i < |path| => Step(FromHex(Lower(path[i].hash)), path[i].position == Left))
  }

  lemma {:induction false} HexFoldIsResolve(sha: Hasher, leaf: Digest, path: seq<PathNode>)
    requires ValidPath(path)
    ensures LevelTree.Fold(NodeOf(sha), ToHex(leaf), StepsOf(path)) == ToHex(Resolve(sha, leaf, DecodedPath(path)))
    decreases |path|
  {
    if path != [] {
      var front := path[..|path| - 1];
      HexFoldIsResolve(sha, leaf, front);
      StepsShorter(path);
      FromToHex(Resolve(sha, leaf, DecodedPath(front)));
    }
  }

  lemma StepsShorter(path: seq<PathNode>)
    requires path != [] && ValidPath(path)
    ensures ValidPath(path[..|path| - 1])
    ensures StepsOf(path)[..|path| - 1] == StepsOf(path[..|path| - 1])
    ensures DecodedPath(path)[..|path| - 1] == DecodedPath(path[..|path| - 1])
  {
  }

  /**
   If the verifier accepts a path, of any length and any sides, against a root that spells the tree hash of some
   data, then the bytes its ID spells are in the data, or SoundnessCollision computes two inputs with one digest.
   */
  lemma ProofSoundness(
    sha: Hasher, data: seq<Bytes>, proof: MerkleProof, root: Option<string>, d: Bytes, steps: seq<Step<Digest>>)
    requires data != [] && Spells(if root.Some? then root.value else proof.root, Mth(sha, data))
    requires SpellsId(proof.credentialId, d) && SpellsPath(proof.path, steps)
    requires IsVerdict(sha, proof, root, true)
    ensures d in data || Collides(sha, SoundnessCollision(sha, data, d, steps))
  {
    var text := if root.Some? then root.value else proof.root;
    SpellsOneThing(text, Mth(sha, data), Resolve(sha, sha([0] + d), steps));
    if d !in data {
      PathSoundness(sha, data, d, steps);
    }
  }

  lemma RootOfBuilt(sha: Hasher, ids: seq<string>, tree: MerkleTree, data: seq<Bytes>)
    requires BuiltFrom(sha, ids, Ok(tree)) && SpellsAll(ids, data)
    ensures data != [] && Spells(tree.root, Mth(sha, data))
  {
    assert IsTreeOf(sha, data, tree);
    SpelledLower(tree.root, Mth(sha, data));
  }

  lemma SpelledLower(s: string, digest: Digest)
    requires SpellsLower(s, digest)
    ensures Spells(s, digest)
  {
  }

  /** Two batches whose roots spell one digest are the same bytes in the same order, or yield a collision. */
  lemma BatchBinding(
    sha: Hasher, a: seq<string>, b: seq<string>, treeA: MerkleTree, treeB: MerkleTree,
    x: seq<Bytes>, y: seq<Bytes>, digest: Digest)
    requires BuiltFrom(sha, a, Ok(treeA)) && BuiltFrom(sha, b, Ok(treeB))
    requires SpellsAll(a, x) && SpellsAll(b, y)
    requires Spells(treeA.root, digest) && Spells(treeB.root, digest)
    ensures x == y || Collides(sha, BindingCollision(sha, x, y))
  {
    RootOfBuilt(sha, a, treeA, x);
    RootOfBuilt(sha, b, treeB, y);
    SpellsOneThing(treeA.root, Mth(sha, x), digest);
    SpellsOneThing(treeB.root, Mth(sha, y), digest);
    if x != y {
      RootBinding(sha, x, y);
    }
  }
}
