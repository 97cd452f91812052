/**
 The second implementation of Merkle proofs (sdk/src/merkle.ts). Hashing and tree building are the
 same code as in sdk/src/credentials.ts; proofs carry more fields, and the verifier reads them.
 */
module SdkMerkle {
  import opened Wrappers
  import opened Hex
  import opened Rfc6962
  import LevelTree
  import C = CredentialMerkle

  datatype ProofStep =
    ProofStep(hash: string, position: C.Position, siblingOnLeft: Option<bool>)

  /** The untyped proof object; None stands for a field that is not there. */
  datatype Proof = Proof(
    leaf: Option<string>,
    credentialId: Option<string>,
    siblings: Option<seq<ProofStep>>,
    path: Option<seq<ProofStep>>,
    root: string,
    leafIndex: Option<nat>,
    leafCount: Option<nat>)

  predicate OnLeft(step: ProofStep) {
    if step.siblingOnLeft.Some? then step.siblingOnLeft.value else step.position == C.Left
  }

  function StepsOf(path: seq<ProofStep>): (steps: seq<Step<string>>)
    ensures |steps| == |path|
  {
    seq(|path|, i requires 0 <= i < |path| => Step(Lower(path[i].hash), OnLeft(path[i])))
  }

  predicate ValidPath(path: seq<ProofStep>) {
    forall i :: 0 <= i < |path| ==> C.IsHex64(path[i].hash)
  }

  function ChosenPath(proof: Proof): Option<seq<ProofStep>> {
    if proof.siblings.Some? then proof.siblings else proof.path
  }

  /** The start of the fold: a non-empty `leaf` field, else the hash of the credential ID. */
  function Start(sha: Hasher, proof: Proof): Option<string> {
    if proof.leaf.Some? && proof.leaf.value != "" then proof.leaf
    else if proof.credentialId.None? || C.NormalizeId(proof.credentialId.value).None? then None
    else Some(C.HashLeaf(sha, C.NormalizeId(proof.credentialId.value).value))
  }

  predicate Accepts(sha: Hasher, proof: Proof, root: Option<string>) {
    && ChosenPath(proof).Some?
    && Start(sha, proof).Some?
    && ValidPath(ChosenPath(proof).value)
    && LevelTree.Fold(C.NodeOf(sha), Start(sha, proof).value, StepsOf(ChosenPath(proof).value))
       == Lower(if root.Some? then root.value else proof.root)
  }

  /** The loop of verifyMerkleProof; None for an entry that is not 64 hexadecimal digits. */
  method FoldEntries(node: (string, string) -> string, start: string, path: seq<ProofStep>)
    returns (r: Option<string>)
    ensures r == if ValidPath(path) then Some(LevelTree.Fold(node, start, StepsOf(path))) else None
  {
    ghost var steps := StepsOf(path);
    var current := start;
    var i := 0;
    while i < |path|
      invariant 0 <= i <= |path|
      invariant forall j :: 0 <= j < i ==> C.IsHex64(path[j].hash)
      invariant current == LevelTree.Fold(node, start, steps[..i])
    {
      if !C.IsHex64(path[i].hash) {
        return None;
      }
      LevelTree.FoldStep(node, start, steps, i);
      var sibling := Lower(path[i].hash);
      current := if OnLeft(path[i]) then node(sibling, current) else node(current, sibling);
      i := i + 1;
    }
    assert steps[..i] == steps;
    r := Some(current);
  }

  // ---- The verdict over bytes ----

  /** The siblings that the path spells; `siblingOnLeft` decides the side, else the position does. */
  predicate SpellsPath(path: seq<ProofStep>, steps: seq<Step<Digest>>) {
    && |path| == |steps|
    && forall i :: 0 <= i < |path| ==>
      && Spells(path[i].hash, steps[i].hash)
      && (path[i].siblingOnLeft.Some? ==> steps[i].onLeft == path[i].siblingOnLeft.value)
      && (path[i].siblingOnLeft.None? ==> (steps[i].onLeft <==> path[i].position == C.Left))
  }

  /** The fold starts from a given leaf, whatever the ID is, and else from the digest of 00 and the ID's bytes. */
  ghost predicate StartsAt(sha: Hasher, proof: Proof, leaf: Digest) {
    if proof.leaf.Some? && proof.leaf.value != "" then SpellsLower(proof.leaf.value, leaf)
    else proof.credentialId.Some? && exists d :: C.SpellsId(proof.credentialId.value, d) && leaf == sha([0] + d)
  }

  ghost predicate IsVerdict(sha: Hasher, proof: Proof, root: Option<string>, ok: bool) {
    && (proof.siblings.None? && proof.path.None? ==> !ok)
    && forall path, leaf, steps ::
      (Some(path) == (if proof.siblings.Some? then proof.siblings else proof.path)
       && StartsAt(sha, proof, leaf) && SpellsPath(path, steps))
      ==> (ok <==> Spells(if root.Some? then root.value else proof.root, Resolve(sha, leaf, steps)))
  }

  /** The path in the notation of the other module. */
  function AsNodes(path: seq<ProofStep>): (nodes: seq<C.PathNode>)
    ensures |nodes| == |path|
  {
    seq(|path|, i requires 0 <= i < |path| => C.PathNode(path[i].hash, if OnLeft(path[i]) then C.Left else C.Right))
  }

  lemma StartMeans(sha: Hasher, proof: Proof, leaf: Digest)
    requires StartsAt(sha, proof, leaf)
    ensures Start(sha, proof) == Some(ToHex(leaf))
  {
    if proof.leaf.Some? && proof.leaf.value != "" {
      EncodedIsSpelled(leaf);
      SpelledOneWay(proof.leaf.value, ToHex(leaf), leaf);
    } else {
      var d :| C.SpellsId(proof.credentialId.value, d) && leaf == sha([0] + d);
      C.SpelledIdIsValid(proof.credentialId.value, d);
    }
  }

  lemma AcceptsMeans(
    sha: Hasher, proof: Proof, root: Option<string>, path: seq<ProofStep>, leaf: Digest, steps: seq<Step<Digest>>)
    requires Some(path) == ChosenPath(proof) && StartsAt(sha, proof, leaf) && SpellsPath(path, steps)
    ensures Accepts(sha, proof, root) <==>
      Spells(if root.Some? then root.value else proof.root, Resolve(sha, leaf, steps))
  {
    var nodes := AsNodes(path);
    StartMeans(sha, proof, leaf);
    assert C.SpellsPath(nodes, steps);
    C.PathMeans(nodes, steps);
    assert StepsOf(path) == C.StepsOf(nodes);
    assert ValidPath(path) by {
      assert forall i :: 0 <= i < |path| ==> C.IsHex64(nodes[i].hash);
    }
    C.HexFoldIsResolve(sha, leaf, nodes);
    LowerEqualsEncodedIff(if root.Some? then root.value else proof.root, Resolve(sha, leaf, steps));
  }

  lemma VerdictMeans(sha: Hasher, proof: Proof, root: Option<string>)
    ensures IsVerdict(sha, proof, root, Accepts(sha, proof, root))
  {
    forall path, leaf, steps |
      Some(path) == (if proof.siblings.Some? then proof.siblings else proof.path)
      && StartsAt(sha, proof, leaf) && SpellsPath(path, steps)
      ensures Accepts(sha, proof, root) <==>
        Spells(if root.Some? then root.value else proof.root, Resolve(sha, leaf, steps))
    {
      AcceptsMeans(sha, proof, root, path, leaf, steps);
    }
  }

  method VerifyMerkleProof(sha: Hasher, proof: Proof, root: Option<string>) returns (ok: bool)
    ensures ok == Accepts(sha, proof, root)
    ensures IsVerdict(sha, proof, root, ok)
  {
    VerdictMeans(sha, proof, root);
    var path := if proof.siblings.Some? then proof.siblings else proof.path;
    if path.None? {
      return false;
    }
    var start := Start(sha, proof);
    if start.None? {
      return false;
    }
    var current := FoldEntries(C.NodeOf(sha), start.value, path.value);
    ok := current.Some? && current.value == Lower(if root.Some? then root.value else proof.root);
  }

  /** The siblings of a batch path, with the side of each given twice. */
  predicate EntriesSpell(entries: seq<ProofStep>, steps: seq<Step<string>>) {
    && |entries| == |steps|
    && forall j :: 0 <= j < |steps| ==>
      && entries[j].hash == steps[j].hash
      && entries[j].siblingOnLeft == Some(steps[j].onLeft)
      && (entries[j].position == C.Left <==> steps[j].onLeft)
  }

  function EntriesOf(steps: seq<Step<string>>): (entries: seq<ProofStep>)
    ensures EntriesSpell(entries, steps)
  {
    seq(|steps|, j requires 0 <= j < |steps| =>
      ProofStep(steps[j].hash, if steps[j].onLeft then C.Left else C.Right, Some(steps[j].onLeft)))
  }

  /** Each leaf normalises its id; the first malformed one ends it. */
  method HashLeaves(sha: Hasher, credentialIds: seq<string>) returns (r: Option<seq<string>>)
    ensures r.None? <==> !C.AllValid(credentialIds)
    ensures r.Some? ==> r.value == C.LeafHashes(sha, credentialIds)
  {
    var leaves: seq<string> := [];
    assert credentialIds[..0] == [];
    for i := 0 to |credentialIds|
      invariant C.AllValid(credentialIds[..i]) && leaves == C.LeafHashes(sha, credentialIds[..i])
    {
      var id := C.NormalizeId(credentialIds[i]);
      if id.None? {
        return None;
      }
      OneMoreLeaf(sha, credentialIds, i);
      leaves := leaves + [C.HashLeaf(sha, id.value)];
    }
    assert credentialIds[..|credentialIds|] == credentialIds;
    r := Some(leaves);
  }

  lemma OneMoreLeaf(sha: Hasher, ids: seq<string>, i: nat)
    requires i < |ids| && C.AllValid(ids[..i]) && C.NormalizeId(ids[i]).Some?
    ensures C.AllValid(ids[..i + 1])
    ensures C.LeafHashes(sha, ids[..i + 1])
         == C.LeafHashes(sha, ids[..i]) + [C.HashLeaf(sha, C.NormalizeId(ids[i]).value)]
  {
    assert ids[..i + 1] == ids[..i] + [ids[i]];
  }

  /** A tree of its own, built by the same loops over leaves that each normalise their id. */
  method BuildMerkleTree(sha: Hasher, credentialIds: seq<string>) returns (r: Result<C.MerkleTree, C.MerkleError>)
    ensures credentialIds == [] ==> r == Err(C.EmptyBatch)
    ensures credentialIds != [] && !C.AllValid(credentialIds) ==> r == Err(C.InvalidCredentialId)
    ensures credentialIds != [] && C.AllValid(credentialIds) ==>
      && r.Ok?
      && r.value.root == C.BatchRoot(sha, credentialIds)
      && r.value.leaves == C.LeafHashes(sha, credentialIds)
      && LevelTree.IsLevelChain(C.NodeOf(sha), r.value.levels)
      && r.value.levels[0] == r.value.leaves
      && r.value.levels[|r.value.levels| - 1] == [r.value.root]
    ensures C.BuiltFrom(sha, credentialIds, r)
  {
    if credentialIds == [] {
      C.NotBuiltMeans(sha, credentialIds, C.EmptyBatch);
      return Err(C.EmptyBatch);
    }
    var hashed := HashLeaves(sha, credentialIds);
    if hashed.None? {
      C.NotBuiltMeans(sha, credentialIds, C.InvalidCredentialId);
      return Err(C.InvalidCredentialId);
    }
    var leaves := hashed.value;
    var levels := LevelTree.BuildLevels(C.NodeOf(sha), leaves);
    C.LeafHashesAreHexLeaves(sha, credentialIds);
    C.HexRootIsMth(sha, C.DecodedIds(credentialIds));
    var tree := C.MerkleTree(levels[|levels| - 1][0], leaves, levels);
    C.BuiltMeans(sha, credentialIds, tree);
    r := Ok(tree);
  }

  /** The proof in the notation of the other module. */
  function AsCredentialProof(proof: Proof): C.MerkleProof
    requires proof.credentialId.Some? && proof.siblings.Some? && proof.leafIndex.Some? && proof.leafCount.Some?
  {
    var path := proof.siblings.value;
    C.MerkleProof(
      proof.credentialId.value,
      seq(|path|, i requires 0 <= i < |path| => C.PathNode(path[i].hash, path[i].position)),
      proof.root, proof.leafIndex.value, proof.leafCount.value)
  }

  /** Everything the other module's proof says over bytes, with the leaf, both path fields and both side fields. */
  ghost predicate GeneratedFrom(sha: Hasher, ids: seq<string>, id: string, r: Result<Proof, C.MerkleError>) {
    match r
    case Err(error) => C.GeneratedFrom(sha, ids, id, Err(error))
    case Ok(proof) =>
      && proof.credentialId.Some? && proof.siblings.Some? && proof.leafIndex.Some? && proof.leafCount.Some?
      && C.GeneratedFrom(sha, ids, id, Ok(AsCredentialProof(proof)))
      && proof.path == proof.siblings
      && (forall i :: 0 <= i < |proof.siblings.value| ==>
        proof.siblings.value[i].siblingOnLeft == Some(proof.siblings.value[i].position == C.Left))
      && forall d :: C.SpellsId(id, d) ==> proof.leaf.Some? && SpellsLower(proof.leaf.value, sha([0] + d))
  }

  lemma GeneratedMeans(sha: Hasher, ids: seq<string>, id: string, proof: Proof)
    requires C.NormalizeId(id).Some? && C.AllValid(ids)
    requires C.NormalizeId(id).value in C.Normalized(ids)
    requires proof.leaf == Some(C.HashLeaf(sha, C.NormalizeId(id).value)) && proof.credentialId == C.NormalizeId(id)
    requires proof.root == C.BatchRoot(sha, ids) && proof.leafCount == Some(|ids|) && proof.leafIndex.Some?
    requires C.IsFirstIndexOf(C.NormalizeId(id).value, C.Normalized(ids), proof.leafIndex.value)
    requires proof.siblings.Some? && proof.path == proof.siblings
    requires EntriesSpell(proof.siblings.value, C.BatchPath(sha, ids, proof.leafIndex.value))
    ensures GeneratedFrom(sha, ids, id, Ok(proof))
  {
    var index := proof.leafIndex.value;
    var other := AsCredentialProof(proof);
    assert other.path == C.NodesOf(C.BatchPath(sha, ids, index));
    C.GeneratedPathIsAuditPath(sha, ids, index);
    C.GeneratedMeans(sha, ids, id, Ok(other));
    forall d | C.SpellsId(id, d) ensures SpellsLower(proof.leaf.value, sha([0] + d)) {
      C.SpelledIdIsValid(id, d);
      EncodedIsSpelled(sha([0] + d));
    }
  }

  method GenerateMerkleProof(sha: Hasher, credentialIds: seq<string>, credentialId: string)
    returns (r: Result<Proof, C.MerkleError>)
    ensures C.NormalizeId(credentialId).None? || !C.AllValid(credentialIds) ==> r == Err(C.InvalidCredentialId)
    ensures C.NormalizeId(credentialId).Some? && C.AllValid(credentialIds) ==>
      var target := C.NormalizeId(credentialId).value;
      var ids := C.Normalized(credentialIds);
      if target in ids then
        && r.Ok?
        && r.value.leaf == Some(C.HashLeaf(sha, target))
        && r.value.credentialId == Some(target)
        && r.value.root == C.BatchRoot(sha, credentialIds)
        && r.value.leafIndex.Some? && C.IsFirstIndexOf(target, ids, r.value.leafIndex.value)
        && r.value.leafCount == Some(|ids|)
        && r.value.siblings.Some? && r.value.path == r.value.siblings
        && EntriesSpell(r.value.siblings.value, C.BatchPath(sha, credentialIds, r.value.leafIndex.value))
      else r == Err(C.NotInBatch)
    ensures GeneratedFrom(sha, credentialIds, credentialId, r)
  {
    var normal := C.NormalizeId(credentialId);
    if normal.None? || !C.AllValid(credentialIds) {
      C.NotGeneratedMeans(sha, credentialIds, credentialId);
      return Err(C.InvalidCredentialId);
    }
    var target := normal.value;
    var normalized := C.Normalized(credentialIds);
    var found := C.IndexOf(normalized, target);
    if found.None? {
      C.GeneratedMeans(sha, credentialIds, credentialId, Err(C.NotInBatch));
      return Err(C.NotInBatch);
    }
    C.NormalizingTwice(normalized);
    assert C.DecodedIds(normalized) == C.DecodedIds(credentialIds);
    assert C.LeafHashes(sha, normalized) == C.LeafHashes(sha, credentialIds);
    var built := BuildMerkleTree(sha, normalized);
    var steps := LevelTree.CollectPath(C.NodeOf(sha), built.value.levels, found.value);
    var siblings := EntriesOf(steps);
    var proof := Proof(Some(C.HashLeaf(sha, target)), Some(target), Some(siblings), Some(siblings),
                       built.value.root, found, Some(|normalized|));
    GeneratedMeans(sha, credentialIds, credentialId, proof);
    r := Ok(proof);
  }

  /** One proof in the notations of both modules. */
  predicate SameProof(sha: Hasher, proof: Proof, other: C.MerkleProof) {
    && proof.credentialId == Some(other.credentialId)
    && proof.root == other.root
    && ChosenPath(proof).Some?
    && var path := ChosenPath(proof).value;
    && |path| == |other.path|
    && forall j :: 0 <= j < |path| ==>
      && path[j].hash == other.path[j].hash
      && path[j].position == other.path[j].position
      && (path[j].siblingOnLeft.Some? ==> path[j].siblingOnLeft.value == (path[j].position == C.Left))
  }

  /** The `leaf` field is missing, empty, or the hash of the credential ID. */
  predicate LeafIsOwnHash(sha: Hasher, proof: Proof)
    requires proof.credentialId.Some?
  {
    var id := C.NormalizeId(proof.credentialId.value);
    proof.leaf.None? || proof.leaf.value == "" || (id.Some? && proof.leaf.value == C.HashLeaf(sha, id.value))
  }

  /** Both verifiers give the same verdict. */
  lemma VerifiersAgree(sha: Hasher, proof: Proof, other: C.MerkleProof, root: Option<string>)
    requires SameProof(sha, proof, other) && LeafIsOwnHash(sha, proof)
    ensures Accepts(sha, proof, root) == C.Accepts(sha, other, root)
  {
    var path := ChosenPath(proof).value;
    assert StepsOf(path) == C.StepsOf(other.path);
    assert ValidPath(path) == C.ValidPath(other.path) by {
      assert forall j :: 0 <= j < |path| ==> path[j].hash == other.path[j].hash;
    }
  }

  /** A proof generated by this module verifies in both. */
  lemma GeneratedProofVerifiesInBoth(sha: Hasher, ids: seq<string>, index: nat, proof: Proof, other: C.MerkleProof)
    requires C.AllValid(ids) && index < |ids|
    requires proof.credentialId == Some(C.Normalized(ids)[index])
    requires proof.leaf == Some(C.HashLeaf(sha, C.Normalized(ids)[index]))
    requires proof.siblings.Some? && EntriesSpell(proof.siblings.value, C.BatchPath(sha, ids, index))
    requires other.credentialId == C.Normalized(ids)[index] && other.root == proof.root && other.index == index
    requires other.path == C.NodesOf(C.BatchPath(sha, ids, index))
    ensures Accepts(sha, proof, Some(C.BatchRoot(sha, ids)))
    ensures C.Accepts(sha, other, Some(C.BatchRoot(sha, ids)))
  {
    C.NormalIdIsFixed(C.Normalized(ids)[index]);
    assert SameProof(sha, proof, other);
    assert LeafIsOwnHash(sha, proof);
    C.ProofCompleteness(sha, ids, other);
    VerifiersAgree(sha, proof, other, Some(C.BatchRoot(sha, ids)));
  }
}
