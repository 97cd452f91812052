/**
 Batch operations (server/src/batch.js) over the credential file (server/src/storage.js). What goes wrong
 around each call into the store, a rollback's call included, and the clock are parameters.
 */
module Batch {
  import opened Wrappers

  datatype Credential = Credential(id: string, revoked: bool, revokedAt: Option<int>, expiresAt: int, body: string)

  /** An operation with the caller's own id; one whose payload is missing is malformed. */
  datatype Operation =
    | Issue(opId: Option<string>, credential: Credential)
    | Verify(opId: Option<string>, credentialId: string)
    | Revoke(opId: Option<string>, credentialId: string)
    | Unknown(opId: Option<string>, name: string)
    | Malformed(opId: Option<string>, name: string)

  function TypeOf(op: Operation): string {
    match op
    case Issue(_, _) => "issue"
    case Verify(_, _) => "verify"
    case Revoke(_, _) => "revoke"
    case Unknown(_, name) => name
    case Malformed(_, name) => name
  }

  datatype Code = CredentialAlreadyExists | NotFound | UnknownOperation | OperationFailed | BatchAborted

  datatype Verdict = Verified | MissingCredential | RevokedCredential | ExpiredCredential

  datatype Status =
    | Issued(credential: Credential)
    | Checked(verdict: Verdict)
    | Revoked(credential: Credential)
    | Failed(code: Code)
    | Skipped(code: Code)

  predicate Success(status: Status) {
    status.Issued? || status.Checked? || status.Revoked?
  }

  datatype OpResult = OpResult(id: Option<string>, kind: string, status: Status)

  /** What can go wrong around one call into the store: its read, its write, or an append after the write. */
  datatype Fault = NoFault | ReadFails | WriteFails | AppendFails

  /** One call into the store: what goes wrong, and the time in seconds. */
  datatype Moment = Moment(fault: Fault, now: int)

  /** What the outside does, by operation and by rollback. */
  datatype Env = Env(at: nat -> Moment, rollback: nat -> Moment)

  /** The new file gets written; a failed append comes after that. */
  predicate Writes(m: Moment) {
    m.fault.NoFault? || m.fault.AppendFails?
  }

  // ---- The credential file ----

  function Index(credentials: seq<Credential>, id: string): (r: Option<nat>)
    ensures r.Some? ==> r.value < |credentials| && credentials[r.value].id == id
    ensures r.None? ==> forall i :: 0 <= i < |credentials| ==> credentials[i].id != id
  {
    if credentials == [] then None
    else if credentials[0].id == id then Some(0)
    else
      var rest := Index(credentials[1..], id);
      if rest.Some? then Some(rest.value + 1) else None
  }

  function RevokeOne(c: Credential, id: string, now: int): Credential {
    if c.id == id then c.(revoked := true, revokedAt := Some(now)) else c
  }

  function RevokeIn(credentials: seq<Credential>, id: string, now: int): (r: seq<Credential>)
    ensures |r| == |credentials| && forall i :: 0 <= i < |r| ==> r[i] == RevokeOne(credentials[i], id, now)
  {
    seq(|credentials|, i requires 0 <= i < |credentials| => RevokeOne(credentials[i], id, now))
  }

  function VerdictOf(credentials: seq<Credential>, id: string, now: int): Verdict {
    var at := Index(credentials, id);
    if at.None? then MissingCredential
    else
      var c := credentials[at.value];
      if c.revoked then RevokedCredential
      else if c.expiresAt > 0 && c.expiresAt < now then ExpiredCredential
      else Verified
  }

  // ---- One operation ----

  /** The file after an operation: a failed append does not undo the write before it. */
  function FileAfter(credentials: seq<Credential>, op: Operation, m: Moment): seq<Credential> {
    match op
    case Issue(_, c) => if Index(credentials, c.id).None? && Writes(m) then credentials + [c] else credentials
    case Revoke(_, id) => if Writes(m) then RevokeIn(credentials, id, m.now) else credentials
    case _ => credentials
  }

  function StatusOf(credentials: seq<Credential>, op: Operation, m: Moment): Status {
    match op
    case Issue(_, c) =>
      if m.fault.ReadFails? then Failed(OperationFailed)
      else if Index(credentials, c.id).Some? then Failed(CredentialAlreadyExists)
      else if !m.fault.NoFault? then Failed(OperationFailed)
      else Issued(c)
    case Verify(_, id) =>
      if m.fault.ReadFails? then Failed(OperationFailed) else Checked(VerdictOf(credentials, id, m.now))
    case Revoke(_, id) =>
      var at := Index(credentials, id);
      if m.fault.ReadFails? then Failed(OperationFailed)
      else if at.None? then Failed(NotFound)
      else if !m.fault.NoFault? then Failed(OperationFailed)
      else Revoked(RevokeOne(credentials[at.value], id, m.now))
    case Unknown(_, _) => Failed(UnknownOperation)
    case Malformed(_, _) => Failed(OperationFailed)
  }

  // ---- What one operation comes to ----

  /** The place of the first record with this id. */
  predicate IsFirst(file: seq<Credential>, id: string, i: nat) {
    && i < |file| && file[i].id == id
    && forall j :: 0 <= j < i ==> file[j].id != id
  }

  predicate Unused(file: seq<Credential>, id: string) {
    forall i :: 0 <= i < |file| ==> file[i].id != id
  }

  /** What is said of the first record with this id: revoked before expired, and an expiry of zero is none. */
  predicate IsVerdict(file: seq<Credential>, id: string, now: int, verdict: Verdict) {
    && (verdict == MissingCredential <==> Unused(file, id))
    && forall i :: 0 <= i < |file| && IsFirst(file, id, i) ==>
      && (verdict == RevokedCredential <==> file[i].revoked)
      && (verdict == ExpiredCredential <==> !file[i].revoked && 0 < file[i].expiresAt < now)
      && (verdict == Verified <==> !file[i].revoked && !(0 < file[i].expiresAt < now))
  }

  /** Every record with this id is revoked at this time, and no other changes. */
  predicate IsMarked(file: seq<Credential>, id: string, now: int, after: seq<Credential>) {
    && |after| == |file|
    && forall i :: 0 <= i < |file| ==>
      after[i] == if file[i].id == id then file[i].(revoked := true, revokedAt := Some(now)) else file[i]
  }

  predicate IssueEnds(file: seq<Credential>, c: Credential, m: Moment, after: seq<Credential>, status: Status) {
    if m.fault.ReadFails? then after == file && status == Failed(OperationFailed)
    else if !Unused(file, c.id) then after == file && status == Failed(CredentialAlreadyExists)
    else
      match m.fault
      case NoFault => after == file + [c] && status == Issued(c)
      case AppendFails => after == file + [c] && status == Failed(OperationFailed)
      case _ => after == file && status == Failed(OperationFailed)
  }

  predicate RevokeEnds(file: seq<Credential>, id: string, m: Moment, after: seq<Credential>, status: Status) {
    if m.fault.ReadFails? then after == file && status == Failed(OperationFailed)
    else if Unused(file, id) then after == file && status == Failed(NotFound)
    else
      match m.fault
      case NoFault =>
        && IsMarked(file, id, m.now, after)
        && status.Revoked?
        && forall i :: 0 <= i < |after| && IsFirst(file, id, i) ==> status.credential == after[i]
      case AppendFails => IsMarked(file, id, m.now, after) && status == Failed(OperationFailed)
      case _ => after == file && status == Failed(OperationFailed)
  }

  /** The file and the status that an operation ends with. */
  predicate Ends(file: seq<Credential>, op: Operation, m: Moment, after: seq<Credential>, status: Status) {
    match op
    case Issue(_, c) => IssueEnds(file, c, m, after, status)
    case Verify(_, id) =>
      && after == file
      && if m.fault.ReadFails? then status == Failed(OperationFailed)
         else status.Checked? && IsVerdict(file, id, m.now, status.verdict)
    case Revoke(_, id) => RevokeEnds(file, id, m, after, status)
    case Unknown(_, _) => after == file && status == Failed(UnknownOperation)
    case Malformed(_, _) => after == file && status == Failed(OperationFailed)
  }

  lemma {:induction false} IndexIsFirst(file: seq<Credential>, id: string)
    ensures Index(file, id).None? <==> Unused(file, id)
    ensures Index(file, id).Some? ==> IsFirst(file, id, Index(file, id).value)
  {
    if file != [] && file[0].id != id {
      IndexIsFirst(file[1..], id);
    }
  }

  lemma FirstIsUnique(file: seq<Credential>, id: string, i: nat, j: nat)
    requires IsFirst(file, id, i) && IsFirst(file, id, j)
    ensures i <= j
  {
  }

  lemma FirstIsIndex(file: seq<Credential>, id: string, i: nat)
    requires IsFirst(file, id, i)
    ensures Index(file, id) == Some(i)
  {
    IndexIsFirst(file, id);
    FirstIsUnique(file, id, i, Index(file, id).value);
    FirstIsUnique(file, id, Index(file, id).value, i);
  }

  lemma OperationEnds(file: seq<Credential>, op: Operation, m: Moment, after: seq<Credential>, status: Status)
    requires after == FileAfter(file, op, m) && status == StatusOf(file, op, m)
    ensures Ends(file, op, m, after, status)
  {
    match op
    case Issue(_, c) => IndexIsFirst(file, c.id);
    case Verify(_, id) =>
      IndexIsFirst(file, id);
      forall i | 0 <= i < |file| && IsFirst(file, id, i) ensures Index(file, id) == Some(i) {
        FirstIsIndex(file, id, i);
      }
    case Revoke(_, id) =>
      IndexIsFirst(file, id);
      forall i | 0 <= i < |file| && IsFirst(file, id, i) ensures Index(file, id) == Some(i) {
        FirstIsIndex(file, id, i);
      }
      if Unused(file, id) {
        assert RevokeIn(file, id, m.now) == file;
      }
    case _ =>
  }

  class CredentialStore {
    var credentials: seq<Credential>

    constructor (credentials: seq<Credential>)
      ensures this.credentials == credentials
    {
      this.credentials := credentials;
    }

    /** None is an exception; otherwise whether the id was free. */
    method CreateAndPersist(c: Credential, m: Moment) returns (created: Option<bool>)
      modifies this
      ensures
        var free := forall i :: 0 <= i < |old(credentials)| ==> old(credentials)[i].id != c.id;
        && credentials
           == (if free && m.fault in {NoFault, AppendFails} then old(credentials) + [c] else old(credentials))
        && created == if m.fault.ReadFails? || (free && !m.fault.NoFault?) then None else Some(free)
    {
      if m.fault.ReadFails? {
        return None;
      }
      if Index(credentials, c.id).Some? {
        return Some(false);
      }
      if m.fault.WriteFails? {
        return None;
      }
      credentials := credentials + [c];
      created := if m.fault.AppendFails? then None else Some(true);
    }

    /** Marks every record with this id and returns the first; None is an exception, Some(None) an unknown id. */
    method RevokeAndPersist(id: string, m: Moment) returns (revoked: Option<Option<Credential>>)
      modifies this
      ensures credentials == if Writes(m) then RevokeIn(old(credentials), id, m.now) else old(credentials)
      ensures m.fault in {NoFault, AppendFails} ==> IsMarked(old(credentials), id, m.now, credentials)
      ensures m.fault !in {NoFault, AppendFails} ==> credentials == old(credentials)
      ensures
        var known := exists i :: 0 <= i < |old(credentials)| && old(credentials)[i].id == id;
        && (revoked == None <==> m.fault.ReadFails? || (known && !m.fault.NoFault?))
        && (revoked == Some(None) <==> !m.fault.ReadFails? && !known)
      ensures revoked.Some? && revoked.value.Some? ==>
        && revoked.value.value.id == id && revoked.value.value.revoked && revoked.value.value.revokedAt == Some(m.now)
        && exists i :: 0 <= i < |credentials| && IsFirst(old(credentials), id, i)
                         && revoked.value.value == credentials[i]
    {
      IndexIsFirst(credentials, id);
      if m.fault.ReadFails? {
        return None;
      }
      var index := Index(credentials, id);
      if index.None? {
        assert RevokeIn(credentials, id, m.now) == credentials;
        return Some(None);
      }
      if m.fault.WriteFails? {
        return None;
      }
      credentials := RevokeIn(credentials, id, m.now);
      revoked := if m.fault.AppendFails? then None else Some(Some(credentials[index.value]));
    }

    method ExecuteOperation(op: Operation, m: Moment) returns (status: Status)
      modifies this
      ensures credentials == FileAfter(old(credentials), op, m)
      ensures status == StatusOf(old(credentials), op, m)
      ensures Ends(old(credentials), op, m, credentials, status)
    {
      OperationEnds(credentials, op, m, FileAfter(credentials, op, m), StatusOf(credentials, op, m));
      match op
      case Issue(_, c) =>
        var created := CreateAndPersist(c, m);
        status :=
          if created.None? then Failed(OperationFailed)
          else if !created.value then Failed(CredentialAlreadyExists)
          else Issued(c);
      case Verify(_, id) =>
        status := if m.fault.ReadFails? then Failed(OperationFailed) else Checked(VerdictOf(credentials, id, m.now));
      case Revoke(_, id) =>
        var revoked := RevokeAndPersist(id, m);
        status :=
          if revoked.None? then Failed(OperationFailed)
          else if revoked.value.None? then Failed(NotFound)
          else Revoked(revoked.value.value);
      case Unknown(_, _) =>
        status := Failed(UnknownOperation);
      case Malformed(_, _) =>
        status := Failed(OperationFailed);
    }

    /** Revokes what the batch issued; a rollback that throws is logged and the rest still run. */
    method RollBack(issued: seq<string>, rollback: nat -> Moment)
      modifies this
      ensures credentials == RolledBack(old(credentials), issued, rollback)
    {
      for j := 0 to |issued|
        invariant credentials == RolledBack(old(credentials), issued[..j], rollback)
      {
        assert issued[..j + 1][..j] == issued[..j];
        var _ := RevokeAndPersist(issued[j], rollback(j));
      }
      assert issued[..|issued|] == issued;
    }

    method ExecuteBatch(operations: seq<Operation>, atomic: bool, env: Env)
      returns (results: seq<OpResult>, succeeded: nat, failed: int, aborted: bool)
      modifies this
      ensures
        var end := After(old(credentials), operations, atomic, env, |operations|);
        credentials == end.file && results == end.results && aborted == end.aborted
      ensures succeeded == Successes(results) && failed == |operations| - succeeded
      ensures succeeded == |SuccessPlaces(results)|
      ensures exists states: seq<State> ::
        && IsBatch(old(credentials), operations, atomic, env, states)
        && credentials == states[|operations|].file
        && results == states[|operations|].results && aborted == states[|operations|].aborted
    {
      results, aborted := [], false;
      var issuedInThisBatch := [];
      for k := 0 to |operations|
        invariant State(credentials, results, issuedInThisBatch, aborted)
               == After(old(credentials), operations, atomic, env, k)
      {
        var op := operations[k];
        if aborted {
          results := results + [OpResult(op.opId, TypeOf(op), Skipped(BatchAborted))];
          continue;
        }
        var status := ExecuteOperation(op, env.at(k));
        results := results + [OpResult(op.opId, TypeOf(op), status)];
        if Success(status) {
          if op.Issue? {
            issuedInThisBatch := issuedInThisBatch + [op.credential.id];
          }
        } else if atomic {
          aborted := true;
          RollBack(issuedInThisBatch, env.rollback);
        }
      }
      succeeded := CountSuccesses(results);
      ShapeAfter(old(credentials), operations, atomic, env, |operations|);
      failed := |operations| - succeeded;
      ghost var _ := BatchIs(old(credentials), operations, atomic, env);
    }
  }

  // ---- The specification: the batch as a fold ----

  function RolledBack(file: seq<Credential>, issued: seq<string>, rollback: nat -> Moment): (r: seq<Credential>)
    ensures |r| == |file|
  {
    if issued == [] then file
    else
      var j := |issued| - 1;
      var before := RolledBack(file, issued[..j], rollback);
      if Writes(rollback(j)) then RevokeIn(before, issued[j], rollback(j).now) else before
  }

  datatype State = State(file: seq<Credential>, results: seq<OpResult>, issued: seq<string>, aborted: bool)

  function StepOp(s: State, op: Operation, atomic: bool, env: Env, k: nat): State {
    if s.aborted then s.(results := s.results + [OpResult(op.opId, TypeOf(op), Skipped(BatchAborted))])
    else
      var status := StatusOf(s.file, op, env.at(k));
      var results := s.results + [OpResult(op.opId, TypeOf(op), status)];
      var file := FileAfter(s.file, op, env.at(k));
      if Success(status) then State(file, results, if op.Issue? then s.issued + [op.credential.id] else s.issued, false)
      else if atomic then State(RolledBack(file, s.issued, env.rollback), results, s.issued, true)
      else State(file, results, s.issued, false)
  }

  /** The state after the first k operations. */
  function After(file: seq<Credential>, ops: seq<Operation>, atomic: bool, env: Env, k: nat): State
    requires k <= |ops|
  {
    if k == 0 then State(file, [], [], false)
    else StepOp(After(file, ops, atomic, env, k - 1), ops[k - 1], atomic, env, k - 1)
  }

  function Successes(results: seq<OpResult>): nat {
    if results == [] then 0
    else Successes(results[..|results| - 1]) + if Success(results[|results| - 1].status) then 1 else 0
  }

  /** The places of the results that are neither a failure nor a skip. */
  function SuccessPlaces(results: seq<OpResult>): set<int> {
    set i | 0 <= i < |results| && !results[i].status.Failed? && !results[i].status.Skipped?
  }

  method CountSuccesses(results: seq<OpResult>) returns (succeeded: nat)
    ensures succeeded == Successes(results) == |SuccessPlaces(results)|
  {
    succeeded := 0;
    for k := 0 to |results|
      invariant succeeded == Successes(results[..k])
    {
      assert results[..k + 1][..k] == results[..k];
      if Success(results[k].status) {
        succeeded := succeeded + 1;
      }
    }
    assert results[..|results|] == results;
    SuccessesAre(results, SuccessPlaces(results));
  }

  lemma {:induction false} SuccessesAre(results: seq<OpResult>, places: set<int>)
    requires forall i :: i in places <==>
      0 <= i < |results| && !results[i].status.Failed? && !results[i].status.Skipped?
    ensures Successes(results) == |places|
  {
    if results == [] {
      assert forall i :: i !in places;
    } else {
      SuccessesAre(results[..|results| - 1], places - {|results| - 1});
    }
  }

  // ---- What one step of the batch comes to ----

  /** The last rollback written for this id, if any was. */
  predicate LastWritten(issued: seq<string>, rollback: nat -> Moment, id: string, j: nat) {
    && j < |issued| && issued[j] == id && rollback(j).fault in {NoFault, AppendFails}
    && forall k :: j < k < |issued| && issued[k] == id ==> rollback(k).fault in {ReadFails, WriteFails}
  }

  predicate NoneWritten(issued: seq<string>, rollback: nat -> Moment, id: string) {
    forall k :: 0 <= k < |issued| && issued[k] == id ==> rollback(k).fault in {ReadFails, WriteFails}
  }

  /** A record is marked by the last written rollback of its id, and unchanged if there was none. */
  predicate IsRolledBack(
    file: seq<Credential>, issued: seq<string>, rollback: nat -> Moment, after: seq<Credential>, i: nat)
  {
    && |after| == |file| && i < |file|
    && (NoneWritten(issued, rollback, file[i].id) ==> after[i] == file[i])
    && forall j :: 0 <= j < |issued| && LastWritten(issued, rollback, file[i].id, j) ==>
      after[i] == file[i].(revoked := true, revokedAt := Some(rollback(j).now))
  }

  lemma {:induction false} RolledBackIs(file: seq<Credential>, issued: seq<string>, rollback: nat -> Moment, i: nat)
    requires i < |file|
    ensures IsRolledBack(file, issued, rollback, RolledBack(file, issued, rollback), i)
  {
    if issued != [] {
      var n, id := |issued| - 1, file[i].id;
      RolledBackIs(file, issued[..n], rollback, i);
      assert NoneWritten(issued, rollback, id) ==> NoneWritten(issued[..n], rollback, id);
      forall j | 0 <= j < n && LastWritten(issued, rollback, id, j)
        ensures LastWritten(issued[..n], rollback, id, j)
      {
      }
      RolledBackIdsStay(file, issued[..n], rollback, i);
    }
  }

  lemma {:induction false} RolledBackIdsStay(
    file: seq<Credential>, issued: seq<string>, rollback: nat -> Moment, i: nat)
    requires i < |file|
    ensures
      var after := RolledBack(file, issued, rollback);
      |after| == |file| && after[i] == file[i].(revoked := after[i].revoked, revokedAt := after[i].revokedAt)
      && (after[i] == file[i] || after[i].revoked)
  {
    if issued != [] {
      RolledBackIdsStay(file, issued[..|issued| - 1], rollback, i);
    }
  }

  /** An operation after the abort is skipped; any other ends as it does alone, and a failure may abort the batch. */
  predicate StepEnds(was: State, op: Operation, atomic: bool, env: Env, k: nat, next: State,
    written: seq<Credential>, status: Status)
  {
    && next.results == was.results + [OpResult(op.opId, TypeOf(op), status)]
    && if was.aborted then next == was.(results := next.results) && status == Skipped(BatchAborted)
       else
         && Ends(was.file, op, env.at(k), written, status)
         && next.aborted == (atomic && status.Failed?)
         && next.issued == was.issued + (if status.Issued? then [status.credential.id] else [])
         && (!next.aborted ==> next.file == written)
         && (next.aborted ==> |next.file| == |written| && forall i :: 0 <= i < |written| ==>
               IsRolledBack(written, was.issued, env.rollback, next.file, i))
  }

  lemma StepIsEnded(was: State, op: Operation, atomic: bool, env: Env, k: nat, next: State)
    returns (written: seq<Credential>, status: Status)
    requires next == StepOp(was, op, atomic, env, k)
    ensures StepEnds(was, op, atomic, env, k, next, written, status)
  {
    if was.aborted {
      written, status := was.file, Skipped(BatchAborted);
    } else {
      written, status := FileAfter(was.file, op, env.at(k)), StatusOf(was.file, op, env.at(k));
      OperationEnds(was.file, op, env.at(k), written, status);
      forall i | 0 <= i < |written|
        ensures IsRolledBack(written, was.issued, env.rollback, RolledBack(written, was.issued, env.rollback), i)
      {
        RolledBackIs(written, was.issued, env.rollback, i);
      }
    }
  }

  ghost predicate StepsTo(was: State, op: Operation, atomic: bool, env: Env, k: nat, next: State) {
    exists written, status :: StepEnds(was, op, atomic, env, k, next, written, status)
  }

  /** So it is of every operation of a batch, which begins with no results. */
  ghost predicate IsBatch(file: seq<Credential>, ops: seq<Operation>, atomic: bool, env: Env, states: seq<State>) {
    && |states| == |ops| + 1
    && states[0] == State(file, [], [], false)
    && forall k :: 0 <= k < |ops| ==> StepsTo(states[k], ops[k], atomic, env, k, states[k + 1])
  }

  lemma BatchIs(file: seq<Credential>, ops: seq<Operation>, atomic: bool, env: Env) returns (states: seq<State>)
    ensures IsBatch(file, ops, atomic, env, states) && states[|ops|] == After(file, ops, atomic, env, |ops|)
  {
    states := seq(|ops| + 1, k requires 0 <= k <= |ops| => After(file, ops, atomic, env, k));
    forall k | 0 <= k < |ops| ensures StepsTo(states[k], ops[k], atomic, env, k, states[k + 1]) {
      AfterStep(file, ops, atomic, env, k + 1);
      var _, _ := StepIsEnded(states[k], ops[k], atomic, env, k, states[k + 1]);
    }
  }

  // ---- The shape of the results ----

  /** Successes, one failure, then only skips. */
  predicate AbortedAt(results: seq<OpResult>, f: nat) {
    && f < |results|
    && (forall i :: 0 <= i < f ==> Success(results[i].status))
    && results[f].status.Failed?
    && (forall i :: f < i < |results| ==> results[i].status == Skipped(BatchAborted))
  }

  predicate NoneSkipped(results: seq<OpResult>) {
    forall i :: 0 <= i < |results| ==> !results[i].status.Skipped?
  }

  predicate MatchesOps(results: seq<OpResult>, ops: seq<Operation>) {
    && |results| <= |ops|
    && forall i :: 0 <= i < |results| ==> results[i].id == ops[i].opId && results[i].kind == TypeOf(ops[i])
  }

  ghost predicate HasShape(s: State, ops: seq<Operation>, atomic: bool, k: nat) {
    && |s.results| == k && MatchesOps(s.results, ops)
    && (s.aborted ==> atomic && exists f :: AbortedAt(s.results, f))
    && (!s.aborted ==> NoneSkipped(s.results))
    && (!s.aborted && atomic ==> forall i :: 0 <= i < k ==> Success(s.results[i].status))
  }

  /** One more result keeps the shape, whatever it is, if it fits the flags before and after. */
  lemma ResultKeepsShape(s: State, next: State, ops: seq<Operation>, atomic: bool, k: nat, r: OpResult)
    requires k < |ops| && HasShape(s, ops, atomic, k)
    requires next.results == s.results + [r] && r.id == ops[k].opId && r.kind == TypeOf(ops[k])
    requires s.aborted ==> next.aborted && r.status == Skipped(BatchAborted)
    requires !s.aborted ==> !r.status.Skipped? && (next.aborted <==> atomic && r.status.Failed?)
    ensures HasShape(next, ops, atomic, k + 1)
  {
    if s.aborted {
      var f :| AbortedAt(s.results, f);
      assert AbortedAt(next.results, f);
    } else if next.aborted {
      assert AbortedAt(next.results, k);
    }
  }

  /** One result for each operation, in order; skips follow a failure of an atomic batch and nothing else does. */
  lemma {:induction false} ShapeAfter(file: seq<Credential>, ops: seq<Operation>, atomic: bool, env: Env, k: nat)
    requires k <= |ops|
    ensures HasShape(After(file, ops, atomic, env, k), ops, atomic, k)
  {
    if k > 0 {
      ShapeAfter(file, ops, atomic, env, k - 1);
      var was, op := After(file, ops, atomic, env, k - 1), ops[k - 1];
      var status := if was.aborted then Skipped(BatchAborted) else StatusOf(was.file, op, env.at(k - 1));
      var next := After(file, ops, atomic, env, k);
      assert next == StepOp(was, op, atomic, env, k - 1);
      ResultKeepsShape(was, next, ops, atomic, k - 1, OpResult(op.opId, TypeOf(op), status));
    }
  }

  /** A batch aborts exactly when it is atomic and an operation fails. */
  lemma AbortsIff(file: seq<Credential>, ops: seq<Operation>, atomic: bool, env: Env)
    ensures
      var s := After(file, ops, atomic, env, |ops|);
      s.aborted <==> atomic && exists i :: 0 <= i < |s.results| && s.results[i].status.Failed?
  {
    ShapeAfter(file, ops, atomic, env, |ops|);
    var s := After(file, ops, atomic, env, |ops|);
    if s.aborted {
      var f :| AbortedAt(s.results, f);
    }
  }

  /** Operations after the abort leave the file as the rollback left it. */
  lemma {:induction false} SkipsTouchNothing(
    file: seq<Credential>, ops: seq<Operation>, atomic: bool, env: Env, k: nat, end: nat)
    requires k <= end <= |ops| && After(file, ops, atomic, env, k).aborted
    ensures After(file, ops, atomic, env, end).file == After(file, ops, atomic, env, k).file
    ensures After(file, ops, atomic, env, end).aborted
    decreases end
  {
    if k < end {
      SkipsTouchNothing(file, ops, atomic, env, k, end - 1);
    }
  }

  // ---- Records the batch does not name ----

  /** The record an operation writes to. */
  function NameOf(op: Operation): Option<string> {
    match op
    case Issue(_, c) => Some(c.id)
    case Revoke(_, id) => Some(id)
    case _ => None
  }

  /** The records with none of these ids, in file order. */
  function Others(file: seq<Credential>, ids: set<string>): seq<Credential> {
    if file == [] then []
    else
      var last := file[|file| - 1];
      Others(file[..|file| - 1], ids) + if last.id in ids then [] else [last]
  }

  lemma {:induction false} RevokeKeepsOthers(file: seq<Credential>, id: string, now: int, ids: set<string>)
    requires id in ids
    ensures Others(RevokeIn(file, id, now), ids) == Others(file, ids)
  {
    if file != [] {
      var n := |file| - 1;
      RevokeKeepsOthers(file[..n], id, now, ids);
      assert RevokeIn(file, id, now)[..n] == RevokeIn(file[..n], id, now);
    }
  }

  lemma FileAfterKeepsOthers(file: seq<Credential>, op: Operation, m: Moment, ids: set<string>)
    requires NameOf(op).Some? ==> NameOf(op).value in ids
    ensures Others(FileAfter(file, op, m), ids) == Others(file, ids)
  {
    match op
    case Issue(_, c) => assert (file + [c])[..|file|] == file;
    case Revoke(_, id) => RevokeKeepsOthers(file, id, m.now, ids);
    case _ =>
  }

  predicate AllIn(issued: seq<string>, ids: set<string>) {
    forall j :: 0 <= j < |issued| ==> issued[j] in ids
  }

  lemma {:induction false} RollbackKeepsOthers(
    file: seq<Credential>, issued: seq<string>, rollback: nat -> Moment, ids: set<string>)
    requires AllIn(issued, ids)
    ensures Others(RolledBack(file, issued, rollback), ids) == Others(file, ids)
  {
    if issued != [] {
      var j := |issued| - 1;
      RollbackKeepsOthers(file, issued[..j], rollback, ids);
      RevokeKeepsOthers(RolledBack(file, issued[..j], rollback), issued[j], rollback(j).now, ids);
    }
  }

  /** What one step makes of the file and of the issued list. */
  lemma StepCases(was: State, op: Operation, atomic: bool, env: Env, k: nat)
    ensures
      var next, written := StepOp(was, op, atomic, env, k), FileAfter(was.file, op, env.at(k));
      && (was.aborted ==> next.file == was.file && next.issued == was.issued)
      && (!was.aborted ==> next.file == written || next.file == RolledBack(written, was.issued, env.rollback))
      && (next.issued == was.issued || (!was.aborted && op.Issue? && next.issued == was.issued + [op.credential.id]))
  {
  }

  lemma StepKeepsOthers(
    was: State, op: Operation, m: Moment, rollback: nat -> Moment, ids: set<string>, next: State)
    requires NameOf(op).Some? ==> NameOf(op).value in ids
    requires AllIn(was.issued, ids)
    requires
      var written := FileAfter(was.file, op, m);
      next.file == written || next.file == RolledBack(written, was.issued, rollback)
    ensures Others(next.file, ids) == Others(was.file, ids)
  {
    FileAfterKeepsOthers(was.file, op, m, ids);
    RollbackKeepsOthers(FileAfter(was.file, op, m), was.issued, rollback, ids);
  }

  /** Every executed operation that writes names one of these ids. */
  predicate NamesWithin(ops: seq<Operation>, results: seq<OpResult>, ids: set<string>)
    requires |results| <= |ops|
  {
    forall i :: 0 <= i < |results| && !results[i].status.Skipped? && NameOf(ops[i]).Some? ==>
      NameOf(ops[i]).value in ids
  }

  lemma StepResults(was: State, op: Operation, atomic: bool, env: Env, k: nat)
    ensures
      var next := StepOp(was, op, atomic, env, k);
      && |next.results| == |was.results| + 1 && was.results <= next.results
      && (next.results[|was.results|].status.Skipped? <==> was.aborted)
  {
  }

  lemma StepNames(was: State, ops: seq<Operation>, atomic: bool, env: Env, k: nat, ids: set<string>, next: State)
    requires k < |ops| && |was.results| == k && next == StepOp(was, ops[k], atomic, env, k)
    requires |next.results| <= |ops| && NamesWithin(ops, next.results, ids)
    ensures NamesWithin(ops, was.results, ids)
    ensures !was.aborted && NameOf(ops[k]).Some? ==> NameOf(ops[k]).value in ids
  {
    StepResults(was, ops[k], atomic, env, k);
    NamesShorter(ops, was.results, next.results, ids);
  }

  lemma StepUnnamed(
    was: State, ops: seq<Operation>, atomic: bool, env: Env, k: nat, ids: set<string>, next: State)
    requires k < |ops| && next == StepOp(was, ops[k], atomic, env, k)
    requires !was.aborted && NameOf(ops[k]).Some? ==> NameOf(ops[k]).value in ids
    requires AllIn(was.issued, ids)
    ensures Others(next.file, ids) == Others(was.file, ids) && AllIn(next.issued, ids)
  {
    StepCases(was, ops[k], atomic, env, k);
    if !was.aborted {
      StepKeepsOthers(was, ops[k], env.at(k), env.rollback, ids, next);
    }
  }

  /** One more operation keeps the unnamed records, if the ones before it did. */
  lemma OneMoreUnnamed(
    file: seq<Credential>, was: State, ops: seq<Operation>, atomic: bool, env: Env, k: nat, ids: set<string>,
    next: State)
    requires k < |ops| && next == StepOp(was, ops[k], atomic, env, k)
    requires !was.aborted && NameOf(ops[k]).Some? ==> NameOf(ops[k]).value in ids
    requires Others(was.file, ids) == Others(file, ids) && AllIn(was.issued, ids)
    ensures Others(next.file, ids) == Others(file, ids) && AllIn(next.issued, ids)
  {
    StepUnnamed(was, ops, atomic, env, k, ids, next);
  }

  /** Whatever fails, records that no executed operation named keep their values and their order. */
  lemma {:induction false} UnnamedUnchanged(
    file: seq<Credential>, ops: seq<Operation>, atomic: bool, env: Env, k: nat, ids: set<string>)
    requires k <= |ops| && |After(file, ops, atomic, env, k).results| == k
    requires NamesWithin(ops, After(file, ops, atomic, env, k).results, ids)
    ensures Others(After(file, ops, atomic, env, k).file, ids) == Others(file, ids)
    ensures AllIn(After(file, ops, atomic, env, k).issued, ids)
  {
    if k > 0 {
      var n := k - 1;
      var was, next := After(file, ops, atomic, env, n), After(file, ops, atomic, env, k);
      AfterStep(file, ops, atomic, env, k);
      StepResults(was, ops[n], atomic, env, n);
      StepNames(was, ops, atomic, env, n, ids, next);
      UnnamedUnchanged(file, ops, atomic, env, n, ids);
      OneMoreUnnamed(file, was, ops, atomic, env, n, ids, next);
    }
  }

  lemma AfterStep(file: seq<Credential>, ops: seq<Operation>, atomic: bool, env: Env, k: nat)
    requires 0 < k <= |ops|
    ensures After(file, ops, atomic, env, k)
         == StepOp(After(file, ops, atomic, env, k - 1), ops[k - 1], atomic, env, k - 1)
  {
  }

  lemma NamesShorter(ops: seq<Operation>, front: seq<OpResult>, results: seq<OpResult>, ids: set<string>)
    requires |results| <= |ops| && front <= results && NamesWithin(ops, results, ids)
    ensures NamesWithin(ops, front, ids)
  {
    assert forall i :: 0 <= i < |front| ==> front[i] == results[i];
  }

  // ---- Compensation ----

  /** When every rollback is written, exactly the issued ids are marked. */
  lemma {:induction false} RollbackMarksIssued(file: seq<Credential>, issued: seq<string>, rollback: nat -> Moment)
    requires forall j :: Writes(rollback(j))
    ensures
      var after := RolledBack(file, issued, rollback);
      |after| == |file| && forall i :: 0 <= i < |file| ==>
        && after[i].id == file[i].id
        && (file[i].id in issued ==> after[i].revoked)
        && (file[i].id !in issued ==> after[i] == file[i])
  {
    if issued != [] {
      var j := |issued| - 1;
      RollbackMarksIssued(file, issued[..j], rollback);
      assert issued == issued[..j] + [issued[j]];
    }
  }

  predicate Has(file: seq<Credential>, id: string) {
    Index(file, id).Some?
  }

  lemma FileAfterKeepsIds(file: seq<Credential>, op: Operation, m: Moment, id: string)
    requires Has(file, id)
    ensures Has(FileAfter(file, op, m), id)
  {
    var i := Index(file, id).value;
    assert FileAfter(file, op, m)[i].id == id;
  }

  /** The issued list holds the id of every successful issue so far, and only ids in the file. */
  predicate ListsIssues(s: State, ops: seq<Operation>, k: nat) {
    && |s.results| == k <= |ops|
    && (forall i :: 0 <= i < k && ops[i].Issue? && Success(s.results[i].status) ==> ops[i].credential.id in s.issued)
    && (forall id :: id in s.issued ==> Has(s.file, id))
  }

  lemma IssuedStep(was: State, ops: seq<Operation>, atomic: bool, env: Env, k: nat, next: State)
    requires k < |ops| && ListsIssues(was, ops, k)
    requires next == StepOp(was, ops[k], atomic, env, k) && !next.aborted
    ensures ListsIssues(next, ops, k + 1)
  {
    var op := ops[k];
    forall id | id in next.issued ensures Has(next.file, id) {
      if id in was.issued {
        FileAfterKeepsIds(was.file, op, env.at(k), id);
      } else {
        assert next.file[|next.file| - 1].id == id;
      }
    }
  }

  /** So it is until an abort. */
  lemma {:induction false} IssuedList(file: seq<Credential>, ops: seq<Operation>, atomic: bool, env: Env, k: nat)
    requires k <= |ops| && !After(file, ops, atomic, env, k).aborted
    ensures ListsIssues(After(file, ops, atomic, env, k), ops, k)
  {
    if k > 0 {
      var was, next := After(file, ops, atomic, env, k - 1), After(file, ops, atomic, env, k);
      AfterStep(file, ops, atomic, env, k);
      assert !was.aborted;
      IssuedList(file, ops, atomic, env, k - 1);
      IssuedStep(was, ops, atomic, env, k - 1, next);
    }
  }

  predicate AllRevoked(file: seq<Credential>, id: string) {
    Has(file, id) && forall i :: 0 <= i < |file| && file[i].id == id ==> file[i].revoked
  }

  /** The operation writes a new record. */
  predicate Creates(file: seq<Credential>, op: Operation, m: Moment) {
    op.Issue? && !Has(file, op.credential.id) && Writes(m)
  }

  /** The abort itself: the file after operation f and the rollback. */
  lemma AbortFile(file: seq<Credential>, ops: seq<Operation>, env: Env, f: nat)
    requires f < |ops| && AbortedAt(After(file, ops, true, env, |ops|).results, f)
    ensures
      var was := After(file, ops, true, env, f);
      && !was.aborted
      && After(file, ops, true, env, |ops|).file
         == RolledBack(FileAfter(was.file, ops[f], env.at(f)), was.issued, env.rollback)
      && |was.results| == f && (forall i :: 0 <= i < f ==> Success(was.results[i].status))
      && |After(file, ops, true, env, f + 1).results| == f + 1
      && After(file, ops, true, env, f + 1).results[f].status.Failed?
  {
    PrefixOfResults(file, ops, env, f, |ops|);
    PrefixOfResults(file, ops, env, f + 1, |ops|);
    ResultsLength(file, ops, env, f);
    ResultsLength(file, ops, env, f + 1);
    ShapeAfter(file, ops, true, env, f);
    ShapeAfter(file, ops, true, env, f + 1);
    var was, next := After(file, ops, true, env, f), After(file, ops, true, env, f + 1);
    assert next == StepOp(was, ops[f], true, env, f);
    SkipsTouchNothing(file, ops, true, env, f + 1, |ops|);
  }

  lemma {:induction false} PrefixOfResults(file: seq<Credential>, ops: seq<Operation>, env: Env, k: nat, end: nat)
    requires k <= end <= |ops|
    ensures After(file, ops, true, env, k).results <= After(file, ops, true, env, end).results
    decreases end
  {
    if k < end {
      PrefixOfResults(file, ops, env, k, end - 1);
      var was := After(file, ops, true, env, end - 1);
      AfterStep(file, ops, true, env, end);
      StepResults(was, ops[end - 1], true, env, end - 1);
      PrefixLonger(After(file, ops, true, env, k).results, was.results, After(file, ops, true, env, end).results);
    }
  }

  lemma {:induction false} ResultsLength(file: seq<Credential>, ops: seq<Operation>, env: Env, k: nat)
    requires k <= |ops|
    ensures |After(file, ops, true, env, k).results| == k
  {
    if k > 0 {
      ResultsLength(file, ops, env, k - 1);
    }
  }

  lemma PrefixLonger(a: seq<OpResult>, b: seq<OpResult>, c: seq<OpResult>)
    requires a <= b <= c
    ensures a <= c
  {
  }

  /** With rollbacks written, every credential that an aborted batch reported as issued ends up revoked. */
  lemma IssuedAreRevoked(file: seq<Credential>, ops: seq<Operation>, env: Env, f: nat, i: nat)
    requires f < |ops| && AbortedAt(After(file, ops, true, env, |ops|).results, f)
    requires forall j :: Writes(env.rollback(j))
    requires i < f && ops[i].Issue?
    ensures AllRevoked(After(file, ops, true, env, |ops|).file, ops[i].credential.id)
  {
    var was := After(file, ops, true, env, f);
    var id, written := ops[i].credential.id, FileAfter(was.file, ops[f], env.at(f));
    AbortFile(file, ops, env, f);
    IssuedList(file, ops, true, env, f);
    FileAfterKeepsIds(was.file, ops[f], env.at(f), id);
    RollbackMarksIssued(written, was.issued, env.rollback);
    assert RolledBack(written, was.issued, env.rollback)[Index(written, id).value].id == id;
  }

  /** Operation i of an atomic batch writes a new record, if it is executed. */
  predicate CreatesAt(file: seq<Credential>, ops: seq<Operation>, env: Env, i: nat)
    requires i < |ops|
  {
    Creates(After(file, ops, true, env, i).file, ops[i], env.at(i))
  }

  /** A record written by the failing operation is the last one, and no rollback touches it. */
  lemma LastRecordStays(file: seq<Credential>, ops: seq<Operation>, env: Env, f: nat)
    requires f < |ops| && AbortedAt(After(file, ops, true, env, |ops|).results, f)
    requires forall j :: Writes(env.rollback(j))
    requires CreatesAt(file, ops, env, f)
    ensures AllRevoked(After(file, ops, true, env, |ops|).file, ops[f].credential.id) <==> ops[f].credential.revoked
  {
    var was, end := After(file, ops, true, env, f), After(file, ops, true, env, |ops|).file;
    var c, written := ops[f].credential, FileAfter(was.file, ops[f], env.at(f));
    AbortFile(file, ops, env, f);
    IssuedList(file, ops, true, env, f);
    RollbackMarksIssued(written, was.issued, env.rollback);
    assert written == was.file + [c] && c.id !in was.issued;
    assert end[|was.file|] == c;
    assert forall i :: 0 <= i < |was.file| ==> end[i].id == was.file[i].id != c.id;
  }

  /**
   The failing operation's own record is the gap: with rollbacks written, everything the batch created is
   revoked exactly when the operation that failed is not an issue whose record was written before it failed.
   */
  lemma CompensatedIff(file: seq<Credential>, ops: seq<Operation>, env: Env, f: nat, end: seq<Credential>)
    requires f < |ops| && AbortedAt(After(file, ops, true, env, |ops|).results, f)
    requires end == After(file, ops, true, env, |ops|).file
    requires forall j :: Writes(env.rollback(j))
    ensures
      (forall i :: 0 <= i <= f && CreatesAt(file, ops, env, i) ==> AllRevoked(end, ops[i].credential.id))
      <==>
      !(CreatesAt(file, ops, env, f) && !ops[f].credential.revoked)
  {
    forall i | 0 <= i < f && CreatesAt(file, ops, env, i)
      ensures AllRevoked(end, ops[i].credential.id)
    {
      IssuedAreRevoked(file, ops, env, f, i);
    }
    if CreatesAt(file, ops, env, f) {
      LastRecordStays(file, ops, env, f);
    }
  }

  /** A failed append is the only way into that gap: a failing issue that wrote its record had its append fail. */
  lemma GapNeedsFailedAppend(file: seq<Credential>, ops: seq<Operation>, env: Env, f: nat)
    requires f < |ops| && AbortedAt(After(file, ops, true, env, |ops|).results, f)
    requires CreatesAt(file, ops, env, f)
    ensures env.at(f).fault.AppendFails?
  {
    AbortFile(file, ops, env, f);
    AfterStep(file, ops, true, env, f + 1);
    FailedCreation(After(file, ops, true, env, f), ops[f], env, f, After(file, ops, true, env, f + 1));
  }

  lemma FailedCreation(was: State, op: Operation, env: Env, k: nat, next: State)
    requires next == StepOp(was, op, true, env, k) && |was.results| == k && !was.aborted
    requires Creates(was.file, op, env.at(k)) && next.results[k].status.Failed?
    ensures env.at(k).fault.AppendFails?
  {
  }
}
