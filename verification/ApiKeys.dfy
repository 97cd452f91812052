/**
 The API key service (server/src/api-keys.js): records by id, an index from hash to id, and the store file.
 The hash is a parameter. A Map keeps insertion order, so `keys` is the sequence of its records.
 */
module ApiKeys {
  import opened Wrappers

  datatype Status = Active | Revoked

  datatype Record = Record(
    id: string, hashedKey: string, status: Status, expiresAt: Option<int>, lastUsedAt: Option<int>)

  const DAY: int := 24 * 60 * 60 * 1000

  // ---- The map of records ----

  function Find(keys: seq<Record>, id: string): (r: Option<nat>)
    ensures r.Some? ==> r.value < |keys| && keys[r.value].id == id
    ensures r.None? ==> forall i :: 0 <= i < |keys| ==> keys[i].id != id
  {
    if keys == [] then None
    else if keys[|keys| - 1].id == id then Some(|keys| - 1)
    else Find(keys[..|keys| - 1], id)
  }

  function Put(keys: seq<Record>, record: Record): seq<Record> {
    var at := Find(keys, record.id);
    if at.Some? then keys[at.value := record] else keys + [record]
  }

  function Remove(keys: seq<Record>, id: string): seq<Record> {
    var at := Find(keys, id);
    if at.Some? then keys[..at.value] + keys[at.value + 1..] else keys
  }

  /** Ids and hashes are distinct, none is empty, and every hash has been handed out. */
  predicate Distinct(keys: seq<Record>, used: set<string>) {
    && (forall i, j :: 0 <= i < j < |keys| ==> keys[i].id != keys[j].id && keys[i].hashedKey != keys[j].hashedKey)
    && (forall i :: 0 <= i < |keys| ==> keys[i].id != "" && keys[i].hashedKey != "" && keys[i].hashedKey in used)
  }

  // ---- The specification: a linear search ----

  /** An expiry of zero counts as none. */
  predicate Live(record: Record, now: int) {
    record.status == Active && !(record.expiresAt.Some? && record.expiresAt.value != 0 && record.expiresAt.value < now)
  }

  /** The first live record with this hash. */
  function Scan(keys: seq<Record>, hash: string, now: int): Option<Record> {
    if keys == [] then None
    else if keys[0].hashedKey == hash && Live(keys[0], now) then Some(keys[0])
    else Scan(keys[1..], hash, now)
  }

  lemma {:induction false} ScanNone(keys: seq<Record>, hash: string, now: int)
    requires forall i :: 0 <= i < |keys| && keys[i].hashedKey == hash ==> !Live(keys[i], now)
    ensures Scan(keys, hash, now) == None
  {
    if keys != [] {
      ScanNone(keys[1..], hash, now);
    }
  }

  lemma {:induction false} ScanOnly(keys: seq<Record>, i: nat, now: int)
    requires i < |keys| && forall j :: 0 <= j < |keys| && j != i ==> keys[j].hashedKey != keys[i].hashedKey
    ensures Scan(keys, keys[i].hashedKey, now) == if Live(keys[i], now) then Some(keys[i]) else None
  {
    if i == 0 {
      if !Live(keys[0], now) {
        ScanNone(keys[1..], keys[0].hashedKey, now);
      }
    } else {
      ScanOnly(keys[1..], i - 1, now);
    }
  }

  // ---- What the search finds ----

  /** The record is active, has this hash, and does not expire before `now`. */
  predicate Validates(record: Record, hash: string, now: int) {
    && record.hashedKey == hash
    && record.status == Active
    && (record.expiresAt.None? || record.expiresAt.value == 0 || now <= record.expiresAt.value)
  }

  /** The search answers with a record exactly when it validates; there is at most one. */
  lemma ScanMeans(keys: seq<Record>, used: set<string>, hash: string, now: int, record: Record)
    requires Distinct(keys, used)
    ensures Scan(keys, hash, now) == Some(record) <==> record in keys && Validates(record, hash, now)
  {
    if i :| 0 <= i < |keys| && keys[i].hashedKey == hash {
      ScanOnly(keys, i, now);
    } else {
      ScanNone(keys, hash, now);
    }
  }

  // ---- The service as a state machine over its records ----

  /** The records, every hash ever handed out, and the hashes of keys that were revoked, rotated away or deleted. */
  datatype Ledger = Ledger(keys: seq<Record>, used: set<string>, retired: set<string>)

  datatype Action =
    | Issue(id: string, hash: string, expiresAt: Option<int>)
    | Validate(hash: string, now: int)
    | Revoke(id: string)
    | Delete(id: string)
    | Rotate(id: string, hash: string, expiresAt: Option<int>)
    | Reload

  function Touched(record: Record, now: int): Record {
    record.(lastUsedAt := Some(now))
  }

  function Rotated(record: Record, hash: string, expiresAt: Option<int>): Record {
    record.(hashedKey := hash, status := Active, expiresAt := if expiresAt.Some? then expiresAt else record.expiresAt)
  }

  /** Fresh randomness: a new id is unknown and a new hash was never handed out. */
  predicate Fresh(ledger: Ledger, a: Action) {
    match a
    case Issue(id, hash, _) => id != "" && hash != "" && Find(ledger.keys, id).None? && hash !in ledger.used
    case Rotate(_, hash, _) => hash != "" && hash !in ledger.used
    case _ => true
  }

  function Step(ledger: Ledger, a: Action): Ledger {
    var keys := ledger.keys;
    match a
    case Issue(id, hash, expiresAt) =>
      ledger.(keys := keys + [Record(id, hash, Active, expiresAt, None)], used := ledger.used + {hash})
    case Validate(hash, now) =>
      var found := Scan(keys, hash, now);
      if found.None? then ledger else ledger.(keys := Put(keys, Touched(found.value, now)))
    case Revoke(id) =>
      var at := Find(keys, id);
      if at.None? then ledger
      else
        var record := keys[at.value];
        ledger.(keys := keys[at.value := record.(status := Revoked)], retired := ledger.retired + {record.hashedKey})
    case Delete(id) =>
      var at := Find(keys, id);
      if at.None? then ledger
      else ledger.(keys := Remove(keys, id), retired := ledger.retired + {keys[at.value].hashedKey})
    case Rotate(id, hash, expiresAt) =>
      var at := Find(keys, id);
      if at.None? then ledger
      else
        var record := keys[at.value];
        var rotated := keys[at.value := Rotated(record, hash, expiresAt)];
        Ledger(rotated, ledger.used + {hash}, ledger.retired + {record.hashedKey})
    case Reload => ledger
  }

  /** No retired hash belongs to an active record. */
  predicate LedgerOk(ledger: Ledger) {
    && Distinct(ledger.keys, ledger.used)
    && ledger.retired <= ledger.used
    && forall i :: 0 <= i < |ledger.keys| && ledger.keys[i].status == Active ==>
      ledger.keys[i].hashedKey !in ledger.retired
  }

  lemma ScanFinds(keys: seq<Record>, used: set<string>, hash: string, now: int)
    requires Distinct(keys, used) && Scan(keys, hash, now).Some?
    ensures
      var record := Scan(keys, hash, now).value;
      var at := Find(keys, record.id);
      at.Some? && keys[at.value] == record && record.hashedKey == hash && Live(record, now)
  {
    if forall i :: 0 <= i < |keys| ==> keys[i].hashedKey != hash {
      ScanNone(keys, hash, now);
    } else {
      var i :| 0 <= i < |keys| && keys[i].hashedKey == hash;
      ScanOnly(keys, i, now);
    }
  }

  /** Changing one record, its id kept and its hash kept or fresh. */
  lemma UpdateKeeps(ledger: Ledger, at: nat, record: Record, next: Ledger)
    requires LedgerOk(ledger) && at < |ledger.keys| && record.id == ledger.keys[at].id
    requires record.hashedKey == ledger.keys[at].hashedKey
      || (record.hashedKey != "" && record.hashedKey !in ledger.used)
    requires next.keys == ledger.keys[at := record]
    requires ledger.used <= next.used && record.hashedKey in next.used
    requires next.retired == ledger.retired || next.retired == ledger.retired + {ledger.keys[at].hashedKey}
    requires record.status == Active ==> record.hashedKey !in next.retired
    ensures LedgerOk(next)
  {
  }

  lemma RemoveKeeps(ledger: Ledger, at: nat, next: Ledger)
    requires LedgerOk(ledger) && at < |ledger.keys|
    requires next.keys == ledger.keys[..at] + ledger.keys[at + 1..] && next.used == ledger.used
    requires next.retired == ledger.retired + {ledger.keys[at].hashedKey}
    ensures LedgerOk(next)
  {
    var keys, rest := ledger.keys, next.keys;
    assert forall i :: 0 <= i < |rest| ==> rest[i] == keys[if i < at then i else i + 1];
  }

  lemma StepKeeps(ledger: Ledger, a: Action)
    requires LedgerOk(ledger) && Fresh(ledger, a)
    ensures LedgerOk(Step(ledger, a))
    ensures ledger.used <= Step(ledger, a).used && ledger.retired <= Step(ledger, a).retired
  {
    var keys, next := ledger.keys, Step(ledger, a);
    match a
    case Issue(_, _, _) =>
    case Validate(hash, now) =>
      var found := Scan(keys, hash, now);
      if found.Some? {
        ScanFinds(keys, ledger.used, hash, now);
        var at := Find(keys, found.value.id).value;
        UpdateKeeps(ledger, at, Touched(found.value, now), next);
      }
    case Revoke(id) =>
      var at := Find(keys, id);
      if at.Some? {
        UpdateKeeps(ledger, at.value, keys[at.value].(status := Revoked), next);
      }
    case Delete(id) =>
      var at := Find(keys, id);
      if at.Some? {
        RemoveKeeps(ledger, at.value, next);
      }
    case Rotate(id, hash, expiresAt) =>
      var at := Find(keys, id);
      if at.Some? {
        UpdateKeeps(ledger, at.value, Rotated(keys[at.value], hash, expiresAt), next);
      }
    case Reload =>
  }

  // ---- What each operation does ----

  /** The place of the one record that the operation is about. */
  predicate IsAbout(keys: seq<Record>, a: Action, i: nat) {
    && i < |keys|
    && match a
       case Issue(_, _, _) => false
       case Validate(hash, now) => Validates(keys[i], hash, now)
       case Revoke(id) => keys[i].id == id
       case Delete(id) => keys[i].id == id
       case Rotate(id, _, _) => keys[i].id == id
       case Reload => false
  }

  /** What becomes of the record at place i, and of the hashes. */
  predicate ChangesAt(ledger: Ledger, a: Action, i: nat, next: Ledger) {
    var keys := ledger.keys;
    && i < |keys|
    && match a
       case Validate(_, now) => next == ledger.(keys := keys[i := keys[i].(lastUsedAt := Some(now))])
       case Revoke(_) =>
         && next.keys == keys[i := keys[i].(status := Revoked)]
         && next.used == ledger.used && next.retired == ledger.retired + {keys[i].hashedKey}
       case Delete(_) =>
         && next.keys == keys[..i] + keys[i + 1..]
         && next.used == ledger.used && next.retired == ledger.retired + {keys[i].hashedKey}
       case Rotate(_, hash, expiresAt) =>
         && next.keys == keys[i := Record(keys[i].id, hash, Active,
              if expiresAt.None? then keys[i].expiresAt else expiresAt, keys[i].lastUsedAt)]
         && next.used == ledger.used + {hash} && next.retired == ledger.retired + {keys[i].hashedKey}
       case _ => false
  }

  /** An issue appends its record; any other operation changes the one record it is about, or nothing at all. */
  predicate Does(ledger: Ledger, a: Action, next: Ledger) {
    match a
    case Issue(id, hash, expiresAt) =>
      && next.keys == ledger.keys + [Record(id, hash, Active, expiresAt, None)]
      && next.used == ledger.used + {hash} && next.retired == ledger.retired
    case _ =>
      && (forall i :: 0 <= i < |ledger.keys| && IsAbout(ledger.keys, a, i) ==> ChangesAt(ledger, a, i, next))
      && ((forall i :: 0 <= i < |ledger.keys| ==> !IsAbout(ledger.keys, a, i)) ==> next == ledger)
  }

  lemma FoundIs(keys: seq<Record>, used: set<string>, id: string, i: nat)
    requires Distinct(keys, used) && i < |keys| && keys[i].id == id
    ensures Find(keys, id) == Some(i)
  {
  }

  lemma ValidateDoes(ledger: Ledger, hash: string, now: int)
    requires LedgerOk(ledger)
    ensures Does(ledger, Validate(hash, now), Step(ledger, Validate(hash, now)))
  {
    var keys := ledger.keys;
    forall i | 0 <= i < |keys| && Validates(keys[i], hash, now)
      ensures ChangesAt(ledger, Validate(hash, now), i, Step(ledger, Validate(hash, now)))
    {
      ScanMeans(keys, ledger.used, hash, now, keys[i]);
      FoundIs(keys, ledger.used, keys[i].id, i);
    }
    var found := Scan(keys, hash, now);
    if found.Some? {
      ScanMeans(keys, ledger.used, hash, now, found.value);
      var i :| 0 <= i < |keys| && keys[i] == found.value;
      assert IsAbout(keys, Validate(hash, now), i);
    }
  }

  lemma StepDoes(ledger: Ledger, a: Action)
    requires LedgerOk(ledger)
    ensures Does(ledger, a, Step(ledger, a))
  {
    if a.Validate? {
      ValidateDoes(ledger, a.hash, a.now);
    } else if a.Revoke? || a.Delete? || a.Rotate? {
      forall i | 0 <= i < |ledger.keys| && ledger.keys[i].id == a.id ensures Find(ledger.keys, a.id) == Some(i) {
        FoundIs(ledger.keys, ledger.used, a.id, i);
      }
      var at := Find(ledger.keys, a.id);
      if at.Some? {
        assert IsAbout(ledger.keys, a, at.value);
      }
    }
  }

  /** Exactly the hash of the record that is revoked, deleted or rotated is retired. */
  lemma RetiresIff(ledger: Ledger, a: Action, hash: string)
    requires LedgerOk(ledger)
    ensures Retires(ledger, a) == Some(hash) <==>
      (a.Revoke? || a.Delete? || a.Rotate?)
      && exists i :: 0 <= i < |ledger.keys| && ledger.keys[i].id == a.id && ledger.keys[i].hashedKey == hash
  {
    if a.Revoke? || a.Delete? || a.Rotate? {
      forall i | 0 <= i < |ledger.keys| && ledger.keys[i].id == a.id ensures Find(ledger.keys, a.id) == Some(i) {
        FoundIs(ledger.keys, ledger.used, a.id, i);
      }
    }
  }

  /** The ledgers of a run from an empty store: any actions, with fresh randomness. */
  ghost predicate IsRun(ledgers: seq<Ledger>, actions: seq<Action>) {
    && |ledgers| == |actions| + 1
    && ledgers[0] == Ledger([], {}, {})
    && forall i :: 0 <= i < |actions| ==>
      Fresh(ledgers[i], actions[i]) && ledgers[i + 1] == Step(ledgers[i], actions[i])
  }

  lemma {:induction false} RunKeeps(ledgers: seq<Ledger>, actions: seq<Action>, i: nat, j: nat)
    requires IsRun(ledgers, actions) && i <= j <= |actions|
    ensures LedgerOk(ledgers[j]) && ledgers[i].retired <= ledgers[j].retired
  {
    if i < j {
      RunKeeps(ledgers, actions, i, j - 1);
      StepKeeps(ledgers[j - 1], actions[j - 1]);
    } else if j > 0 {
      RunKeeps(ledgers, actions, j - 1, j - 1);
      StepKeeps(ledgers[j - 1], actions[j - 1]);
    }
  }

  /** The hash a revoke, delete or rotate takes out of service. */
  function Retires(ledger: Ledger, a: Action): Option<string> {
    if a.Revoke? || a.Delete? || a.Rotate? then
      var at := Find(ledger.keys, a.id);
      if at.Some? then Some(ledger.keys[at.value].hashedKey) else None
    else None
  }

  /** A key once revoked, rotated away or deleted never validates again, whatever happens after and at any time. */
  lemma RetiredNeverValidates(ledgers: seq<Ledger>, actions: seq<Action>, i: nat, j: nat, now: int)
    requires IsRun(ledgers, actions) && i < j <= |actions| && Retires(ledgers[i], actions[i]).Some?
    ensures Scan(ledgers[j].keys, Retires(ledgers[i], actions[i]).value, now) == None
  {
    RunKeeps(ledgers, actions, i + 1, j);
    ScanNone(ledgers[j].keys, Retires(ledgers[i], actions[i]).value, now);
  }

  /** The key handed out by an issue or by a rotation that found its record validates at once, unless it has expired. */
  lemma NewKeyValidates(ledger: Ledger, a: Action, now: int)
    requires LedgerOk(ledger) && Fresh(ledger, a)
    requires a.Issue? || (a.Rotate? && Find(ledger.keys, a.id).Some?)
    ensures
      var at := if a.Issue? then |ledger.keys| else Find(ledger.keys, a.id).value;
      var record := Step(ledger, a).keys[at];
      && record.id == a.id && record.hashedKey == a.hash && record.status == Active
      && Scan(Step(ledger, a).keys, a.hash, now)
         == if record.expiresAt.None? || record.expiresAt.value == 0 || now <= record.expiresAt.value
            then Some(record) else None
  {
    StepKeeps(ledger, a);
    ScanOnly(Step(ledger, a).keys, if a.Issue? then |ledger.keys| else Find(ledger.keys, a.id).value, now);
  }

  /** An issued or rotated-in key validates until it is retired or expires. */
  lemma {:induction false} KeyValidatesUntilRetired(
    ledgers: seq<Ledger>, actions: seq<Action>, i: nat, j: nat, hash: string, now: int)
    requires IsRun(ledgers, actions) && i <= j <= |actions|
    requires Scan(ledgers[i].keys, hash, now).Some?
    requires forall k :: i <= k < j ==> Retires(ledgers[k], actions[k]) != Some(hash)
    ensures Scan(ledgers[j].keys, hash, now).Some?
  {
    if i < j {
      KeyValidatesUntilRetired(ledgers, actions, i, j - 1, hash, now);
      RunKeeps(ledgers, actions, j - 1, j - 1);
      assert Retires(ledgers[j - 1], actions[j - 1]) != Some(hash);
      StepKeepsOthers(ledgers[j - 1], actions[j - 1], hash, now);
    }
  }

  lemma StepKeepsOthers(ledger: Ledger, a: Action, hash: string, now: int)
    requires LedgerOk(ledger) && Fresh(ledger, a) && Scan(ledger.keys, hash, now).Some?
    requires Retires(ledger, a) != Some(hash)
    ensures Scan(Step(ledger, a).keys, hash, now).Some?
  {
    var keys, after := ledger.keys, Step(ledger, a).keys;
    StepKeeps(ledger, a);
    ScanFinds(keys, ledger.used, hash, now);
    var at := Find(keys, Scan(keys, hash, now).value.id).value;
    if a.Validate? && Scan(keys, a.hash, a.now).Some? {
      ScanFinds(keys, ledger.used, a.hash, a.now);
    }
    var moved := if a.Delete? && Find(keys, a.id).Some? && Find(keys, a.id).value < at then at - 1 else at;
    assert after[moved].hashedKey == hash && Live(after[moved], now);
    ScanOnly(after, moved, now);
  }
}
