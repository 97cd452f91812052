/** The service object of server/src/api-keys.js: the index from hash to id against the linear search. */
module ApiKeyStore {
  import opened Wrappers
  import opened ApiKeys

  // ---- The index ----

  /** Each entry names a record with that hash, and every active record has an entry. Revoked ones may have one. */
  predicate IndexOk(keys: seq<Record>, byHash: map<string, string>) {
    && (forall h :: h in byHash ==>
          var at := Find(keys, byHash[h]);
          at.Some? && keys[at.value].hashedKey == h && keys[at.value].id != "")
    && (forall i :: 0 <= i < |keys| && keys[i].status == Active ==> keys[i].hashedKey in byHash)
  }

  /** An indexed lookup, then the checks on status and expiry. */
  function LookUp(keys: seq<Record>, byHash: map<string, string>, hash: string, now: int): Option<Record> {
    if hash !in byHash || byHash[hash] == "" then None
    else
      var at := Find(keys, byHash[hash]);
      if at.Some? && Live(keys[at.value], now) then Some(keys[at.value]) else None
  }

  lemma LookUpIsScan(keys: seq<Record>, byHash: map<string, string>, used: set<string>, hash: string, now: int)
    requires Distinct(keys, used) && IndexOk(keys, byHash)
    ensures LookUp(keys, byHash, hash, now) == Scan(keys, hash, now)
  {
    if hash in byHash {
      ScanOnly(keys, Find(keys, byHash[hash]).value, now);
    } else {
      ScanNone(keys, hash, now);
    }
  }

  lemma {:induction false} FindAt(keys: seq<Record>, used: set<string>, i: nat)
    requires Distinct(keys, used) && i < |keys|
    ensures Find(keys, keys[i].id) == Some(i)
  {
  }

  /** The index after the entry of an old hash is dropped, and perhaps one for the record is set. */
  predicate Reindexed(byHash: map<string, string>, index: map<string, string>, oldHash: string, record: Record) {
    && (forall h :: h in index ==>
          || (h == record.hashedKey && index[h] == record.id)
          || (h in byHash && h != oldHash && index[h] == byHash[h]))
    && (forall h :: h in byHash && h != oldHash ==> h in index)
  }

  lemma UpdatedEntries(
    keys: seq<Record>, byHash: map<string, string>, used: set<string>, at: nat, record: Record,
    after: seq<Record>, index: map<string, string>, usedAfter: set<string>, h: string)
    requires Distinct(keys, used) && IndexOk(keys, byHash)
    requires at < |keys| && record.id == keys[at].id
    requires after == keys[at := record] && Distinct(after, usedAfter)
    requires Reindexed(byHash, index, keys[at].hashedKey, record) && h in index
    ensures
      var found := Find(after, index[h]);
      found.Some? && after[found.value].hashedKey == h && after[found.value].id != ""
  {
    if h == record.hashedKey && index[h] == record.id {
      FindAt(after, usedAfter, at);
    } else {
      var i := Find(keys, byHash[h]).value;
      assert i != at;
      FindAt(after, usedAfter, i);
    }
  }

  /** Changing the record at one place, its id kept. */
  lemma UpdateKeepsIndex(
    keys: seq<Record>, byHash: map<string, string>, used: set<string>, at: nat, record: Record,
    after: seq<Record>, index: map<string, string>, usedAfter: set<string>)
    requires Distinct(keys, used) && IndexOk(keys, byHash)
    requires at < |keys| && record.id == keys[at].id
    requires after == keys[at := record] && Distinct(after, usedAfter)
    requires Reindexed(byHash, index, keys[at].hashedKey, record)
    requires record.status == Active ==> record.hashedKey in index
    ensures IndexOk(after, index)
  {
    forall h | h in index
      ensures Find(after, index[h]).Some? && after[Find(after, index[h]).value].hashedKey == h
      ensures after[Find(after, index[h]).value].id != ""
    {
      UpdatedEntries(keys, byHash, used, at, record, after, index, usedAfter, h);
    }
    forall i | 0 <= i < |after| && after[i].status == Active
      ensures after[i].hashedKey in index
    {
      if i != at {
        assert after[i] == keys[i] && keys[i].hashedKey != keys[at].hashedKey;
      }
    }
  }

  lemma AppendKeepsIndex(
    keys: seq<Record>, byHash: map<string, string>, used: set<string>, record: Record,
    after: seq<Record>, usedAfter: set<string>)
    requires Distinct(keys, used) && IndexOk(keys, byHash)
    requires after == keys + [record] && Distinct(after, usedAfter)
    ensures IndexOk(after, byHash[record.hashedKey := record.id])
  {
    var index := byHash[record.hashedKey := record.id];
    forall h | h in index
      ensures Find(after, index[h]).Some? && after[Find(after, index[h]).value].hashedKey == h
    {
      if h == record.hashedKey {
        FindAt(after, usedAfter, |keys|);
      } else {
        FindAt(after, usedAfter, Find(keys, byHash[h]).value);
      }
    }
  }

  lemma RemovedElsewhere(keys: seq<Record>, used: set<string>, at: nat, i: nat, after: seq<Record>)
    requires Distinct(keys, used) && at < |keys| && i < |keys| && i != at
    requires after == keys[..at] + keys[at + 1..] && Distinct(after, used)
    ensures
      var found := Find(after, keys[i].id);
      found.Some? && after[found.value] == keys[i]
  {
    var j := if i < at then i else i - 1;
    assert after[j] == keys[i];
    FindAt(after, used, j);
  }

  lemma RemoveKeepsIndex(
    keys: seq<Record>, byHash: map<string, string>, used: set<string>, at: nat, after: seq<Record>)
    requires Distinct(keys, used) && IndexOk(keys, byHash)
    requires at < |keys| && after == keys[..at] + keys[at + 1..] && Distinct(after, used)
    ensures IndexOk(after, byHash - {keys[at].hashedKey})
  {
    var index := byHash - {keys[at].hashedKey};
    forall h | h in index
      ensures Find(after, index[h]).Some? && after[Find(after, index[h]).value].hashedKey == h
      ensures after[Find(after, index[h]).value].id != ""
    {
      RemovedElsewhere(keys, used, at, Find(keys, byHash[h]).value, after);
    }
    forall j | 0 <= j < |after| && after[j].status == Active
      ensures after[j].hashedKey in index
    {
      var i := if j < at then j else j + 1;
      assert after[j] == keys[i];
    }
  }

  lemma DeleteKeeps(ledger: Ledger, id: string, at: nat, byHash: map<string, string>)
    requires LedgerOk(ledger) && IndexOk(ledger.keys, byHash) && Find(ledger.keys, id) == Some(at)
    ensures
      var hash := ledger.keys[at].hashedKey;
      var rest := Remove(ledger.keys, id);
      && Step(ledger, Delete(id)) == Ledger(rest, ledger.used, ledger.retired + {hash})
      && LedgerOk(Step(ledger, Delete(id))) && IndexOk(rest, byHash - {hash})
  {
    StepKeeps(ledger, Delete(id));
    RemoveKeepsIndex(ledger.keys, byHash, ledger.used, at, Remove(ledger.keys, id));
  }

  lemma RevokeKeeps(ledger: Ledger, id: string, at: nat, byHash: map<string, string>)
    requires LedgerOk(ledger) && IndexOk(ledger.keys, byHash) && Find(ledger.keys, id) == Some(at)
    ensures
      var record := ledger.keys[at].(status := Revoked);
      var after := ledger.keys[at := record];
      && Step(ledger, Revoke(id)) == Ledger(after, ledger.used, ledger.retired + {record.hashedKey})
      && Put(ledger.keys, record) == after
      && LedgerOk(Step(ledger, Revoke(id))) && IndexOk(after, byHash - {record.hashedKey})
  {
    var record := ledger.keys[at].(status := Revoked);
    StepKeeps(ledger, Revoke(id));
    UpdateKeepsIndex(ledger.keys, byHash, ledger.used, at, record, ledger.keys[at := record],
                     byHash - {record.hashedKey}, ledger.used);
  }

  lemma RotateKeeps(
      ledger: Ledger, id: string, at: nat, byHash: map<string, string>, hash: string, expiresAt: Option<int>)
    requires LedgerOk(ledger) && IndexOk(ledger.keys, byHash) && Find(ledger.keys, id) == Some(at)
    requires Fresh(ledger, Rotate(id, hash, expiresAt))
    ensures
      var was := ledger.keys[at];
      var record := Rotated(was, hash, expiresAt);
      var after := ledger.keys[at := record];
      var next := Step(ledger, Rotate(id, hash, expiresAt));
      && next == Ledger(after, ledger.used + {hash}, ledger.retired + {was.hashedKey})
      && Put(ledger.keys, record) == after
      && LedgerOk(next) && IndexOk(after, (byHash - {was.hashedKey})[hash := id])
  {
    var was := ledger.keys[at];
    var record := Rotated(was, hash, expiresAt);
    StepKeeps(ledger, Rotate(id, hash, expiresAt));
    UpdateKeepsIndex(ledger.keys, byHash, ledger.used, at, record, ledger.keys[at := record],
                     (byHash - {was.hashedKey})[hash := id], ledger.used + {hash});
  }

  lemma TouchKeeps(ledger: Ledger, at: nat, byHash: map<string, string>, now: int, hash: string, after: seq<Record>)
    requires LedgerOk(ledger) && IndexOk(ledger.keys, byHash) && at < |ledger.keys|
    requires Scan(ledger.keys, hash, now) == Some(ledger.keys[at]) && hash == ledger.keys[at].hashedKey
    requires after == ledger.keys[at := Touched(ledger.keys[at], now)]
    ensures Step(ledger, Validate(hash, now)) == Ledger(after, ledger.used, ledger.retired)
    ensures LedgerOk(Ledger(after, ledger.used, ledger.retired)) && IndexOk(after, byHash)
  {
    var keys := ledger.keys;
    var record := Touched(keys[at], now);
    StepKeeps(ledger, Validate(hash, now));
    FindAt(keys, ledger.used, at);
    assert hash in byHash ==> Find(keys, byHash[hash]).value == at;
    UpdateKeepsIndex(keys, byHash, ledger.used, at, record, after, byHash, ledger.used);
  }

  /** The answer is the record that validates, with the time of its use; None if there is none. */
  ghost predicate IsAnswer(keys: seq<Record>, hash: string, now: int, found: Option<Record>) {
    && (found.None? ==> forall i :: 0 <= i < |keys| ==> !Validates(keys[i], hash, now))
    && (found.Some? ==> exists i :: 0 <= i < |keys| && Validates(keys[i], hash, now)
                          && found.value == keys[i].(lastUsedAt := Some(now)))
  }

  lemma ScanIsAnswer(keys: seq<Record>, used: set<string>, hash: string, now: int)
    requires Distinct(keys, used)
    ensures
      var scanned := Scan(keys, hash, now);
      IsAnswer(keys, hash, now, if scanned.None? then None else Some(Touched(scanned.value, now)))
  {
    var scanned := Scan(keys, hash, now);
    if scanned.Some? {
      ScanMeans(keys, used, hash, now, scanned.value);
    } else {
      forall i | 0 <= i < |keys| ensures !Validates(keys[i], hash, now) {
        ScanMeans(keys, used, hash, now, keys[i]);
      }
    }
  }

  class ApiKeyService {
    const hashApiKey: string -> string
    var keys: seq<Record>
    var byHash: map<string, string>
    var loaded: bool
    /** The store file, which outlives the process; None is a missing file. */
    var file: Option<seq<Record>>
    ghost var used: set<string>
    ghost var retired: set<string>

    function Stored(): seq<Record>
      reads this
    {
      if file.Some? then file.value else []
    }

    ghost function State(): Ledger
      reads this
    {
      Ledger(Stored(), used, retired)
    }

    ghost predicate Valid()
      reads this
    {
      && LedgerOk(State())
      && (loaded ==> keys == Stored() && IndexOk(keys, byHash))
    }

    /** A process starting on the file an earlier one left. */
    constructor (hashApiKey: string -> string, file: Option<seq<Record>>, ghost ledger: Ledger)
      requires LedgerOk(ledger) && ledger.keys == if file.Some? then file.value else []
      ensures Valid() && State() == ledger && !loaded && this.hashApiKey == hashApiKey
    {
      this.hashApiKey, this.file, this.used, this.retired := hashApiKey, file, ledger.used, ledger.retired;
      keys, byHash, loaded := [], map[], false;
    }

    /** Reads the file back: every record is indexed, revoked ones too. */
    method Load()
      requires Valid()
      modifies this
      ensures Valid() && loaded && State() == old(State())
    {
      var list := Stored();
      keys, byHash := [], map[];
      for k := 0 to |list|
        invariant keys == list[..k] && IndexOk(keys, byHash)
        invariant list == Stored() && State() == old(State())
      {
        var record := list[k];
        AppendKeepsIndex(keys, byHash, used, record, list[..k + 1], used);
        keys := Put(keys, record);
        if record.hashedKey != "" {
          byHash := byHash[record.hashedKey := record.id];
        }
        assert keys == list[..k + 1];
      }
      assert list[..|list|] == list;
      loaded := true;
    }

    method EnsureLoaded()
      requires Valid()
      modifies this
      ensures Valid() && loaded && State() == old(State())
    {
      if !loaded {
        Load();
      }
    }

    method Persist()
      modifies this`file
      ensures file == Some(keys)
    {
      file := Some(keys);
    }

    function Expiry(expiresInDays: Option<int>, now: int): (r: Option<int>)
      ensures r.Some? <==> expiresInDays.Some? && expiresInDays.value != 0
      ensures r.Some? ==> r.value - now == expiresInDays.value * 86400000
    {
      if expiresInDays.Some? && expiresInDays.value != 0 then Some(now + expiresInDays.value * DAY) else None
    }

    method IssueKey(id: string, rawKey: string, expiresInDays: Option<int>, now: int)
      requires Valid() && Fresh(State(), Issue(id, hashApiKey(rawKey), Expiry(expiresInDays, now)))
      modifies this
      ensures Valid() && State() == Step(old(State()), Issue(id, hashApiKey(rawKey), Expiry(expiresInDays, now)))
      ensures Does(old(State()), Issue(id, hashApiKey(rawKey), Expiry(expiresInDays, now)), State())
    {
      EnsureLoaded();
      var hashedKey := hashApiKey(rawKey);
      StepDoes(State(), Issue(id, hashedKey, Expiry(expiresInDays, now)));
      var record := Record(id, hashedKey, Active, Expiry(expiresInDays, now), None);
      StepKeeps(State(), Issue(id, hashedKey, Expiry(expiresInDays, now)));
      AppendKeepsIndex(keys, byHash, used, record, keys + [record], used + {hashedKey});
      keys := Put(keys, record);
      byHash := byHash[hashedKey := id];
      used := used + {hashedKey};
      Persist();
    }

    /** Sets lastUsedAt of the live record a validation found. */
    method Touch(at: nat, now: int) returns (record: Record)
      requires Valid() && loaded && at < |keys| && Scan(keys, keys[at].hashedKey, now) == Some(keys[at])
      modifies this
      ensures Valid() && record == Touched(old(keys)[at], now)
      ensures State() == Step(old(State()), Validate(old(keys)[at].hashedKey, now))
    {
      record := Touched(keys[at], now);
      ghost var before, after := State(), keys[at := record];
      TouchKeeps(before, at, byHash, now, keys[at].hashedKey, after);
      keys := keys[at := record];
      Persist();
      assert State() == Ledger(after, before.used, before.retired);
    }

    /** Exactly the linear search for a live record with that hash, and the record found is touched. */
    method ValidateKey(rawKey: string, now: int) returns (found: Option<Record>)
      requires Valid()
      modifies this
      ensures Valid()
      ensures
        var scanned := if rawKey == "" then None else Scan(old(State()).keys, hashApiKey(rawKey), now);
        found == if scanned.None? then None else Some(Touched(scanned.value, now))
      ensures State() == if rawKey == "" then old(State()) else Step(old(State()), Validate(hashApiKey(rawKey), now))
      ensures rawKey != "" ==> Does(old(State()), Validate(hashApiKey(rawKey), now), State())
      ensures rawKey == "" ==> found.None?
      ensures rawKey != "" ==> IsAnswer(old(State()).keys, hashApiKey(rawKey), now, found)
    {
      if rawKey == "" {
        return None;
      }
      EnsureLoaded();
      var hashed := hashApiKey(rawKey);
      StepDoes(State(), Validate(hashed, now));
      ScanIsAnswer(keys, used, hashed, now);
      LookUpIsScan(keys, byHash, used, hashed, now);
      if hashed !in byHash || byHash[hashed] == "" {
        return None;
      }
      var at := Find(keys, byHash[hashed]);
      if at.None? || !Live(keys[at.value], now) {
        return None;
      }
      var record := Touch(at.value, now);
      found := Some(record);
    }

    method RevokeKey(id: string) returns (ok: bool)
      requires Valid()
      modifies this
      ensures Valid() && State() == Step(old(State()), Revoke(id))
      ensures Does(old(State()), Revoke(id), State())
      ensures ok <==> exists i :: 0 <= i < |old(State()).keys| && old(State()).keys[i].id == id
    {
      EnsureLoaded();
      StepDoes(State(), Revoke(id));
      var at := Find(keys, id);
      if at.None? {
        return false;
      }
      var record := keys[at.value].(status := Revoked);
      RevokeKeeps(State(), id, at.value, byHash);
      retired := retired + {record.hashedKey};
      keys := Put(keys, record);
      byHash := byHash - {record.hashedKey};
      Persist();
      ok := true;
    }

    method DeleteKey(id: string) returns (ok: bool)
      requires Valid()
      modifies this
      ensures Valid() && State() == Step(old(State()), Delete(id))
      ensures Does(old(State()), Delete(id), State())
      ensures ok <==> exists i :: 0 <= i < |old(State()).keys| && old(State()).keys[i].id == id
    {
      EnsureLoaded();
      StepDoes(State(), Delete(id));
      var at := Find(keys, id);
      if at.None? {
        return false;
      }
      var hashedKey := keys[at.value].hashedKey;
      var rest := Remove(keys, id);
      DeleteKeeps(State(), id, at.value, byHash);
      retired := retired + {hashedKey};
      byHash := byHash - {hashedKey};
      keys := rest;
      Persist();
      ok := true;
    }

    method RotateKey(id: string, rawKey: string, expiresInDays: Option<int>, now: int) returns (ok: bool)
      requires Valid() && Fresh(State(), Rotate(id, hashApiKey(rawKey), Expiry(expiresInDays, now)))
      modifies this
      ensures Valid() && State() == Step(old(State()), Rotate(id, hashApiKey(rawKey), Expiry(expiresInDays, now)))
      ensures Does(old(State()), Rotate(id, hashApiKey(rawKey), Expiry(expiresInDays, now)), State())
      ensures ok <==> exists i :: 0 <= i < |old(State()).keys| && old(State()).keys[i].id == id
    {
      EnsureLoaded();
      StepDoes(State(), Rotate(id, hashApiKey(rawKey), Expiry(expiresInDays, now)));
      var at := Find(keys, id);
      if at.None? {
        return false;
      }
      var oldHash, newHash := keys[at.value].hashedKey, hashApiKey(rawKey);
      var record := Rotated(keys[at.value], newHash, Expiry(expiresInDays, now));
      RotateKeeps(State(), id, at.value, byHash, newHash, Expiry(expiresInDays, now));
      used, retired := used + {newHash}, retired + {oldHash};
      byHash := byHash - {oldHash};
      keys := Put(keys, record);
      byHash := byHash[newHash := id];
      Persist();
      ok := true;
    }
  }
}
