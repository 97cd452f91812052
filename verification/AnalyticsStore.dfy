/** The event log of the analytics service and its file (analytics/src/store.ts). */
module AnalyticsStore {
  import opened Wrappers

  datatype DidKind = Created | Updated | Deactivated | Reactivated

  datatype Record =
    | Did(id: string, didKind: DidKind, controller: string, ledger: nat, ts: int)
    | Credential(id: string, issued: bool, credIssuer: Option<string>, subject: Option<string>,
        credentialId: Option<string>, credentialType: Option<string>, ledger: nat, ts: int)
    | Issuer(id: string, added: bool, issuer: string, ledger: nat, ts: int)

  /** `eventCursor` holds the number of chain events up to the one its paging token names. */
  datatype Cursor = Cursor(eventCursor: Option<nat>, eventStartLedger: Option<nat>, latestLedger: Option<nat>)

  datatype StoreData =
    StoreData(cursor: Cursor, dids: seq<Record>, credentials: seq<Record>, issuers: seq<Record>)

  const EMPTY := StoreData(Cursor(None, None, None), [], [], [])

  datatype ListName = Dids | Credentials | Issuers

  function ListOf(r: Record): ListName {
    match r
    case Did(_, _, _, _, _) => Dids
    case Credential(_, _, _, _, _, _, _, _) => Credentials
    case Issuer(_, _, _, _, _) => Issuers
  }

  function List(data: StoreData, name: ListName): seq<Record> {
    match name
    case Dids => data.dids
    case Credentials => data.credentials
    case Issuers => data.issuers
  }

  function Push(data: StoreData, r: Record): (result: StoreData)
    ensures result.cursor == data.cursor
    ensures forall name :: List(result, name) == List(data, name) + if name == ListOf(r) then [r] else []
  {
    match ListOf(r)
    case Dids => data.(dids := data.dids + [r])
    case Credentials => data.(credentials := data.credentials + [r])
    case Issuers => data.(issuers := data.issuers + [r])
  }

  /** The log with the IDs already in it. */
  datatype Memory = Memory(data: StoreData, seen: set<string>)

  function AddRecord(m: Memory, r: Record): Memory {
    if r.id in m.seen then m else Memory(Push(m.data, r), m.seen + {r.id})
  }

  function Ids(rs: seq<Record>): set<string> {
    set r | r in rs :: r.id
  }

  function AllIds(data: StoreData): set<string> {
    Ids(data.dids) + Ids(data.credentials) + Ids(data.issuers)
  }

  /** What a new process holds after reading the file; None stands for a missing or unreadable file. */
  function Loaded(file: Option<StoreData>): Memory {
    var data := if file.Some? then file.value else EMPTY;
    Memory(data, AllIds(data))
  }

  class Store {
    var data: StoreData
    var seen: set<string>
    var dirty: bool
    var changed: bool
    /** The contents of the JSON file, replaced as a whole by a rename. */
    var file: Option<StoreData>
    /** How many times `change` was emitted. */
    var changeEvents: nat

    /** Whenever nothing is unsaved, reading the file gives the log back. */
    ghost predicate Valid()
      reads this
    {
      && (!dirty ==> Loaded(file).data == data)
      && (changed ==> dirty)
      && AllIds(data) <= seen
    }

    function Contents(): Memory
      reads this
    {
      Memory(data, seen)
    }

    constructor (file: Option<StoreData>)
      ensures Valid() && !dirty && !changed
      ensures Contents() == Loaded(file) && this.file == file && changeEvents == 0
    {
      this.file := file;
      data := if file.Some? then file.value else EMPTY;
      seen := AllIds(if file.Some? then file.value else EMPTY);
      dirty, changed := false, false;
      changeEvents := 0;
    }

    method Add(r: Record) returns (added: bool)
      requires Valid()
      modifies this
      ensures Valid() && file == old(file) && changeEvents == old(changeEvents)
      ensures Contents() == AddRecord(old(Contents()), r)
      ensures !added ==> Contents() == old(Contents())
      ensures added ==>
        && seen == old(seen) + {r.id} && data.cursor == old(data).cursor
        && data.dids == old(data).dids + (if r.Did? then [r] else [])
        && data.credentials == old(data).credentials + (if r.Credential? then [r] else [])
        && data.issuers == old(data).issuers + (if r.Issuer? then [r] else [])
      ensures added == (r.id !in old(seen))
      ensures dirty == (old(dirty) || added) && changed == (old(changed) || added)
    {
      if r.id in seen {
        return false;
      }
      seen := seen + {r.id};
      data := Push(data, r);
      dirty, changed := true, true;
      added := true;
    }

    method SetCursor(cursor: Cursor)
      requires Valid()
      modifies this
      ensures Valid() && file == old(file) && changeEvents == old(changeEvents)
      ensures Contents() == old(Contents()).(data := old(data).(cursor := cursor))
      ensures dirty && changed == old(changed)
    {
      data := data.(cursor := cursor);
      dirty := true;
    }

    /** After a flush the file holds the log, and listeners were told if records had arrived. */
    method Flush()
      requires Valid()
      modifies this
      ensures Valid() && Contents() == old(Contents()) && !dirty && !changed
      ensures Loaded(file).data == data
      ensures file == if old(dirty) then Some(data) else old(file)
      ensures changeEvents == old(changeEvents) + if old(changed) then 1 else 0
    {
      if !dirty {
        return;
      }
      file := Some(data);
      dirty := false;
      if changed {
        changed := false;
        changeEvents := changeEvents + 1;
      }
    }
  }
}
