/**
 The polling loop of the analytics indexer (analytics/src/indexer.ts). The chain is the sequence of
 events that match the filter, oldest first; what the RPC answers is a parameter.
 */
module Indexer {
  import opened Wrappers
  import opened AnalyticsStore

  /** A decoded field of an event: as a string, as bytes in hexadecimal, as an enum name. */
  datatype Field = Field(text: string, hex: Option<string>, enumName: Option<string>)

  /** `fields` is None when the event value cannot be decoded. */
  datatype RpcEvent = RpcEvent(
    id: string,
    successful: bool,
    contractId: Option<string>,
    ns: Option<string>,
    action: Option<string>,
    fields: Option<seq<Field>>,
    ledger: nat,
    ts: int)

  datatype Config = Config(identityRegistryId: string, credentialManagerId: string)

  const EVENT_PAGE_LIMIT := 1000

  function FieldAt(fields: seq<Field>, i: nat): Field {
    if i < |fields| then fields[i] else Field("undefined", None, None)
  }

  /** The record that handleEvent adds for an event, if any. */
  function Decode(config: Config, ev: RpcEvent): (r: Option<Record>)
    ensures r.Some? ==> r.value.id == ev.id
  {
    if !ev.successful || ev.fields.None? then None
    else
      var fields := ev.fields.value;
      if ev.contractId == Some(config.identityRegistryId) && ev.ns == Some("IDENTITY") then
        var controller := FieldAt(fields, 0).text;
        if ev.action == Some("created") then Some(Did(ev.id, Created, controller, ev.ledger, ev.ts))
        else if ev.action == Some("updated") then Some(Did(ev.id, Updated, controller, ev.ledger, ev.ts))
        else if ev.action == Some("reactivated") then Some(Did(ev.id, Reactivated, controller, ev.ledger, ev.ts))
        else if ev.action == Some("deact") then Some(Did(ev.id, Deactivated, controller, ev.ledger, ev.ts))
        else None
      else if ev.contractId != Some(config.credentialManagerId) then None
      else if ev.ns == Some("CRED") && ev.action == Some("issued") then
        Some(Credential(ev.id, true, Some(FieldAt(fields, 2).text), Some(FieldAt(fields, 1).text),
                        FieldAt(fields, 0).hex, FieldAt(fields, 3).enumName, ev.ledger, ev.ts))
      else if ev.ns == Some("CRED") && ev.action == Some("revoked") then
        var (hex, issuer) := (FieldAt(fields, 0).hex, FieldAt(fields, 1).text);
        Some(Credential(ev.id, false, Some(issuer), None, hex, None, ev.ledger, ev.ts))
      else if ev.ns == Some("ISSUER") && (ev.action == Some("added") || ev.action == Some("removed")) then
        Some(Issuer(ev.id, ev.action == Some("added"), FieldAt(fields, 0).text, ev.ledger, ev.ts))
      else None
  }

  /** Decoding keeps the event ID, on which de-duplication rests. */
  type Decoder = decode: RpcEvent -> Option<Record> | forall ev :: decode(ev).Some? ==> decode(ev).value.id == ev.id
    witness (_ => None)

  function DecoderOf(config: Config): Decoder {
    ev => Decode(config, ev)
  }

  function HandleEvent(decode: Decoder, m: Memory, ev: RpcEvent): Memory {
    var r := decode(ev);
    if r.Some? then AddRecord(m, r.value) else m
  }

  function HandleAll(decode: Decoder, m: Memory, evs: seq<RpcEvent>): Memory {
    if evs == [] then m
    else HandleEvent(decode, HandleAll(decode, m, evs[..|evs| - 1]), evs[|evs| - 1])
  }

  // ---- Requests ----

  /**
   What one getEvents call gives: a page of `count` events of which `handled` are processed before
   an exception (all of them if there is none), a range error, perhaps naming the oldest ledger, or
   any other failure.
   */
  datatype Response =
    | Page(count: nat, handled: nat, latest: nat)
    | RangeError(oldest: Option<nat>)
    | Failure

  /** The number of events before a ledger. */
  function StartPos(chain: seq<RpcEvent>, ledger: nat): (p: nat)
    ensures p <= |chain|
    ensures forall i :: 0 <= i < p ==> chain[i].ledger < ledger
    ensures p < |chain| ==> chain[p].ledger >= ledger
  {
    if chain == [] || chain[0].ledger >= ledger then 0 else 1 + StartPos(chain[1..], ledger)
  }

  /** The ledger asked for when there is no cursor; `initial` is what initialLedger answers. */
  function RequestLedger(cursor: Cursor, initial: nat): nat {
    if cursor.eventStartLedger.Some? then cursor.eventStartLedger.value else initial
  }

  /** Where the answer to the next request starts. */
  function RequestPos(chain: seq<RpcEvent>, cursor: Cursor, initial: nat): nat {
    if cursor.eventCursor.Some? then cursor.eventCursor.value else StartPos(chain, RequestLedger(cursor, initial))
  }

  /** The answer lies within the chain. */
  predicate Fits(chain: seq<RpcEvent>, cursor: Cursor, initial: nat, response: Response) {
    response.Page? ==>
      response.handled <= response.count && RequestPos(chain, cursor, initial) + response.count <= |chain|
  }

  /** The cursor after an answer was processed to its end. */
  function NextCursor(cursor: Cursor, pos: nat, response: Response): Cursor {
    match response
    case Page(count, handled, latest) =>
      if handled < count then cursor
      else if count > 0 then cursor.(eventCursor := Some(pos + count), latestLedger := Some(latest))
      else if cursor.eventCursor.None? then cursor.(eventStartLedger := Some(latest), latestLedger := Some(latest))
      else cursor.(latestLedger := Some(latest))
    case RangeError(oldest) =>
      cursor.(eventCursor := None, eventStartLedger := if oldest.Some? then Some(oldest.value + 1) else None)
    case Failure => cursor
  }

  /** One turn of the loop in pollEvents. */
  function AfterResponse(decode: Decoder, chain: seq<RpcEvent>, m: Memory, initial: nat, response: Response): Memory
    requires Fits(chain, m.data.cursor, initial, response)
  {
    var pos := RequestPos(chain, m.data.cursor, initial);
    var next := NextCursor(m.data.cursor, pos, response);
    var handled := if response.Page? then HandleAll(decode, m, chain[pos..pos + response.handled]) else m;
    handled.(data := handled.data.(cursor := next))
  }

  /** The loop goes on after a full page and after a range error that names a ledger. */
  predicate Continues(response: Response) {
    match response
    case Page(count, handled, _) => handled == count && count >= EVENT_PAGE_LIMIT
    case RangeError(oldest) => oldest.Some?
    case Failure => false
  }

  /** pollEvents over the answers it gets. */
  function AfterPoll(decode: Decoder, chain: seq<RpcEvent>, m: Memory, answers: seq<(nat, Response)>): Memory
    decreases |answers|
  {
    if answers == [] || !Fits(chain, m.data.cursor, answers[0].0, answers[0].1) then m
    else
      var next := AfterResponse(decode, chain, m, answers[0].0, answers[0].1);
      if Continues(answers[0].1) then AfterPoll(decode, chain, next, answers[1..]) else next
  }

  class EventIndexer {
    const config: Config
    const store: Store
    var running: bool

    constructor (config: Config, store: Store)
      ensures this.config == config && this.store == store && !running
    {
      this.config := config;
      this.store := store;
      running := false;
    }

    method HandlePage(chain: seq<RpcEvent>, evs: seq<RpcEvent>)
      requires store.Valid()
      modifies store
      ensures store.Valid() && store.file == old(store.file)
      ensures store.Contents() == HandleAll(DecoderOf(config), old(store.Contents()), evs)
      ensures store.data.cursor == old(store.data.cursor)
    {
      var i := 0;
      assert evs[..0] == [];
      while i < |evs|
        invariant 0 <= i <= |evs|
        invariant store.Valid() && store.file == old(store.file)
        invariant store.Contents() == HandleAll(DecoderOf(config), old(store.Contents()), evs[..i])
      {
        var r := DecoderOf(config)(evs[i]);
        if r.Some? {
          var _ := store.Add(r.value);
        }
        assert evs[..i + 1][..i] == evs[..i];
        i := i + 1;
      }
      assert evs[..i] == evs;
      HandlingKeepsCursor(DecoderOf(config), old(store.Contents()), evs);
    }

    /** The answers stand for the RPC; one that does not fit the request ends the poll like a failure. */
    method PollEvents(chain: seq<RpcEvent>, answers: seq<(nat, Response)>)
      requires store.Valid()
      modifies store
      ensures store.Valid() && store.file == old(store.file)
      ensures store.Contents() == AfterPoll(DecoderOf(config), chain, old(store.Contents()), answers)
    {
      var rest := answers;
      ghost var final := AfterPoll(DecoderOf(config), chain, store.Contents(), answers);
      while rest != []
        invariant store.Valid() && store.file == old(store.file)
        invariant AfterPoll(DecoderOf(config), chain, store.Contents(), rest) == final
        decreases |rest|
      {
        var cursor := store.data.cursor;
        var initial, response := rest[0].0, rest[0].1;
        if !Fits(chain, cursor, initial, response) {
          return;
        }
        var pos := RequestPos(chain, cursor, initial);
        if response.Page? {
          HandlePage(chain, chain[pos..pos + response.handled]);
        }
        if response.Failure? || (response.Page? && response.handled < response.count) {
          assert store.data.cursor == cursor;
          return;
        }
        store.SetCursor(NextCursor(cursor, pos, response));
        if !Continues(response) {
          return;
        }
        rest := rest[1..];
      }
    }

    /** A tick does nothing while another one runs; otherwise whatever it read is in the file afterwards. */
    method Tick(chain: seq<RpcEvent>, answers: seq<(nat, Response)>)
      requires store.Valid()
      modifies this, store
      ensures store.Valid() && running == old(running)
      ensures old(running) ==> store.Contents() == old(store.Contents()) && store.file == old(store.file)
      ensures !old(running) ==>
        && store.Contents() == AfterPoll(DecoderOf(config), chain, old(store.Contents()), answers)
        && Loaded(store.file).data == store.data
    {
      if running {
        return;
      }
      running := true;
      PollEvents(chain, answers);
      store.Flush();
      running := false;
    }
  }

  lemma {:induction false} HandlingKeepsCursor(decode: Decoder, m: Memory, evs: seq<RpcEvent>)
    ensures HandleAll(decode, m, evs).data.cursor == m.data.cursor
    decreases |evs|
  {
    if evs != [] {
      HandlingKeepsCursor(decode, m, evs[..|evs| - 1]);
    }
  }

  lemma HandleAllStep(decode: Decoder, m: Memory, chain: seq<RpcEvent>, lo: nat, hi: nat)
    requires lo < hi <= |chain|
    ensures HandleAll(decode, m, chain[lo..hi])
         == HandleEvent(decode, HandleAll(decode, m, chain[lo..hi - 1]), chain[hi - 1])
  {
    var evs := chain[lo..hi];
    assert evs[..|evs| - 1] == chain[lo..hi - 1];
  }
}
