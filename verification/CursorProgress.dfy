/**
 How far the indexer has read: where each request starts, what each answer does to the cursor, and how
 far a poll gets. Everything is said of the machine in ExactlyOnce and of the polls and ticks that run it.
 */
module CursorProgress {
  import opened Wrappers
  import opened AnalyticsStore
  import opened Indexer
  import opened ExactlyOnce
  import opened IndexerRuns

  // ---- One answer ----

  /** The position is that of the first event in the ledger or after it. */
  predicate FirstFrom(chain: seq<RpcEvent>, ledger: nat, pos: nat) {
    && pos <= |chain|
    && (forall i :: 0 <= i < pos ==> chain[i].ledger < ledger)
    && (pos < |chain| ==> chain[pos].ledger >= ledger)
  }

  /**
   A request made with this cursor starts right after the last event the cursor names; without one, at the
   start ledger, which is `initial` if the cursor has none either.
   */
  predicate StartsAt(chain: seq<RpcEvent>, cursor: Cursor, initial: nat, pos: nat) {
    match cursor.eventCursor
    case Some(seen) => pos == seen
    case None =>
      FirstFrom(chain, if cursor.eventStartLedger.Some? then cursor.eventStartLedger.value else initial, pos)
  }

  lemma FirstIsUnique(chain: seq<RpcEvent>, ledger: nat, first: nat, other: nat)
    requires FirstFrom(chain, ledger, first) && FirstFrom(chain, ledger, other)
    ensures first <= other
  {
  }

  lemma StartIsRequestPos(chain: seq<RpcEvent>, cursor: Cursor, initial: nat, pos: nat)
    ensures StartsAt(chain, cursor, initial, pos) <==> pos == RequestPos(chain, cursor, initial)
  {
    if cursor.eventCursor.None? && StartsAt(chain, cursor, initial, pos) {
      var ledger := if cursor.eventStartLedger.Some? then cursor.eventStartLedger.value else initial;
      FirstIsUnique(chain, ledger, pos, RequestPos(chain, cursor, initial));
      FirstIsUnique(chain, ledger, RequestPos(chain, cursor, initial), pos);
    }
  }

  /** What an answer to a request that starts at `pos` does to the cursor. */
  predicate CursorMovesOn(chain: seq<RpcEvent>, before: Cursor, pos: nat, response: Response, after: Cursor) {
    match response
    case Page(count, handled, latest) =>
      && (handled < count ==> after == before)
      && (handled == count ==> after.latestLedger == Some(latest))
      && (handled == count && count > 0 ==>
        && after.eventCursor == Some(pos + count)
        && after.eventStartLedger == before.eventStartLedger)
      && (handled == count && count == 0 && before.eventCursor.Some? ==>
        && after.eventCursor == before.eventCursor
        && after.eventStartLedger == before.eventStartLedger)
      && (handled == count && count == 0 && before.eventCursor.None? ==>
        after.eventCursor.None? && after.eventStartLedger == Some(latest))
    case RangeError(oldest) =>
      && after.eventCursor.None?
      && after.latestLedger == before.latestLedger
      && after.eventStartLedger == (if oldest.Some? then Some(oldest.value + 1) else None)
    case Failure => after == before
  }

  /**
   After a page handled to its end the next request starts behind it, whatever ledger it would start from
   without a cursor; after a page handled in part it starts at the same place again; after a range error
   it starts after the ledger named, or from the initial one.
   */
  lemma AnswerMovesCursor(
    decode: Decoder, chain: seq<RpcEvent>, w: World, initial: nat, response: Response, pos: nat, next: World,
    later: nat, there: nat)
    requires StartsAt(chain, w.mem.m.data.cursor, initial, pos)
    requires response.Page? ==> response.handled <= response.count && pos + response.count <= |chain|
    requires Enabled(chain, w, Answer(initial, response)) ==> next == Next(decode, chain, w, Answer(initial, response))
    ensures Enabled(chain, w, Answer(initial, response))
    ensures CursorMovesOn(chain, w.mem.m.data.cursor, pos, response, next.mem.m.data.cursor)
    ensures next.file == w.file
    ensures response.Page? && response.handled == response.count && response.count > 0 ==>
      StartsAt(chain, next.mem.m.data.cursor, later, pos + response.count)
    ensures response.Failure? || (response.Page? && response.handled < response.count) ==>
      StartsAt(chain, next.mem.m.data.cursor, initial, pos)
    ensures response.RangeError? ==>
      (StartsAt(chain, next.mem.m.data.cursor, later, there) <==>
        FirstFrom(chain, if response.oldest.Some? then response.oldest.value + 1 else later, there))
  {
    StartIsRequestPos(chain, w.mem.m.data.cursor, initial, pos);
  }

  // ---- A poll ----

  /** Full pages, all handled to their end, and a last page that is not full. */
  predicate FullPagesThenShort(answers: seq<(nat, Response)>, n: nat) {
    && 0 < n <= |answers|
    && (forall i :: 0 <= i < n ==> answers[i].1.Page? && answers[i].1.handled == answers[i].1.count)
    && (forall i :: 0 <= i < n - 1 ==> answers[i].1.count >= 1000)
    && answers[n - 1].1.count < 1000
  }

  /** The number of events in the first n pages. */
  function Total(answers: seq<(nat, Response)>, n: nat): nat
    requires n <= |answers| && forall i :: 0 <= i < n ==> answers[i].1.Page?
  {
    if n == 0 then 0 else Total(answers, n - 1) + answers[n - 1].1.count
  }

  lemma {:induction false} TotalFromFirst(answers: seq<(nat, Response)>, n: nat)
    requires 0 < n <= |answers| && forall i :: 0 <= i < n ==> answers[i].1.Page?
    ensures forall i :: 0 <= i < n - 1 ==> answers[1..][i] == answers[i + 1]
    ensures Total(answers, n) == answers[0].1.count + Total(answers[1..], n - 1)
  {
    if n == 1 {
      assert Total(answers, 1) == Total(answers, 0) + answers[0].1.count;
    } else {
      TotalFromFirst(answers, n - 1);
      assert answers[1..][n - 2] == answers[n - 1];
    }
  }

  /** A poll goes on after a full page and after a range error that names a ledger, and after nothing else. */
  lemma PollGoesOn(
    decode: Decoder, chain: seq<RpcEvent>, w: World, answers: seq<(nat, Response)>, next: World)
    requires answers != [] && Enabled(chain, w, Answer(answers[0].0, answers[0].1))
    requires next == Next(decode, chain, w, Answer(answers[0].0, answers[0].1))
    ensures AfterPoll(decode, chain, w.mem.m, answers) ==
      match answers[0].1 {
        case Page(count, handled, _) =>
          if handled == count && count >= 1000 then AfterPoll(decode, chain, next.mem.m, answers[1..]) else next.mem.m
        case RangeError(Some(_)) => AfterPoll(decode, chain, next.mem.m, answers[1..])
        case _ => next.mem.m
      }
  {
  }

  /** Handling a page to its end visits its positions and forgets none. */
  lemma PageIsVisited(
    decode: Decoder, chain: seq<RpcEvent>, w: World, initial: nat, response: Response, pos: nat, next: World)
    requires UniqueIds(chain) && WorldOk(decode, chain, w) && StartsAt(chain, w.mem.m.data.cursor, initial, pos)
    requires response.Page? && response.handled == response.count && pos + response.count <= |chain|
    requires Enabled(chain, w, Answer(initial, response)) ==> next == Next(decode, chain, w, Answer(initial, response))
    ensures Enabled(chain, w, Answer(initial, response)) && WorldOk(decode, chain, next)
    ensures w.mem.order <= next.mem.order
    ensures forall p :: pos <= p < pos + response.count ==> p in next.mem.order
  {
    StartIsRequestPos(chain, w.mem.m.data.cursor, initial, pos);
    NextKeeps(decode, chain, w, Answer(initial, response));
    PageVisits(decode, chain, w.mem, initial, response);
  }

  /** The world after a stretch of pages: how far it has got from where the stretch began. */
  predicate HasVisited(decode: Decoder, chain: seq<RpcEvent>, w: World, v: World, pos: nat, total: nat) {
    && WorldOk(decode, chain, v)
    && w.mem.order <= v.mem.order
    && (forall p :: pos <= p < pos + total ==> p in v.mem.order)
    && v.mem.m.data.cursor.eventCursor ==
      (if total > 0 then Some(pos + total) else w.mem.m.data.cursor.eventCursor)
  }

  lemma PageHasVisited(
    decode: Decoder, chain: seq<RpcEvent>, w: World, initial: nat, response: Response, pos: nat, next: World)
    requires UniqueIds(chain) && WorldOk(decode, chain, w) && StartsAt(chain, w.mem.m.data.cursor, initial, pos)
    requires response.Page? && response.handled == response.count && pos + response.count <= |chain|
    requires Enabled(chain, w, Answer(initial, response)) ==> next == Next(decode, chain, w, Answer(initial, response))
    ensures Enabled(chain, w, Answer(initial, response))
    ensures HasVisited(decode, chain, w, next, pos, response.count)
  {
    PageIsVisited(decode, chain, w, initial, response, pos, next);
    AnswerMovesCursor(decode, chain, w, initial, response, pos, next, 0, 0);
  }

  lemma VisitedOn(
    decode: Decoder, chain: seq<RpcEvent>, w: World, v: World, last: World, pos: nat, m: nat, n: nat, total: nat)
    requires HasVisited(decode, chain, w, v, pos, m) && HasVisited(decode, chain, v, last, pos + m, n)
    requires total == m + n
    ensures HasVisited(decode, chain, w, last, pos, total)
  {
    forall p | pos <= p < pos + total ensures p in last.mem.order {
      if p < pos + m {
        assert p in v.mem.order;
      }
    }
  }

  /** The first page of a poll, and what is left of the poll after it. */
  lemma FirstPage(
    decode: Decoder, chain: seq<RpcEvent>, w: World, answers: seq<(nat, Response)>, n: nat, pos: nat,
    count: nat)
    returns (next: World)
    requires UniqueIds(chain) && WorldOk(decode, chain, w) && FullPagesThenShort(answers, n)
    requires count == answers[0].1.count
    requires StartsAt(chain, w.mem.m.data.cursor, answers[0].0, pos) && pos + Total(answers, n) <= |chain|
    ensures HasVisited(decode, chain, w, next, pos, count) && WorldOk(decode, chain, next)
    ensures AfterPoll(decode, chain, w.mem.m, answers)
         == if n == 1 then next.mem.m else AfterPoll(decode, chain, next.mem.m, answers[1..])
    ensures n > 1 ==> FullPagesThenShort(answers[1..], n - 1)
    ensures n > 1 ==> Total(answers, n) == count + Total(answers[1..], n - 1)
    ensures n == 1 ==> Total(answers, n) == count
    ensures n > 1 ==> StartsAt(chain, next.mem.m.data.cursor, answers[1..][0].0, pos + count)
  {
    var initial, response := answers[0].0, answers[0].1;
    TotalFromFirst(answers, n);
    StartIsRequestPos(chain, w.mem.m.data.cursor, initial, pos);
    next := Next(decode, chain, w, Answer(initial, response));
    PageHasVisited(decode, chain, w, initial, response, pos, next);
    PollGoesOn(decode, chain, w, answers, next);
  }

  /** The world a poll ends in, and how far its pages have taken it. */
  lemma {:induction false} PollVisits(
    decode: Decoder, chain: seq<RpcEvent>, w: World, answers: seq<(nat, Response)>, n: nat, pos: nat)
    returns (last: World)
    requires UniqueIds(chain) && WorldOk(decode, chain, w) && FullPagesThenShort(answers, n)
    requires StartsAt(chain, w.mem.m.data.cursor, answers[0].0, pos) && pos + Total(answers, n) <= |chain|
    ensures last.mem.m == AfterPoll(decode, chain, w.mem.m, answers)
    ensures HasVisited(decode, chain, w, last, pos, Total(answers, n))
    decreases n
  {
    var count := answers[0].1.count;
    var next := FirstPage(decode, chain, w, answers, n, pos, count);
    if n == 1 {
      last := next;
    } else {
      last := PollVisits(decode, chain, next, answers[1..], n - 1, pos + count);
      VisitedOn(decode, chain, w, next, last, pos, count, Total(answers[1..], n - 1), Total(answers, n));
    }
  }

  /**
   A poll that starts at `pos` and gets full pages and one short page moves the cursor past all of them,
   and has every relevant event of theirs in the lists. What else the RPC would answer plays no part.
   */
  lemma PollReadsOn(decode: Decoder, chain: seq<RpcEvent>, w: World, answers: seq<(nat, Response)>, n: nat, pos: nat)
    requires UniqueIds(chain) && WorldOk(decode, chain, w) && FullPagesThenShort(answers, n)
    requires StartsAt(chain, w.mem.m.data.cursor, answers[0].0, pos) && pos + Total(answers, n) <= |chain|
    ensures PollHasRead(decode, chain, w.mem.m.data, AfterPoll(decode, chain, w.mem.m, answers).data,
                        pos, Total(answers, n))
  {
    var last := PollVisits(decode, chain, w, answers, n, pos);
    VisitedIsRead(decode, chain, w, last, pos, Total(answers, n));
  }

  lemma VisitedIsRead(decode: Decoder, chain: seq<RpcEvent>, w: World, last: World, pos: nat, total: nat)
    requires WorldOk(decode, chain, w) && HasVisited(decode, chain, w, last, pos, total) && pos + total <= |chain|
    ensures PollHasRead(decode, chain, w.mem.m.data, last.mem.m.data, pos, total)
  {
    forall p, name | pos <= p < pos + total && Relevant(decode, chain[p], name)
      ensures decode(chain[p]).value in List(last.mem.m.data, name)
    {
      MemoryIsLogged(decode, chain, last, name);
      LoggedMember(decode, chain, last.mem.order, name, p);
    }
    forall name ensures List(w.mem.m.data, name) <= List(last.mem.m.data, name) {
      MemoryIsLogged(decode, chain, w, name);
      MemoryIsLogged(decode, chain, last, name);
      LoggedGrows(decode, chain, w.mem.order, last.mem.order, name);
    }
  }

  /** The cursor is past the `total` events from `pos` on, their records are listed and no other is lost. */
  predicate PollHasRead(
    decode: Decoder, chain: seq<RpcEvent>, before: StoreData, after: StoreData, pos: nat, total: nat)
  {
    && pos + total <= |chain|
    && after.cursor.eventCursor == (if total > 0 then Some(pos + total) else before.cursor.eventCursor)
    && HoldsAll(decode, chain, after, pos, pos + total)
    && forall name :: List(before, name) <= List(after, name)
  }

  /** At the end of any run, a tick whose poll reads so far leaves the file there; at the end, at the end. */
  method TickReadsOn(
    indexer: EventIndexer, chain: seq<RpcEvent>, answers: seq<(nat, Response)>, ghost n: nat, ghost pos: nat,
    ghost worlds: seq<World>, ghost actions: seq<Action>)
    requires indexer.store.Valid() && !indexer.running && UniqueIds(chain)
    requires IsRun(DecoderOf(indexer.config), chain, worlds, actions)
    requires StandsAt(indexer.store, worlds[|actions|]) && FullPagesThenShort(answers, n)
    requires StartsAt(chain, indexer.store.data.cursor, answers[0].0, pos) && pos + Total(answers, n) <= |chain|
    modifies indexer, indexer.store
    ensures indexer.store.Valid() && !indexer.running
    ensures PollHasRead(DecoderOf(indexer.config), chain, old(indexer.store.data), indexer.store.data,
                        pos, Total(answers, n))
    ensures Loaded(indexer.store.file).data == indexer.store.data
    ensures Total(answers, n) > 0 && pos + Total(answers, n) == |chain| ==>
      Loaded(indexer.store.file).data.cursor.eventCursor == Some(|chain|)
  {
    RunKeeps(DecoderOf(indexer.config), chain, worlds, actions, |actions|);
    PollReadsOn(DecoderOf(indexer.config), chain, worlds[|actions|], answers, n, pos);
    indexer.Tick(chain, answers);
  }

  /** From an empty store, 1001 events are read in two pages, and all that are relevant are listed. */
  lemma SecondPageFollowsFirst(decode: Decoder, chain: seq<RpcEvent>, ledger: nat, latest: nat)
    requires UniqueIds(chain) && |chain| == 1001 && forall i :: 0 <= i < 1001 ==> chain[i].ledger >= ledger
    ensures PollHasRead(decode, chain, EMPTY,
        AfterPoll(decode, chain, Loaded(None),
          [(ledger, Page(1000, 1000, latest)), (ledger, Page(1, 1, latest))]).data,
        0, 1001)
  {
    var answers := [(ledger, Page(1000, 1000, latest)), (ledger, Page(1, 1, latest))];
    assert Total(answers, 2) == Total(answers, 1) + 1 && Total(answers, 1) == Total(answers, 0) + 1000;
    RunKeeps(decode, chain, [INITIAL], [], 0);
    PollReadsOn(decode, chain, INITIAL, answers, 2, 0);
  }

  // ---- What an event says ----

  /** Text i of an event's fields, as the source prints a field that is missing. */
  function TextAt(fields: seq<Field>, i: nat): string {
    if i < |fields| then fields[i].text else "undefined"
  }

  function HexAt(fields: seq<Field>, i: nat): Option<string> {
    if i < |fields| then fields[i].hex else None
  }

  function EnumAt(fields: seq<Field>, i: nat): Option<string> {
    if i < |fields| then fields[i].enumName else None
  }

  /** The event counts at all, and comes from this contract with this topic. */
  predicate Says(ev: RpcEvent, contract: string, ns: string, action: string) {
    && ev.successful && ev.fields.Some?
    && ev.contractId == Some(contract) && ev.ns == Some(ns) && ev.action == Some(action)
  }

  /** The record is the one that the event asks for. */
  predicate RecordOf(config: Config, ev: RpcEvent, r: Record) {
    && ev.fields.Some? && r.id == ev.id && r.ledger == ev.ledger && r.ts == ev.ts
    && var fields := ev.fields.value;
      match r
      case Did(_, kind, controller, _, _) =>
        && controller == TextAt(fields, 0)
        && Says(ev, config.identityRegistryId, "IDENTITY",
             match kind
             case Created => "created"
             case Updated => "updated"
             case Deactivated => "deact"
             case Reactivated => "reactivated")
      case Credential(_, issued, issuer, subject, credentialId, credentialType, _, _) =>
        && credentialId == HexAt(fields, 0)
        && Says(ev, config.credentialManagerId, "CRED", if issued then "issued" else "revoked")
        && (issued ==>
          && issuer == Some(TextAt(fields, 2)) && subject == Some(TextAt(fields, 1))
          && credentialType == EnumAt(fields, 3))
        && (!issued ==> issuer == Some(TextAt(fields, 1)) && subject.None? && credentialType.None?)
      case Issuer(_, added, issuer, _, _) =>
        && issuer == TextAt(fields, 0)
        && Says(ev, config.credentialManagerId, "ISSUER", if added then "added" else "removed")
  }

  /** An event is decoded to a record exactly when it asks for that record. */
  lemma DecodesTo(config: Config, ev: RpcEvent, r: Record)
    ensures DecoderOf(config)(ev) == Some(r) <==> RecordOf(config, ev, r)
  {
  }
}
