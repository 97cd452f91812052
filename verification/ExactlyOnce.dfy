/**
 What the indexer's log holds over any run of requests, failures, saves and restarts. A snapshot
 carries two history variables next to the state of the code: `order`, the chain positions it has
 handled, in the order of their first handling, and `origin`, where its last start-ledger read began.
 */
module ExactlyOnce {
  import opened Wrappers
  import opened AnalyticsStore
  import opened Indexer

  datatype Snapshot = Snapshot(m: Memory, order: seq<nat>, origin: nat)

  /** The file holds the data alone; IDs are collected again when it is read. */
  datatype Saved = Saved(data: StoreData, order: seq<nat>, origin: nat)

  datatype World = World(mem: Snapshot, file: Saved)

  datatype Action = Answer(initial: nat, response: Response) | Save | Restart

  function Fresh(file: Saved): Snapshot {
    Snapshot(Loaded(Some(file.data)), file.order, file.origin)
  }

  const INITIAL := World(Fresh(Saved(EMPTY, [], 0)), Saved(EMPTY, [], 0))

  // ---- History variables ----

  function Visit(order: seq<nat>, p: nat): seq<nat> {
    if p in order then order else order + [p]
  }

  function VisitAll(order: seq<nat>, lo: nat, hi: nat): (result: seq<nat>)
    requires lo <= hi
    ensures order <= result
    ensures forall p :: p in result <==> p in order || lo <= p < hi
  {
    if lo == hi then order else Visit(VisitAll(order, lo, hi - 1), hi - 1)
  }

  function AfterAnswer(decode: Decoder, chain: seq<RpcEvent>, s: Snapshot, initial: nat, response: Response): Snapshot
    requires Fits(chain, s.m.data.cursor, initial, response)
  {
    var pos := RequestPos(chain, s.m.data.cursor, initial);
    var progress := response.Page? && response.handled > 0;
    Snapshot(
      AfterResponse(decode, chain, s.m, initial, response),
      if progress then VisitAll(s.order, pos, pos + response.handled) else s.order,
      if progress && s.m.data.cursor.eventCursor.None? then pos else s.origin)
  }

  predicate Enabled(chain: seq<RpcEvent>, w: World, action: Action) {
    action.Answer? ==> Fits(chain, w.mem.m.data.cursor, action.initial, action.response)
  }

  /** A crash at any moment is a Restart: the file is only ever replaced as a whole. */
  function Next(decode: Decoder, chain: seq<RpcEvent>, w: World, action: Action): World
    requires Enabled(chain, w, action)
  {
    match action
    case Answer(initial, response) => w.(mem := AfterAnswer(decode, chain, w.mem, initial, response))
    case Save => w.(file := Saved(w.mem.m.data, w.mem.order, w.mem.origin))
    case Restart => w.(mem := Fresh(w.file))
  }

  predicate IsRun(decode: Decoder, chain: seq<RpcEvent>, worlds: seq<World>, actions: seq<Action>) {
    && |worlds| == |actions| + 1
    && worlds[0] == INITIAL
    && forall i :: 0 <= i < |actions| ==>
      Enabled(chain, worlds[i], actions[i]) && worlds[i + 1] == Next(decode, chain, worlds[i], actions[i])
  }

  // ---- What a log should hold ----

  predicate UniqueIds(chain: seq<RpcEvent>) {
    forall i, j :: 0 <= i < j < |chain| ==> chain[i].id != chain[j].id
  }

  predicate Relevant(decode: Decoder, ev: RpcEvent, name: ListName) {
    decode(ev).Some? && ListOf(decode(ev).value) == name
  }

  predicate Within(chain: seq<RpcEvent>, order: seq<nat>) {
    forall i :: 0 <= i < |order| ==> order[i] < |chain|
  }

  /** The records of one list, for events handled in the given order. */
  function Logged(decode: Decoder, chain: seq<RpcEvent>, order: seq<nat>, name: ListName): seq<Record>
    requires Within(chain, order)
  {
    if order == [] then []
    else
      var ev := chain[order[|order| - 1]];
      Logged(decode, chain, order[..|order| - 1], name)
      + if Relevant(decode, ev, name) then [decode(ev).value] else []
  }

  function Range(lo: nat, hi: nat): (ps: seq<nat>)
    requires lo <= hi
    ensures |ps| == hi - lo && forall i :: 0 <= i < |ps| ==> ps[i] == lo + i
  {
    seq(hi - lo, i requires 0 <= i < hi - lo => lo + i)
  }

  /** One clean pass over a stretch of the chain. */
  function CleanPass(decode: Decoder, chain: seq<RpcEvent>, lo: nat, hi: nat, name: ListName): seq<Record>
    requires lo <= hi <= |chain|
  {
    Logged(decode, chain, Range(lo, hi), name)
  }

  predicate NoDuplicates(order: seq<nat>) {
    forall i, j :: 0 <= i < j < |order| ==> order[i] != order[j]
  }

  predicate ListsMatch(decode: Decoder, chain: seq<RpcEvent>, data: StoreData, order: seq<nat>) {
    && Within(chain, order)
    && NoDuplicates(order)
    && forall name :: List(data, name) == Logged(decode, chain, order, name)
  }

  /** From where the last start-ledger read began up to the cursor, everything was handled. */
  predicate CursorCovered(chain: seq<RpcEvent>, cursor: Cursor, order: seq<nat>, origin: nat) {
    cursor.eventCursor.Some? ==>
      && origin <= cursor.eventCursor.value <= |chain|
      && forall p :: origin <= p < cursor.eventCursor.value ==> p in order
  }

  /** The log and its cursor agree with the history; nothing here depends on how the RPC behaves. */
  predicate LogMatches(decode: Decoder, chain: seq<RpcEvent>, data: StoreData, order: seq<nat>, origin: nat) {
    ListsMatch(decode, chain, data, order) && CursorCovered(chain, data.cursor, order, origin)
  }

  predicate SeenMatches(decode: Decoder, chain: seq<RpcEvent>, seen: set<string>, order: seq<nat>) {
    forall p :: 0 <= p < |chain| && decode(chain[p]).Some? ==> (chain[p].id in seen <==> p in order)
  }

  predicate MemoryMatches(decode: Decoder, chain: seq<RpcEvent>, m: Memory, order: seq<nat>) {
    ListsMatch(decode, chain, m.data, order) && SeenMatches(decode, chain, m.seen, order)
  }

  predicate SnapshotOk(decode: Decoder, chain: seq<RpcEvent>, s: Snapshot) {
    LogMatches(decode, chain, s.m.data, s.order, s.origin) && SeenMatches(decode, chain, s.m.seen, s.order)
  }

  predicate WorldOk(decode: Decoder, chain: seq<RpcEvent>, w: World) {
    SnapshotOk(decode, chain, w.mem) && LogMatches(decode, chain, w.file.data, w.file.order, w.file.origin)
  }

  // ---- One step keeps it ----

  lemma LoggedOneMore(decode: Decoder, chain: seq<RpcEvent>, order: seq<nat>, p: nat, name: ListName)
    requires Within(chain, order) && p < |chain|
    ensures Logged(decode, chain, order + [p], name)
         == Logged(decode, chain, order, name)
          + if Relevant(decode, chain[p], name) then [decode(chain[p]).value] else []
  {
    assert (order + [p])[..|order|] == order;
  }

  lemma NewEventIsListed(decode: Decoder, chain: seq<RpcEvent>, m: Memory, order: seq<nat>, p: nat)
    requires p < |chain| && p !in order && ListsMatch(decode, chain, m.data, order)
    requires decode(chain[p]).Some? ==> chain[p].id !in m.seen
    ensures ListsMatch(decode, chain, HandleEvent(decode, m, chain[p]).data, order + [p])
  {
    var after := HandleEvent(decode, m, chain[p]).data;
    forall name ensures List(after, name) == Logged(decode, chain, order + [p], name) {
      LoggedOneMore(decode, chain, order, p, name);
    }
  }

  lemma NewEventIsSeen(decode: Decoder, chain: seq<RpcEvent>, m: Memory, order: seq<nat>, p: nat)
    requires UniqueIds(chain) && p < |chain| && SeenMatches(decode, chain, m.seen, order)
    ensures SeenMatches(decode, chain, HandleEvent(decode, m, chain[p]).seen, order + [p])
  {
    forall q | 0 <= q < |chain| && decode(chain[q]).Some?
      ensures chain[q].id in HandleEvent(decode, m, chain[p]).seen <==> q in order + [p]
    {
      assert q != p ==> chain[q].id != chain[p].id;
    }
  }

  lemma HandleEventKeeps(
    decode: Decoder, chain: seq<RpcEvent>, m: Memory, order: seq<nat>, p: nat, after: Memory, visited: seq<nat>)
    requires UniqueIds(chain) && p < |chain| && MemoryMatches(decode, chain, m, order)
    requires after == HandleEvent(decode, m, chain[p]) && visited == Visit(order, p)
    ensures MemoryMatches(decode, chain, after, visited)
  {
    if p !in order {
      NewEventIsListed(decode, chain, m, order, p);
      NewEventIsSeen(decode, chain, m, order, p);
    }
  }

  lemma VisitAllStep(order: seq<nat>, lo: nat, hi: nat)
    requires lo < hi
    ensures VisitAll(order, lo, hi) == Visit(VisitAll(order, lo, hi - 1), hi - 1)
  {
  }

  lemma {:induction false} HandleAllKeeps(
    decode: Decoder, chain: seq<RpcEvent>, m: Memory, order: seq<nat>, lo: nat, hi: nat,
    after: Memory, visited: seq<nat>)
    requires UniqueIds(chain) && lo <= hi <= |chain| && MemoryMatches(decode, chain, m, order)
    requires after == HandleAll(decode, m, chain[lo..hi]) && visited == VisitAll(order, lo, hi)
    ensures MemoryMatches(decode, chain, after, visited)
    decreases hi
  {
    if lo < hi {
      var before, front := HandleAll(decode, m, chain[lo..hi - 1]), VisitAll(order, lo, hi - 1);
      HandleAllKeeps(decode, chain, m, order, lo, hi - 1, before, front);
      HandleAllStep(decode, m, chain, lo, hi);
      VisitAllStep(order, lo, hi);
      HandleEventKeeps(decode, chain, before, front, hi - 1, after, visited);
    } else {
      assert chain[lo..hi] == [];
    }
  }

  lemma {:induction false} LoggedIds(decode: Decoder, chain: seq<RpcEvent>, order: seq<nat>, name: ListName, id: string)
    requires Within(chain, order)
    ensures id in Ids(Logged(decode, chain, order, name)) <==>
      exists p :: p in order && Relevant(decode, chain[p], name) && chain[p].id == id
    decreases |order|
  {
    if order != [] {
      var front, last := order[..|order| - 1], order[|order| - 1];
      LoggedIds(decode, chain, front, name, id);
      assert forall p :: p in order <==> p in front || p == last;
    }
  }

  /** The IDs collected from a file are those of the events it logs. */
  lemma LoadedSeenMatches(decode: Decoder, chain: seq<RpcEvent>, file: Saved)
    requires UniqueIds(chain) && LogMatches(decode, chain, file.data, file.order, file.origin)
    ensures SeenMatches(decode, chain, Loaded(Some(file.data)).seen, file.order)
  {
    var data := file.data;
    forall p | 0 <= p < |chain| && decode(chain[p]).Some?
      ensures chain[p].id in AllIds(data) <==> p in file.order
    {
      var name := ListOf(decode(chain[p]).value);
      assert Relevant(decode, chain[p], name);
      forall l: ListName ensures chain[p].id in Ids(List(data, l)) <==>
          exists q :: q in file.order && Relevant(decode, chain[q], l) && chain[q].id == chain[p].id
      {
        LoggedIds(decode, chain, file.order, l, chain[p].id);
      }
      assert AllIds(data) == Ids(List(data, Dids)) + Ids(List(data, Credentials)) + Ids(List(data, Issuers));
      if p in file.order {
        assert chain[p].id in Ids(List(data, name));
      }
    }
  }

  lemma CursorMoves(decode: Decoder, chain: seq<RpcEvent>, m: Memory, order: seq<nat>, cursor: Cursor)
    requires MemoryMatches(decode, chain, m, order)
    ensures MemoryMatches(decode, chain, m.(data := m.data.(cursor := cursor)), order)
  {
    forall name ensures List(m.data.(cursor := cursor), name) == Logged(decode, chain, order, name) {
      assert List(m.data.(cursor := cursor), name) == List(m.data, name);
    }
  }

  /** A page changes the log as handling its events does, and then perhaps the cursor. */
  lemma PageAppliesToMemory(
    decode: Decoder, chain: seq<RpcEvent>, m: Memory, initial: nat, response: Response, end: nat)
    requires Fits(chain, m.data.cursor, initial, response) && response.Page?
    requires end == RequestPos(chain, m.data.cursor, initial) + response.handled
    ensures
      var after := AfterResponse(decode, chain, m, initial, response);
      var handled := HandleAll(decode, m, chain[RequestPos(chain, m.data.cursor, initial)..end]);
      after == handled.(data := handled.data.(cursor := after.data.cursor))
  {
  }

  lemma PageVisits(decode: Decoder, chain: seq<RpcEvent>, s: Snapshot, initial: nat, response: Response)
    requires Fits(chain, s.m.data.cursor, initial, response) && response.Page?
    ensures
      var pos := RequestPos(chain, s.m.data.cursor, initial);
      AfterAnswer(decode, chain, s, initial, response).order == VisitAll(s.order, pos, pos + response.handled)
  {
  }

  lemma AnswerKeepsMemory(decode: Decoder, chain: seq<RpcEvent>, s: Snapshot, initial: nat, response: Response)
    requires UniqueIds(chain) && SnapshotOk(decode, chain, s)
    requires Fits(chain, s.m.data.cursor, initial, response)
    ensures
      var after := AfterAnswer(decode, chain, s, initial, response);
      MemoryMatches(decode, chain, after.m, after.order)
  {
    var pos := RequestPos(chain, s.m.data.cursor, initial);
    var after := AfterAnswer(decode, chain, s, initial, response);
    if response.Page? {
      var end := pos + response.handled;
      var handled, visited := HandleAll(decode, s.m, chain[pos..end]), VisitAll(s.order, pos, end);
      PageAppliesToMemory(decode, chain, s.m, initial, response, end);
      PageVisits(decode, chain, s, initial, response);
      HandleAllKeeps(decode, chain, s.m, s.order, pos, end, handled, visited);
      CursorMoves(decode, chain, handled, visited, after.m.data.cursor);
    } else {
      CursorMoves(decode, chain, s.m, s.order, after.m.data.cursor);
    }
  }

  lemma AnswerKeepsCursor(decode: Decoder, chain: seq<RpcEvent>, s: Snapshot, initial: nat, response: Response)
    requires SnapshotOk(decode, chain, s) && Fits(chain, s.m.data.cursor, initial, response)
    ensures
      var after := AfterAnswer(decode, chain, s, initial, response);
      CursorCovered(chain, after.m.data.cursor, after.order, after.origin)
  {
  }

  lemma AnswerKeeps(decode: Decoder, chain: seq<RpcEvent>, s: Snapshot, initial: nat, response: Response)
    requires UniqueIds(chain) && SnapshotOk(decode, chain, s)
    requires Fits(chain, s.m.data.cursor, initial, response)
    ensures SnapshotOk(decode, chain, AfterAnswer(decode, chain, s, initial, response))
  {
    AnswerKeepsMemory(decode, chain, s, initial, response);
    AnswerKeepsCursor(decode, chain, s, initial, response);
  }

  lemma NextKeeps(decode: Decoder, chain: seq<RpcEvent>, w: World, action: Action)
    requires UniqueIds(chain) && WorldOk(decode, chain, w) && Enabled(chain, w, action)
    ensures WorldOk(decode, chain, Next(decode, chain, w, action))
  {
    match action
    case Answer(initial, response) => AnswerKeeps(decode, chain, w.mem, initial, response);
    case Save =>
    case Restart => LoadedSeenMatches(decode, chain, w.file);
  }

  lemma {:induction false} RunKeeps(
      decode: Decoder, chain: seq<RpcEvent>, worlds: seq<World>, actions: seq<Action>, n: nat)
    requires UniqueIds(chain) && IsRun(decode, chain, worlds, actions) && n < |worlds|
    ensures WorldOk(decode, chain, worlds[n])
  {
    if n > 0 {
      RunKeeps(decode, chain, worlds, actions, n - 1);
      NextKeeps(decode, chain, worlds[n - 1], actions[n - 1]);
    }
  }

  // ---- Always: no duplicates, nothing before the cursor missing, nothing saved lost ----

  predicate DistinctIds(rs: seq<Record>) {
    forall i, j :: 0 <= i < j < |rs| ==> rs[i].id != rs[j].id
  }

  /** Every relevant event of a stretch of the chain is in its list. */
  predicate HoldsAll(decode: Decoder, chain: seq<RpcEvent>, data: StoreData, lo: nat, hi: nat)
    requires hi <= |chain|
  {
    forall p, name :: lo <= p < hi && Relevant(decode, chain[p], name) ==> decode(chain[p]).value in List(data, name)
  }

  predicate CursorHoldsAll(decode: Decoder, chain: seq<RpcEvent>, data: StoreData, origin: nat) {
    data.cursor.eventCursor.Some? ==>
      && origin <= data.cursor.eventCursor.value <= |chain|
      && HoldsAll(decode, chain, data, origin, data.cursor.eventCursor.value)
  }

  lemma {:induction false} LoggedMember(decode: Decoder, chain: seq<RpcEvent>, order: seq<nat>, name: ListName, p: nat)
    requires Within(chain, order) && p in order && Relevant(decode, chain[p], name)
    ensures decode(chain[p]).value in Logged(decode, chain, order, name)
    decreases |order|
  {
    var front, last := order[..|order| - 1], order[|order| - 1];
    if p != last {
      LoggedMember(decode, chain, front, name, p);
    }
  }

  lemma {:induction false} LoggedDistinct(decode: Decoder, chain: seq<RpcEvent>, order: seq<nat>, name: ListName)
    requires UniqueIds(chain) && Within(chain, order) && NoDuplicates(order)
    ensures DistinctIds(Logged(decode, chain, order, name))
    decreases |order|
  {
    if order != [] {
      var front, last := order[..|order| - 1], order[|order| - 1];
      LoggedDistinct(decode, chain, front, name);
      var ids := Ids(Logged(decode, chain, front, name));
      LoggedIds(decode, chain, front, name, chain[last].id);
      if Relevant(decode, chain[last], name) {
        assert chain[last].id !in ids by {
          forall p | p in front ensures chain[p].id != chain[last].id {
            assert p != last;
          }
        }
        forall i | 0 <= i < |Logged(decode, chain, front, name)|
          ensures Logged(decode, chain, front, name)[i].id != chain[last].id
        {
          assert Logged(decode, chain, front, name)[i].id in ids;
        }
      }
    }
  }

  lemma LogMeans(decode: Decoder, chain: seq<RpcEvent>, data: StoreData, order: seq<nat>, origin: nat)
    requires UniqueIds(chain) && LogMatches(decode, chain, data, order, origin)
    ensures forall name :: DistinctIds(List(data, name))
    ensures CursorHoldsAll(decode, chain, data, origin)
  {
    forall name ensures DistinctIds(List(data, name)) {
      LoggedDistinct(decode, chain, order, name);
    }
    if data.cursor.eventCursor.Some? {
      forall p, name | origin <= p < data.cursor.eventCursor.value && Relevant(decode, chain[p], name)
        ensures decode(chain[p]).value in List(data, name)
      {
        LoggedMember(decode, chain, order, name, p);
      }
    }
  }

  /**
   Over any run, whatever the RPC answers, both logs are free of duplicates and hold every relevant
   event from where their cursor's session began up to that cursor.
   */
  lemma LoggedAtMostOnce(decode: Decoder, chain: seq<RpcEvent>, worlds: seq<World>, actions: seq<Action>, n: nat)
    requires UniqueIds(chain) && IsRun(decode, chain, worlds, actions) && n < |worlds|
    ensures var w := worlds[n];
      && (forall name :: DistinctIds(List(w.mem.m.data, name)) && DistinctIds(List(w.file.data, name)))
      && CursorHoldsAll(decode, chain, w.mem.m.data, w.mem.origin)
      && CursorHoldsAll(decode, chain, w.file.data, w.file.origin)
  {
    RunKeeps(decode, chain, worlds, actions, n);
    var w := worlds[n];
    LogMeans(decode, chain, w.mem.m.data, w.mem.order, w.mem.origin);
    LogMeans(decode, chain, w.file.data, w.file.order, w.file.origin);
  }

  lemma {:induction false} LoggedGrows(
      decode: Decoder, chain: seq<RpcEvent>, shorter: seq<nat>, longer: seq<nat>, name: ListName)
    requires Within(chain, longer) && shorter <= longer
    ensures Within(chain, shorter) && Logged(decode, chain, shorter, name) <= Logged(decode, chain, longer, name)
    decreases |longer|
  {
    if |shorter| < |longer| {
      LoggedGrows(decode, chain, shorter, longer[..|longer| - 1], name);
    } else {
      assert shorter == longer;
    }
  }

  lemma FileOrderIsPrefix(decode: Decoder, chain: seq<RpcEvent>, w: World, action: Action)
    requires Enabled(chain, w, action) && w.file.order <= w.mem.order
    ensures var v := Next(decode, chain, w, action);
      w.file.order <= v.file.order <= v.mem.order
  {
  }

  lemma {:induction false} FileOrderGrows(
      decode: Decoder, chain: seq<RpcEvent>, worlds: seq<World>, actions: seq<Action>, m: nat, n: nat)
    requires IsRun(decode, chain, worlds, actions) && m <= n < |worlds|
    ensures worlds[m].file.order <= worlds[n].file.order <= worlds[n].mem.order
    decreases n
  {
    if n > 0 {
      FileOrderGrows(decode, chain, worlds, actions, if m < n then m else n - 1, n - 1);
      FileOrderIsPrefix(decode, chain, worlds[n - 1], actions[n - 1]);
    }
  }

  /** What was saved once stays: every later log, in memory or in the file, starts with it. */
  lemma SavedIsNeverLost(
    decode: Decoder, chain: seq<RpcEvent>, worlds: seq<World>, actions: seq<Action>, m: nat, n: nat, name: ListName)
    requires UniqueIds(chain) && IsRun(decode, chain, worlds, actions) && m <= n < |worlds|
    ensures List(worlds[m].file.data, name) <= List(worlds[n].file.data, name) <= List(worlds[n].mem.m.data, name)
  {
    RunKeeps(decode, chain, worlds, actions, m);
    RunKeeps(decode, chain, worlds, actions, n);
    FileOrderGrows(decode, chain, worlds, actions, m, n);
    LoggedGrows(decode, chain, worlds[m].file.order, worlds[n].file.order, name);
    LoggedGrows(decode, chain, worlds[n].file.order, worlds[n].mem.order, name);
  }

  // ---- Chain order ----

  /** The event with ID `a` comes before the one with ID `b`. */
  predicate Before(chain: seq<RpcEvent>, a: string, b: string) {
    exists p, q :: 0 <= p < q < |chain| && chain[p].id == a && chain[q].id == b
  }

  predicate InChainOrder(chain: seq<RpcEvent>, rs: seq<Record>) {
    forall i, j :: 0 <= i < j < |rs| ==> Before(chain, rs[i].id, rs[j].id)
  }

  /** The positions of one list's events were handled in increasing order. */
  predicate OrderedFor(decode: Decoder, chain: seq<RpcEvent>, order: seq<nat>, name: ListName)
    requires Within(chain, order)
  {
    forall i, j ::
      (0 <= i < j < |order| && Relevant(decode, chain[order[i]], name) && Relevant(decode, chain[order[j]], name))
      ==> order[i] < order[j]
  }

  lemma BeforeIsLess(chain: seq<RpcEvent>, p: nat, q: nat)
    requires UniqueIds(chain) && p < |chain| && q < |chain|
    ensures Before(chain, chain[p].id, chain[q].id) <==> p < q
  {
    if Before(chain, chain[p].id, chain[q].id) {
      var i, j :| 0 <= i < j < |chain| && chain[i].id == chain[p].id && chain[j].id == chain[q].id;
      assert i == p && j == q;
    }
  }

  lemma {:induction false} OrderedLogIsInChainOrder(
      decode: Decoder, chain: seq<RpcEvent>, order: seq<nat>, name: ListName)
    requires UniqueIds(chain) && Within(chain, order) && OrderedFor(decode, chain, order, name)
    ensures InChainOrder(chain, Logged(decode, chain, order, name))
    decreases |order|
  {
    if order != [] {
      var front, last := order[..|order| - 1], order[|order| - 1];
      var before := Logged(decode, chain, front, name);
      OrderedLogIsInChainOrder(decode, chain, front, name);
      if Relevant(decode, chain[last], name) {
        forall i | 0 <= i < |before| ensures Before(chain, before[i].id, chain[last].id) {
          assert before[i].id in Ids(before);
          LoggedIds(decode, chain, front, name, before[i].id);
          var p :| p in front && Relevant(decode, chain[p], name) && chain[p].id == before[i].id;
          BeforeIsLess(chain, p, last);
        }
      }
    }
  }

  lemma {:induction false} LogInChainOrderIsOrdered(
      decode: Decoder, chain: seq<RpcEvent>, order: seq<nat>, name: ListName)
    requires UniqueIds(chain) && Within(chain, order) && InChainOrder(chain, Logged(decode, chain, order, name))
    ensures OrderedFor(decode, chain, order, name)
    decreases |order|
  {
    if order != [] {
      var front, last := order[..|order| - 1], order[|order| - 1];
      var before, all := Logged(decode, chain, front, name), Logged(decode, chain, order, name);
      assert before <= all;
      assert InChainOrder(chain, before) by {
        forall i, j | 0 <= i < j < |before| ensures Before(chain, before[i].id, before[j].id) {
          assert before[i] == all[i] && before[j] == all[j];
        }
      }
      LogInChainOrderIsOrdered(decode, chain, front, name);
      forall i | 0 <= i < |front| && Relevant(decode, chain[front[i]], name) && Relevant(decode, chain[last], name)
        ensures front[i] < last
      {
        LoggedMember(decode, chain, front, name, front[i]);
        var k :| 0 <= k < |before| && before[k] == decode(chain[front[i]]).value;
        assert all[k] == before[k] && all[|before|] == decode(chain[last]).value;
        BeforeIsLess(chain, front[i], last);
      }
    }
  }

  /** No event of the list that a page brings for the first time comes before one already logged. */
  predicate BringsNothingEarlier(
      decode: Decoder, chain: seq<RpcEvent>, order: seq<nat>, lo: nat, hi: nat, name: ListName)
    requires Within(chain, order) && hi <= |chain|
  {
    forall q, i ::
      (lo <= q < hi && q !in order && Relevant(decode, chain[q], name)
       && 0 <= i < |order| && Relevant(decode, chain[order[i]], name)) ==> order[i] < q
  }

  /** Exactly when a page keeps a list in chain order. */
  lemma PageKeepsChainOrderIff(decode: Decoder, chain: seq<RpcEvent>, order: seq<nat>, lo: nat, hi: nat, name: ListName)
    requires UniqueIds(chain) && Within(chain, order) && lo <= hi <= |chain|
    requires InChainOrder(chain, Logged(decode, chain, order, name))
    ensures Within(chain, VisitAll(order, lo, hi))
    ensures InChainOrder(chain, Logged(decode, chain, VisitAll(order, lo, hi), name)) <==>
      BringsNothingEarlier(decode, chain, order, lo, hi, name)
  {
    var after := VisitAll(order, lo, hi);
    VisitAppendsIncreasing(order, lo, hi, after);
    LogInChainOrderIsOrdered(decode, chain, order, name);
    assert forall j :: 0 <= j < |order| ==> after[j] == order[j];
    forall j | 0 <= j < |after| ensures after[j] < |chain| {
    }
    if InChainOrder(chain, Logged(decode, chain, after, name)) {
      LogInChainOrderIsOrdered(decode, chain, after, name);
      forall q, i | lo <= q < hi && q !in order && Relevant(decode, chain[q], name)
        && 0 <= i < |order| && Relevant(decode, chain[order[i]], name) ensures order[i] < q
      {
        var j :| 0 <= j < |after| && after[j] == q;
        assert after[i] == order[i] && |order| <= j;
      }
    }
    if BringsNothingEarlier(decode, chain, order, lo, hi, name) {
      OrderedLogIsInChainOrder(decode, chain, after, name);
    }
  }

  /** The positions a page adds are new and increasing. */
  lemma {:induction false} VisitAppendsIncreasing(order: seq<nat>, lo: nat, hi: nat, after: seq<nat>)
    requires lo <= hi && after == VisitAll(order, lo, hi)
    ensures forall j :: |order| <= j < |after| ==> lo <= after[j] < hi && after[j] !in order
    ensures forall i, j :: |order| <= i < j < |after| ==> after[i] < after[j]
    decreases hi
  {
    if lo < hi {
      var before := VisitAll(order, lo, hi - 1);
      VisitAppendsIncreasing(order, lo, hi - 1, before);
      assert hi - 1 in order ==> hi - 1 in before;
    }
  }

  // ---- Chain order over a run ----

  /** One past the last position handled. */
  function High(order: seq<nat>): nat {
    if order == [] then 0 else order[|order| - 1] + 1
  }

  predicate Increasing(order: seq<nat>) {
    forall i, j :: 0 <= i < j < |order| ==> order[i] < order[j]
  }

  predicate InSession(cursor: Cursor, order: seq<nat>, origin: nat) {
    && Increasing(order)
    && (order != [] ==> origin <= High(order) && forall p :: origin <= p < High(order) ==> p in order)
    && (cursor.eventCursor.Some? ==> order != [] && origin <= cursor.eventCursor.value <= High(order))
  }

  /** The action handles events from a start ledger rather than from a cursor. */
  predicate IsStartRead(w: World, action: Action) {
    action.Answer? && action.response.Page? && action.response.handled > 0 && w.mem.m.data.cursor.eventCursor.None?
  }

  function PosOf(chain: seq<RpcEvent>, w: World, action: Action): nat
    requires action.Answer?
  {
    RequestPos(chain, w.mem.m.data.cursor, action.initial)
  }

  /** No read goes back to before the place where the current session began. */
  predicate NeverBeforeOrigin(chain: seq<RpcEvent>, worlds: seq<World>, actions: seq<Action>)
    requires |worlds| == |actions| + 1
  {
    forall i :: 0 <= i < |actions| && IsStartRead(worlds[i], actions[i]) && worlds[i].mem.order != []
      ==> worlds[i].mem.origin <= PosOf(chain, worlds[i], actions[i])
  }

  lemma VisitKeepsIncreasing(order: seq<nat>, origin: nat, lo: nat, hi: nat, after: seq<nat>)
    requires lo < hi && after == VisitAll(order, lo, hi) && Increasing(order)
    requires order != [] ==> origin <= lo && forall p :: origin <= p < High(order) ==> p in order
    ensures Increasing(after) && after != [] && hi <= High(after) && High(order) <= High(after)
    ensures lo <= High(order) || order == [] ==> forall p :: lo <= p < High(after) ==> p in after
    ensures forall p :: lo <= p < High(after) ==> p in after
  {
    VisitAppendsIncreasing(order, lo, hi, after);
    assert forall i :: 0 <= i < |order| ==> after[i] == order[i];
    forall i, j | 0 <= i < j < |after| ensures after[i] < after[j] {
      if i < |order| <= j {
        assert order[i] <= order[|order| - 1];
        assert High(order) <= after[j];
      }
    }
    assert hi - 1 in after;
    forall p | lo <= p < High(after) ensures p in after {
      if p >= hi {
        assert after[|after| - 1] >= hi;
        assert |after| == |order|;
        assert High(after) == High(order);
      }
    }
  }

  /** A session after events lo..hi were handled, read from a start ledger or from the cursor. */
  lemma SessionGrows(
    order: seq<nat>, origin: nat, lo: nat, hi: nat, started: bool, after: seq<nat>, cursor: Cursor, next: nat)
    requires lo < hi && after == VisitAll(order, lo, hi) && Increasing(order)
    requires order != [] ==> origin <= lo && origin <= High(order)
    requires order != [] ==> forall p :: origin <= p < High(order) ==> p in order
    requires !started ==> order != [] && lo <= High(order)
    requires next == if started then lo else origin
    requires cursor.eventCursor.Some? ==> next <= cursor.eventCursor.value <= hi
    ensures InSession(cursor, after, next)
  {
    VisitKeepsIncreasing(order, origin, lo, hi, after);
    if !started {
      forall p | origin <= p < High(after) ensures p in after {
        if p < lo {
          assert p in order;
        }
      }
    }
  }

  lemma PageKeepsSession(decode: Decoder, chain: seq<RpcEvent>, w: World, action: Action)
    requires action.Answer? && Enabled(chain, w, action)
    requires action.response.Page? && action.response.handled > 0
    requires InSession(w.mem.m.data.cursor, w.mem.order, w.mem.origin)
    requires IsStartRead(w, action) && w.mem.order != [] ==> w.mem.origin <= PosOf(chain, w, action)
    ensures var v := Next(decode, chain, w, action).mem;
      InSession(v.m.data.cursor, v.order, v.origin)
  {
    var s, pos := w.mem, PosOf(chain, w, action);
    var v, hi := AfterAnswer(decode, chain, s, action.initial, action.response), pos + action.response.handled;
    assert v.m.data.cursor == NextCursor(s.m.data.cursor, pos, action.response);
    SessionGrows(s.order, s.origin, pos, hi, s.m.data.cursor.eventCursor.None?, v.order, v.m.data.cursor, v.origin);
  }

  lemma AnswerKeepsSession(decode: Decoder, chain: seq<RpcEvent>, w: World, action: Action)
    requires action.Answer? && Enabled(chain, w, action)
    requires InSession(w.mem.m.data.cursor, w.mem.order, w.mem.origin)
    requires IsStartRead(w, action) && w.mem.order != [] ==> w.mem.origin <= PosOf(chain, w, action)
    ensures var v := Next(decode, chain, w, action).mem;
      InSession(v.m.data.cursor, v.order, v.origin)
  {
    if action.response.Page? && action.response.handled > 0 {
      PageKeepsSession(decode, chain, w, action);
    }
  }

  lemma {:induction false} RunStaysInSession(
    decode: Decoder, chain: seq<RpcEvent>, worlds: seq<World>, actions: seq<Action>, n: nat)
    requires IsRun(decode, chain, worlds, actions) && NeverBeforeOrigin(chain, worlds, actions) && n < |worlds|
    ensures var w := worlds[n];
      && InSession(w.mem.m.data.cursor, w.mem.order, w.mem.origin)
      && InSession(w.file.data.cursor, w.file.order, w.file.origin)
  {
    if n > 0 {
      RunStaysInSession(decode, chain, worlds, actions, n - 1);
      if actions[n - 1].Answer? {
        AnswerKeepsSession(decode, chain, worlds[n - 1], actions[n - 1]);
      }
    }
  }

  /**
   With or without gaps, if no read goes back to before the start of the current session, both logs
   are in chain order at every moment.
   */
  lemma LogsInChainOrder(
    decode: Decoder, chain: seq<RpcEvent>, worlds: seq<World>, actions: seq<Action>, n: nat, name: ListName)
    requires UniqueIds(chain) && IsRun(decode, chain, worlds, actions) && n < |worlds|
    requires NeverBeforeOrigin(chain, worlds, actions)
    ensures InChainOrder(chain, List(worlds[n].mem.m.data, name))
    ensures InChainOrder(chain, List(worlds[n].file.data, name))
  {
    RunKeeps(decode, chain, worlds, actions, n);
    RunStaysInSession(decode, chain, worlds, actions, n);
    OrderedLogIsInChainOrder(decode, chain, worlds[n].mem.order, name);
    OrderedLogIsInChainOrder(decode, chain, worlds[n].file.order, name);
  }

  // ---- No retention gap ----

  predicate Contiguous(order: seq<nat>) {
    forall i :: 0 <= i < |order| ==> order[i] == order[0] + i
  }

  predicate NoGap(cursor: Cursor, order: seq<nat>) {
    && Contiguous(order)
    && (cursor.eventCursor.Some? ==> order != [] && order[0] <= cursor.eventCursor.value <= High(order))
  }

  /** Every read from a start ledger begins within, or right after, the stretch already handled. */
  predicate ReadsAdjoin(chain: seq<RpcEvent>, worlds: seq<World>, actions: seq<Action>)
    requires |worlds| == |actions| + 1
  {
    forall i :: 0 <= i < |actions| && IsStartRead(worlds[i], actions[i]) && worlds[i].mem.order != []
      ==> worlds[i].mem.order[0] <= PosOf(chain, worlds[i], actions[i]) <= High(worlds[i].mem.order)
  }

  lemma {:induction false} VisitKeepsContiguous(order: seq<nat>, lo: nat, hi: nat, after: seq<nat>)
    requires lo <= hi && after == VisitAll(order, lo, hi) && Contiguous(order)
    requires order != [] ==> order[0] <= lo <= High(order)
    ensures Contiguous(after)
    ensures order != [] ==> after != [] && after[0] == order[0]
    ensures order != [] ==> High(after) == if hi > High(order) then hi else High(order)
    ensures order == [] && lo < hi ==> after != [] && after[0] == lo && High(after) == hi
    decreases hi
  {
    if lo < hi {
      var before := VisitAll(order, lo, hi - 1);
      VisitKeepsContiguous(order, lo, hi - 1, before);
      if before != [] && hi - 1 < High(before) {
        assert before[hi - 1 - before[0]] == hi - 1;
      } else if before != [] {
        assert hi - 1 !in before;
      }
    }
  }

  lemma AnswerKeepsNoGap(decode: Decoder, chain: seq<RpcEvent>, w: World, action: Action)
    requires action.Answer? && Enabled(chain, w, action) && NoGap(w.mem.m.data.cursor, w.mem.order)
    requires IsStartRead(w, action) && w.mem.order != []
      ==> w.mem.order[0] <= PosOf(chain, w, action) <= High(w.mem.order)
    ensures NoGap(Next(decode, chain, w, action).mem.m.data.cursor, Next(decode, chain, w, action).mem.order)
  {
    var response, cursor := action.response, w.mem.m.data.cursor;
    var pos := PosOf(chain, w, action);
    var v := Next(decode, chain, w, action).mem;
    assert v.m.data.cursor == NextCursor(cursor, pos, response);
    if response.Page? && response.handled > 0 {
      VisitKeepsContiguous(w.mem.order, pos, pos + response.handled, v.order);
    } else {
      assert v.order == w.mem.order;
    }
  }

  lemma {:induction false} RunHasNoGap(
    decode: Decoder, chain: seq<RpcEvent>, worlds: seq<World>, actions: seq<Action>, n: nat)
    requires IsRun(decode, chain, worlds, actions) && ReadsAdjoin(chain, worlds, actions) && n < |worlds|
    ensures var w := worlds[n];
      NoGap(w.mem.m.data.cursor, w.mem.order) && NoGap(w.file.data.cursor, w.file.order)
  {
    if n > 0 {
      RunHasNoGap(decode, chain, worlds, actions, n - 1);
      if actions[n - 1].Answer? {
        AnswerKeepsNoGap(decode, chain, worlds[n - 1], actions[n - 1]);
      }
    }
  }

  /** Where a log without gaps begins. */
  function Low(order: seq<nat>): (low: nat)
    ensures Contiguous(order) ==> low <= High(order)
  {
    if order == [] then 0 else order[0]
  }

  lemma NoGapIsCleanPass(decode: Decoder, chain: seq<RpcEvent>, data: StoreData, order: seq<nat>, origin: nat)
    requires LogMatches(decode, chain, data, order, origin) && NoGap(data.cursor, order)
    ensures Low(order) <= High(order) <= |chain|
    ensures forall name :: List(data, name) == CleanPass(decode, chain, Low(order), High(order), name)
    ensures data.cursor.eventCursor == Some(|chain|) ==> High(order) == |chain|
  {
    assert order == Range(Low(order), High(order));
  }

  /**
   With no retention gap, both logs are at every moment one clean pass over a stretch of the chain
   that reaches at least to their cursor; a log whose cursor is at the end of the chain is one clean
   pass from where it began to the end.
   */
  lemma LogsAreCleanPasses(
    decode: Decoder, chain: seq<RpcEvent>, worlds: seq<World>, actions: seq<Action>, n: nat, name: ListName)
    requires UniqueIds(chain) && IsRun(decode, chain, worlds, actions) && n < |worlds|
    requires ReadsAdjoin(chain, worlds, actions)
    ensures IsCleanPass(decode, chain, worlds[n].mem.m.data, worlds[n].mem.order, name)
    ensures IsCleanPass(decode, chain, worlds[n].file.data, worlds[n].file.order, name)
  {
    RunKeeps(decode, chain, worlds, actions, n);
    RunHasNoGap(decode, chain, worlds, actions, n);
    var w := worlds[n];
    NoGapIsCleanPass(decode, chain, w.mem.m.data, w.mem.order, w.mem.origin);
    NoGapIsCleanPass(decode, chain, w.file.data, w.file.order, w.file.origin);
  }

  predicate IsCleanPass(decode: Decoder, chain: seq<RpcEvent>, data: StoreData, order: seq<nat>, name: ListName) {
    && Low(order) <= High(order) <= |chain|
    && List(data, name) == CleanPass(decode, chain, Low(order), High(order), name)
    && (data.cursor.eventCursor.Some? ==> Low(order) <= data.cursor.eventCursor.value <= High(order))
    && (data.cursor.eventCursor == Some(|chain|) ==>
      List(data, name) == CleanPass(decode, chain, Low(order), |chain|, name))
  }

  /**
   Moving the start ledger to the latest one after an empty page loses no event: if the events the
   RPC has not shown yet lie in that ledger or later, the next request starts at the same place.
   */
  lemma EmptyPageSkipsNothing(chain: seq<RpcEvent>, cursor: Cursor, initial: nat, latest: nat, later: nat)
    requires forall i, j :: 0 <= i < j < |chain| ==> chain[i].ledger <= chain[j].ledger
    requires cursor.eventCursor.None? && RequestLedger(cursor, initial) <= latest
    requires forall i :: RequestPos(chain, cursor, initial) <= i < |chain| ==> latest <= chain[i].ledger
    ensures var pos := RequestPos(chain, cursor, initial);
      RequestPos(chain, NextCursor(cursor, pos, Page(0, 0, latest)), later) == pos
  {
  }

  // ---- A restart before the first event read ----

  /** A look-back start at ledger 2, then a range error that names ledger 0, then a full read. */
  const REWIND := [Answer(2, Page(1, 1, 2)), Answer(0, RangeError(Some(0))), Answer(0, Page(2, 2, 2))]

  /** The second read starts before the first one did, so the older event is logged second. */
  lemma RewindBreaksChainOrder(decode: Decoder, chain: seq<RpcEvent>, name: ListName) returns (worlds: seq<World>)
    requires |chain| == 2 && chain[0].ledger == 1 && chain[1].ledger == 2 && UniqueIds(chain)
    requires Relevant(decode, chain[0], name) && Relevant(decode, chain[1], name)
    ensures IsRun(decode, chain, worlds, REWIND)
    ensures !InChainOrder(chain, List(worlds[3].mem.m.data, name))
  {
    worlds := TwoReads(decode, chain);
    RunKeeps(decode, chain, worlds, REWIND, 3);
    if InChainOrder(chain, List(worlds[3].mem.m.data, name)) {
      LogInChainOrderIsOrdered(decode, chain, [1, 0], name);
    }
  }

  /** The run itself: the events are handled in the order 1, 0. */
  lemma TwoReads(decode: Decoder, chain: seq<RpcEvent>) returns (worlds: seq<World>)
    requires |chain| == 2 && chain[0].ledger == 1 && chain[1].ledger == 2
    ensures IsRun(decode, chain, worlds, REWIND) && worlds[3].mem.order == [1, 0]
  {
    var w1 := FirstRead(decode, chain);
    var w2 := RangeErrorRead(decode, chain, w1);
    var w3 := SecondRead(decode, chain, w2);
    worlds := [INITIAL, w1, w2, w3];
    RunOfThree(decode, chain, worlds);
  }

  lemma RunOfThree(decode: Decoder, chain: seq<RpcEvent>, worlds: seq<World>)
    requires |worlds| == 4 && worlds[0] == INITIAL
    requires Enabled(chain, worlds[0], REWIND[0]) && worlds[1] == Next(decode, chain, worlds[0], REWIND[0])
    requires Enabled(chain, worlds[1], REWIND[1]) && worlds[2] == Next(decode, chain, worlds[1], REWIND[1])
    requires Enabled(chain, worlds[2], REWIND[2]) && worlds[3] == Next(decode, chain, worlds[2], REWIND[2])
    ensures IsRun(decode, chain, worlds, REWIND)
  {
    forall i | 0 <= i < 3
      ensures Enabled(chain, worlds[i], REWIND[i]) && worlds[i + 1] == Next(decode, chain, worlds[i], REWIND[i])
    {
      assert i == 0 || i == 1 || i == 2;
    }
  }

  lemma RangeErrorRead(decode: Decoder, chain: seq<RpcEvent>, w: World) returns (next: World)
    ensures Enabled(chain, w, REWIND[1]) && next == Next(decode, chain, w, REWIND[1])
    ensures next.mem.order == w.mem.order
    ensures next.mem.m.data.cursor.eventCursor.None? && RequestLedger(next.mem.m.data.cursor, 0) == 1
  {
    next := Next(decode, chain, w, REWIND[1]);
  }

  lemma FirstRead(decode: Decoder, chain: seq<RpcEvent>) returns (w: World)
    requires |chain| == 2 && chain[0].ledger == 1 && chain[1].ledger == 2
    ensures Enabled(chain, INITIAL, REWIND[0]) && w == Next(decode, chain, INITIAL, REWIND[0])
    ensures w.mem.order == [1]
  {
    assert StartPos(chain[1..], 2) == 0 && StartPos(chain, 2) == 1;
    w := Next(decode, chain, INITIAL, REWIND[0]);
    assert VisitAll([], 1, 2) == [1];
  }

  lemma SecondRead(decode: Decoder, chain: seq<RpcEvent>, w: World) returns (next: World)
    requires |chain| == 2 && chain[0].ledger == 1 && chain[1].ledger == 2
    requires w.mem.order == [1] && w.mem.m.data.cursor.eventCursor.None? && RequestLedger(w.mem.m.data.cursor, 0) == 1
    ensures Enabled(chain, w, REWIND[2]) && next == Next(decode, chain, w, REWIND[2])
    ensures next.mem.order == [1, 0]
  {
    assert StartPos(chain, 1) == 0;
    next := Next(decode, chain, w, REWIND[2]);
    assert VisitAll([1], 0, 1) == [1, 0] && VisitAll([1], 0, 2) == [1, 0];
  }
}
