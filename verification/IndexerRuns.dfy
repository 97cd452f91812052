/**
 The indexer's methods as runs of the machine in ExactlyOnce: a poll is a stretch of answers, a tick that
 stretch and a save, so the theorems about runs hold for the store that the methods update. And the runs
 whose logs are in chain order at every moment, exactly.
 */
module IndexerRuns {
  import opened Wrappers
  import opened AnalyticsStore
  import opened Indexer
  import opened ExactlyOnce

  // ---- Polls and ticks ----

  /** One enabled action after another, from any world. */
  predicate IsStretch(decode: Decoder, chain: seq<RpcEvent>, worlds: seq<World>, actions: seq<Action>) {
    && |worlds| == |actions| + 1
    && forall i :: 0 <= i < |actions| ==>
      Enabled(chain, worlds[i], actions[i]) && worlds[i + 1] == Next(decode, chain, worlds[i], actions[i])
  }

  lemma Prepended(
    decode: Decoder, chain: seq<RpcEvent>, w: World, action: Action, worlds: seq<World>, actions: seq<Action>)
    requires Enabled(chain, w, action)
    requires IsStretch(decode, chain, worlds, actions) && worlds[0] == Next(decode, chain, w, action)
    ensures IsStretch(decode, chain, [w] + worlds, [action] + actions)
  {
    var longer, taken := [w] + worlds, [action] + actions;
    forall i | 0 <= i < |taken|
      ensures Enabled(chain, longer[i], taken[i]) && longer[i + 1] == Next(decode, chain, longer[i], taken[i])
    {
      if i > 0 {
        assert longer[i] == worlds[i - 1] && taken[i] == actions[i - 1] && longer[i + 1] == worlds[i];
      }
    }
  }

  lemma Joined(
    decode: Decoder, chain: seq<RpcEvent>, worlds: seq<World>, actions: seq<Action>,
    more: seq<World>, taken: seq<Action>)
    requires IsRun(decode, chain, worlds, actions)
    requires IsStretch(decode, chain, more, taken) && more[0] == worlds[|actions|]
    ensures IsRun(decode, chain, worlds + more[1..], actions + taken)
    ensures (worlds + more[1..])[|actions + taken|] == more[|taken|]
  {
    var longer, all := worlds + more[1..], actions + taken;
    forall i | 0 <= i < |all|
      ensures Enabled(chain, longer[i], all[i]) && longer[i + 1] == Next(decode, chain, longer[i], all[i])
    {
      if i < |actions| {
        assert longer[i] == worlds[i] && longer[i + 1] == worlds[i + 1] && all[i] == actions[i];
      } else {
        var j := i - |actions|;
        assert longer[i] == more[j] && longer[i + 1] == more[j + 1] && all[i] == taken[j];
      }
    }
  }

  /** What pollEvents does to the memory is a stretch of answers; the file stays. */
  lemma {:induction false} PollIsStretch(
    decode: Decoder, chain: seq<RpcEvent>, w: World, answers: seq<(nat, Response)>)
    returns (worlds: seq<World>, actions: seq<Action>)
    ensures IsStretch(decode, chain, worlds, actions) && worlds[0] == w
    ensures forall i :: 0 <= i < |actions| ==> actions[i].Answer?
    ensures worlds[|actions|].mem.m == AfterPoll(decode, chain, w.mem.m, answers)
    ensures worlds[|actions|].file == w.file
    decreases |answers|
  {
    if answers == [] || !Fits(chain, w.mem.m.data.cursor, answers[0].0, answers[0].1) {
      worlds, actions := [w], [];
    } else {
      var action := Answer(answers[0].0, answers[0].1);
      var v := Next(decode, chain, w, action);
      if Continues(answers[0].1) {
        worlds, actions := PollIsStretch(decode, chain, v, answers[1..]);
      } else {
        worlds, actions := [v], [];
      }
      Prepended(decode, chain, w, action, worlds, actions);
      worlds, actions := [w] + worlds, [action] + actions;
    }
  }

  /** A tick after any run makes a longer run: the poll's answers, then a save. */
  lemma TickExtendsRun(
    decode: Decoder, chain: seq<RpcEvent>, worlds: seq<World>, actions: seq<Action>, answers: seq<(nat, Response)>)
    returns (longer: seq<World>, taken: seq<Action>)
    requires IsRun(decode, chain, worlds, actions)
    ensures IsRun(decode, chain, longer, taken) && worlds <= longer && actions <= taken
    ensures forall i :: |actions| <= i < |taken| ==> taken[i] == Save || taken[i].Answer?
    ensures longer[|taken|].mem.m == AfterPoll(decode, chain, worlds[|actions|].mem.m, answers)
    ensures longer[|taken|].file.data == longer[|taken|].mem.m.data
  {
    var polled, asked := PollIsStretch(decode, chain, worlds[|actions|], answers);
    Joined(decode, chain, worlds, actions, polled, asked);
    var w := polled[|asked|];
    var saved := [w, Next(decode, chain, w, Save)];
    Joined(decode, chain, worlds + polled[1..], actions + asked, saved, [Save]);
    longer, taken := worlds + polled[1..] + saved[1..], actions + asked + [Save];
  }

  /** The store stands where a run ended. */
  ghost predicate StandsAt(store: Store, w: World)
    reads store
  {
    store.Contents() == w.mem.m && Loaded(store.file).data == w.file.data
  }

  /** A new process stands where a restart leads: every run may go on with it. */
  method Restarted(config: Config, ghost chain: seq<RpcEvent>, ghost w: World, file: Option<StoreData>)
    returns (indexer: EventIndexer)
    requires Loaded(file).data == w.file.data
    ensures fresh(indexer) && fresh(indexer.store) && indexer.config == config && !indexer.running
    ensures indexer.store.Valid()
    ensures StandsAt(indexer.store, Next(DecoderOf(config), chain, w, Restart))
  {
    var store := new Store(file);
    indexer := new EventIndexer(config, store);
  }

  /** However the RPC answers, a tick keeps the store at the end of a run, and so free of duplicates. */
  method TickOnRun(
    indexer: EventIndexer, chain: seq<RpcEvent>, answers: seq<(nat, Response)>,
    ghost worlds: seq<World>, ghost actions: seq<Action>)
    returns (ghost longer: seq<World>, ghost taken: seq<Action>)
    requires indexer.store.Valid() && !indexer.running && UniqueIds(chain)
    requires IsRun(DecoderOf(indexer.config), chain, worlds, actions)
    requires StandsAt(indexer.store, worlds[|actions|])
    modifies indexer, indexer.store
    ensures indexer.store.Valid() && !indexer.running
    ensures IsRun(DecoderOf(indexer.config), chain, longer, taken) && worlds <= longer && actions <= taken
    ensures StandsAt(indexer.store, longer[|taken|])
    ensures forall name :: DistinctIds(List(indexer.store.data, name))
    ensures CursorHoldsAll(DecoderOf(indexer.config), chain, indexer.store.data, longer[|taken|].mem.origin)
  {
    longer, taken := TickExtendsRun(DecoderOf(indexer.config), chain, worlds, actions, answers);
    indexer.Tick(chain, answers);
    LoggedAtMostOnce(DecoderOf(indexer.config), chain, longer, taken, |taken|);
  }

  // ---- Chain order over a run, exactly ----

  /** Both logs list the events of this name in chain order. */
  predicate InOrderAt(chain: seq<RpcEvent>, w: World, name: ListName) {
    InChainOrder(chain, List(w.mem.m.data, name)) && InChainOrder(chain, List(w.file.data, name))
  }

  /** If the action handles events, none that is new comes before one already logged. */
  predicate BringsNothingEarlierAt(decode: Decoder, chain: seq<RpcEvent>, w: World, action: Action, name: ListName) {
    action.Answer? && action.response.Page? ==>
      var pos := PosOf(chain, w, action);
      && Within(chain, w.mem.order) && pos + action.response.handled <= |chain|
      && BringsNothingEarlier(decode, chain, w.mem.order, pos, pos + action.response.handled, name)
  }

  lemma MemoryIsLogged(decode: Decoder, chain: seq<RpcEvent>, w: World, name: ListName)
    requires WorldOk(decode, chain, w)
    ensures Within(chain, w.mem.order) && List(w.mem.m.data, name) == Logged(decode, chain, w.mem.order, name)
  {
  }

  lemma PageSteps(decode: Decoder, chain: seq<RpcEvent>, w: World, action: Action, next: World, pos: nat, end: nat)
    requires Enabled(chain, w, action) && action.Answer? && action.response.Page?
    requires next == Next(decode, chain, w, action)
    requires pos == PosOf(chain, w, action) && end == pos + action.response.handled
    ensures end <= |chain| && next.mem.order == VisitAll(w.mem.order, pos, end) && next.file == w.file
  {
    PageVisits(decode, chain, w.mem, action.initial, action.response);
  }

  lemma AnswerKeepsOrderIff(
    decode: Decoder, chain: seq<RpcEvent>, w: World, action: Action, name: ListName, next: World)
    requires UniqueIds(chain) && InOrderAt(chain, w, name)
    requires Enabled(chain, w, action) && action.Answer? && action.response.Page?
    requires next == Next(decode, chain, w, action)
    requires Within(chain, w.mem.order) && List(w.mem.m.data, name) == Logged(decode, chain, w.mem.order, name)
    requires Within(chain, next.mem.order)
    requires List(next.mem.m.data, name) == Logged(decode, chain, next.mem.order, name)
    ensures InOrderAt(chain, next, name) <==> BringsNothingEarlierAt(decode, chain, w, action, name)
  {
    var pos := PosOf(chain, w, action);
    var end := pos + action.response.handled;
    PageSteps(decode, chain, w, action, next, pos, end);
    PageKeepsChainOrderIff(decode, chain, w.mem.order, pos, end, name);
  }

  lemma StepKeepsOrderIff(
    decode: Decoder, chain: seq<RpcEvent>, w: World, action: Action, name: ListName, next: World)
    requires UniqueIds(chain) && WorldOk(decode, chain, w) && InOrderAt(chain, w, name)
    requires Enabled(chain, w, action) && next == Next(decode, chain, w, action)
    ensures InOrderAt(chain, next, name) <==> BringsNothingEarlierAt(decode, chain, w, action, name)
  {
    if action.Answer? && action.response.Page? {
      NextKeeps(decode, chain, w, action);
      MemoryIsLogged(decode, chain, w, name);
      MemoryIsLogged(decode, chain, next, name);
      AnswerKeepsOrderIff(decode, chain, w, action, name, next);
    } else {
      assert List(next.mem.m.data, name) == List(w.mem.m.data, name)
        || List(next.mem.m.data, name) == List(w.file.data, name);
    }
  }

  /** Both logs are in chain order in the first n worlds after the start, and at the start. */
  predicate InOrderThroughout(chain: seq<RpcEvent>, worlds: seq<World>, n: nat, name: ListName)
    requires n < |worlds|
  {
    forall k :: 0 <= k <= n ==> InOrderAt(chain, worlds[k], name)
  }

  /** None of the first n actions brings an event late. */
  predicate NothingComesLate(
    decode: Decoder, chain: seq<RpcEvent>, worlds: seq<World>, actions: seq<Action>, n: nat, name: ListName)
    requires n <= |actions| <= |worlds|
  {
    forall k :: 0 <= k < n ==> BringsNothingEarlierAt(decode, chain, worlds[k], actions[k], name)
  }

  lemma RunStep(decode: Decoder, chain: seq<RpcEvent>, worlds: seq<World>, actions: seq<Action>, k: nat)
    requires UniqueIds(chain) && IsRun(decode, chain, worlds, actions) && k < |actions|
    ensures WorldOk(decode, chain, worlds[k]) && Enabled(chain, worlds[k], actions[k])
    ensures worlds[k + 1] == Next(decode, chain, worlds[k], actions[k])
  {
    RunKeeps(decode, chain, worlds, actions, k);
  }

  lemma OneMoreWorld(
    decode: Decoder, chain: seq<RpcEvent>, worlds: seq<World>, actions: seq<Action>, n: nat, name: ListName)
    requires 0 < n <= |actions| < |worlds|
    ensures InOrderThroughout(chain, worlds, n, name)
       <==> InOrderThroughout(chain, worlds, n - 1, name) && InOrderAt(chain, worlds[n], name)
    ensures InOrderThroughout(chain, worlds, n - 1, name) ==> InOrderAt(chain, worlds[n - 1], name)
    ensures NothingComesLate(decode, chain, worlds, actions, n, name) ==
      (NothingComesLate(decode, chain, worlds, actions, n - 1, name)
       && BringsNothingEarlierAt(decode, chain, worlds[n - 1], actions[n - 1], name))
  {
  }

  /** Both logs are in chain order at every moment of a run exactly when no page brings an event late. */
  lemma {:induction false} RunInChainOrderIff(
    decode: Decoder, chain: seq<RpcEvent>, worlds: seq<World>, actions: seq<Action>, n: nat, name: ListName)
    requires UniqueIds(chain) && IsRun(decode, chain, worlds, actions) && n <= |actions|
    ensures InOrderThroughout(chain, worlds, n, name) <==> NothingComesLate(decode, chain, worlds, actions, n, name)
  {
    if n > 0 {
      RunInChainOrderIff(decode, chain, worlds, actions, n - 1, name);
      OneMoreWorld(decode, chain, worlds, actions, n, name);
      if InOrderThroughout(chain, worlds, n - 1, name) {
        RunStep(decode, chain, worlds, actions, n - 1);
        StepKeepsOrderIff(decode, chain, worlds[n - 1], actions[n - 1], name, worlds[n]);
      }
    }
  }
}
