/** Lazy cleanup, seen from outside: the pruning saver against a log that never forgets. */
module LazyCleanup {
  import opened Wrappers
  import opened Seqs
  import opened StringOrder
  import opened StableSorting
  import opened Checkpoints
  import opened Listing
  import opened SaverModel

  // ----- The reference: an append-only log -----

  function Cap(cfg: TtlConfig, h: seq<CheckpointTuple>): seq<CheckpointTuple> {
    if cfg.maxCheckpoints.None? then h else Take(h, cfg.maxCheckpoints.value)
  }

  /** The first `max` live tuples of a history. */
  function View(cfg: TtlConfig, parse: TimestampParser, h: seq<CheckpointTuple>, now: int): seq<CheckpointTuple> {
    Cap(cfg, Filter(h, Live(cfg, parse, now)))
  }

  /** What a reader of the log sees: everything ever put there, ordered, unexpired, the newest `max`. */
  function LogView(log: SaverState, cfg: TtlConfig, parse: TimestampParser, thread: string, ns: string, now: int)
    : seq<CheckpointTuple>
  {
    View(cfg, parse, Sort(History(log.storage, thread, ns), Newer), now)
  }

  /** The same operations on a store that only ever appends. */
  function LogStep(log: SaverState, cfg: TtlConfig, parse: TimestampParser, op: Op, now: int): (SaverState, Reply) {
    if op.config.threadId.None? then (log, Err(NO_THREAD))
    else
      var thread, ns := op.config.threadId.value, op.config.NsKey();
      match op
      case GetTuple(config) =>
        var picked := Pick(LogView(log, cfg, parse, thread, ns, now), config.checkpointId);
        (log, Ok(Found(AttachWrites(picked, log.writes, thread, ns))))
      case List(config, filter) =>
        (log, Ok(Listed(MemoryList(LogView(log, cfg, parse, thread, ns, now), filter))))
      case Put(config, checkpoint, metadata) =>
        var h := History(log.storage, thread, ns) + [NewTuple(config, checkpoint, metadata)];
        (log.(storage := SetHistory(log.storage, thread, ns, h)),
         Ok(Stored(config.(checkpointId := Some(checkpoint.id)))))
      case PutWrites(config, writes, taskId) =>
        if config.checkpointId.None? then (log, Err(NO_CHECKPOINT))
        else
          (log.(writes := AddWrites(log.writes, (thread, config.checkpointId.value, ns), writes, taskId)), Ok(Done))
  }

  function LogRun(log: SaverState, cfg: TtlConfig, parse: TimestampParser, events: seq<Event>)
    : (r: (SaverState, seq<Reply>))
    ensures |r.1| == |events|
  {
    if events == [] then (log, [])
    else
      var n := |events| - 1;
      var (before, replies) := LogRun(log, cfg, parse, events[..n]);
      var (after, reply) := LogStep(before, cfg, parse, events[n].op, events[n].now);
      (after, replies + [reply])
  }

  // ----- What the log holds, and what a view of it is -----

  predicate PutsInto(e: Event, thread: string, ns: string) {
    e.op.Put? && e.op.config.threadId == Some(thread) && e.op.config.NsKey() == ns
  }

  /** Every tuple ever put there, in the order of the puts. */
  function AllPuts(events: seq<Event>, thread: string, ns: string): seq<CheckpointTuple> {
    if events == [] then []
    else
      var e := events[|events| - 1];
      AllPuts(events[..|events| - 1], thread, ns)
        + if PutsInto(e, thread, ns) then [NewTuple(e.op.config, e.op.checkpoint, e.op.metadata)] else []
  }

  predicate WritesInto(e: Event, key: (string, string, string)) {
    && e.op.PutWrites? && e.op.config.threadId == Some(key.0) && e.op.config.checkpointId == Some(key.1)
    && e.op.config.NsKey() == key.2
  }

  /** Every write ever put for a checkpoint, each carrying its task. */
  function AllWrites(events: seq<Event>, key: (string, string, string)): seq<PendingWrite> {
    if events == [] then []
    else
      var e := events[|events| - 1];
      AllWrites(events[..|events| - 1], key) + if WritesInto(e, key) then WithTask(e.op.writes, e.op.taskId) else []
  }

  lemma LogStepHistory(
      log: SaverState, cfg: TtlConfig, parse: TimestampParser, e: Event, thread: string, ns: string)
    ensures History(LogStep(log, cfg, parse, e.op, e.now).0.storage, thread, ns) == History(log.storage, thread, ns)
      + if PutsInto(e, thread, ns) then [NewTuple(e.op.config, e.op.checkpoint, e.op.metadata)] else []
  {
    hide LogView;
    var h := History(log.storage, thread, ns);
    assert h + [] == h;
  }

  lemma LogStepWrites(
      log: SaverState, cfg: TtlConfig, parse: TimestampParser, e: Event, key: (string, string, string))
    ensures var writes := LogStep(log, cfg, parse, e.op, e.now).0.writes;
      (if key in writes then writes[key] else []) == (if key in log.writes then log.writes[key] else [])
        + if WritesInto(e, key) then WithTask(e.op.writes, e.op.taskId) else []
  {
    hide LogView;
    var ws := if key in log.writes then log.writes[key] else [];
    assert ws + [] == ws;
  }

  /** The log is what its name says: all puts and all writes, whatever was read in between. */
  lemma {:induction false} LogHoldsEverything(cfg: TtlConfig, parse: TimestampParser, events: seq<Event>)
    ensures var log := LogRun(EMPTY, cfg, parse, events).0;
      && (forall thread, ns :: History(log.storage, thread, ns) == AllPuts(events, thread, ns))
      && (forall key :: (if key in log.writes then log.writes[key] else []) == AllWrites(events, key))
  {
    hide LogStep, PutsInto, WritesInto, WithTask;
    if events != [] {
      var n := |events| - 1;
      LogHoldsEverything(cfg, parse, events[..n]);
      var log := LogRun(EMPTY, cfg, parse, events[..n]).0;
      forall thread, ns ensures History(LogRun(EMPTY, cfg, parse, events).0.storage, thread, ns) == AllPuts(events, thread, ns) {
        LogStepHistory(log, cfg, parse, events[n], thread, ns);
      }
      forall key ensures
        var writes := LogRun(EMPTY, cfg, parse, events).0.writes;
        (if key in writes then writes[key] else []) == AllWrites(events, key)
      {
        LogStepWrites(log, cfg, parse, events[n], key);
      }
    }
  }

  /**
   * A view of the log, without reference to sorting: newest first, every member put and live, at most
   * `max` of them, and a live tuple is left out only when `max` others at least as new are shown.
   */
  lemma ViewIsNewestLive(
      log: SaverState, cfg: TtlConfig, parse: TimestampParser, thread: string, ns: string, now: int)
    ensures var view, all := LogView(log, cfg, parse, thread, ns, now), History(log.storage, thread, ns);
      && Sorted(view, Newer)
      && (forall t :: t in view ==> t in all && Live(cfg, parse, now)(t))
      && (cfg.maxCheckpoints.Some? ==> |view| <= cfg.maxCheckpoints.value)
      && (forall t :: t in all && Live(cfg, parse, now)(t) && t !in view ==>
           && cfg.maxCheckpoints.Some? && |view| == cfg.maxCheckpoints.value
           && forall u :: u in view ==> Newer(u, t))
  {
    hide Filter, Sort, Newer, IsExpired, Take;
    var all := History(log.storage, thread, ns);
    var live := Filter(Sort(all, Newer), Live(cfg, parse, now));
    NewerOrders();
    SortIsStable(all, Newer);
    SortMembers(all, Newer);
    FilterSorted(Sort(all, Newer), Live(cfg, parse, now), Newer);
    CapShows(cfg, live);
  }

  /** The capped part of a sorted list, and what it leaves out. */
  lemma CapShows(cfg: TtlConfig, live: seq<CheckpointTuple>)
    requires Sorted(live, Newer)
    ensures Sorted(Cap(cfg, live), Newer)
    ensures forall t :: t in Cap(cfg, live) ==> t in live
    ensures cfg.maxCheckpoints.Some? ==> |Cap(cfg, live)| <= cfg.maxCheckpoints.value
    ensures forall t :: t in live && t !in Cap(cfg, live) ==>
      && cfg.maxCheckpoints.Some? && |Cap(cfg, live)| == cfg.maxCheckpoints.value
      && forall u :: u in Cap(cfg, live) ==> Newer(u, t)
  {
    hide Newer;
    forall t | t in live && t !in Cap(cfg, live)
      ensures cfg.maxCheckpoints.Some? && |Cap(cfg, live)| == cfg.maxCheckpoints.value
      ensures forall u :: u in Cap(cfg, live) ==> Newer(u, t)
    {
    }
  }

  /** Without an id, a read returns the newest of the view. */
  lemma LatestIsNewest(
      log: SaverState, cfg: TtlConfig, parse: TimestampParser, thread: string, ns: string, now: int)
    requires cfg.maxCheckpoints != Some(0)
    ensures var latest, all := Pick(LogView(log, cfg, parse, thread, ns, now), None), History(log.storage, thread, ns);
      match latest
      case Some(t) => t in all && Live(cfg, parse, now)(t)
                      && forall u :: u in all && Live(cfg, parse, now)(u) ==> Newer(t, u)
      case None => forall u :: u in all ==> !Live(cfg, parse, now)(u)
  {
    ViewIsNewestLive(log, cfg, parse, thread, ns, now);
    NewerOrders();
    var view := LogView(log, cfg, parse, thread, ns, now);
    if view != [] {
      forall u | u in view ensures Newer(view[0], u) {
        var i :| 0 <= i < |view| && view[i] == u;
      }
    }
  }

  // ----- Runs -----

  /** A created_at drawn from `stamps` and not ahead of the clock. */
  ghost predicate Timely(stamps: iset<string>, parse: TimestampParser, createdAt: string, now: int) {
    createdAt in stamps && (parse(createdAt).Some? ==> parse(createdAt).value <= now)
  }

  ghost predicate EventAdmissible(stamps: iset<string>, parse: TimestampParser, e: Event) {
    e.op.Put? ==> Timely(stamps, parse, e.op.checkpoint.createdAt, e.now)
  }

  /** The clock never goes back, and every checkpoint is put no earlier than it was created. */
  ghost predicate Admissible(stamps: iset<string>, parse: TimestampParser, events: seq<Event>) {
    && (forall i, j :: 0 <= i < j < |events| ==> events[i].now <= events[j].now)
    && (forall i :: 0 <= i < |events| ==> EventAdmissible(stamps, parse, events[i]))
  }

  /** A reply without the pending writes attached to the tuple. */
  function WithoutWrites(r: Reply): Reply {
    if r.Ok? && r.value.Found? && r.value.tuple.Some?
    then Ok(Found(Some(r.value.tuple.value.(pendingWrites := []))))
    else r
  }

  ghost predicate SameButWrites(a: seq<Reply>, b: seq<Reply>) {
    |a| == |b| && forall i :: 0 <= i < |a| ==> WithoutWrites(a[i]) == WithoutWrites(b[i])
  }

  /** The text order of two timestamps does not contradict the instants they denote (unreadable = never expires). */
  ghost predicate NoEarlier(parse: TimestampParser, a: string, b: string) {
    parse(a).Some? ==> parse(b).Some? && parse(b).value <= parse(a).value
  }

  /** Sorting these timestamps as text sorts them by instant. */
  ghost predicate TextOrderIsTimeOrder(stamps: iset<string>, parse: TimestampParser) {
    forall a, b :: a in stamps && b in stamps && StrLess(b, a) ==> NoEarlier(parse, a, b)
  }

  /** `a` sorts after `b` as text, yet within its lifetime `b` appears and then outlives it. */
  ghost predicate Overtakes(parse: TimestampParser, ttl: nat, a: string, b: string) {
    StrLess(b, a) && parse(a).Some? &&
    (parse(b).Some? ==> parse(a).value < parse(b).value <= parse(a).value + ttl)
  }

  /** The configurations that never expire, never cap, or show nothing. */
  predicate KeepsWrites(cfg: TtlConfig) {
    cfg.defaultTtl.None? || cfg.maxCheckpoints.None? || cfg.maxCheckpoints == Some(0)
  }

  /** The cap of this configuration never drops a checkpoint that outlives one it keeps. */
  ghost predicate CapIsSafe(stamps: iset<string>, parse: TimestampParser, cfg: TtlConfig) {
    KeepsWrites(cfg) ||
    forall a, b :: a in stamps && b in stamps ==> !Overtakes(parse, cfg.defaultTtl.value, a, b)
  }

  /** No timestamp outlives another. */
  ghost predicate Simultaneous(stamps: iset<string>, parse: TimestampParser) {
    forall a, b :: a in stamps && b in stamps ==> NoEarlier(parse, a, b)
  }

  /** No run with these timestamps under this configuration can tell the pruning saver from the log. */
  ghost predicate UnobservableUnder(stamps: iset<string>, parse: TimestampParser, cfg: TtlConfig) {
    forall events :: Admissible(stamps, parse, events) ==>
      SameButWrites(Run(EMPTY, cfg, parse, events).1, LogRun(EMPTY, cfg, parse, events).1)
  }

  /** Nor under any configuration. */
  ghost predicate CleanupUnobservable(stamps: iset<string>, parse: TimestampParser) {
    forall cfg :: UnobservableUnder(stamps, parse, cfg)
  }

  // ----- Expiry along a sorted history -----

  lemma NewerOrders()
    ensures TotalPreorder(Newer)
  {
    StrOrderFacts();
  }

  ghost predicate AllTimely(stamps: iset<string>, parse: TimestampParser, h: seq<CheckpointTuple>, now: int) {
    forall t :: t in h ==> Timely(stamps, parse, t.checkpoint.createdAt, now)
  }

  /** A tuple expired at one reading stays expired. */
  lemma ExpiryIsFinal(
      stamps: iset<string>, parse: TimestampParser, cfg: TtlConfig, t: CheckpointTuple, now: int, later: int)
    requires Timely(stamps, parse, t.checkpoint.createdAt, now) && now <= later
    requires Live(cfg, parse, later)(t)
    ensures Live(cfg, parse, now)(t)
  {
  }

  /** Of the tuples live at one reading, those still live later come first. */
  lemma LaterLiveIsPrefix(
      stamps: iset<string>, parse: TimestampParser, cfg: TtlConfig, kept: seq<CheckpointTuple>, now: int, later: int)
    requires CapIsSafe(stamps, parse, cfg) && cfg.maxCheckpoints.Some? && cfg.maxCheckpoints != Some(0)
    requires Sorted(kept, Newer) && AllTimely(stamps, parse, kept, now) && now <= later
    requires forall t :: t in kept ==> Live(cfg, parse, now)(t)
    ensures PrefixClosed(kept, Live(cfg, parse, later))
  {
    var q := Live(cfg, parse, later);
    forall i, j | 0 <= i < j < |kept| && q(kept[j]) ensures q(kept[i]) {
      assert Newer(kept[i], kept[j]) && kept[i] in kept && kept[j] in kept;
      var a, b := kept[i].checkpoint.createdAt, kept[j].checkpoint.createdAt;
      assert Live(cfg, parse, now)(kept[i]);
      assert cfg.defaultTtl.Some? ==> !Overtakes(parse, cfg.defaultTtl.value, a, b);
    }
  }

  /** Storing what one read saw loses nothing that a later read would see. */
  lemma PruneInvisible(
      stamps: iset<string>, parse: TimestampParser, cfg: TtlConfig, h: seq<CheckpointTuple>, now: int, later: int)
    requires CapIsSafe(stamps, parse, cfg) && Sorted(h, Newer) && AllTimely(stamps, parse, h, now)
    requires now <= later
    ensures View(cfg, parse, View(cfg, parse, h, now), later) == View(cfg, parse, h, later)
  {
    var p, q := Live(cfg, parse, now), Live(cfg, parse, later);
    var kept := Filter(h, p);
    forall t | t in h && q(t) ensures p(t) {
      ExpiryIsFinal(stamps, parse, cfg, t, now, later);
    }
    FilterAbsorb(h, p, q);
    if cfg.maxCheckpoints.Some? && cfg.maxCheckpoints != Some(0) {
      var max := cfg.maxCheckpoints.value;
      FilterSorted(h, p, Newer);
      LaterLiveIsPrefix(stamps, parse, cfg, kept, now, later);
      FilterTake(kept, q, max);
      assert Filter(Take(kept, max), q) == Take(Filter(h, q), max);
    }
  }

  /** What a put adds to a view depends only on the view. */
  lemma ViewAfterInsert(
      parse: TimestampParser, cfg: TtlConfig, t: CheckpointTuple, a: seq<CheckpointTuple>, b: seq<CheckpointTuple>,
      now: int)
    requires Sorted(a, Newer) && Sorted(b, Newer)
    requires View(cfg, parse, a, now) == View(cfg, parse, b, now)
    ensures View(cfg, parse, Insert(t, a, Newer), now) == View(cfg, parse, Insert(t, b, Newer), now)
  {
    var p := Live(cfg, parse, now);
    NewerOrders();
    FilterInsert(t, a, p, Newer);
    FilterInsert(t, b, p, Newer);
    if cfg.maxCheckpoints.Some? {
      TakeInsert(t, Filter(a, p), cfg.maxCheckpoints.value, Newer);
      TakeInsert(t, Filter(b, p), cfg.maxCheckpoints.value, Newer);
    }
  }

  // ----- The coupling of one (thread, namespace) -----

  /** From now on, the stored history `h` and the log `l` look the same. */
  ghost predicate LooksLike(
      cfg: TtlConfig, parse: TimestampParser, h: seq<CheckpointTuple>, l: seq<CheckpointTuple>, now: int) {
    forall later :: now <= later ==> View(cfg, parse, h, later) == View(cfg, parse, Sort(l, Newer), later)
  }

  ghost predicate Coupled(
      stamps: iset<string>, parse: TimestampParser, cfg: TtlConfig,
      h: seq<CheckpointTuple>, l: seq<CheckpointTuple>, now: int) {
    && Sorted(h, Newer)
    && AllTimely(stamps, parse, h, now)
    && LooksLike(cfg, parse, h, l, now)
  }

  lemma CoupledLater(
      stamps: iset<string>, parse: TimestampParser, cfg: TtlConfig,
      h: seq<CheckpointTuple>, l: seq<CheckpointTuple>, now: int, later: int)
    requires Coupled(stamps, parse, cfg, h, l, now) && now <= later
    ensures Coupled(stamps, parse, cfg, h, l, later)
  {
  }

  lemma CoupledRead(
      stamps: iset<string>, parse: TimestampParser, cfg: TtlConfig,
      h: seq<CheckpointTuple>, l: seq<CheckpointTuple>, now: int)
    requires CapIsSafe(stamps, parse, cfg) && Coupled(stamps, parse, cfg, h, l, now)
    ensures Coupled(stamps, parse, cfg, View(cfg, parse, h, now), l, now)
  {
    var v := View(cfg, parse, h, now);
    FilterSorted(h, Live(cfg, parse, now), Newer);
    assert forall t :: t in v ==> t in h;
    forall later | now <= later ensures View(cfg, parse, v, later) == View(cfg, parse, Sort(l, Newer), later) {
      PruneInvisible(stamps, parse, cfg, h, now, later);
    }
  }

  lemma CoupledPut(
      stamps: iset<string>, parse: TimestampParser, cfg: TtlConfig,
      h: seq<CheckpointTuple>, l: seq<CheckpointTuple>, t: CheckpointTuple, now: int)
    requires Coupled(stamps, parse, cfg, h, l, now) && Timely(stamps, parse, t.checkpoint.createdAt, now)
    ensures Coupled(stamps, parse, cfg, Sort(h + [t], Newer), l + [t], now)
  {
    NewerOrders();
    SortSnoc(h, t, Newer);
    SortOfSorted(h, Newer);
    SortSnoc(l, t, Newer);
    InsertSorted(t, h, Newer);
    InsertMembers(t, h, Newer);
    SortIsStable(l, Newer);
    forall later | now <= later
      ensures View(cfg, parse, Insert(t, h, Newer), later) == View(cfg, parse, Insert(t, Sort(l, Newer), Newer), later)
    {
      ViewAfterInsert(parse, cfg, t, h, Sort(l, Newer), later);
    }
  }

  // ----- The coupling of whole stores -----

  ghost predicate CoupledStores(
      stamps: iset<string>, parse: TimestampParser, cfg: TtlConfig, st: SaverState, log: SaverState, now: int) {
    forall thread, ns ::
      Coupled(stamps, parse, cfg, History(st.storage, thread, ns), History(log.storage, thread, ns), now)
  }

  /** Every checkpoint that could be stored has expired, and so stays expired. */
  ghost predicate AllExpired(stamps: iset<string>, parse: TimestampParser, cfg: TtlConfig, now: int) {
    cfg.defaultTtl.Some? &&
    forall a :: a in stamps ==> parse(a).Some? && now - parse(a).value > cfg.defaultTtl.value
  }

  /** The condition under which no reply misses a pending write. */
  ghost predicate WritesSafe(stamps: iset<string>, parse: TimestampParser, cfg: TtlConfig) {
    KeepsWrites(cfg) || Simultaneous(stamps, parse)
  }

  /** The writes are the log's as long as there is a tuple to attach them to. */
  ghost predicate WritesAgree(
      stamps: iset<string>, parse: TimestampParser, cfg: TtlConfig, st: SaverState, log: SaverState, now: int) {
    WritesSafe(stamps, parse, cfg) && cfg.maxCheckpoints != Some(0) ==>
      st.writes == log.writes || AllExpired(stamps, parse, cfg, now)
  }

  lemma CleanupIsView(
      st: SaverState, cfg: TtlConfig, parse: TimestampParser, thread: string, ns: string, now: int)
    ensures var clean := Cleanup(st, cfg, parse, thread, ns, now);
      var h := History(st.storage, thread, ns);
      && clean.storage == SetHistory(st.storage, thread, ns, View(cfg, parse, h, now))
      && (cfg.maxCheckpoints.None? || (forall t :: t in h ==> Live(cfg, parse, now)(t)) ==> clean.writes == st.writes)
  {
    var h := History(st.storage, thread, ns);
    if forall t :: t in h ==> Live(cfg, parse, now)(t) {
      FilterAll(h, Live(cfg, parse, now));
    }
  }

  /** If no timestamp outlives another, one expired tuple means that all have expired. */
  lemma OneExpiredAllExpired(
      stamps: iset<string>, parse: TimestampParser, cfg: TtlConfig, h: seq<CheckpointTuple>,
      t: CheckpointTuple, now: int)
    requires Simultaneous(stamps, parse) && AllTimely(stamps, parse, h, now)
    requires t in h && !Live(cfg, parse, now)(t)
    ensures AllExpired(stamps, parse, cfg, now)
  {
    forall a | a in stamps ensures parse(a).Some? && now - parse(a).value > cfg.defaultTtl.value {
      assert NoEarlier(parse, t.checkpoint.createdAt, a) && NoEarlier(parse, a, t.checkpoint.createdAt);
    }
  }

  lemma NothingToShow(
      stamps: iset<string>, parse: TimestampParser, cfg: TtlConfig, h: seq<CheckpointTuple>, now: int)
    requires AllTimely(stamps, parse, h, now)
    requires AllExpired(stamps, parse, cfg, now) || cfg.maxCheckpoints == Some(0)
    ensures View(cfg, parse, h, now) == []
  {
    if AllExpired(stamps, parse, cfg, now) {
      FilterNone(h, Live(cfg, parse, now));
    }
  }

  lemma StepCoupled(
      stamps: iset<string>, parse: TimestampParser, cfg: TtlConfig, st: SaverState, log: SaverState,
      op: Op, now: int)
    requires CapIsSafe(stamps, parse, cfg) && CoupledStores(stamps, parse, cfg, st, log, now)
    requires WritesAgree(stamps, parse, cfg, st, log, now) && EventAdmissible(stamps, parse, Event(now, op))
    ensures var (st', a) := Step(st, cfg, parse, op, now);
      var (log', b) := LogStep(log, cfg, parse, op, now);
      && CoupledStores(stamps, parse, cfg, st', log', now)
      && WritesAgree(stamps, parse, cfg, st', log', now)
      && WithoutWrites(a) == WithoutWrites(b)
      && (WritesSafe(stamps, parse, cfg) ==> a == b)
  {
    if op.config.threadId.Some? {
      var thread, ns := op.config.threadId.value, op.config.NsKey();
      match op
      case PutWrites(_, _, _) =>
      case Put(config, checkpoint, metadata) =>
        PutCoupled(stamps, parse, cfg, st, log, thread, ns, NewTuple(config, checkpoint, metadata), now);
      case GetTuple(config) =>
        ReadCoupled(stamps, parse, cfg, st, log, thread, ns, now);
        var view := LogView(log, cfg, parse, thread, ns, now);
        PickFromNothing(view, config.checkpointId);
      case List(_, _) =>
        ReadCoupled(stamps, parse, cfg, st, log, thread, ns, now);
    }
  }

  lemma PickFromNothing(h: seq<CheckpointTuple>, checkpointId: Option<string>)
    ensures h == [] ==> Pick(h, checkpointId) == None
  {
  }

  lemma PutCoupled(
      stamps: iset<string>, parse: TimestampParser, cfg: TtlConfig, st: SaverState, log: SaverState,
      thread: string, ns: string, t: CheckpointTuple, now: int)
    requires CoupledStores(stamps, parse, cfg, st, log, now)
    requires Timely(stamps, parse, t.checkpoint.createdAt, now)
    ensures var h, l := History(st.storage, thread, ns), History(log.storage, thread, ns);
      CoupledStores(stamps, parse, cfg,
        st.(storage := SetHistory(st.storage, thread, ns, Sort(h + [t], Newer))),
        log.(storage := SetHistory(log.storage, thread, ns, l + [t])), now)
  {
    var h, l := History(st.storage, thread, ns), History(log.storage, thread, ns);
    CoupledPut(stamps, parse, cfg, h, l, t, now);
    forall th, n ensures Coupled(stamps, parse, cfg,
        History(SetHistory(st.storage, thread, ns, Sort(h + [t], Newer)), th, n),
        History(SetHistory(log.storage, thread, ns, l + [t]), th, n), now)
    {
      HistoryAfterSet(st.storage, thread, ns, Sort(h + [t], Newer), th, n);
      HistoryAfterSet(log.storage, thread, ns, l + [t], th, n);
    }
  }

  lemma ReadCoupled(
      stamps: iset<string>, parse: TimestampParser, cfg: TtlConfig, st: SaverState, log: SaverState,
      thread: string, ns: string, now: int)
    requires CapIsSafe(stamps, parse, cfg) && CoupledStores(stamps, parse, cfg, st, log, now)
    requires WritesAgree(stamps, parse, cfg, st, log, now)
    ensures var clean := Cleanup(st, cfg, parse, thread, ns, now);
      var view := LogView(log, cfg, parse, thread, ns, now);
      && CoupledStores(stamps, parse, cfg, clean, log, now)
      && WritesAgree(stamps, parse, cfg, clean, log, now)
      && History(clean.storage, thread, ns) == view
      && (WritesSafe(stamps, parse, cfg) ==> clean.writes == log.writes || view == [])
  {
    var h, l := History(st.storage, thread, ns), History(log.storage, thread, ns);
    var v := View(cfg, parse, h, now);
    CleanupIsView(st, cfg, parse, thread, ns, now);
    assert Coupled(stamps, parse, cfg, h, l, now);
    CoupledRead(stamps, parse, cfg, h, l, now);
    HistoryAfterSet(st.storage, thread, ns, v, thread, ns);
    forall th, n ensures Coupled(stamps, parse, cfg,
        History(SetHistory(st.storage, thread, ns, v), th, n), History(log.storage, th, n), now)
    {
      HistoryAfterSet(st.storage, thread, ns, v, th, n);
    }
    CleanupWrites(stamps, parse, cfg, st, log, thread, ns, now);
  }

  lemma CleanupWrites(
      stamps: iset<string>, parse: TimestampParser, cfg: TtlConfig, st: SaverState, log: SaverState,
      thread: string, ns: string, now: int)
    requires WritesAgree(stamps, parse, cfg, st, log, now)
    requires AllTimely(stamps, parse, History(st.storage, thread, ns), now)
    ensures var clean := Cleanup(st, cfg, parse, thread, ns, now);
      && WritesAgree(stamps, parse, cfg, clean, log, now)
      && (WritesSafe(stamps, parse, cfg) ==>
           clean.writes == log.writes || View(cfg, parse, History(st.storage, thread, ns), now) == [])
  {
    var h := History(st.storage, thread, ns);
    CleanupIsView(st, cfg, parse, thread, ns, now);
    if WritesSafe(stamps, parse, cfg) {
      if cfg.maxCheckpoints.Some? && exists t :: t in h && !Live(cfg, parse, now)(t) {
        var t :| t in h && !Live(cfg, parse, now)(t);
        if Simultaneous(stamps, parse) {
          OneExpiredAllExpired(stamps, parse, cfg, h, t, now);
        }
      }
      if AllExpired(stamps, parse, cfg, now) || cfg.maxCheckpoints == Some(0) {
        NothingToShow(stamps, parse, cfg, h, now);
      }
    }
  }

  lemma {:induction false} RunCoupled(
      stamps: iset<string>, parse: TimestampParser, cfg: TtlConfig, events: seq<Event>, now: int)
    requires CapIsSafe(stamps, parse, cfg) && Admissible(stamps, parse, events)
    requires events != [] ==> events[|events| - 1].now <= now
    ensures var (st, a) := Run(EMPTY, cfg, parse, events);
      var (log, b) := LogRun(EMPTY, cfg, parse, events);
      && CoupledStores(stamps, parse, cfg, st, log, now)
      && WritesAgree(stamps, parse, cfg, st, log, now)
      && SameButWrites(a, b)
      && (WritesSafe(stamps, parse, cfg) ==> a == b)
  {
    if events != [] {
      var n := |events| - 1;
      var e := events[n];
      RunCoupled(stamps, parse, cfg, events[..n], e.now);
      var (st, a) := Run(EMPTY, cfg, parse, events[..n]);
      var (log, b) := LogRun(EMPTY, cfg, parse, events[..n]);
      StepCoupled(stamps, parse, cfg, st, log, e.op, e.now);
      var st', log' := Step(st, cfg, parse, e.op, e.now).0, LogStep(log, cfg, parse, e.op, e.now).0;
      forall thread, ns ensures
        Coupled(stamps, parse, cfg, History(st'.storage, thread, ns), History(log'.storage, thread, ns), now)
      {
        CoupledLater(stamps, parse, cfg,
          History(st'.storage, thread, ns), History(log'.storage, thread, ns), e.now, now);
      }
    }
  }
}
