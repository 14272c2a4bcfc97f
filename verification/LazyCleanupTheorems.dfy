/** When lazy cleanup can and cannot be observed: exact conditions, with the runs that show the failures. */
module LazyCleanupTheorems {
  import opened Wrappers
  import opened Seqs
  import opened StringOrder
  import opened StableSorting
  import opened Namespaces
  import opened Json
  import opened Checkpoints
  import opened SaverModel
  import opened LazyCleanup

  // ----- Reads under cleanup are reads of the log -----

  /**
   * Under one configuration lazy cleanup is unobservable in every run exactly when it never expires,
   * never caps or shows nothing, or no timestamp sorts after one that appears within its lifetime
   * and outlives it.
   */
  lemma UnobservableUnderIff(stamps: iset<string>, parse: TimestampParser, cfg: TtlConfig)
    ensures UnobservableUnder(stamps, parse, cfg) <==> CapIsSafe(stamps, parse, cfg)
  {
    if CapIsSafe(stamps, parse, cfg) {
      forall events: seq<Event> | Admissible(stamps, parse, events)
        ensures SameButWrites(Run(EMPTY, cfg, parse, events).1, LogRun(EMPTY, cfg, parse, events).1)
      {
        RunCoupled(stamps, parse, cfg, events, if events == [] then 0 else events[|events| - 1].now);
      }
    } else {
      var a, b :| a in stamps && b in stamps && Overtakes(parse, cfg.defaultTtl.value, a, b);
      OvertakingObservable(stamps, parse, cfg, a, b);
    }
  }

  /**
   * Lazy cleanup is unobservable in every run, whatever the TTL and the cap, exactly when
   * the timestamps in use sort as text the way they sort in time.
   */
  lemma CleanupUnobservableIff(stamps: iset<string>, parse: TimestampParser)
    ensures CleanupUnobservable(stamps, parse) <==> TextOrderIsTimeOrder(stamps, parse)
  {
    if TextOrderIsTimeOrder(stamps, parse) {
      forall cfg ensures UnobservableUnder(stamps, parse, cfg) {
        assert forall a, b :: a in stamps && b in stamps && StrLess(b, a) ==> NoEarlier(parse, a, b);
        assert CapIsSafe(stamps, parse, cfg);
        UnobservableUnderIff(stamps, parse, cfg);
      }
    } else {
      var a, b :| a in stamps && b in stamps && StrLess(b, a) && !NoEarlier(parse, a, b);
      var cfg := TtlConfig(Some(Start(parse, a, b) - parse(a).value), Some(1));
      assert Overtakes(parse, cfg.defaultTtl.value, a, b);
      OvertakingObservable(stamps, parse, cfg, a, b);
      assert !UnobservableUnder(stamps, parse, cfg);
    }
  }

  /** No run under this configuration gets a reply that differs from the log's, pending writes included. */
  ghost predicate RepliesExact(stamps: iset<string>, parse: TimestampParser, cfg: TtlConfig) {
    forall events :: Admissible(stamps, parse, events) ==>
      Run(EMPTY, cfg, parse, events).1 == LogRun(EMPTY, cfg, parse, events).1
  }

  /**
   * The replies match the log's to the last pending write exactly under the configurations that
   * never expire, never cap, or show nothing, and otherwise where no timestamp outlives another.
   */
  lemma RepliesExactIff(stamps: iset<string>, parse: TimestampParser, cfg: TtlConfig)
    ensures RepliesExact(stamps, parse, cfg) <==> KeepsWrites(cfg) || Simultaneous(stamps, parse)
  {
    if KeepsWrites(cfg) || Simultaneous(stamps, parse) {
      assert CapIsSafe(stamps, parse, cfg);
      forall events: seq<Event> | Admissible(stamps, parse, events)
        ensures Run(EMPTY, cfg, parse, events).1 == LogRun(EMPTY, cfg, parse, events).1
      {
        RunCoupled(stamps, parse, cfg, events, if events == [] then 0 else events[|events| - 1].now);
      }
    } else {
      var a, b :| a in stamps && b in stamps && !NoEarlier(parse, a, b);
      var events := LostWriteRun(cfg, parse, a, b);
      LostWrite(stamps, parse, cfg, a, b);
      assert Admissible(stamps, parse, events);
    }
  }

  // ----- Witness runs -----

  function ConfigFor(thread: string, checkpointId: Option<string>): RunnableConfig {
    RunnableConfig(Some(thread), None, checkpointId)
  }

  const METADATA := CheckpointMetadata(Input, 0, map[], map[], "", None)

  function CheckpointAt(id: string, createdAt: string): Checkpoint {
    Checkpoint(id, Object(map[]), map[], map[], 1, createdAt, 1, map[], map[])
  }

  function PutAt(now: int, thread: string, id: string, createdAt: string): Event {
    Event(now, Put(ConfigFor(thread, None), CheckpointAt(id, createdAt), METADATA))
  }

  function ListAt(now: int, thread: string): Event {
    Event(now, List(ConfigFor(thread, None), None))
  }

  function TupleOf(thread: string, id: string, createdAt: string): CheckpointTuple {
    NewTuple(ConfigFor(thread, None), CheckpointAt(id, createdAt), METADATA)
  }

  lemma RunSnoc(cfg: TtlConfig, parse: TimestampParser, events: seq<Event>, e: Event)
    ensures Run(EMPTY, cfg, parse, events + [e])
         == var (st, replies) := Run(EMPTY, cfg, parse, events);
            (Step(st, cfg, parse, e.op, e.now).0, replies + [Step(st, cfg, parse, e.op, e.now).1])
    ensures LogRun(EMPTY, cfg, parse, events + [e])
         == var (log, replies) := LogRun(EMPTY, cfg, parse, events);
            (LogStep(log, cfg, parse, e.op, e.now).0, replies + [LogStep(log, cfg, parse, e.op, e.now).1])
  {
    assert (events + [e])[..|events|] == events;
  }

  function After(st: SaverState, cfg: TtlConfig, parse: TimestampParser, e: Event): SaverState {
    Step(st, cfg, parse, e.op, e.now).0
  }

  function LogAfter(log: SaverState, cfg: TtlConfig, parse: TimestampParser, e: Event): SaverState {
    LogStep(log, cfg, parse, e.op, e.now).0
  }

  lemma RunTwo(cfg: TtlConfig, parse: TimestampParser, e0: Event, e1: Event)
    ensures Run(EMPTY, cfg, parse, [e0, e1]).0 == After(After(EMPTY, cfg, parse, e0), cfg, parse, e1)
    ensures LogRun(EMPTY, cfg, parse, [e0, e1]).0 == LogAfter(LogAfter(EMPTY, cfg, parse, e0), cfg, parse, e1)
  {
    RunSnoc(cfg, parse, [e0], e1);
    assert [e0] + [e1] == [e0, e1];
  }

  lemma RunThree(cfg: TtlConfig, parse: TimestampParser, e0: Event, e1: Event, e2: Event)
    ensures Run(EMPTY, cfg, parse, [e0, e1, e2]).0
         == After(After(After(EMPTY, cfg, parse, e0), cfg, parse, e1), cfg, parse, e2)
    ensures LogRun(EMPTY, cfg, parse, [e0, e1, e2]).0
         == LogAfter(LogAfter(LogAfter(EMPTY, cfg, parse, e0), cfg, parse, e1), cfg, parse, e2)
  {
    RunTwo(cfg, parse, e0, e1);
    RunSnoc(cfg, parse, [e0, e1], e2);
    assert [e0, e1] + [e2] == [e0, e1, e2];
  }

  lemma RunFour(cfg: TtlConfig, parse: TimestampParser, e0: Event, e1: Event, e2: Event, e3: Event)
    ensures Run(EMPTY, cfg, parse, [e0, e1, e2, e3]).0
         == After(After(After(After(EMPTY, cfg, parse, e0), cfg, parse, e1), cfg, parse, e2), cfg, parse, e3)
    ensures LogRun(EMPTY, cfg, parse, [e0, e1, e2, e3]).0
         == LogAfter(LogAfter(LogAfter(LogAfter(EMPTY, cfg, parse, e0), cfg, parse, e1), cfg, parse, e2), cfg, parse, e3)
  {
    RunThree(cfg, parse, e0, e1, e2);
    RunSnoc(cfg, parse, [e0, e1, e2], e3);
    assert [e0, e1, e2] + [e3] == [e0, e1, e2, e3];
  }

  /** The last reply of a run is the reply of its last step. */
  lemma LastReply(cfg: TtlConfig, parse: TimestampParser, events: seq<Event>, e: Event)
    ensures Run(EMPTY, cfg, parse, events + [e]).1[|events|]
         == Step(Run(EMPTY, cfg, parse, events).0, cfg, parse, e.op, e.now).1
    ensures LogRun(EMPTY, cfg, parse, events + [e]).1[|events|]
         == LogStep(LogRun(EMPTY, cfg, parse, events).0, cfg, parse, e.op, e.now).1
  {
    RunSnoc(cfg, parse, events, e);
  }

  lemma PutEffect(st: SaverState, cfg: TtlConfig, parse: TimestampParser, e: Event, thread: string, id: string, a: string)
    requires e == PutAt(e.now, thread, id, a)
    ensures var st' := Step(st, cfg, parse, e.op, e.now).0;
      && st'.writes == st.writes
      && forall th :: History(st'.storage, th, "") == if th == thread
           then Sort(History(st.storage, thread, "") + [TupleOf(thread, id, a)], Newer) else History(st.storage, th, "")
    ensures var log' := LogStep(st, cfg, parse, e.op, e.now).0;
      && log'.writes == st.writes
      && forall th :: History(log'.storage, th, "") == if th == thread
           then History(st.storage, thread, "") + [TupleOf(thread, id, a)] else History(st.storage, th, "")
  {
    hide Sort;
    var h := History(st.storage, thread, "") + [TupleOf(thread, id, a)];
    PutSteps(st, cfg, parse, e, thread, id, a);
    hide Step, LogStep, History, SetHistory;
    forall th ensures History(SetHistory(st.storage, thread, "", Sort(h, Newer)), th, "")
        == if th == thread then Sort(h, Newer) else History(st.storage, th, "")
      ensures History(SetHistory(st.storage, thread, "", h), th, "")
        == if th == thread then h else History(st.storage, th, "")
    {
      HistoryAfterSet(st.storage, thread, "", Sort(h, Newer), th, "");
      HistoryAfterSet(st.storage, thread, "", h, th, "");
    }
  }

  lemma PutSteps(st: SaverState, cfg: TtlConfig, parse: TimestampParser, e: Event, thread: string, id: string, a: string)
    requires e == PutAt(e.now, thread, id, a)
    ensures var h := History(st.storage, thread, "") + [TupleOf(thread, id, a)];
      && Step(st, cfg, parse, e.op, e.now).0 == st.(storage := SetHistory(st.storage, thread, "", Sort(h, Newer)))
      && LogStep(st, cfg, parse, e.op, e.now).0 == st.(storage := SetHistory(st.storage, thread, "", h))
  {
    hide Sort, History, SetHistory;
  }

  lemma ListEffect(st: SaverState, cfg: TtlConfig, parse: TimestampParser, e: Event, thread: string)
    requires e == ListAt(e.now, thread)
    ensures var (st', reply) := Step(st, cfg, parse, e.op, e.now);
      var view := View(cfg, parse, History(st.storage, thread, ""), e.now);
      && reply == Ok(Listed(view))
      && forall th :: History(st'.storage, th, "") == if th == thread then view else History(st.storage, th, "")
    ensures LogStep(st, cfg, parse, e.op, e.now) == (st, Ok(Listed(LogView(st, cfg, parse, thread, "", e.now))))
  {
    CleanupIsView(st, cfg, parse, thread, "", e.now);
  }

  /** The instant from which both timestamps are in the past. */
  function Start(parse: TimestampParser, a: string, b: string): int
    requires parse(a).Some?
  {
    if parse(b).Some? then parse(b).value else parse(a).value
  }

  function Repeat<T>(x: T, n: nat): (r: seq<T>)
    ensures |r| == n && forall i :: 0 <= i < n ==> r[i] == x
  {
    seq(n, _ => x)
  }

  /** As many tuples of the text-newest timestamp as the cap holds, then one that outlives them; listed early and late. */
  function OvertakingRun(cfg: TtlConfig, parse: TimestampParser, a: string, b: string): seq<Event>
    requires cfg.defaultTtl.Some? && cfg.maxCheckpoints.Some? && parse(a).Some?
  {
    var start := Start(parse, a, b);
    Repeat(PutAt(start, "t", "x", a), cfg.maxCheckpoints.value)
      + [PutAt(start, "t", "y", b)] + [ListAt(start, "t")] + [ListAt(parse(a).value + cfg.defaultTtl.value + 1, "t")]
  }

  /** The early list keeps the tuples that expire first and forgets the other; the late list finds none. */
  lemma OvertakingObservable(
      stamps: iset<string>, parse: TimestampParser, cfg: TtlConfig, a: string, b: string)
    requires a in stamps && b in stamps && !KeepsWrites(cfg) && Overtakes(parse, cfg.defaultTtl.value, a, b)
    ensures !UnobservableUnder(stamps, parse, cfg)
  {
    hide Run, LogRun;
    var events := OvertakingRun(cfg, parse, a, b);
    assert Admissible(stamps, parse, events);
    OvertakingReplies(parse, cfg, a, b);
    assert WithoutWrites(Run(EMPTY, cfg, parse, events).1[|events| - 1])
        != WithoutWrites(LogRun(EMPTY, cfg, parse, events).1[|events| - 1]);
  }

  lemma OvertakingReplies(parse: TimestampParser, cfg: TtlConfig, a: string, b: string)
    requires !KeepsWrites(cfg) && Overtakes(parse, cfg.defaultTtl.value, a, b)
    ensures var events := OvertakingRun(cfg, parse, a, b);
      && Run(EMPTY, cfg, parse, events).1[|events| - 1] == Ok(Listed([]))
      && LogRun(EMPTY, cfg, parse, events).1[|events| - 1] == Ok(Listed([TupleOf("t", "y", b)]))
  {
    hide Step, LogStep, Run, LogRun, IsExpired;
    var start, m := Start(parse, a, b), cfg.maxCheckpoints.value;
    var e0, e1 := PutAt(start, "t", "x", a), PutAt(start, "t", "y", b);
    var e2, e3 := ListAt(start, "t"), ListAt(parse(a).value + cfg.defaultTtl.value + 1, "t");
    var x, y := TupleOf("t", "x", a), TupleOf("t", "y", b);
    var puts := Repeat(e0, m);
    OvertakingTimes(parse, cfg, a, b);
    PutRepeatedly(cfg, parse, e0, a, m);
    PutBelow(cfg, parse, Run(EMPTY, cfg, parse, puts).0, LogRun(EMPTY, cfg, parse, puts).0, e1, x, y, m);
    RunSnoc(cfg, parse, puts, e1);
    RunSnoc(cfg, parse, puts + [e1], e2);
    LastReply(cfg, parse, puts + [e1] + [e2], e3);
    OvertakingPruned(cfg, parse, Run(EMPTY, cfg, parse, puts + [e1]).0, e2, e3, x, y);
    OvertakingLogged(cfg, parse, LogRun(EMPTY, cfg, parse, puts + [e1]).0, e2, e3, x, y);
  }

  lemma OvertakingTimes(parse: TimestampParser, cfg: TtlConfig, a: string, b: string)
    requires !KeepsWrites(cfg) && Overtakes(parse, cfg.defaultTtl.value, a, b)
    ensures var start, late := Start(parse, a, b), parse(a).value + cfg.defaultTtl.value + 1;
      && !IsExpired(cfg, parse, a, start) && !IsExpired(cfg, parse, b, start)
      && IsExpired(cfg, parse, a, late) && !IsExpired(cfg, parse, b, late)
  {
  }

  /** Equal tuples pile up. */
  lemma {:induction false} PutRepeatedly(cfg: TtlConfig, parse: TimestampParser, e: Event, a: string, n: nat)
    requires e == PutAt(e.now, "t", "x", a)
    ensures History(Run(EMPTY, cfg, parse, Repeat(e, n)).0.storage, "t", "") == Repeat(TupleOf("t", "x", a), n)
    ensures History(LogRun(EMPTY, cfg, parse, Repeat(e, n)).0.storage, "t", "") == Repeat(TupleOf("t", "x", a), n)
  {
    hide Step, LogStep, Sort;
    if n > 0 {
      var x := TupleOf("t", "x", a);
      PutRepeatedly(cfg, parse, e, a, n - 1);
      assert Repeat(e, n) == Repeat(e, n - 1) + [e];
      RunSnoc(cfg, parse, Repeat(e, n - 1), e);
      PutEffect(Run(EMPTY, cfg, parse, Repeat(e, n - 1)).0, cfg, parse, e, "t", "x", a);
      PutEffect(LogRun(EMPTY, cfg, parse, Repeat(e, n - 1)).0, cfg, parse, e, "t", "x", a);
      assert Repeat(x, n) == Repeat(x, n - 1) + [x];
      RepeatSorted(x, n);
    }
  }

  lemma RepeatSorted(x: CheckpointTuple, n: nat)
    ensures Sort(Repeat(x, n), Newer) == Repeat(x, n)
  {
    NewerOrders();
    SortOfSorted(Repeat(x, n), Newer);
  }

  lemma BelowSorted(x: CheckpointTuple, n: nat, y: CheckpointTuple)
    requires Newer(x, y)
    ensures Sort(Repeat(x, n) + [y], Newer) == Repeat(x, n) + [y]
  {
    NewerOrders();
    SortOfSorted(Repeat(x, n) + [y], Newer);
  }

  /** The last put sorts below. */
  lemma PutBelow(
      cfg: TtlConfig, parse: TimestampParser, st: SaverState, log: SaverState, e: Event,
      x: CheckpointTuple, y: CheckpointTuple, n: nat)
    requires e == PutAt(e.now, "t", "y", y.checkpoint.createdAt) && y == TupleOf("t", "y", y.checkpoint.createdAt)
    requires StrLess(y.checkpoint.createdAt, x.checkpoint.createdAt)
    requires History(st.storage, "t", "") == Repeat(x, n) && History(log.storage, "t", "") == Repeat(x, n)
    ensures History(After(st, cfg, parse, e).storage, "t", "") == Repeat(x, n) + [y]
    ensures History(LogAfter(log, cfg, parse, e).storage, "t", "") == Repeat(x, n) + [y]
  {
    hide Step, LogStep, Sort;
    BelowSorted(x, n, y);
    PutEffect(st, cfg, parse, e, "t", "y", y.checkpoint.createdAt);
    PutEffect(log, cfg, parse, e, "t", "y", y.checkpoint.createdAt);
  }

  lemma FilterBelow(x: CheckpointTuple, n: nat, y: CheckpointTuple, p: CheckpointTuple -> bool)
    ensures Filter(Repeat(x, n), p) == if p(x) then Repeat(x, n) else []
    ensures Filter(Repeat(x, n) + [y], p) == (if p(x) then Repeat(x, n) else []) + (if p(y) then [y] else [])
  {
    if p(x) {
      FilterAll(Repeat(x, n), p);
    } else {
      FilterNone(Repeat(x, n), p);
    }
    FilterConcat(Repeat(x, n), [y], p);
    FilterPair(y, y, p);
  }

  lemma OvertakingPruned(
      cfg: TtlConfig, parse: TimestampParser, st: SaverState, e2: Event, e3: Event,
      x: CheckpointTuple, y: CheckpointTuple)
    requires cfg.maxCheckpoints.Some? && History(st.storage, "t", "") == Repeat(x, cfg.maxCheckpoints.value) + [y]
    requires e2 == ListAt(e2.now, "t") && e3 == ListAt(e3.now, "t")
    requires !IsExpired(cfg, parse, x.checkpoint.createdAt, e2.now)
    requires !IsExpired(cfg, parse, y.checkpoint.createdAt, e2.now)
    requires IsExpired(cfg, parse, x.checkpoint.createdAt, e3.now)
    ensures Step(Step(st, cfg, parse, e2.op, e2.now).0, cfg, parse, e3.op, e3.now).1 == Ok(Listed([]))
  {
    hide Step, LogStep, IsExpired;
    var m := cfg.maxCheckpoints.value;
    var st' := Step(st, cfg, parse, e2.op, e2.now).0;
    FilterBelow(x, m, y, Live(cfg, parse, e2.now));
    ListEffect(st, cfg, parse, e2, "t");
    assert Take(Repeat(x, m) + [y], m) == Repeat(x, m);
    assert History(st'.storage, "t", "") == Repeat(x, m);
    FilterBelow(x, m, y, Live(cfg, parse, e3.now));
    ListEffect(st', cfg, parse, e3, "t");
  }

  lemma OvertakingLogged(
      cfg: TtlConfig, parse: TimestampParser, log: SaverState, e2: Event, e3: Event,
      x: CheckpointTuple, y: CheckpointTuple)
    requires cfg.maxCheckpoints.Some? && cfg.maxCheckpoints != Some(0)
    requires History(log.storage, "t", "") == Repeat(x, cfg.maxCheckpoints.value) + [y] && Newer(x, y)
    requires e2 == ListAt(e2.now, "t") && e3 == ListAt(e3.now, "t")
    requires IsExpired(cfg, parse, x.checkpoint.createdAt, e3.now)
    requires !IsExpired(cfg, parse, y.checkpoint.createdAt, e3.now)
    ensures LogStep(LogStep(log, cfg, parse, e2.op, e2.now).0, cfg, parse, e3.op, e3.now).1 == Ok(Listed([y]))
  {
    hide Step, LogStep, IsExpired, LogView;
    ListEffect(log, cfg, parse, e2, "t");
    ListEffect(log, cfg, parse, e3, "t");
    OnlyLastLive(cfg, parse, log, e3.now, x, y);
  }

  lemma OnlyLastLive(
      cfg: TtlConfig, parse: TimestampParser, log: SaverState, now: int, x: CheckpointTuple, y: CheckpointTuple)
    requires cfg.maxCheckpoints.Some? && cfg.maxCheckpoints != Some(0)
    requires History(log.storage, "t", "") == Repeat(x, cfg.maxCheckpoints.value) + [y] && Newer(x, y)
    requires IsExpired(cfg, parse, x.checkpoint.createdAt, now) && !IsExpired(cfg, parse, y.checkpoint.createdAt, now)
    ensures LogView(log, cfg, parse, "t", "", now) == [y]
  {
    hide IsExpired, Sort, Filter, Newer;
    var m := cfg.maxCheckpoints.value;
    BelowSorted(x, m, y);
    FilterBelow(x, m, y, Live(cfg, parse, now));
    assert [] + [y] == [y];
  }

  lemma FilterPair(x: CheckpointTuple, y: CheckpointTuple, p: CheckpointTuple -> bool)
    ensures Filter([x], p) == if p(x) then [x] else []
    ensures Filter([x, y], p) == (if p(x) then [x] else []) + (if p(y) then [y] else [])
  {
    assert [x, y][1..] == [y];
    assert [y][1..] == [] && [x][1..] == [];
  }

  const WRITE := PendingWrite("", "c", Json.Null)

  function LostWriteTime(cfg: TtlConfig, parse: TimestampParser, a: string, b: string): int
    requires cfg.defaultTtl.Some? && parse(a).Some?
  {
    var t := parse(a).value + cfg.defaultTtl.value + 1;
    if parse(b).Some? && parse(b).value > t then parse(b).value else t
  }

  /** Thread `q` records a write for its live checkpoint; thread `p` is listed; thread `q` reads back. */
  function LostWriteRun(cfg: TtlConfig, parse: TimestampParser, a: string, b: string): seq<Event>
    requires cfg.defaultTtl.Some? && parse(a).Some?
  {
    var now := LostWriteTime(cfg, parse, a, b);
    [PutAt(now, "p", "x", a), PutAt(now, "q", "y", b),
     Event(now, PutWrites(ConfigFor("q", Some("y")), [WRITE], "task")),
     ListAt(now, "p"),
     Event(now, GetTuple(ConfigFor("q", None)))]
  }

  /** Expiring one thread's checkpoint drops another thread's pending write. */
  lemma LostWrite(stamps: iset<string>, parse: TimestampParser, cfg: TtlConfig, a: string, b: string)
    requires a in stamps && b in stamps && !NoEarlier(parse, a, b)
    requires !KeepsWrites(cfg)
    ensures var events := LostWriteRun(cfg, parse, a, b);
      && Admissible(stamps, parse, events)
      && Run(EMPTY, cfg, parse, events).1[4] == Ok(Found(Some(TupleOf("q", "y", b))))
      && LogRun(EMPTY, cfg, parse, events).1[4]
           == Ok(Found(Some(TupleOf("q", "y", b).(pendingWrites := [WRITE.(taskId := "task")]))))
  {
    hide Step, LogStep, After, LogAfter, Admissible, Run, LogRun, IsExpired;
    var now := LostWriteTime(cfg, parse, a, b);
    var e0, e1 := PutAt(now, "p", "x", a), PutAt(now, "q", "y", b);
    var e2 := Event(now, PutWrites(ConfigFor("q", Some("y")), [WRITE], "task"));
    var e3, e4 := ListAt(now, "p"), Event(now, GetTuple(ConfigFor("q", None)));
    RunFour(cfg, parse, e0, e1, e2, e3);
    LastReply(cfg, parse, [e0, e1, e2, e3], e4);
    assert [e0, e1, e2, e3] + [e4] == LostWriteRun(cfg, parse, a, b);
    LostWriteAdmissible(stamps, parse, cfg, a, b);
    LostWriteTimes(parse, cfg, a, b);
    LostWriteSteps(cfg, parse, e0, e1, e2, e3, e4, TupleOf("p", "x", a), TupleOf("q", "y", b));
  }

  lemma LostWriteSteps(
      cfg: TtlConfig, parse: TimestampParser, e0: Event, e1: Event, e2: Event, e3: Event, e4: Event,
      x: CheckpointTuple, y: CheckpointTuple)
    requires x == TupleOf("p", "x", x.checkpoint.createdAt) && y == TupleOf("q", "y", y.checkpoint.createdAt)
    requires e0 == PutAt(e0.now, "p", "x", x.checkpoint.createdAt)
    requires e1 == PutAt(e1.now, "q", "y", y.checkpoint.createdAt)
    requires e2.op == PutWrites(ConfigFor("q", Some("y")), [WRITE], "task")
    requires e3 == ListAt(e3.now, "p") && IsExpired(cfg, parse, x.checkpoint.createdAt, e3.now)
    requires e4.op == GetTuple(ConfigFor("q", None)) && !IsExpired(cfg, parse, y.checkpoint.createdAt, e4.now)
    requires cfg.maxCheckpoints.Some? && cfg.maxCheckpoints != Some(0)
    ensures var st := After(After(After(After(EMPTY, cfg, parse, e0), cfg, parse, e1), cfg, parse, e2), cfg, parse, e3);
      Step(st, cfg, parse, e4.op, e4.now).1 == Ok(Found(Some(y)))
    ensures var log := LogAfter(LogAfter(LogAfter(LogAfter(EMPTY, cfg, parse, e0), cfg, parse, e1), cfg, parse, e2), cfg, parse, e3);
      LogStep(log, cfg, parse, e4.op, e4.now).1
        == Ok(Found(Some(y.(pendingWrites := [WRITE.(taskId := "task")]))))
  {
    WriteRecorded(cfg, parse, e0, e1, e2, x, y);
    hide Step, LogStep, IsExpired, View, LogView;
    var st := After(After(After(EMPTY, cfg, parse, e0), cfg, parse, e1), cfg, parse, e2);
    var log := LogAfter(LogAfter(LogAfter(EMPTY, cfg, parse, e0), cfg, parse, e1), cfg, parse, e2);
    ListEffect(st, cfg, parse, e3, "p");
    ExpiryDropsWrites(st, cfg, parse, e3, "p", x);
    ReadSingle(After(st, cfg, parse, e3), cfg, parse, e4, "q", y);
    ListEffect(log, cfg, parse, e3, "p");
    ReadSingle(LogAfter(log, cfg, parse, e3), cfg, parse, e4, "q", y);
  }

  lemma LostWriteAdmissible(stamps: iset<string>, parse: TimestampParser, cfg: TtlConfig, a: string, b: string)
    requires a in stamps && b in stamps && !NoEarlier(parse, a, b)
    requires !KeepsWrites(cfg)
    ensures Admissible(stamps, parse, LostWriteRun(cfg, parse, a, b))
  {
  }

  /** Listing a thread whose only tuple has expired leaves none of the other threads' writes. */
  lemma ExpiryDropsWrites(st: SaverState, cfg: TtlConfig, parse: TimestampParser, e: Event, thread: string, x: CheckpointTuple)
    requires e == ListAt(e.now, thread) && cfg.maxCheckpoints.Some?
    requires History(st.storage, thread, "") == [x] && IsExpired(cfg, parse, x.checkpoint.createdAt, e.now)
    requires forall k :: k in st.writes ==> k.0 != thread
    ensures After(st, cfg, parse, e).writes == map[]
  {
    FilterPair(x, x, Live(cfg, parse, e.now));
  }

  /** One thread's only checkpoint has expired, the other's has not. */
  lemma LostWriteTimes(parse: TimestampParser, cfg: TtlConfig, a: string, b: string)
    requires !NoEarlier(parse, a, b) && !KeepsWrites(cfg)
    ensures var now := LostWriteTime(cfg, parse, a, b);
      IsExpired(cfg, parse, a, now) && !IsExpired(cfg, parse, b, now)
  {
  }

  lemma SortOne(x: CheckpointTuple)
    ensures Sort([] + [x], Newer) == [x]
  {
    SortSnoc([], x, Newer);
  }

  /** One tuple in each of two threads, and a write recorded for the second: pruning saver and log still agree. */
  lemma WriteRecorded(
      cfg: TtlConfig, parse: TimestampParser, e0: Event, e1: Event, e2: Event, x: CheckpointTuple, y: CheckpointTuple)
    requires x == TupleOf("p", "x", x.checkpoint.createdAt) && y == TupleOf("q", "y", y.checkpoint.createdAt)
    requires e0 == PutAt(e0.now, "p", "x", x.checkpoint.createdAt)
    requires e1 == PutAt(e1.now, "q", "y", y.checkpoint.createdAt)
    requires e2.op == PutWrites(ConfigFor("q", Some("y")), [WRITE], "task")
    ensures var st := After(After(After(EMPTY, cfg, parse, e0), cfg, parse, e1), cfg, parse, e2);
      && History(st.storage, "p", "") == [x] && History(st.storage, "q", "") == [y]
      && st.writes == map[("q", "y", "") := [WRITE.(taskId := "task")]]
    ensures var log := LogAfter(LogAfter(LogAfter(EMPTY, cfg, parse, e0), cfg, parse, e1), cfg, parse, e2);
      && History(log.storage, "q", "") == [y]
      && log.writes == map[("q", "y", "") := [WRITE.(taskId := "task")]]
  {
    var st1, log1 := After(EMPTY, cfg, parse, e0), LogAfter(EMPTY, cfg, parse, e0);
    var st2, log2 := After(st1, cfg, parse, e1), LogAfter(log1, cfg, parse, e1);
    FirstTuples(cfg, parse, e0, e1, x, y);
    RecordWrite(st2, cfg, parse, e2);
    RecordWrite(log2, cfg, parse, e2);
  }

  lemma FirstTuples(
      cfg: TtlConfig, parse: TimestampParser, e0: Event, e1: Event, x: CheckpointTuple, y: CheckpointTuple)
    requires x == TupleOf("p", "x", x.checkpoint.createdAt) && y == TupleOf("q", "y", y.checkpoint.createdAt)
    requires e0 == PutAt(e0.now, "p", "x", x.checkpoint.createdAt)
    requires e1 == PutAt(e1.now, "q", "y", y.checkpoint.createdAt)
    ensures var st := After(After(EMPTY, cfg, parse, e0), cfg, parse, e1);
      History(st.storage, "p", "") == [x] && History(st.storage, "q", "") == [y] && st.writes == map[]
    ensures var log := LogAfter(LogAfter(EMPTY, cfg, parse, e0), cfg, parse, e1);
      History(log.storage, "q", "") == [y] && log.writes == map[]
  {
    hide Sort, Step, LogStep;
    SortOne(x);
    SortOne(y);
    assert [] + [y] == [y];
    PutEffect(EMPTY, cfg, parse, e0, "p", "x", x.checkpoint.createdAt);
    PutEffect(After(EMPTY, cfg, parse, e0), cfg, parse, e1, "q", "y", y.checkpoint.createdAt);
    PutEffect(LogAfter(EMPTY, cfg, parse, e0), cfg, parse, e1, "q", "y", y.checkpoint.createdAt);
  }

  lemma RecordWrite(st: SaverState, cfg: TtlConfig, parse: TimestampParser, e: Event)
    requires e.op == PutWrites(ConfigFor("q", Some("y")), [WRITE], "task") && st.writes == map[]
    ensures var after := SaverState(st.storage, map[("q", "y", "") := [WRITE.(taskId := "task")]]);
      After(st, cfg, parse, e) == after && LogAfter(st, cfg, parse, e) == after
  {
    var w := WithTask([WRITE], "task");
    assert [] + w == [WRITE.(taskId := "task")];
  }

  /** Reading the newest tuple of a history that holds one live tuple. */
  lemma ReadSingle(st: SaverState, cfg: TtlConfig, parse: TimestampParser, e: Event, thread: string, y: CheckpointTuple)
    requires e.op == GetTuple(ConfigFor(thread, None)) && !IsExpired(cfg, parse, y.checkpoint.createdAt, e.now)
    requires cfg.maxCheckpoints != Some(0) && History(st.storage, thread, "") == [y]
    ensures Step(st, cfg, parse, e.op, e.now).1 == Ok(Found(AttachWrites(Some(y), st.writes, thread, "")))
    ensures LogStep(st, cfg, parse, e.op, e.now).1 == Ok(Found(AttachWrites(Some(y), st.writes, thread, "")))
  {
    FilterPair(y, y, Live(cfg, parse, e.now));
    SortOne(y);
    assert [] + [y] == [y];
    assert View(cfg, parse, [y], e.now) == [y];
    CleanupIsView(st, cfg, parse, thread, "", e.now);
  }

  // ----- The write cleanup, exactly -----

  /**
   * Which pending writes a read leaves: all of them without a cap or when nothing there has expired; else
   * those of the thread whose checkpoint id is the namespace read and whose namespace is a retained id.
   */
  lemma RetainedWritesIff(
      st: SaverState, cfg: TtlConfig, parse: TimestampParser, config: RunnableConfig, thread: string, now: int,
      key: (string, string, string))
    requires config.threadId == Some(thread)
    ensures var ns, st' := config.NsKey(), Step(st, cfg, parse, GetTuple(config), now).0;
      && (key in st'.writes <==>
           && key in st.writes
           && (|| cfg.maxCheckpoints.None?
               || (forall t :: t in History(st.storage, thread, ns) ==>
                    !IsExpired(cfg, parse, t.checkpoint.createdAt, now))
               || (&& key.0 == thread && key.1 == ns
                   && exists t :: t in History(st'.storage, thread, ns) && t.checkpoint.id == key.2)))
      && (key in st'.writes ==> st'.writes[key] == st.writes[key])
  {
    var ns := config.NsKey();
    var h := History(st.storage, thread, ns);
    CleanupIsView(st, cfg, parse, thread, ns, now);
    HistoryAfterSet(st.storage, thread, ns, View(cfg, parse, h, now), thread, ns);
    if t :| t in h && IsExpired(cfg, parse, t.checkpoint.createdAt, now) {
      ShrinksIfExpired(h, Live(cfg, parse, now), t);
    }
    hide IsExpired, Filter;
  }

  /** Like a generated UUID: not empty, and not shaped like a printed namespace. */
  predicate PlainId(id: string) {
    id != "" && id[0] != '|'
  }

  ghost predicate PlainPuts(events: seq<Event>) {
    forall e :: e in events && e.op.Put? ==> PlainId(e.op.checkpoint.id)
  }

  ghost predicate KeysPrinted(writes: WritesMap) {
    forall k :: k in writes ==> !PlainId(k.2)
  }

  ghost predicate IdsPlain(storage: StorageMap) {
    forall thread, ns :: forall t :: t in History(storage, thread, ns) ==> PlainId(t.checkpoint.id)
  }

  lemma PrintedNotPlain(config: RunnableConfig)
    ensures !PlainId(config.NsKey())
  {
    if config.checkpointNs.Some? && config.checkpointNs.value.segments != [] {
      PrintIsBody(config.checkpointNs.value.segments);
    }
  }

  lemma IdsPlainAfterSet(storage: StorageMap, thread: string, ns: string, h: seq<CheckpointTuple>)
    requires IdsPlain(storage) && forall t :: t in h ==> PlainId(t.checkpoint.id)
    ensures IdsPlain(SetHistory(storage, thread, ns, h))
  {
    forall th, n, t | t in History(SetHistory(storage, thread, ns, h), th, n) ensures PlainId(t.checkpoint.id) {
      HistoryAfterSet(storage, thread, ns, h, th, n);
    }
  }

  lemma StepPlain(st: SaverState, cfg: TtlConfig, parse: TimestampParser, op: Op, now: int)
    requires IdsPlain(st.storage) && KeysPrinted(st.writes)
    requires op.Put? ==> PlainId(op.checkpoint.id)
    ensures var st' := Step(st, cfg, parse, op, now).0;
      IdsPlain(st'.storage) && KeysPrinted(st'.writes)
  {
    if op.config.threadId.Some? {
      var thread, ns := op.config.threadId.value, op.config.NsKey();
      var h := History(st.storage, thread, ns);
      if op.Put? {
        var t := NewTuple(op.config, op.checkpoint, op.metadata);
        SortMembers(h + [t], Newer);
        IdsPlainAfterSet(st.storage, thread, ns, Sort(h + [t], Newer));
      } else if op.PutWrites? {
        PrintedNotPlain(op.config);
      } else {
        CleanupIsView(st, cfg, parse, thread, ns, now);
        IdsPlainAfterSet(st.storage, thread, ns, View(cfg, parse, h, now));
      }
    }
  }

  lemma {:induction false} RunPlain(cfg: TtlConfig, parse: TimestampParser, events: seq<Event>)
    requires PlainPuts(events)
    ensures var st := Run(EMPTY, cfg, parse, events).0;
      IdsPlain(st.storage) && KeysPrinted(st.writes)
  {
    if events != [] {
      var n := |events| - 1;
      assert events[n] in events;
      RunPlain(cfg, parse, events[..n]);
      StepPlain(Run(EMPTY, cfg, parse, events[..n]).0, cfg, parse, events[n].op, events[n].now);
    }
  }

  /**
   * The cleanup is documented to drop the writes of checkpoints that no longer exist. In every run
   * with UUID-like ids, a capped read that finds any expired tuple drops every pending write of
   * every thread, live checkpoints included.
   */
  lemma CleanupDropsEveryWrite(
      cfg: TtlConfig, parse: TimestampParser, events: seq<Event>, config: RunnableConfig, thread: string, now: int)
    requires PlainPuts(events)
    requires config.threadId == Some(thread) && cfg.maxCheckpoints.Some?
    requires var st := Run(EMPTY, cfg, parse, events).0;
      exists t :: t in History(st.storage, thread, config.NsKey())
               && IsExpired(cfg, parse, t.checkpoint.createdAt, now)
    ensures var st := Run(EMPTY, cfg, parse, events).0;
      && Step(st, cfg, parse, GetTuple(config), now).0.writes == map[]
      && forall filter :: Step(st, cfg, parse, List(config, filter), now).0.writes == map[]
  {
    var st := Run(EMPTY, cfg, parse, events).0;
    var h := History(st.storage, thread, config.NsKey());
    RunPlain(cfg, parse, events);
    var t :| t in h && IsExpired(cfg, parse, t.checkpoint.createdAt, now);
    ShrinksIfExpired(h, Live(cfg, parse, now), t);
    var ids := Ids(Take(Filter(h, Live(cfg, parse, now)), cfg.maxCheckpoints.value));
    forall id | id in ids ensures PlainId(id) {
      var u :| u in Take(Filter(h, Live(cfg, parse, now)), cfg.maxCheckpoints.value) && u.checkpoint.id == id;
      assert u in h;
    }
    assert RetainWrites(st.writes, thread, config.NsKey(), ids) == map[];
  }

  lemma ShrinksIfExpired(h: seq<CheckpointTuple>, p: CheckpointTuple -> bool, t: CheckpointTuple)
    requires t in h && !p(t)
    ensures |Filter(h, p)| < |h|
  {
    if h[0] != t {
      ShrinksIfExpired(h[1..], p, t);
    }
  }

  // ----- Namespaces are isolated -----

  /** An operation under one well-formed namespace leaves the history of every other untouched. */
  lemma NamespacesIsolated(
      st: SaverState, cfg: TtlConfig, parse: TimestampParser, op: Op, now: int,
      thread: string, other: CheckpointNamespace)
    requires op.config.checkpointNs.Some? && op.config.checkpointNs.value != other
    requires op.config.checkpointNs.value.WellFormed() && other.WellFormed()
    ensures History(Step(st, cfg, parse, op, now).0.storage, thread, other.AsStr())
         == History(st.storage, thread, other.AsStr())
  {
    var mine := op.config.checkpointNs.value;
    if mine.AsStr() == other.AsStr() {
      KeysDistinct(mine, other);
    }
    if op.config.threadId.Some? {
      var h := if op.Put? then Sort(History(st.storage, op.config.threadId.value, mine.AsStr())
                                      + [NewTuple(op.config, op.checkpoint, op.metadata)], Newer)
               else View(cfg, parse, History(st.storage, op.config.threadId.value, mine.AsStr()), now);
      HistoryAfterSet(st.storage, op.config.threadId.value, mine.AsStr(), h, thread, other.AsStr());
      CleanupIsView(st, cfg, parse, op.config.threadId.value, mine.AsStr(), now);
    }
  }

  // ----- A clock behind the checkpoint -----

  /** A read before a checkpoint's created_at removes it for good, though it would be live later. */
  lemma FutureCheckpointVanishes(parse: TimestampParser, cfg: TtlConfig, a: string, now: int)
    requires parse(a).Some? && now < parse(a).value
    requires cfg.defaultTtl.Some? && cfg.defaultTtl.value < DURATION_MAX
    requires cfg.maxCheckpoints != Some(0)
    ensures var events := [PutAt(now, "t", "x", a), ListAt(now, "t"), ListAt(parse(a).value, "t")];
      && Run(EMPTY, cfg, parse, events).1[2] == Ok(Listed([]))
      && LogRun(EMPTY, cfg, parse, events).1[2] == Ok(Listed([TupleOf("t", "x", a)]))
  {
    hide Step, LogStep, Run, LogRun, IsExpired;
    var x := TupleOf("t", "x", a);
    var e0, e1, e2 := PutAt(now, "t", "x", a), ListAt(now, "t"), ListAt(parse(a).value, "t");
    RunTwo(cfg, parse, e0, e1);
    LastReply(cfg, parse, [e0, e1], e2);
    assert [e0, e1] + [e2] == [e0, e1, e2];
    FutureTimes(parse, cfg, a, now);
    PutThenListTwice(parse, cfg, e0, e1, e2, x);
  }

  /** Ahead of the clock it counts as expired, at its own instant it is live. */
  lemma FutureTimes(parse: TimestampParser, cfg: TtlConfig, a: string, now: int)
    requires parse(a).Some? && now < parse(a).value
    requires cfg.defaultTtl.Some? && cfg.defaultTtl.value < DURATION_MAX
    ensures IsExpired(cfg, parse, a, now) && !IsExpired(cfg, parse, a, parse(a).value)
  {
  }

  lemma PutThenListTwice(
      parse: TimestampParser, cfg: TtlConfig, e0: Event, e1: Event, e2: Event, x: CheckpointTuple)
    requires e0 == PutAt(e0.now, "t", "x", x.checkpoint.createdAt) && x == TupleOf("t", "x", x.checkpoint.createdAt)
    requires e1 == ListAt(e1.now, "t") && IsExpired(cfg, parse, x.checkpoint.createdAt, e1.now)
    requires e2 == ListAt(e2.now, "t") && !IsExpired(cfg, parse, x.checkpoint.createdAt, e2.now)
    requires cfg.maxCheckpoints != Some(0)
    ensures Step(After(After(EMPTY, cfg, parse, e0), cfg, parse, e1), cfg, parse, e2.op, e2.now).1 == Ok(Listed([]))
    ensures LogStep(LogAfter(LogAfter(EMPTY, cfg, parse, e0), cfg, parse, e1), cfg, parse, e2.op, e2.now).1
         == Ok(Listed([x]))
  {
    SortOne(x);
    assert [] + [x] == [x];
    FilterPair(x, x, Live(cfg, parse, e1.now));
    FilterPair(x, x, Live(cfg, parse, e2.now));
    var st1, log1 := After(EMPTY, cfg, parse, e0), LogAfter(EMPTY, cfg, parse, e0);
    PutEffect(EMPTY, cfg, parse, e0, "t", "x", x.checkpoint.createdAt);
    assert History(st1.storage, "t", "") == [x] && History(log1.storage, "t", "") == [x];
    var st2 := After(st1, cfg, parse, e1);
    ListEffect(st1, cfg, parse, e1, "t");
    ListEffect(log1, cfg, parse, e1, "t");
    assert History(st2.storage, "t", "") == [];
    ListEffect(st2, cfg, parse, e2, "t");
    ListEffect(log1, cfg, parse, e2, "t");
  }

  // ----- Put times that know nothing of the clock -----

  /** The clock never goes back; a checkpoint may be put before or after its created_at. */
  ghost predicate Clocked(stamps: iset<string>, events: seq<Event>) {
    && (forall i, j :: 0 <= i < j < |events| ==> events[i].now <= events[j].now)
    && (forall i :: 0 <= i < |events| && events[i].op.Put? ==> events[i].op.checkpoint.createdAt in stamps)
  }

  ghost predicate UnobservableUntimely(stamps: iset<string>, parse: TimestampParser, cfg: TtlConfig) {
    forall events :: Clocked(stamps, events) ==>
      SameButWrites(Run(EMPTY, cfg, parse, events).1, LogRun(EMPTY, cfg, parse, events).1)
  }

  /** The configurations that show the same whatever the timestamps say. */
  predicate IgnoresStamps(cfg: TtlConfig) {
    cfg.defaultTtl.None? || cfg.maxCheckpoints == Some(0)
  }

  /** A parser that reads nothing. */
  function Unreadable(): TimestampParser {
    (_: string) => None
  }

  lemma ViewIgnores(cfg: TtlConfig, p: TimestampParser, q: TimestampParser, h: seq<CheckpointTuple>, now: int)
    requires IgnoresStamps(cfg)
    ensures View(cfg, p, h, now) == View(cfg, q, h, now)
  {
    if cfg.defaultTtl.None? {
      FilterAll(h, Live(cfg, p, now));
      FilterAll(h, Live(cfg, q, now));
    }
  }

  lemma StepIgnores(
      cfg: TtlConfig, p: TimestampParser, q: TimestampParser, st: SaverState, other: SaverState, op: Op, now: int)
    requires IgnoresStamps(cfg) && st.storage == other.storage
    ensures var (st', a) := Step(st, cfg, p, op, now);
      var (other', b) := Step(other, cfg, q, op, now);
      st'.storage == other'.storage && WithoutWrites(a) == WithoutWrites(b)
  {
    hide View, Sort;
    if op.config.threadId.Some? {
      var thread, ns := op.config.threadId.value, op.config.NsKey();
      CleanupIsView(st, cfg, p, thread, ns, now);
      CleanupIsView(other, cfg, q, thread, ns, now);
      ViewIgnores(cfg, p, q, History(st.storage, thread, ns), now);
    }
  }

  lemma LogStepIgnores(cfg: TtlConfig, p: TimestampParser, q: TimestampParser, log: SaverState, op: Op, now: int)
    requires IgnoresStamps(cfg)
    ensures LogStep(log, cfg, p, op, now) == LogStep(log, cfg, q, op, now)
  {
    hide View, Sort;
    if op.config.threadId.Some? {
      var thread, ns := op.config.threadId.value, op.config.NsKey();
      ViewIgnores(cfg, p, q, Sort(History(log.storage, thread, ns), Newer), now);
    }
  }

  lemma {:induction false} RunIgnores(cfg: TtlConfig, p: TimestampParser, q: TimestampParser, events: seq<Event>)
    requires IgnoresStamps(cfg)
    ensures Run(EMPTY, cfg, p, events).0.storage == Run(EMPTY, cfg, q, events).0.storage
    ensures SameButWrites(Run(EMPTY, cfg, p, events).1, Run(EMPTY, cfg, q, events).1)
    ensures LogRun(EMPTY, cfg, p, events) == LogRun(EMPTY, cfg, q, events)
  {
    hide Step, LogStep, WithoutWrites;
    if events != [] {
      var n := |events| - 1;
      var e := events[n];
      RunIgnores(cfg, p, q, events[..n]);
      StepIgnores(cfg, p, q, Run(EMPTY, cfg, p, events[..n]).0, Run(EMPTY, cfg, q, events[..n]).0, e.op, e.now);
      LogStepIgnores(cfg, p, q, LogRun(EMPTY, cfg, p, events[..n]).0, e.op, e.now);
    }
  }

  lemma NoStampsMatter(stamps: iset<string>, parse: TimestampParser, cfg: TtlConfig, events: seq<Event>)
    requires Clocked(stamps, events)
    requires IgnoresStamps(cfg) || forall a :: a in stamps ==> parse(a).None?
    ensures SameButWrites(Run(EMPTY, cfg, parse, events).1, LogRun(EMPTY, cfg, parse, events).1)
  {
    var now := if events == [] then 0 else events[|events| - 1].now;
    if IgnoresStamps(cfg) {
      assert Admissible(stamps, Unreadable(), events);
      RunCoupled(stamps, Unreadable(), cfg, events, now);
      RunIgnores(cfg, parse, Unreadable(), events);
    } else {
      assert Admissible(stamps, parse, events);
      RunCoupled(stamps, parse, cfg, events, now);
    }
  }

  /**
   * With put times at will, cleanup is unobservable exactly when nothing expires, nothing is shown, or
   * no timestamp in use can be read: any other can be put ahead of the clock and lost.
   */
  lemma UnobservableUntimelyIff(stamps: iset<string>, parse: TimestampParser, cfg: TtlConfig)
    requires cfg.defaultTtl.Some? ==> cfg.defaultTtl.value < DURATION_MAX
    ensures UnobservableUntimely(stamps, parse, cfg) <==>
      IgnoresStamps(cfg) || forall a :: a in stamps ==> parse(a).None?
  {
    hide Run, LogRun;
    if IgnoresStamps(cfg) || forall a :: a in stamps ==> parse(a).None? {
      forall events | Clocked(stamps, events)
        ensures SameButWrites(Run(EMPTY, cfg, parse, events).1, LogRun(EMPTY, cfg, parse, events).1)
      {
        NoStampsMatter(stamps, parse, cfg, events);
      }
    } else {
      var a :| a in stamps && parse(a).Some?;
      var now := parse(a).value - 1;
      var events := [PutAt(now, "t", "x", a), ListAt(now, "t"), ListAt(parse(a).value, "t")];
      FutureCheckpointVanishes(parse, cfg, a, now);
      assert Clocked(stamps, events);
      assert WithoutWrites(Run(EMPTY, cfg, parse, events).1[2]) != WithoutWrites(LogRun(EMPTY, cfg, parse, events).1[2]);
    }
  }
}
