/** The state of the in-memory saver and what each of its operations does to it. */
module SaverModel {
  import opened Wrappers
  import opened Seqs
  import opened StringOrder
  import opened StableSorting
  import opened Checkpoints
  import opened Listing

  /** Nanoseconds in `std::time::Duration::MAX`. */
  const DURATION_MAX: nat := 0xFFFF_FFFF_FFFF_FFFF * 1_000_000_000 + 999_999_999

  datatype TtlConfig = TtlConfig(defaultTtl: Option<nat>, maxCheckpoints: Option<nat>)

  /** Reads an RFC 3339 timestamp as nanoseconds; `None` when it does not parse. */
  type TimestampParser = string -> Option<int>

  /** A timestamp ahead of the clock has no age and counts as infinitely old; an unreadable one never expires. */
  predicate IsExpired(cfg: TtlConfig, parse: TimestampParser, createdAt: string, now: int) {
    cfg.defaultTtl.Some? && parse(createdAt).Some? &&
    var age := now - parse(createdAt).value;
    (if age >= 0 then age else DURATION_MAX) > cfg.defaultTtl.value
  }

  function Live(cfg: TtlConfig, parse: TimestampParser, now: int): CheckpointTuple -> bool {
    (t: CheckpointTuple) => !IsExpired(cfg, parse, t.checkpoint.createdAt, now)
  }

  /** The order of a history: descending by (created_at, id), both compared as text. */
  predicate Newer(a: CheckpointTuple, b: CheckpointTuple) {
    var x, y := a.checkpoint, b.checkpoint;
    StrLess(y.createdAt, x.createdAt) || (x.createdAt == y.createdAt && StrLeq(y.id, x.id))
  }

  type StorageMap = map<string, map<string, seq<CheckpointTuple>>>

  /** Keyed by (thread, checkpoint id, namespace). */
  type WritesMap = map<(string, string, string), seq<PendingWrite>>

  datatype SaverState = SaverState(storage: StorageMap, writes: WritesMap)

  const EMPTY := SaverState(map[], map[])

  function History(storage: StorageMap, thread: string, ns: string): seq<CheckpointTuple> {
    if thread in storage && ns in storage[thread] then storage[thread][ns] else []
  }

  function SetHistory(storage: StorageMap, thread: string, ns: string, h: seq<CheckpointTuple>): StorageMap {
    storage[thread := (if thread in storage then storage[thread] else map[])[ns := h]]
  }

  lemma HistoryAfterSet(storage: StorageMap, thread: string, ns: string, h: seq<CheckpointTuple>, th: string, n: string)
    ensures History(SetHistory(storage, thread, ns, h), th, n)
         == if th == thread && n == ns then h else History(storage, th, n)
  {
  }

  // ----- Operations -----

  datatype Op =
    | GetTuple(config: RunnableConfig)
    | List(config: RunnableConfig, filter: Option<CheckpointFilter>)
    | Put(config: RunnableConfig, checkpoint: Checkpoint, metadata: CheckpointMetadata)
    | PutWrites(config: RunnableConfig, writes: seq<PendingWrite>, taskId: string)

  datatype Answer =
    | Found(tuple: Option<CheckpointTuple>)
    | Listed(tuples: seq<CheckpointTuple>)
    | Stored(config: RunnableConfig)
    | Done

  type Reply = Result<Answer, CheckpointError>

  const NO_THREAD := Storage("thread_id is required")
  const NO_CHECKPOINT := Storage("checkpoint_id is required")

  /** The ids of the retained tuples. */
  function Ids(h: seq<CheckpointTuple>): set<string> {
    set t | t in h :: t.checkpoint.id
  }

  /** The `retain` closure: it names the key parts (thread, ns, id), but the key is (thread, id, ns). */
  function RetainWrites(writes: WritesMap, thread: string, ns: string, ids: set<string>): WritesMap {
    map k | k in writes && k.0 == thread && k.1 == ns && k.2 in ids :: writes[k]
  }

  function Cleanup(st: SaverState, cfg: TtlConfig, parse: TimestampParser, thread: string, ns: string, now: int)
    : SaverState
  {
    var h := History(st.storage, thread, ns);
    var kept := Filter(h, Live(cfg, parse, now));
    match cfg.maxCheckpoints
    case None => st.(storage := SetHistory(st.storage, thread, ns, kept))
    case Some(max) =>
      var trimmed := Take(kept, max);
      SaverState(
        SetHistory(st.storage, thread, ns, trimmed),
        if |kept| < |h| then RetainWrites(st.writes, thread, ns, Ids(trimmed)) else st.writes)
  }

  function Pick(h: seq<CheckpointTuple>, checkpointId: Option<string>): Option<CheckpointTuple> {
    match checkpointId
    case None => if h == [] then None else Some(h[0])
    case Some(id) =>
      match Position(h, WithId(id))
      case None => None
      case Some(i) => Some(h[i])
  }

  function AttachWrites(t: Option<CheckpointTuple>, writes: WritesMap, thread: string, ns: string)
    : Option<CheckpointTuple>
  {
    if t.None? then None
    else
      var key := (thread, t.value.checkpoint.id, ns);
      Some(t.value.(pendingWrites := if key in writes then writes[key] else []))
  }

  function NewTuple(config: RunnableConfig, checkpoint: Checkpoint, metadata: CheckpointMetadata): CheckpointTuple {
    CheckpointTuple(config, checkpoint, metadata, [], None)
  }

  function AddWrites(writes: WritesMap, key: (string, string, string), ws: seq<PendingWrite>, taskId: string): WritesMap {
    writes[key := (if key in writes then writes[key] else []) + WithTask(ws, taskId)]
  }

  function WithTask(ws: seq<PendingWrite>, taskId: string): (r: seq<PendingWrite>)
    ensures |r| == |ws|
  {
    seq(|ws|, i requires 0 <= i < |ws| => ws[i].(taskId := taskId))
  }

  /** One operation at clock reading `now`: the new state and the reply. */
  function Step(st: SaverState, cfg: TtlConfig, parse: TimestampParser, op: Op, now: int): (SaverState, Reply) {
    if op.config.threadId.None? then (st, Err(NO_THREAD))
    else
      var thread, ns := op.config.threadId.value, op.config.NsKey();
      match op
      case GetTuple(config) =>
        var clean := Cleanup(st, cfg, parse, thread, ns, now);
        var picked := Pick(History(clean.storage, thread, ns), config.checkpointId);
        (clean, Ok(Found(AttachWrites(picked, clean.writes, thread, ns))))
      case List(config, filter) =>
        var clean := Cleanup(st, cfg, parse, thread, ns, now);
        (clean, Ok(Listed(MemoryList(History(clean.storage, thread, ns), filter))))
      case Put(config, checkpoint, metadata) =>
        var h := History(st.storage, thread, ns) + [NewTuple(config, checkpoint, metadata)];
        (st.(storage := SetHistory(st.storage, thread, ns, Sort(h, Newer))),
         Ok(Stored(config.(checkpointId := Some(checkpoint.id)))))
      case PutWrites(config, writes, taskId) =>
        if config.checkpointId.None? then (st, Err(NO_CHECKPOINT))
        else
          (st.(writes := AddWrites(st.writes, (thread, config.checkpointId.value, ns), writes, taskId)), Ok(Done))
  }

  datatype Event = Event(now: int, op: Op)

  /** A whole run: the state reached and every reply, in order. */
  function Run(st: SaverState, cfg: TtlConfig, parse: TimestampParser, events: seq<Event>): (r: (SaverState, seq<Reply>))
    ensures |r.1| == |events|
  {
    if events == [] then (st, [])
    else
      var n := |events| - 1;
      var (before, replies) := Run(st, cfg, parse, events[..n]);
      var (after, reply) := Step(before, cfg, parse, events[n].op, events[n].now);
      (after, replies + [reply])
  }
}

/** The in-memory saver: nested maps behind locks, one clock reading per operation. */
module MemorySavers {
  import opened Wrappers
  import opened Seqs
  import opened StableSorting
  import opened Checkpoints
  import opened Listing
  import opened SaverModel

  class MemorySaver {
    var storage: StorageMap
    var writes: WritesMap
    var ttlConfig: TtlConfig
    const parse: TimestampParser

    function State(): SaverState
      reads this
    {
      SaverState(storage, writes)
    }

    constructor (parse: TimestampParser)
      ensures State() == EMPTY && ttlConfig == TtlConfig(None, None) && this.parse == parse
    {
      storage, writes, ttlConfig := map[], map[], TtlConfig(None, None);
      this.parse := parse;
    }

    method SetTtlConfig(config: TtlConfig)
      modifies this`ttlConfig
      ensures ttlConfig == config
    {
      ttlConfig := config;
    }

    /** Drops expired tuples, then the oldest beyond the cap; only the cap branch reaches the write cleanup. */
    method LazyCleanup(thread: string, ns: string, now: int)
      modifies this`storage, this`writes
      ensures State() == Cleanup(old(State()), ttlConfig, parse, thread, ns, now)
    {
      var threadMap := if thread in storage then storage[thread] else map[];
      var checkpoints := if ns in threadMap then threadMap[ns] else [];

      var originalLen := |checkpoints|;
      checkpoints := Filter(checkpoints, Live(ttlConfig, parse, now));
      var expiredCount := originalLen - |checkpoints|;

      if ttlConfig.maxCheckpoints.None? {
        storage := storage[thread := threadMap[ns := checkpoints]];
        return;
      }
      var max := ttlConfig.maxCheckpoints.value;
      if |checkpoints| > max {
        checkpoints := checkpoints[..max];
      }
      assert checkpoints == Take(Filter(History(storage, thread, ns), Live(ttlConfig, parse, now)), max);
      storage := storage[thread := threadMap[ns := checkpoints]];

      if expiredCount > 0 {
        var checkpointIds := Ids(checkpoints);
        writes := RetainWrites(writes, thread, ns, checkpointIds);
      }
    }

    method GetTuple(config: RunnableConfig, now: int) returns (reply: Reply)
      modifies this`storage, this`writes
      ensures (State(), reply) == Step(old(State()), ttlConfig, parse, Op.GetTuple(config), now)
    {
      if config.threadId.None? {
        return Err(NO_THREAD);
      }
      var thread, ns := config.threadId.value, config.NsKey();
      LazyCleanup(thread, ns, now);

      var picked := None;
      if thread in storage && ns in storage[thread] {
        var checkpoints := storage[thread][ns];
        if config.checkpointId.None? {
          if checkpoints != [] {
            picked := Some(checkpoints[0]);
          }
        } else {
          var i := Position(checkpoints, WithId(config.checkpointId.value));
          if i.Some? {
            picked := Some(checkpoints[i.value]);
          }
        }
      }
      if picked.None? {
        return Ok(Found(None));
      }
      var key := (thread, picked.value.checkpoint.id, ns);
      var pending := if key in writes then writes[key] else [];
      return Ok(Found(Some(picked.value.(pendingWrites := pending))));
    }

    method List(config: RunnableConfig, filter: Option<CheckpointFilter>, now: int) returns (reply: Reply)
      modifies this`storage, this`writes
      ensures (State(), reply) == Step(old(State()), ttlConfig, parse, Op.List(config, filter), now)
    {
      if config.threadId.None? {
        return Err(NO_THREAD);
      }
      var thread, ns := config.threadId.value, config.NsKey();
      LazyCleanup(thread, ns, now);
      var checkpoints := if thread in storage && ns in storage[thread] then storage[thread][ns] else [];
      if filter.Some? {
        var f := filter.value;
        if f.source.Some? {
          checkpoints := Filter(checkpoints, OfSource(f.source.value));
        }
        if f.stepGte.Some? {
          checkpoints := Filter(checkpoints, FromStep(f.stepGte.value));
        }
        if f.stepLte.Some? {
          checkpoints := Filter(checkpoints, UpToStep(f.stepLte.value));
        }
        if f.before.Some? {
          checkpoints := CutBefore(checkpoints, f.before.value);
        }
        if f.after.Some? {
          checkpoints := CutAfter(checkpoints, f.after.value);
        }
        if f.limit.Some? {
          checkpoints := Take(checkpoints, f.limit.value);
        }
      }
      return Ok(Listed(checkpoints));
    }

    /** Pushes the tuple and re-sorts; nothing is pruned here. */
    method Put(config: RunnableConfig, checkpoint: Checkpoint, metadata: CheckpointMetadata, now: int)
      returns (reply: Reply)
      modifies this`storage
      ensures (State(), reply) == Step(old(State()), ttlConfig, parse, Op.Put(config, checkpoint, metadata), now)
    {
      if config.threadId.None? {
        return Err(NO_THREAD);
      }
      var thread, ns := config.threadId.value, config.NsKey();
      var tuple := CheckpointTuple(config, checkpoint, metadata, [], None);
      var threadMap := if thread in storage then storage[thread] else map[];
      var namespace := if ns in threadMap then threadMap[ns] else [];
      namespace := namespace + [tuple];
      namespace := Sort(namespace, Newer);
      storage := storage[thread := threadMap[ns := namespace]];
      return Ok(Stored(config.(checkpointId := Some(checkpoint.id))));
    }

    method PutWrites(config: RunnableConfig, newWrites: seq<PendingWrite>, taskId: string, now: int)
      returns (reply: Reply)
      modifies this`writes
      ensures (State(), reply) == Step(old(State()), ttlConfig, parse, Op.PutWrites(config, newWrites, taskId), now)
    {
      if config.threadId.None? {
        return Err(NO_THREAD);
      }
      if config.checkpointId.None? {
        return Err(NO_CHECKPOINT);
      }
      var key := (config.threadId.value, config.checkpointId.value, config.NsKey());
      var prepared := WithTask(newWrites, taskId);
      writes := writes[key := (if key in writes then writes[key] else []) + prepared];
      return Ok(Done);
    }
  }
}
