/** The SQLite saver's tables, as maps on their primary keys, and its write log. */
module SqliteModel {
  import opened Wrappers
  import opened StringOrder
  import opened StableSorting
  import opened Json
  import opened Checkpoints

  /** Primary key (thread_id, checkpoint_ns, checkpoint_id, task_id, idx). */
  datatype WriteKey = WriteKey(thread: string, ns: string, checkpointId: string, taskId: string, idx: nat)

  datatype WriteRow = WriteRow(channel: string, value: Json)

  type WriteTable = map<WriteKey, WriteRow>

  /** Primary key (thread_id, checkpoint_ns, checkpoint_id). */
  datatype CheckpointKey = CheckpointKey(thread: string, ns: string, checkpointId: string)

  datatype CheckpointRow = CheckpointRow(checkpoint: Checkpoint, metadata: CheckpointMetadata)

  type CheckpointTable = map<CheckpointKey, CheckpointRow>

  /** The columns written: the two delta-tracking maps are not stored. */
  function Columns(c: Checkpoint): Checkpoint {
    c.(newVersions := map[], countersSinceDeltaSnapshot := map[], v := 1)
  }

  /** On conflict every column but created_at is replaced. */
  function UpsertCheckpoint(table: CheckpointTable, key: CheckpointKey, c: Checkpoint, m: CheckpointMetadata)
    : CheckpointTable
  {
    var createdAt := if key in table then table[key].checkpoint.createdAt else c.createdAt;
    table[key := CheckpointRow(Columns(c).(createdAt := createdAt), m)]
  }

  function ClearWrites(table: WriteTable, thread: string, ns: string): WriteTable {
    map k | k in table && !(k.thread == thread && k.ns == ns) :: table[k]
  }

  /** One upsert for each write, at its position. */
  function UpsertWrites(table: WriteTable, c: CheckpointKey, taskId: string, ws: seq<PendingWrite>): WriteTable {
    if ws == [] then table
    else
      var n := |ws| - 1;
      UpsertWrites(table, c, taskId, ws[..n])
        [WriteKey(c.thread, c.ns, c.checkpointId, taskId, n) := WriteRow(ws[n].channel, ws[n].value)]
  }

  /** ORDER BY task_id, idx. */
  predicate KeyLeq(a: WriteKey, b: WriteKey) {
    (StrLeq(a.taskId, b.taskId) && a.taskId != b.taskId) || (a.taskId == b.taskId && a.idx <= b.idx)
  }

  predicate OfCheckpoint(k: WriteKey, c: CheckpointKey) {
    k.thread == c.thread && k.ns == c.ns && k.checkpointId == c.checkpointId
  }

  /** The keys of one checkpoint's rows, in query order. */
  ghost predicate InQueryOrder(keys: seq<WriteKey>, table: WriteTable, c: CheckpointKey) {
    && (forall k :: k in keys <==> k in table && OfCheckpoint(k, c))
    && (forall i, j :: 0 <= i < j < |keys| ==> KeyLeq(keys[i], keys[j]) && keys[i] != keys[j])
  }

  function RowWrite(k: WriteKey, row: WriteRow): PendingWrite {
    PendingWrite(k.taskId, row.channel, row.value)
  }

  lemma KeyOrder()
    ensures TotalPreorder(KeyLeq)
  {
    StrOrderFacts();
  }

  lemma KeyAntisymmetric(a: WriteKey, b: WriteKey, c: CheckpointKey)
    requires OfCheckpoint(a, c) && OfCheckpoint(b, c) && KeyLeq(a, b) && KeyLeq(b, a)
    ensures a == b
  {
    StrOrderFacts();
  }

  /** The query fixes the order of its rows: there is only one. */
  lemma {:induction false} QueryOrderUnique(a: seq<WriteKey>, b: seq<WriteKey>, table: WriteTable, c: CheckpointKey)
    requires InQueryOrder(a, table, c) && InQueryOrder(b, table, c)
    ensures a == b
    decreases |a|
  {
    assert a != [] ==> a[0] in a;
    assert b != [] ==> b[0] in b;
    if a != [] {
      var i :| 0 <= i < |b| && b[i] == a[0];
      var j :| 0 <= j < |a| && a[j] == b[0];
      if i > 0 && j > 0 {
        assert KeyLeq(b[0], b[i]) && KeyLeq(a[0], a[j]);
        KeyAntisymmetric(a[0], b[0], c);
      }
      assert a[0] == b[0];
      var rest := table - {a[0]};
      assert forall k :: k in a[1..] <==> k in a && k != a[0];
      assert forall k :: k in b[1..] <==> k in b && k != b[0];
      QueryOrderUnique(a[1..], b[1..], rest, c);
    }
  }

  // ----- Listing -----

  function StampOf(table: CheckpointTable, k: CheckpointKey): string {
    if k in table then table[k].checkpoint.createdAt else ""
  }

  /** ORDER BY created_at DESC. */
  function StampLeq(table: CheckpointTable): (CheckpointKey, CheckpointKey) -> bool {
    (a: CheckpointKey, b: CheckpointKey) => StrLeq(StampOf(table, b), StampOf(table, a))
  }

  predicate OfNamespace(k: CheckpointKey, thread: string, ns: string) {
    k.thread == thread && k.ns == ns
  }

  /** An order in which the query may return the rows: the database decides between equal timestamps. */
  ghost predicate InListOrder(order: seq<CheckpointKey>, table: CheckpointTable, thread: string, ns: string) {
    && (forall k :: k in order <==> k in table && OfNamespace(k, thread, ns))
    && (forall i, j :: 0 <= i < j < |order| ==> order[i] != order[j])
    && Sorted(order, StampLeq(table))
  }

  /** A row as a tuple: without writes, and with the reader's config. */
  function RowTuple(config: RunnableConfig, row: CheckpointRow): CheckpointTuple {
    CheckpointTuple(config, row.checkpoint, row.metadata, [], None)
  }

  function RowTuples(order: seq<CheckpointKey>, table: CheckpointTable, config: RunnableConfig)
    : (r: seq<CheckpointTuple>)
    requires forall k :: k in order ==> k in table
    ensures |r| == |order|
    ensures forall i :: 0 <= i < |r| ==> r[i] == RowTuple(config, table[order[i]])
  {
    seq(|order|, i requires 0 <= i < |order| => RowTuple(config, table[order[i]]))
  }

  lemma StampOrder(table: CheckpointTable)
    ensures TotalPreorder(StampLeq(table))
  {
    StrOrderFacts();
  }

  // ----- Runs -----

  datatype Event =
    | PutCheckpoint(key: CheckpointKey, checkpoint: Checkpoint, metadata: CheckpointMetadata)
    | PutWrites(key: CheckpointKey, taskId: string, writes: seq<PendingWrite>)

  datatype Tables = Tables(checkpoints: CheckpointTable, writes: WriteTable)

  function Step(t: Tables, e: Event): Tables {
    match e
    case PutCheckpoint(key, c, m) =>
      Tables(UpsertCheckpoint(t.checkpoints, key, c, m), ClearWrites(t.writes, key.thread, key.ns))
    case PutWrites(key, taskId, ws) => t.(writes := UpsertWrites(t.writes, key, taskId, ws))
  }

  function Run(events: seq<Event>): Tables {
    if events == [] then Tables(map[], map[]) else Step(Run(events[..|events| - 1]), events[|events| - 1])
  }
}

module SqliteSavers {
  import opened Wrappers
  import opened Seqs
  import opened StableSorting
  import opened Checkpoints
  import opened Listing
  import opened SqliteModel

  class SqliteSaver {
    var checkpoints: CheckpointTable
    var writes: WriteTable

    function State(): Tables
      reads this
    {
      Tables(checkpoints, writes)
    }

    constructor ()
      ensures State() == Tables(map[], map[])
    {
      checkpoints, writes := map[], map[];
    }

    /** Saves the checkpoint and discards every pending write of its thread and namespace, in one transaction. */
    method Put(config: RunnableConfig, checkpoint: Checkpoint, metadata: CheckpointMetadata)
      returns (r: Result<RunnableConfig, CheckpointError>)
      modifies this
      ensures config.threadId.None? ==> r == Err(Storage("thread_id is required")) && State() == old(State())
      ensures config.threadId.Some? ==>
        && r == Ok(config.(checkpointId := Some(checkpoint.id)))
        && State() == Step(old(State()),
             PutCheckpoint(CheckpointKey(config.threadId.value, config.NsKey(), checkpoint.id), checkpoint, metadata))
    {
      if config.threadId.None? {
        return Err(Storage("thread_id is required"));
      }
      var thread, ns := config.threadId.value, config.NsKey();
      var key := CheckpointKey(thread, ns, checkpoint.id);
      var createdAt := if key in checkpoints then checkpoints[key].checkpoint.createdAt else checkpoint.createdAt;
      checkpoints := checkpoints[key := CheckpointRow(Columns(checkpoint).(createdAt := createdAt), metadata)];
      writes := map k | k in writes && !(k.thread == thread && k.ns == ns) :: writes[k];
      return Ok(config.(checkpointId := Some(checkpoint.id)));
    }

    /** Upserts each write under its index. */
    method PutWrites(config: RunnableConfig, newWrites: seq<PendingWrite>, taskId: string)
      returns (r: Result<(), CheckpointError>)
      modifies this
      ensures config.threadId.None? ==> r == Err(Storage("thread_id is required")) && State() == old(State())
      ensures config.threadId.Some? && config.checkpointId.None? ==>
        r == Err(Storage("checkpoint_id is required")) && State() == old(State())
      ensures config.threadId.Some? && config.checkpointId.Some? ==>
        && r == Ok(())
        && State() == Step(old(State()), Event.PutWrites(
             CheckpointKey(config.threadId.value, config.NsKey(), config.checkpointId.value), taskId, newWrites))
    {
      if config.threadId.None? {
        return Err(Storage("thread_id is required"));
      }
      if config.checkpointId.None? {
        return Err(Storage("checkpoint_id is required"));
      }
      var key := CheckpointKey(config.threadId.value, config.NsKey(), config.checkpointId.value);
      ghost var start := writes;
      for idx := 0 to |newWrites|
        invariant writes == UpsertWrites(start, key, taskId, newWrites[..idx])
        invariant checkpoints == old(checkpoints)
      {
        var write := newWrites[idx];
        assert newWrites[..idx + 1][..idx] == newWrites[..idx];
        writes := writes[WriteKey(key.thread, key.ns, key.checkpointId, taskId, idx) :=
                           WriteRow(write.channel, write.value)];
      }
      assert newWrites[..|newWrites|] == newWrites;
      return Ok(());
    }

    /** The rows of one checkpoint, ordered by task and index. */
    method LoadPendingWrites(key: CheckpointKey) returns (r: seq<PendingWrite>, ghost order: seq<WriteKey>)
      ensures InQueryOrder(order, writes, key)
      ensures |r| == |order|
      ensures forall i :: 0 <= i < |r| ==> order[i] in writes && r[i] == RowWrite(order[i], writes[order[i]])
    {
      var keys: seq<WriteKey> := [];
      var todo := set k | k in writes && OfCheckpoint(k, key);
      KeyOrder();
      while todo != {}
        invariant forall k :: k in todo ==> k in writes && OfCheckpoint(k, key)
        invariant forall k :: k in keys <==> k in writes && OfCheckpoint(k, key) && k !in todo
        invariant Sorted(keys, KeyLeq)
        invariant forall i, j :: 0 <= i < j < |keys| ==> keys[i] != keys[j]
      {
        var k :| k in todo;
        InsertSorted(k, keys, KeyLeq);
        InsertMembers(k, keys, KeyLeq);
        InsertDistinct(k, keys, KeyLeq);
        keys := Insert(k, keys, KeyLeq);
        todo := todo - {k};
      }
      r := [];
      for i := 0 to |keys|
        invariant |r| == i
        invariant forall j :: 0 <= j < i ==> keys[j] in writes && r[j] == RowWrite(keys[j], writes[keys[j]])
      {
        assert keys[i] in keys;
        r := r + [RowWrite(keys[i], writes[keys[i]])];
      }
      order := keys;
    }

    /** The rows of one thread and namespace, newest first, through the filter. */
    method List(config: RunnableConfig, filter: Option<CheckpointFilter>)
      returns (r: Result<seq<CheckpointTuple>, CheckpointError>, ghost order: seq<CheckpointKey>)
      ensures config.threadId.None? ==> r == Err(Storage("thread_id is required"))
      ensures config.threadId.Some? ==>
        && InListOrder(order, checkpoints, config.threadId.value, config.NsKey())
        && r == SqliteList(RowTuples(order, checkpoints, config), filter)
    {
      order := [];
      if config.threadId.None? {
        return Err(Storage("thread_id is required")), [];
      }
      var keys := ListedKeys(config.threadId.value, config.NsKey());
      var rows := RowTuples(keys, checkpoints, config);
      order := keys;
      if HasNonLimitFilter(filter) {
        return Ok(ApplyListFilter(rows, filter.value)), order;
      }
      var limit := if ExplicitLimit(filter).Some? then ExplicitLimit(filter).value else DEFAULT_LIMIT;
      if limit > I64_MAX {
        return Err(LIMIT_TOO_LARGE), order;
      }
      rows := Take(rows, limit);
      if ExplicitLimit(filter).Some? {
        rows := Take(rows, limit);
      }
      return Ok(rows), order;
    }

    method ListedKeys(thread: string, ns: string) returns (keys: seq<CheckpointKey>)
      ensures InListOrder(keys, checkpoints, thread, ns)
    {
      keys := [];
      var leq := StampLeq(checkpoints);
      var todo := set k | k in checkpoints && OfNamespace(k, thread, ns);
      StampOrder(checkpoints);
      while todo != {}
        invariant forall k :: k in todo ==> k in checkpoints && OfNamespace(k, thread, ns)
        invariant forall k :: k in keys <==> k in checkpoints && OfNamespace(k, thread, ns) && k !in todo
        invariant Sorted(keys, leq)
        invariant forall i, j :: 0 <= i < j < |keys| ==> keys[i] != keys[j]
      {
        var k :| k in todo;
        InsertSorted(k, keys, leq);
        InsertMembers(k, keys, leq);
        InsertDistinct(k, keys, leq);
        keys := Insert(k, keys, leq);
        todo := todo - {k};
      }
    }
  }
}

/** Pending writes over whole runs, retries included. */
module PendingWriteTheorems {
  import opened StringOrder
  import opened Checkpoints
  import opened SqliteModel
  import SaverModel

  lemma {:induction false} UpsertRows(
      table: WriteTable, c: CheckpointKey, taskId: string, ws: seq<PendingWrite>, k: WriteKey)
    ensures var t := UpsertWrites(table, c, taskId, ws);
      if OfCheckpoint(k, c) && k.taskId == taskId && k.idx < |ws|
      then k in t && t[k] == WriteRow(ws[k.idx].channel, ws[k.idx].value)
      else (k in t <==> k in table) && (k in table ==> t[k] == table[k])
  {
    if ws != [] {
      var n := |ws| - 1;
      UpsertRows(table, c, taskId, ws[..n], k);
      if OfCheckpoint(k, c) && k.taskId == taskId && k.idx == n {
        assert k == WriteKey(c.thread, c.ns, c.checkpointId, taskId, n);
      }
    }
  }

  function RowOf(w: PendingWrite): WriteRow {
    WriteRow(w.channel, w.value)
  }

  /** The event writes the row at `k`. */
  predicate Writes(e: Event, k: WriteKey) {
    e.PutWrites? && OfCheckpoint(k, e.key) && k.taskId == e.taskId && k.idx < |e.writes|
  }

  /** The event discards the row at `k`. */
  predicate Discards(e: Event, k: WriteKey) {
    e.PutCheckpoint? && k.thread == e.key.thread && k.ns == e.key.ns
  }

  /** Event `i` is the last to write `k`, and no checkpoint put in its thread and namespace follows. */
  ghost predicate LastWriter(events: seq<Event>, i: nat, k: WriteKey) {
    && i < |events| && Writes(events[i], k)
    && forall j :: i < j < |events| ==> !Writes(events[j], k) && !Discards(events[j], k)
  }

  lemma StepRow(t: Tables, e: Event, k: WriteKey)
    ensures var t' := Step(t, e);
      if Writes(e, k) then k in t'.writes && t'.writes[k] == RowOf(e.writes[k.idx])
      else if Discards(e, k) then k !in t'.writes
      else (k in t'.writes <==> k in t.writes) && (k in t.writes ==> t'.writes[k] == t.writes[k])
  {
    if e.PutWrites? {
      UpsertRows(t.writes, e.key, e.taskId, e.writes, k);
    }
  }

  /**
   * After any run, the row at (task, idx) of a checkpoint is the one from the latest put_writes call
   * for that checkpoint and task longer than idx, unless the thread and namespace were checkpointed
   * since; there is no row without such a call.
   */
  lemma {:induction false} RowIsLatest(events: seq<Event>, k: WriteKey)
    ensures k in Run(events).writes <==> exists i: nat :: LastWriter(events, i, k)
    ensures forall i: nat :: LastWriter(events, i, k) ==>
      k in Run(events).writes && Run(events).writes[k] == RowOf(events[i].writes[k.idx])
  {
    if events != [] {
      var n := |events| - 1;
      var before := events[..n];
      RowIsLatest(before, k);
      StepRow(Run(before), events[n], k);
      if Writes(events[n], k) {
        assert LastWriter(events, n, k);
      } else {
        forall i: nat ensures LastWriter(events, i, k) <==> LastWriter(before, i, k) && !Discards(events[n], k) {
          LastWriterSnoc(events, i, k);
        }
      }
    }
  }

  lemma LastWriterSnoc(events: seq<Event>, i: nat, k: WriteKey)
    requires events != [] && !Writes(events[|events| - 1], k)
    ensures LastWriter(events, i, k) <==>
      LastWriter(events[..|events| - 1], i, k) && !Discards(events[|events| - 1], k)
  {
    var n := |events| - 1;
    if LastWriter(events[..n], i, k) && !Discards(events[n], k) {
      forall j | i < j < |events| ensures !Writes(events[j], k) && !Discards(events[j], k) {
        assert j == n || events[..n][j] == events[j];
      }
    }
    if LastWriter(events, i, k) {
      forall j | i < j < n ensures !Writes(events[..n][j], k) && !Discards(events[..n][j], k) {
        assert events[..n][j] == events[j];
      }
    }
  }

  /**
   * What load_pending_writes returns after any run, by task and then by index: every write of the
   * checkpoint that nothing superseded or discarded, each once, each from its latest call.
   */
  lemma LoadAfterRun(events: seq<Event>, key: CheckpointKey, order: seq<WriteKey>)
    requires InQueryOrder(order, Run(events).writes, key)
    ensures forall i, j :: 0 <= i < j < |order| ==>
      || StrLess(order[i].taskId, order[j].taskId)
      || (order[i].taskId == order[j].taskId && order[i].idx < order[j].idx)
    ensures forall k :: k in order <==> OfCheckpoint(k, key) && exists i: nat :: LastWriter(events, i, k)
    ensures forall n, i: nat :: 0 <= n < |order| && LastWriter(events, i, order[n]) ==>
      order[n] in Run(events).writes
      && RowWrite(order[n], Run(events).writes[order[n]])
           == events[i].writes[order[n].idx].(taskId := events[i].taskId)
  {
    forall k ensures k in order <==> OfCheckpoint(k, key) && exists i: nat :: LastWriter(events, i, k) {
      RowIsLatest(events, k);
    }
    forall n, i: nat | 0 <= n < |order| && LastWriter(events, i, order[n])
      ensures order[n] in Run(events).writes
      ensures RowWrite(order[n], Run(events).writes[order[n]])
           == events[i].writes[order[n].idx].(taskId := events[i].taskId)
    {
      RowIsLatest(events, order[n]);
    }
    forall i, j | 0 <= i < j < |order|
      ensures StrLess(order[i].taskId, order[j].taskId) || (order[i].taskId == order[j].taskId && order[i].idx < order[j].idx)
    {
      assert order[i] in order && order[j] in order;
      StrictlyBefore(order[i], order[j], key);
    }
  }

  lemma StrictlyBefore(a: WriteKey, b: WriteKey, key: CheckpointKey)
    requires OfCheckpoint(a, key) && OfCheckpoint(b, key) && a != b && KeyLeq(a, b)
    ensures StrLess(a.taskId, b.taskId) || (a.taskId == b.taskId && a.idx < b.idx)
  {
    StrOrderFacts();
  }

  /** Repeating a put_writes call changes nothing. */
  lemma RetryIdempotent(t: Tables, key: CheckpointKey, taskId: string, ws: seq<PendingWrite>)
    ensures var e := PutWrites(key, taskId, ws); Step(Step(t, e), e) == Step(t, e)
  {
    var e := PutWrites(key, taskId, ws);
    forall k ensures (k in Step(Step(t, e), e).writes <==> k in Step(t, e).writes)
             ensures k in Step(t, e).writes ==> Step(Step(t, e), e).writes[k] == Step(t, e).writes[k] {
      StepRow(t, e, k);
      StepRow(Step(t, e), e, k);
    }
  }

  /** Calls of different tasks commute. */
  lemma TasksCommute(t: Tables, a: Event, b: Event)
    requires a.PutWrites? && b.PutWrites? && a.taskId != b.taskId
    ensures Step(Step(t, a), b) == Step(Step(t, b), a)
  {
    forall k ensures (k in Step(Step(t, a), b).writes <==> k in Step(Step(t, b), a).writes)
             ensures k in Step(Step(t, a), b).writes ==> Step(Step(t, a), b).writes[k] == Step(Step(t, b), a).writes[k] {
      StepRow(t, a, k);
      StepRow(t, b, k);
      StepRow(Step(t, a), b, k);
      StepRow(Step(t, b), a, k);
    }
  }

  predicate Puts(e: Event, key: CheckpointKey) {
    e.PutCheckpoint? && e.key == key
  }

  ghost predicate FirstPut(events: seq<Event>, i: nat, key: CheckpointKey) {
    i < |events| && Puts(events[i], key) && forall j :: 0 <= j < i ==> !Puts(events[j], key)
  }

  ghost predicate LastPut(events: seq<Event>, i: nat, key: CheckpointKey) {
    i < |events| && Puts(events[i], key) && forall j :: i < j < |events| ==> !Puts(events[j], key)
  }

  lemma {:induction false} NoPutNoRow(events: seq<Event>, key: CheckpointKey)
    requires forall j :: 0 <= j < |events| ==> !Puts(events[j], key)
    ensures key !in Run(events).checkpoints
  {
    if events != [] {
      NoPutNoRow(events[..|events| - 1], key);
    }
  }

  /** A checkpoint row keeps the creation time of its first put. */
  lemma {:induction false} RowKeepsCreation(events: seq<Event>, key: CheckpointKey, first: nat)
    requires FirstPut(events, first, key)
    ensures key in Run(events).checkpoints
    ensures Run(events).checkpoints[key].checkpoint.createdAt == events[first].checkpoint.createdAt
  {
    var n := |events| - 1;
    if first == n {
      NoPutNoRow(events[..n], key);
    } else {
      RowKeepsCreation(events[..n], key, first);
    }
  }

  /** Everything else in a checkpoint row is from its last put, but for the delta-tracking maps and the fixed `v`. */
  lemma {:induction false} RowIsLastPut(events: seq<Event>, key: CheckpointKey, last: nat)
    requires LastPut(events, last, key)
    ensures key in Run(events).checkpoints
    ensures var row, put := Run(events).checkpoints[key], events[last];
      var stored := row.checkpoint;
      && row.metadata == put.metadata
      && stored.id == put.checkpoint.id && stored.channelValues == put.checkpoint.channelValues
      && stored.channelVersions == put.checkpoint.channelVersions && stored.versionsSeen == put.checkpoint.versionsSeen
      && stored.schemaVersion == put.checkpoint.schemaVersion
      && stored.v == 1 && stored.newVersions == map[] && stored.countersSinceDeltaSnapshot == map[]
  {
    var n := |events| - 1;
    if last != n {
      RowIsLastPut(events[..n], key, last);
    }
  }

  /** A retry with fewer writes leaves the rest of the longer call in place. */
  lemma ShorterRetryKeepsTail(
      t: Tables, key: CheckpointKey, taskId: string, ws: seq<PendingWrite>, shorter: seq<PendingWrite>, idx: nat)
    requires |shorter| <= idx < |ws|
    ensures var k := WriteKey(key.thread, key.ns, key.checkpointId, taskId, idx);
      var after := Step(Step(t, PutWrites(key, taskId, ws)), PutWrites(key, taskId, shorter)).writes;
      k in after && after[k] == WriteRow(ws[idx].channel, ws[idx].value)
  {
    var k := WriteKey(key.thread, key.ns, key.checkpointId, taskId, idx);
    StepRow(t, PutWrites(key, taskId, ws), k);
    StepRow(Step(t, PutWrites(key, taskId, ws)), PutWrites(key, taskId, shorter), k);
  }

  /** The in-memory saver appends instead: there a retry is harmless exactly when it writes nothing. */
  lemma MemoryRetryIff(
      writes: SaverModel.WritesMap, key: (string, string, string), ws: seq<PendingWrite>, taskId: string)
    ensures var once := SaverModel.AddWrites(writes, key, ws, taskId);
      SaverModel.AddWrites(once, key, ws, taskId) == once <==> ws == []
  {
    var once := SaverModel.AddWrites(writes, key, ws, taskId);
    var twice := SaverModel.AddWrites(once, key, ws, taskId);
    var added := SaverModel.WithTask(ws, taskId);
    assert twice[key] == once[key] + added;
    assert |twice[key]| == |once[key]| + |ws|;
    if ws == [] {
      assert once[key] + added == once[key];
    }
  }
}
