/** The two savers' lists, from the rows each keeps. */
module SaversAgree {
  import opened Wrappers
  import opened Seqs
  import opened StringOrder
  import opened StableSorting
  import opened Checkpoints
  import opened Listing
  import opened SaverModel
  import opened LazyCleanup
  import Sqlite = SqliteModel

  function Id(): CheckpointTuple -> string {
    (t: CheckpointTuple) => t.checkpoint.id
  }

  function Stamp(): CheckpointTuple -> string {
    (t: CheckpointTuple) => t.checkpoint.createdAt
  }

  /** No two tuples have the same key. */
  ghost predicate DistinctBy(s: seq<CheckpointTuple>, key: CheckpointTuple -> string) {
    forall i, j :: 0 <= i < j < |s| ==> key(s[i]) != key(s[j])
  }

  ghost predicate DistinctStamps(s: seq<CheckpointTuple>) {
    DistinctBy(s, Stamp())
  }

  ghost predicate DistinctIds(s: seq<CheckpointTuple>) {
    DistinctBy(s, Id())
  }

  /** ORDER BY created_at DESC: nothing is said about equal timestamps. */
  ghost predicate NewestFirst(rows: seq<CheckpointTuple>) {
    forall i, j :: 0 <= i < j < |rows| ==> StrLeq(rows[j].checkpoint.createdAt, rows[i].checkpoint.createdAt)
  }

  lemma {:induction false} TiedAlone(s: seq<CheckpointTuple>, y: CheckpointTuple)
    requires DistinctStamps(s)
    ensures |Filter(s, Tied(y, Newer))| <= 1
  {
    if s != [] {
      TiedAlone(s[1..], y);
      if Tied(y, Newer)(s[0]) {
        forall t | t in s[1..] ensures !Tied(y, Newer)(t) {
          var k :| 0 <= k < |s[1..]| && s[1..][k] == t;
          assert s[k + 1] == t;
          TieMeansSameStamp(s[0], y);
          if Tied(y, Newer)(t) {
            TieMeansSameStamp(t, y);
          }
        }
        FilterNone(s[1..], Tied(y, Newer));
      }
    }
  }

  lemma TieMeansSameStamp(t: CheckpointTuple, y: CheckpointTuple)
    requires Newer(t, y) && Newer(y, t)
    ensures t.checkpoint.createdAt == y.checkpoint.createdAt
  {
    StrTotal(t.checkpoint.createdAt, y.checkpoint.createdAt);
  }

  lemma NewestFirstIsSorted(rows: seq<CheckpointTuple>)
    requires NewestFirst(rows) && DistinctStamps(rows)
    ensures Sorted(rows, Newer)
  {
    forall i, j | 0 <= i < j < |rows| ensures Newer(rows[i], rows[j]) {
      var a, b := rows[i].checkpoint.createdAt, rows[j].checkpoint.createdAt;
      if StrLeq(a, b) {
        StrAntisymmetric(a, b);
      }
    }
  }

  lemma SingletonsEqual(a: seq<CheckpointTuple>, b: seq<CheckpointTuple>)
    requires |a| <= 1 && |b| <= 1 && forall t :: t in a <==> t in b
    ensures a == b
  {
    assert a != [] ==> a[0] in a;
    assert b != [] ==> b[0] in b;
  }

  /** With distinct timestamps, ordering the same tuples newest first leaves no choice. */
  lemma DatabaseOrderIsHistory(history: seq<CheckpointTuple>, rows: seq<CheckpointTuple>)
    requires forall t :: t in rows <==> t in history
    requires Sorted(history, Newer) && NewestFirst(rows)
    requires DistinctStamps(history) && DistinctStamps(rows)
    ensures rows == history
  {
    NewerOrders();
    NewestFirstIsSorted(rows);
    forall y ensures Filter(history, Tied(y, Newer)) == Filter(rows, Tied(y, Newer)) {
      TiedAlone(history, y);
      TiedAlone(rows, y);
      SingletonsEqual(Filter(history, Tied(y, Newer)), Filter(rows, Tied(y, Newer)));
    }
    SortedUnique(history, rows, Newer);
  }

  // ----- One run, both savers -----

  /** Neither TTL nor cap. */
  const UNLIMITED := TtlConfig(None, None)

  /** The table operations that an operation on the SQLite saver comes to. */
  function Mirror(op: Op): seq<Sqlite.Event> {
    if op.config.threadId.None? then []
    else
      var thread, ns := op.config.threadId.value, op.config.NsKey();
      match op
      case Put(_, checkpoint, metadata) =>
        [Sqlite.PutCheckpoint(Sqlite.CheckpointKey(thread, ns, checkpoint.id), checkpoint, metadata)]
      case PutWrites(config, writes, taskId) =>
        if config.checkpointId.None? then []
        else [Sqlite.PutWrites(Sqlite.CheckpointKey(thread, ns, config.checkpointId.value), taskId, writes)]
      case _ => []
  }

  function MirrorAll(events: seq<Event>): seq<Sqlite.Event> {
    if events == [] then [] else MirrorAll(events[..|events| - 1]) + Mirror(events[|events| - 1].op)
  }

  /** The checkpoint table after the same operations. */
  function TableAfter(events: seq<Event>): Sqlite.CheckpointTable {
    Sqlite.Run(MirrorAll(events)).checkpoints
  }

  /** The in-memory history after the operations, without TTL and cap. */
  function HistoryAfter(parse: TimestampParser, events: seq<Event>, thread: string, ns: string): seq<CheckpointTuple> {
    History(Run(EMPTY, UNLIMITED, parse, events).0.storage, thread, ns)
  }

  /** What the database keeps of a tuple, as a reader with this config gets it back. */
  function AsStored(config: RunnableConfig, t: CheckpointTuple): CheckpointTuple {
    CheckpointTuple(config, Sqlite.Columns(t.checkpoint), t.metadata, [], None)
  }

  function AllAsStored(config: RunnableConfig, s: seq<CheckpointTuple>): (r: seq<CheckpointTuple>)
    ensures |r| == |s|
    ensures forall i :: 0 <= i < |r| ==> r[i] == AsStored(config, s[i])
  {
    seq(|s|, i requires 0 <= i < |s| => AsStored(config, s[i]))
  }

  lemma TableSnoc(events: seq<Event>)
    requires events != []
    ensures var n := |events| - 1;
      var e := events[n].op;
      TableAfter(events) ==
        if e.Put? && e.config.threadId.Some?
        then Sqlite.UpsertCheckpoint(TableAfter(events[..n]),
               Sqlite.CheckpointKey(e.config.threadId.value, e.config.NsKey(), e.checkpoint.id), e.checkpoint, e.metadata)
        else TableAfter(events[..n])
  {
    var n := |events| - 1;
    var m := MirrorAll(events[..n]);
    var step := Mirror(events[n].op);
    if step == [] {
      assert m + step == m;
    } else {
      assert (m + step)[..|m|] == m;
    }
  }

  /** The history is every put, sorted. */
  lemma {:induction false} HistoryIsSorted(parse: TimestampParser, events: seq<Event>, thread: string, ns: string)
    ensures HistoryAfter(parse, events, thread, ns) == Sort(AllPuts(events, thread, ns), Newer)
  {
    hide Sort;
    if events == [] {
      SortNothing();
    } else {
      var n := |events| - 1;
      var e := events[n];
      HistoryIsSorted(parse, events[..n], thread, ns);
      HistoryStep(parse, Run(EMPTY, UNLIMITED, parse, events[..n]).0, e, thread, ns);
      if PutsInto(e, thread, ns) {
        var puts, t := AllPuts(events[..n], thread, ns), NewTuple(e.op.config, e.op.checkpoint, e.op.metadata);
        SortAgain(puts, t);
      } else {
        assert AllPuts(events[..n], thread, ns) + [] == AllPuts(events[..n], thread, ns);
      }
    }
  }

  lemma SortNothing()
    ensures Sort<CheckpointTuple>([], Newer) == []
  {
  }

  lemma SortAgain(puts: seq<CheckpointTuple>, t: CheckpointTuple)
    ensures Sort(Sort(puts, Newer) + [t], Newer) == Sort(puts + [t], Newer)
  {
    NewerOrders();
    SortIsStable(puts, Newer);
    SortOfSorted(Sort(puts, Newer), Newer);
    SortSnoc(Sort(puts, Newer), t, Newer);
    SortSnoc(puts, t, Newer);
  }

  /** Without TTL and cap only a put changes a history. */
  lemma HistoryStep(parse: TimestampParser, st: SaverState, e: Event, thread: string, ns: string)
    ensures History(Step(st, UNLIMITED, parse, e.op, e.now).0.storage, thread, ns) ==
      if PutsInto(e, thread, ns)
      then Sort(History(st.storage, thread, ns) + [NewTuple(e.op.config, e.op.checkpoint, e.op.metadata)], Newer)
      else History(st.storage, thread, ns)
  {
    hide Sort;
    if e.op.config.threadId.Some? {
      var th, n := e.op.config.threadId.value, e.op.config.NsKey();
      var h := History(st.storage, th, n);
      if e.op.GetTuple? || e.op.List? {
        CleanupIsView(st, UNLIMITED, parse, th, n, e.now);
        FilterAll(h, Live(UNLIMITED, parse, e.now));
        HistoryAfterSet(st.storage, th, n, h, thread, ns);
      } else if e.op.Put? {
        HistoryAfterSet(st.storage, th, n,
          Sort(h + [NewTuple(e.op.config, e.op.checkpoint, e.op.metadata)], Newer), thread, ns);
      }
    }
  }

  // ----- Sorting keeps ids and timestamps distinct, and adds no distinctness -----

  lemma DistinctCons(x: CheckpointTuple, s: seq<CheckpointTuple>, key: CheckpointTuple -> string)
    ensures DistinctBy([x] + s, key) <==> DistinctBy(s, key) && forall t :: t in s ==> key(t) != key(x)
  {
    var all := [x] + s;
    assert forall i :: 0 <= i < |s| ==> all[i + 1] == s[i];
    if DistinctBy(all, key) {
      forall i, j | 0 <= i < j < |s| ensures key(s[i]) != key(s[j]) {
        assert key(all[i + 1]) != key(all[j + 1]);
      }
      forall t | t in s ensures key(t) != key(x) {
        var i :| 0 <= i < |s| && s[i] == t;
        assert key(all[0]) != key(all[i + 1]);
      }
    }
    if DistinctBy(s, key) && forall t :: t in s ==> key(t) != key(x) {
      forall i, j | 0 <= i < j < |all| ensures key(all[i]) != key(all[j]) {
        assert all[j] == s[j - 1] && s[j - 1] in s;
        if i > 0 {
          assert key(s[i - 1]) != key(s[j - 1]);
        }
      }
    }
  }

  lemma DistinctSnoc(s: seq<CheckpointTuple>, x: CheckpointTuple, key: CheckpointTuple -> string)
    ensures DistinctBy(s + [x], key) <==> DistinctBy(s, key) && forall t :: t in s ==> key(t) != key(x)
  {
    var all := s + [x];
    assert forall i :: 0 <= i < |s| ==> all[i] == s[i];
    if DistinctBy(all, key) {
      forall i, j | 0 <= i < j < |s| ensures key(s[i]) != key(s[j]) {
        assert key(all[i]) != key(all[j]);
      }
      forall t | t in s ensures key(t) != key(x) {
        var i :| 0 <= i < |s| && s[i] == t;
        assert key(all[i]) != key(all[|s|]);
      }
    }
    if DistinctBy(s, key) && forall t :: t in s ==> key(t) != key(x) {
      forall i, j | 0 <= i < j < |all| ensures key(all[i]) != key(all[j]) {
        assert all[i] == s[i] && s[i] in s;
        if j < |s| {
          assert key(s[i]) != key(s[j]);
        }
      }
    }
  }

  lemma {:induction false} InsertDistinctIff(x: CheckpointTuple, s: seq<CheckpointTuple>, key: CheckpointTuple -> string)
    ensures DistinctBy(Insert(x, s, Newer), key) <==> DistinctBy(s, key) && forall t :: t in s ==> key(t) != key(x)
  {
    hide Newer, DistinctBy;
    DistinctCons(x, s, key);
    if s == [] {
      assert [x] + s == [x];
    } else {
      var rest := Insert(x, s[1..], Newer);
      InsertDistinctIff(x, s[1..], key);
      InsertMembers(x, s[1..], Newer);
      DistinctCons(s[0], rest, key);
      DistinctCons(s[0], s[1..], key);
      assert s == [s[0]] + s[1..];
    }
  }

  lemma {:induction false} SortDistinctIff(s: seq<CheckpointTuple>, key: CheckpointTuple -> string)
    ensures DistinctBy(Sort(s, Newer), key) <==> DistinctBy(s, key)
  {
    hide Newer, DistinctBy;
    if s == [] {
    } else {
      var n := |s| - 1;
      SortDistinctIff(s[..n], key);
      SortMembers(s[..n], Newer);
      InsertDistinctIff(s[n], Sort(s[..n], Newer), key);
      DistinctSnoc(s[..n], s[n], key);
      assert s == s[..n] + [s[n]];
    }
  }

  // ----- The table holds the puts -----

  function KeyFor(thread: string, ns: string, t: CheckpointTuple): Sqlite.CheckpointKey {
    Sqlite.CheckpointKey(thread, ns, t.checkpoint.id)
  }

  /** A key has a row exactly when a checkpoint with its id was put, and the row carries that id. */
  lemma {:induction false} TableKeys(events: seq<Event>, k: Sqlite.CheckpointKey)
    ensures k in TableAfter(events) <==>
      exists t :: t in AllPuts(events, k.thread, k.ns) && t.checkpoint.id == k.checkpointId
    ensures k in TableAfter(events) ==> TableAfter(events)[k].checkpoint.id == k.checkpointId
  {
    if events != [] {
      var n := |events| - 1;
      var e := events[n];
      TableKeys(events[..n], k);
      TableSnoc(events);
      var before := AllPuts(events[..n], k.thread, k.ns);
      if PutsInto(e, k.thread, k.ns) {
        var t := NewTuple(e.op.config, e.op.checkpoint, e.op.metadata);
        assert AllPuts(events, k.thread, k.ns) == before + [t];
        assert forall u :: u in before + [t] <==> u in before || u == t;
      } else {
        assert AllPuts(events, k.thread, k.ns) == before;
      }
    }
  }

  /** With distinct ids each row is the stored form of its put. */
  lemma {:induction false} TableRows(events: seq<Event>, thread: string, ns: string, t: CheckpointTuple)
    requires DistinctIds(AllPuts(events, thread, ns)) && t in AllPuts(events, thread, ns)
    ensures var k := KeyFor(thread, ns, t);
      && k in TableAfter(events)
      && TableAfter(events)[k] == Sqlite.CheckpointRow(Sqlite.Columns(t.checkpoint), t.metadata)
  {
    var n := |events| - 1;
    var e := events[n];
    var k := KeyFor(thread, ns, t);
    var before := AllPuts(events[..n], thread, ns);
    TableSnoc(events);
    if PutsInto(e, thread, ns) {
      var u := NewTuple(e.op.config, e.op.checkpoint, e.op.metadata);
      assert AllPuts(events, thread, ns) == before + [u];
      DistinctSnoc(before, u, Id());
      if t == u {
        TableKeys(events[..n], k);
      } else {
        assert t in before && t.checkpoint.id != u.checkpoint.id;
        TableRows(events[..n], thread, ns, t);
      }
    } else {
      assert AllPuts(events, thread, ns) == before;
      TableRows(events[..n], thread, ns, t);
    }
  }

  // ----- The rows are the history -----

  /** What a query of the table returns, as tuples. */
  ghost function Rows(
      order: seq<Sqlite.CheckpointKey>, events: seq<Event>, config: RunnableConfig): seq<CheckpointTuple>
    requires forall k :: k in order ==> k in TableAfter(events)
  {
    Sqlite.RowTuples(order, TableAfter(events), config)
  }

  ghost predicate Listable(order: seq<Sqlite.CheckpointKey>, events: seq<Event>, thread: string, ns: string) {
    Sqlite.InListOrder(order, TableAfter(events), thread, ns)
  }

  /** The in-memory history, each tuple as the database would return it. */
  ghost function Expected(parse: TimestampParser, events: seq<Event>, thread: string, ns: string, config: RunnableConfig)
    : seq<CheckpointTuple>
  {
    AllAsStored(config, HistoryAfter(parse, events, thread, ns))
  }

  lemma RowIds(order: seq<Sqlite.CheckpointKey>, events: seq<Event>, thread: string, ns: string, config: RunnableConfig)
    requires Listable(order, events, thread, ns)
    ensures DistinctIds(Rows(order, events, config)) && NewestFirst(Rows(order, events, config))
    ensures forall i :: 0 <= i < |order| ==> Rows(order, events, config)[i].checkpoint.id == order[i].checkpointId
  {
    var rows := Rows(order, events, config);
    forall i | 0 <= i < |order| ensures rows[i].checkpoint.id == order[i].checkpointId {
      assert order[i] in order;
      TableKeys(events, order[i]);
    }
    forall i, j | 0 <= i < j < |order| ensures rows[i].checkpoint.id != rows[j].checkpoint.id {
      assert order[i] in order && order[j] in order;
    }
    forall i, j | 0 <= i < j < |order| ensures StrLeq(rows[j].checkpoint.createdAt, rows[i].checkpoint.createdAt) {
      assert order[i] in order && order[j] in order;
      assert Sqlite.StampLeq(TableAfter(events))(order[i], order[j]);
    }
  }

  lemma HistoryMembers(parse: TimestampParser, events: seq<Event>, thread: string, ns: string)
    ensures forall t :: t in HistoryAfter(parse, events, thread, ns) <==> t in AllPuts(events, thread, ns)
  {
    HistoryIsSorted(parse, events, thread, ns);
    SortMembers(AllPuts(events, thread, ns), Newer);
  }

  lemma RowInHistory(
      parse: TimestampParser, order: seq<Sqlite.CheckpointKey>, events: seq<Event>, thread: string, ns: string,
      config: RunnableConfig, i: nat)
    requires Listable(order, events, thread, ns) && DistinctIds(AllPuts(events, thread, ns)) && i < |order|
    ensures Rows(order, events, config)[i] in Expected(parse, events, thread, ns, config)
  {
    hide HistoryAfter, TableAfter, AllPuts, DistinctIds;
    var history, expected := HistoryAfter(parse, events, thread, ns), Expected(parse, events, thread, ns, config);
    assert order[i] in order;
    TableKeys(events, order[i]);
    var u :| u in AllPuts(events, thread, ns) && u.checkpoint.id == order[i].checkpointId;
    TableRows(events, thread, ns, u);
    HistoryMembers(parse, events, thread, ns);
    var j :| 0 <= j < |history| && history[j] == u;
    assert expected[j] == Rows(order, events, config)[i];
  }

  lemma HistoryInRows(
      parse: TimestampParser, order: seq<Sqlite.CheckpointKey>, events: seq<Event>, thread: string, ns: string,
      config: RunnableConfig, j: nat)
    requires Listable(order, events, thread, ns) && DistinctIds(AllPuts(events, thread, ns))
    requires j < |Expected(parse, events, thread, ns, config)|
    ensures Expected(parse, events, thread, ns, config)[j] in Rows(order, events, config)
  {
    hide HistoryAfter, TableAfter, AllPuts, DistinctIds;
    var history := HistoryAfter(parse, events, thread, ns);
    assert history[j] in history;
    HistoryMembers(parse, events, thread, ns);
    TableRows(events, thread, ns, history[j]);
    var k := KeyFor(thread, ns, history[j]);
    var i :| 0 <= i < |order| && order[i] == k;
    assert Rows(order, events, config)[i] == Expected(parse, events, thread, ns, config)[j];
  }

  /** With distinct ids, rows and history hold the same tuples. */
  lemma RowMembers(
      parse: TimestampParser, order: seq<Sqlite.CheckpointKey>, events: seq<Event>, thread: string, ns: string,
      config: RunnableConfig)
    requires Listable(order, events, thread, ns) && DistinctIds(AllPuts(events, thread, ns))
    ensures forall t :: t in Rows(order, events, config) <==> t in Expected(parse, events, thread, ns, config)
  {
    var rows, expected := Rows(order, events, config), Expected(parse, events, thread, ns, config);
    hide Expected, DistinctIds, Listable;
    forall t | t in rows ensures t in expected {
      var i :| 0 <= i < |rows| && rows[i] == t;
      RowInHistory(parse, order, events, thread, ns, config, i);
    }
    forall t | t in expected ensures t in rows {
      var j :| 0 <= j < |expected| && expected[j] == t;
      HistoryInRows(parse, order, events, thread, ns, config, j);
    }
  }

  lemma ExpectedSorted(
      parse: TimestampParser, events: seq<Event>, thread: string, ns: string, config: RunnableConfig)
    ensures Sorted(Expected(parse, events, thread, ns, config), Newer)
    ensures DistinctStamps(Expected(parse, events, thread, ns, config)) <==> DistinctStamps(AllPuts(events, thread, ns))
    ensures DistinctIds(Expected(parse, events, thread, ns, config)) <==> DistinctIds(AllPuts(events, thread, ns))
  {
    var puts, history := AllPuts(events, thread, ns), HistoryAfter(parse, events, thread, ns);
    HistoryIsSorted(parse, events, thread, ns);
    NewerOrders();
    SortIsStable(puts, Newer);
    hide HistoryAfter, AllPuts, Sort, DistinctBy, AllAsStored, Sorted;
    SortDistinctIff(puts, Stamp());
    SortDistinctIff(puts, Id());
    StoredSorted(config, history);
  }

  /** Storing keeps what the order looks at. */
  lemma StoredSorted(config: RunnableConfig, s: seq<CheckpointTuple>)
    requires Sorted(s, Newer)
    ensures Sorted(AllAsStored(config, s), Newer)
  {
    hide StrLeq, AllAsStored;
    var r := AllAsStored(config, s);
    forall i, j | 0 <= i < j < |r| ensures Newer(r[i], r[j]) {
      assert Newer(s[i], s[j]);
    }
  }

  /** Same ids and same timestamps make the same put. */
  lemma RowStamps(
      order: seq<Sqlite.CheckpointKey>, events: seq<Event>, thread: string, ns: string, config: RunnableConfig)
    requires Listable(order, events, thread, ns)
    requires DistinctIds(AllPuts(events, thread, ns)) && DistinctStamps(AllPuts(events, thread, ns))
    ensures DistinctStamps(Rows(order, events, config))
  {
    var puts, rows := AllPuts(events, thread, ns), Rows(order, events, config);
    forall i, j | 0 <= i < j < |rows| ensures rows[i].checkpoint.createdAt != rows[j].checkpoint.createdAt {
      assert order[i] in order && order[j] in order;
      TableKeys(events, order[i]);
      TableKeys(events, order[j]);
      var t :| t in puts && t.checkpoint.id == order[i].checkpointId;
      var u :| u in puts && u.checkpoint.id == order[j].checkpointId;
      TableRows(events, thread, ns, t);
      TableRows(events, thread, ns, u);
      if t.checkpoint.createdAt == u.checkpoint.createdAt {
        OneStampOneTuple(puts, t, u);
      }
    }
  }

  lemma OneStampOneTuple(s: seq<CheckpointTuple>, t: CheckpointTuple, u: CheckpointTuple)
    requires DistinctStamps(s) && t in s && u in s && t.checkpoint.createdAt == u.checkpoint.createdAt
    ensures t == u
  {
    var i :| 0 <= i < |s| && s[i] == t;
    var j :| 0 <= j < |s| && s[j] == u;
    if i < j {
      assert Stamp()(s[i]) != Stamp()(s[j]);
    } else if j < i {
      assert Stamp()(s[j]) != Stamp()(s[i]);
    }
  }

  /** With distinct ids and timestamps, every order the query may return is the in-memory one. */
  lemma RowsAreHistory(
      parse: TimestampParser, order: seq<Sqlite.CheckpointKey>, events: seq<Event>, thread: string, ns: string,
      config: RunnableConfig)
    requires Listable(order, events, thread, ns)
    requires DistinctIds(AllPuts(events, thread, ns)) && DistinctStamps(AllPuts(events, thread, ns))
    ensures Rows(order, events, config) == Expected(parse, events, thread, ns, config)
  {
    hide Rows, Expected, DistinctBy, NewestFirst;
    RowIds(order, events, thread, ns, config);
    RowMembers(parse, order, events, thread, ns, config);
    ExpectedSorted(parse, events, thread, ns, config);
    RowStamps(order, events, thread, ns, config);
    DatabaseOrderIsHistory(Expected(parse, events, thread, ns, config), Rows(order, events, config));
  }

  // ----- The condition is exact -----

  /** Every order the query may return makes the rows the in-memory history. */
  ghost predicate RowsAlwaysHistory(
      parse: TimestampParser, events: seq<Event>, thread: string, ns: string, config: RunnableConfig) {
    forall order | Listable(order, events, thread, ns) ::
      Rows(order, events, config) == Expected(parse, events, thread, ns, config)
  }

  /** The query can always return. */
  lemma {:induction false} SomeOrder(
      table: Sqlite.CheckpointTable, thread: string, ns: string, keys: set<Sqlite.CheckpointKey>)
      returns (order: seq<Sqlite.CheckpointKey>)
    requires forall k :: k in keys ==> k in table && Sqlite.OfNamespace(k, thread, ns)
    ensures forall k :: k in order <==> k in keys
    ensures Distinct(order) && Sorted(order, Sqlite.StampLeq(table))
    decreases |keys|
  {
    order := [];
    if keys != {} {
      var k :| k in keys;
      var leq := Sqlite.StampLeq(table);
      order := SomeOrder(table, thread, ns, keys - {k});
      Sqlite.StampOrder(table);
      InsertDistinct(k, order, leq);
      InsertSorted(k, order, leq);
      InsertMembers(k, order, leq);
      order := Insert(k, order, leq);
    }
  }

  lemma ListableExists(events: seq<Event>, thread: string, ns: string) returns (order: seq<Sqlite.CheckpointKey>)
    ensures Listable(order, events, thread, ns)
  {
    var table := TableAfter(events);
    order := SomeOrder(table, thread, ns, set k | k in table && Sqlite.OfNamespace(k, thread, ns));
  }

  /** A put that repeats an id leaves fewer rows than the history has tuples, in whatever order. */
  lemma ReputDiffers(
      parse: TimestampParser, order: seq<Sqlite.CheckpointKey>, events: seq<Event>, thread: string, ns: string,
      config: RunnableConfig)
    requires Listable(order, events, thread, ns) && !DistinctIds(AllPuts(events, thread, ns))
    ensures Rows(order, events, config) != Expected(parse, events, thread, ns, config)
  {
    hide Rows, Expected, DistinctBy;
    RowIds(order, events, thread, ns, config);
    ExpectedSorted(parse, events, thread, ns, config);
  }

  /** Swapping two rows of one timestamp gives another order that the query may return. */
  lemma SwapListable(
      order: seq<Sqlite.CheckpointKey>, events: seq<Event>, thread: string, ns: string, i: nat, j: nat)
    requires Listable(order, events, thread, ns) && i < j < |order|
    requires Sqlite.StampOf(TableAfter(events), order[i]) == Sqlite.StampOf(TableAfter(events), order[j])
    ensures Listable(order[i := order[j]][j := order[i]], events, thread, ns)
  {
    hide TableAfter;
    var table := TableAfter(events);
    var swapped := order[i := order[j]][j := order[i]];
    SwapMembers(order, i, j);
    forall m, n | 0 <= m < n < |order| ensures Sqlite.StampLeq(table)(swapped[m], swapped[n]) {
      assert Sqlite.StampLeq(table)(order[m], order[n]);
      assert Sqlite.StampOf(table, swapped[m]) == Sqlite.StampOf(table, order[m]);
      assert Sqlite.StampOf(table, swapped[n]) == Sqlite.StampOf(table, order[n]);
    }
  }

  lemma SwapMembers(s: seq<Sqlite.CheckpointKey>, i: nat, j: nat)
    requires i < j < |s| && Distinct(s)
    ensures var r := s[i := s[j]][j := s[i]];
      Distinct(r) && forall k :: k in r <==> k in s
  {
    var r := s[i := s[j]][j := s[i]];
    forall k | k in s ensures k in r {
      var n :| 0 <= n < |s| && s[n] == k;
      assert r[if n == i then j else if n == j then i else n] == k;
    }
  }

  /** The swapped rows are other rows. */
  lemma SwapDiffers(
      order: seq<Sqlite.CheckpointKey>, events: seq<Event>, thread: string, ns: string, config: RunnableConfig,
      i: nat, j: nat)
    requires Listable(order, events, thread, ns) && i < j < |order|
    requires Rows(order, events, config)[i].checkpoint.createdAt == Rows(order, events, config)[j].checkpoint.createdAt
    ensures var swapped := order[i := order[j]][j := order[i]];
      Listable(swapped, events, thread, ns) && Rows(swapped, events, config) != Rows(order, events, config)
  {
    hide TableAfter;
    assert order[i] in order && order[j] in order && order[i] != order[j];
    var swapped := order[i := order[j]][j := order[i]];
    SwapListable(order, events, thread, ns, i, j);
    RowIds(order, events, thread, ns, config);
    RowIds(swapped, events, thread, ns, config);
    assert Rows(swapped, events, config)[i].checkpoint.id == order[j].checkpointId;
  }

  /** Two puts with one timestamp leave the database a choice, and one of its orders is not the in-memory one. */
  lemma TieDiffers(parse: TimestampParser, events: seq<Event>, thread: string, ns: string, config: RunnableConfig)
    requires !DistinctStamps(AllPuts(events, thread, ns))
    ensures !RowsAlwaysHistory(parse, events, thread, ns, config)
  {
    hide Rows, Expected, AllPuts, TableAfter, DistinctStamps;
    if RowsAlwaysHistory(parse, events, thread, ns, config) {
      var order := ListableExists(events, thread, ns);
      ExpectedSorted(parse, events, thread, ns, config);
      RowIds(order, events, thread, ns, config);
      var i, j := TiedPair(Rows(order, events, config));
      RowCount(order, events, config);
      SwapDiffers(order, events, thread, ns, config, i, j);
    }
  }

  lemma TiedPair(s: seq<CheckpointTuple>) returns (i: nat, j: nat)
    requires !DistinctStamps(s)
    ensures i < j < |s| && s[i].checkpoint.createdAt == s[j].checkpoint.createdAt
  {
    i, j :| 0 <= i < j < |s| && Stamp()(s[i]) == Stamp()(s[j]);
  }

  lemma RowCount(order: seq<Sqlite.CheckpointKey>, events: seq<Event>, config: RunnableConfig)
    requires forall k :: k in order ==> k in TableAfter(events)
    ensures |Rows(order, events, config)| == |order|
  {
  }

  /**
   * After any run without TTL and cap, the rows of a thread and namespace are its in-memory history,
   * column for column and whatever order the query returns ties in, exactly when no id was put twice
   * and no two puts share a timestamp.
   */
  lemma RowsAreHistoryIff(
      parse: TimestampParser, events: seq<Event>, thread: string, ns: string, config: RunnableConfig)
    ensures RowsAlwaysHistory(parse, events, thread, ns, config) <==>
      DistinctIds(AllPuts(events, thread, ns)) && DistinctStamps(AllPuts(events, thread, ns))
  {
    hide Rows, Expected, DistinctIds, DistinctStamps, AllPuts;
    if DistinctIds(AllPuts(events, thread, ns)) && DistinctStamps(AllPuts(events, thread, ns)) {
      forall order | Listable(order, events, thread, ns)
        ensures Rows(order, events, config) == Expected(parse, events, thread, ns, config)
      {
        RowsAreHistory(parse, order, events, thread, ns, config);
      }
    } else if DistinctIds(AllPuts(events, thread, ns)) {
      TieDiffers(parse, events, thread, ns, config);
    } else {
      var order := ListableExists(events, thread, ns);
      ReputDiffers(parse, order, events, thread, ns, config);
    }
  }

  // ----- Filtering commutes with storing -----

  /** The filters look at ids and metadata only, which storing keeps. */
  lemma {:induction false} FilterStored(
      config: RunnableConfig, s: seq<CheckpointTuple>, p: CheckpointTuple -> bool)
    requires forall t :: p(AsStored(config, t)) == p(t)
    ensures Filter(AllAsStored(config, s), p) == AllAsStored(config, Filter(s, p))
  {
    if s == [] {
    } else {
      FilterStored(config, s[1..], p);
      assert AllAsStored(config, s)[1..] == AllAsStored(config, s[1..]);
      assert AllAsStored(config, s)[0] == AsStored(config, s[0]);
      assert AllAsStored(config, [s[0]] + Filter(s[1..], p))
          == [AsStored(config, s[0])] + AllAsStored(config, Filter(s[1..], p));
    }
  }

  lemma {:induction false} PositionStored(config: RunnableConfig, s: seq<CheckpointTuple>, id: string)
    ensures Position(AllAsStored(config, s), WithId(id)) == Position(s, WithId(id))
  {
    if s != [] {
      PositionStored(config, s[1..], id);
      assert AllAsStored(config, s)[1..] == AllAsStored(config, s[1..]);
    }
  }

  lemma CutStored(config: RunnableConfig, s: seq<CheckpointTuple>, id: string)
    ensures CutBefore(AllAsStored(config, s), id) == AllAsStored(config, CutBefore(s, id))
    ensures CutAfter(AllAsStored(config, s), id) == AllAsStored(config, CutAfter(s, id))
  {
    PositionStored(config, s, id);
  }

  lemma TakeStored(config: RunnableConfig, s: seq<CheckpointTuple>, n: nat)
    ensures Take(AllAsStored(config, s), n) == AllAsStored(config, Take(s, n))
  {
  }

  lemma RetainStored(config: RunnableConfig, s: seq<CheckpointTuple>, f: CheckpointFilter)
    ensures RetainMatching(AllAsStored(config, s), f) == AllAsStored(config, RetainMatching(s, f))
  {
    var s1 := if f.source.Some? then Filter(s, OfSource(f.source.value)) else s;
    var s2 := if f.stepGte.Some? then Filter(s1, FromStep(f.stepGte.value)) else s1;
    if f.source.Some? { FilterStored(config, s, OfSource(f.source.value)); }
    if f.stepGte.Some? { FilterStored(config, s1, FromStep(f.stepGte.value)); }
    if f.stepLte.Some? { FilterStored(config, s2, UpToStep(f.stepLte.value)); }
  }

  lemma ListStored(config: RunnableConfig, s: seq<CheckpointTuple>, filter: Option<CheckpointFilter>)
    ensures MemoryList(AllAsStored(config, s), filter) == AllAsStored(config, MemoryList(s, filter))
  {
    if filter.Some? {
      var f := filter.value;
      RetainStored(config, s, f);
      var kept := RetainMatching(s, f);
      if f.before.Some? { CutStored(config, kept, f.before.value); }
      var cut := if f.before.Some? then CutBefore(kept, f.before.value) else kept;
      if f.after.Some? { CutStored(config, cut, f.after.value); }
      if f.limit.Some? { TakeStored(config, CutAtIds(kept, f), f.limit.value); }
    }
  }

  /** What the in-memory saver replies to a list after the run. */
  function MemoryReply(
      parse: TimestampParser, events: seq<Event>, config: RunnableConfig, filter: Option<CheckpointFilter>, now: int)
    : Reply
  {
    Step(Run(EMPTY, UNLIMITED, parse, events).0, UNLIMITED, parse, List(config, filter), now).1
  }

  /**
   * After any run without TTL and cap that put no id and no timestamp twice, SQLite lists exactly what
   * the in-memory saver lists, each tuple in its stored form, when the filter has a criterion, or a
   * limit within i64, or at most ten checkpoints were put; and otherwise it does not.
   */
  lemma SaversListAlikeIff(
      parse: TimestampParser, events: seq<Event>, config: RunnableConfig, thread: string,
      filter: Option<CheckpointFilter>, now: int, order: seq<Sqlite.CheckpointKey>)
    requires config.threadId == Some(thread)
    requires Listable(order, events, thread, config.NsKey())
    requires var puts := AllPuts(events, thread, config.NsKey()); DistinctIds(puts) && DistinctStamps(puts)
    ensures var reply := MemoryReply(parse, events, config, filter, now);
      && reply.Ok? && reply.value.Listed?
      && (SqliteList(Rows(order, events, config), filter) == Ok(AllAsStored(config, reply.value.tuples)) <==>
           || HasNonLimitFilter(filter)
           || (ExplicitLimit(filter).Some? && ExplicitLimit(filter).value <= I64_MAX)
           || (ExplicitLimit(filter).None? && |AllPuts(events, thread, config.NsKey())| <= DEFAULT_LIMIT))
  {
    var ns := config.NsKey();
    var history := HistoryAfter(parse, events, thread, ns);
    RowsAreHistory(parse, order, events, thread, ns, config);
    MemoryReplyIs(parse, events, config, thread, filter, now);
    ListStored(config, history, filter);
    SaversAgreeIff(AllAsStored(config, history), filter);
    HistoryIsSorted(parse, events, thread, ns);
    SortMembers(AllPuts(events, thread, ns), Newer);
    assert |history| == |multiset(history)| == |multiset(AllPuts(events, thread, ns))|;
  }

  lemma MemoryReplyIs(
      parse: TimestampParser, events: seq<Event>, config: RunnableConfig, thread: string,
      filter: Option<CheckpointFilter>, now: int)
    requires config.threadId == Some(thread)
    ensures MemoryReply(parse, events, config, filter, now)
         == Ok(Listed(MemoryList(HistoryAfter(parse, events, thread, config.NsKey()), filter)))
  {
    var st := Run(EMPTY, UNLIMITED, parse, events).0;
    var h := History(st.storage, thread, config.NsKey());
    CleanupIsView(st, UNLIMITED, parse, thread, config.NsKey(), now);
    FilterAll(h, Live(UNLIMITED, parse, now));
    HistoryAfterSet(st.storage, thread, config.NsKey(), h, thread, config.NsKey());
  }
}
