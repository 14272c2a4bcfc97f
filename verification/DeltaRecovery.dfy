/** Rebuilding a checkpoint from its last full snapshot and the writes recorded after it. */
module DeltaRecovery {
  import opened Wrappers
  import opened Seqs
  import opened StringOrder
  import opened StableSorting
  import opened Json
  import opened Checkpoints

  /** A write together with the id of the checkpoint it was recorded under. */
  type Delta = (string, PendingWrite)

  // ----- Specification -----

  /** A full snapshot carries a non-empty object of channel values. */
  predicate IsFull(t: CheckpointTuple) {
    t.checkpoint.channelValues.Object? && t.checkpoint.channelValues.fields != map[]
  }

  /** Searches backwards for the most recent full snapshot. */
  function BaseIndex(s: seq<CheckpointTuple>): (r: Option<nat>)
    ensures r.Some? ==> r.value < |s| && IsFull(s[r.value]) && forall j :: r.value < j < |s| ==> !IsFull(s[j])
    ensures r.None? ==> forall j :: 0 <= j < |s| ==> !IsFull(s[j])
  {
    if s == [] then None
    else if IsFull(s[|s| - 1]) then Some(|s| - 1)
    else BaseIndex(s[..|s| - 1])
  }

  function Tagged(id: string, writes: seq<PendingWrite>): (r: seq<Delta>)
    ensures |r| == |writes|
    ensures forall i :: 0 <= i < |r| ==> r[i] == (id, writes[i])
  {
    seq(|writes|, i requires 0 <= i < |writes| => (id, writes[i]))
  }

  /** What one tuple contributes: its writes, if its id comes after the base id. */
  function Recorded(t: CheckpointTuple, baseId: string): seq<Delta> {
    if StrLeq(t.checkpoint.id, baseId) then [] else Tagged(t.checkpoint.id, t.pendingWrites)
  }

  /** The writes of every tuple whose id comes after the base id, in list order. */
  function Collect(s: seq<CheckpointTuple>, baseId: string): seq<Delta> {
    if s == [] then [] else Collect(s[..|s| - 1], baseId) + Recorded(s[|s| - 1], baseId)
  }

  predicate ById(a: Delta, b: Delta) {
    StrLeq(a.0, b.0)
  }

  function Writes(deltas: seq<Delta>): (r: seq<PendingWrite>)
    ensures |r| == |deltas|
    ensures forall i :: 0 <= i < |r| ==> r[i] == deltas[i].1
  {
    seq(|deltas|, i requires 0 <= i < |deltas| => deltas[i].1)
  }

  /** One replayed write: arrays append (to a fresh array if absent, to nothing if the channel holds no array), the rest replaces. */
  function ApplyWrite(values: map<string, Json>, w: PendingWrite): map<string, Json> {
    if w.value.Array? then
      var entry := if w.channel in values then values[w.channel] else Array([]);
      values[w.channel := if entry.Array? then Array(entry.items + w.value.items) else entry]
    else values[w.channel := w.value]
  }

  function Replay(values: map<string, Json>, ws: seq<PendingWrite>): map<string, Json> {
    if ws == [] then values
    else ApplyWrite(Replay(values, ws[..|ws| - 1]), ws[|ws| - 1])
  }

  function VersionOf(versions: map<string, nat>, c: string): nat {
    if c in versions then versions[c] else 0
  }

  /** How many writes each channel received. */
  function Counts(ws: seq<PendingWrite>): map<string, nat> {
    if ws == [] then map[]
    else
      var before := Counts(ws[..|ws| - 1]);
      var c := ws[|ws| - 1].channel;
      before[c := VersionOf(before, c) + 1]
  }

  function Bump(versions: map<string, nat>, counts: map<string, nat>): map<string, nat> {
    map c | c in versions.Keys + counts.Keys :: VersionOf(versions, c) + VersionOf(counts, c)
  }

  function Rebuild(base: Checkpoint, ws: seq<PendingWrite>): Checkpoint
    requires base.channelValues.Object?
  {
    base.(channelValues := Object(Replay(base.channelValues.fields, ws)),
          channelVersions := Bump(base.channelVersions, Counts(ws)),
          newVersions := Counts(ws),
          countersSinceDeltaSnapshot := map[])
  }

  function TargetIndex(s: seq<CheckpointTuple>, target: string): Option<nat> {
    Position(s, (t: CheckpointTuple) => t.checkpoint.id == target)
  }

  const NO_SNAPSHOT := Deserialize("No full snapshot found in checkpoint chain")

  function Recover(s: seq<CheckpointTuple>, target: string): Result<Option<Checkpoint>, CheckpointError> {
    match TargetIndex(s, target)
    case None => Ok(None)
    case Some(i) => RecoverLast(s[..i + 1])
  }

  /** Recovery of the last of the relevant tuples. */
  function RecoverLast(relevant: seq<CheckpointTuple>): Result<Option<Checkpoint>, CheckpointError> {
    match BaseIndex(relevant)
    case None => Err(NO_SNAPSHOT)
    case Some(b) => Ok(Some(RebuildFrom(relevant[b].checkpoint, relevant)))
  }

  function RebuildFrom(base: Checkpoint, relevant: seq<CheckpointTuple>): Checkpoint
    requires base.channelValues.Object?
  {
    Rebuild(base, Writes(Sort(Collect(relevant, base.id), ById)))
  }

  // ----- The algorithm -----

  /** The recovery loops compute `Recover`. */
  method RecoverFromDeltas(checkpoints: seq<CheckpointTuple>, target: string)
    returns (r: Result<Option<Checkpoint>, CheckpointError>)
    ensures r == Recover(checkpoints, target)
  {
    var targetIndex := TargetIndex(checkpoints, target);
    if targetIndex.None? {
      return Ok(None);
    }
    var relevant := checkpoints[..targetIndex.value + 1];
    var baseIndex := BaseIndex(relevant);
    if baseIndex.None? {
      return Err(NO_SNAPSHOT);
    }
    var base := relevant[baseIndex.value].checkpoint;

    var allDeltas := CollectDeltas(relevant, base.id);
    allDeltas := Sort(allDeltas, ById);
    var channelValues, modified := ReplayDeltas(base.channelValues.fields, allDeltas);
    var versions := BumpVersions(base.channelVersions, modified);
    return Ok(Some(base.(channelValues := Object(channelValues),
                         channelVersions := versions,
                         newVersions := modified,
                         countersSinceDeltaSnapshot := map[])));
  }

  /** Step 2: walk forward, gathering the writes recorded after the snapshot. */
  method CollectDeltas(relevant: seq<CheckpointTuple>, baseId: string) returns (allDeltas: seq<Delta>)
    ensures allDeltas == Collect(relevant, baseId)
  {
    allDeltas := [];
    for i := 0 to |relevant|
      invariant allDeltas == Collect(relevant[..i], baseId)
    {
      var tuple := relevant[i];
      assert relevant[..i + 1][..i] == relevant[..i];
      assert Collect(relevant[..i + 1], baseId) == Collect(relevant[..i], baseId) + Recorded(tuple, baseId);
      if StrLeq(tuple.checkpoint.id, baseId) {
        continue;
      }
      ghost var tagged := Tagged(tuple.checkpoint.id, tuple.pendingWrites);
      for j := 0 to |tuple.pendingWrites|
        invariant allDeltas == Collect(relevant[..i], baseId) + tagged[..j]
      {
        allDeltas := allDeltas + [(tuple.checkpoint.id, tuple.pendingWrites[j])];
      }
      assert tagged[..|tagged|] == tagged;
    }
    assert relevant[..|relevant|] == relevant;
  }

  /** Step 3: replay, counting the writes of each channel. */
  method ReplayDeltas(start: map<string, Json>, allDeltas: seq<Delta>)
    returns (channelValues: map<string, Json>, modified: map<string, nat>)
    ensures channelValues == Replay(start, Writes(allDeltas))
    ensures modified == Counts(Writes(allDeltas))
  {
    channelValues, modified := start, map[];
    ghost var ws := Writes(allDeltas);
    for i := 0 to |allDeltas|
      invariant channelValues == Replay(start, ws[..i])
      invariant modified == Counts(ws[..i])
    {
      var write := allDeltas[i].1;
      assert ws[..i + 1][..i] == ws[..i] && ws[..i + 1][i] == write;
      if write.value.Array? {
        var entry := if write.channel in channelValues then channelValues[write.channel] else Array([]);
        if entry.Array? {
          entry := Array(entry.items + write.value.items);
        }
        channelValues := channelValues[write.channel := entry];
      } else {
        channelValues := channelValues[write.channel := write.value];
      }
      modified := modified[write.channel := VersionOf(modified, write.channel) + 1];
    }
    assert ws[..|allDeltas|] == ws;
  }

  /** Step 4: advance the version of every modified channel, visited in any order. */
  method BumpVersions(start: map<string, nat>, modified: map<string, nat>) returns (versions: map<string, nat>)
    ensures versions == Bump(start, modified)
  {
    versions := start;
    var todo := modified.Keys;
    while todo != {}
      invariant todo <= modified.Keys
      invariant versions.Keys == start.Keys + (modified.Keys - todo)
      invariant forall c :: c in versions ==>
        versions[c] == VersionOf(start, c) + if c in todo then 0 else VersionOf(modified, c)
    {
      var channel :| channel in todo;
      versions := versions[channel := VersionOf(versions, channel) + modified[channel]];
      todo := todo - {channel};
    }
  }

  // ----- What one channel ends up holding -----

  /** The values written to channel `c`, in order. */
  ghost function ValuesTo(ws: seq<PendingWrite>, c: string): seq<Json> {
    if ws == [] then []
    else ValuesTo(ws[..|ws| - 1], c) + if ws[|ws| - 1].channel == c then [ws[|ws| - 1].value] else []
  }

  ghost function ValueAt(values: map<string, Json>, c: string): Option<Json> {
    if c in values then Some(values[c]) else None
  }

  /** The last value that is not an array. */
  ghost function LastScalar(vs: seq<Json>): Option<Json> {
    if vs == [] then None
    else if !vs[|vs| - 1].Array? then Some(vs[|vs| - 1])
    else LastScalar(vs[..|vs| - 1])
  }

  /** All written arrays, end to end. */
  ghost function Items(vs: seq<Json>): seq<Json> {
    if vs == [] then []
    else Items(vs[..|vs| - 1]) + if vs[|vs| - 1].Array? then vs[|vs| - 1].items else []
  }

  /** The closed form of a channel: no write order across channels, no folding. */
  ghost function Final(start: Option<Json>, vs: seq<Json>): Option<Json> {
    if LastScalar(vs).Some? then LastScalar(vs)
    else if vs == [] then start
    else match start
      case None => Some(Array(Items(vs)))
      case Some(Array(items)) => Some(Array(items + Items(vs)))
      case Some(other) => Some(other)
  }

  /**
   * A replayed channel depends only on its own start value and its own writes: the last
   * non-array write if there is one, else the start value extended by every written array,
   * else, when the start value is not an array, the start value itself.
   */
  lemma {:induction false} ReplayClosedForm(values: map<string, Json>, ws: seq<PendingWrite>, c: string)
    ensures ValueAt(Replay(values, ws), c) == Final(ValueAt(values, c), ValuesTo(ws, c))
  {
    if ws != [] {
      var n := |ws| - 1;
      ReplayClosedForm(values, ws[..n], c);
      if ws[n].channel == c {
        if ws[n].value.Array? {
          assert [] + ws[n].value.items == ws[n].value.items;
        }
        FinalStep(ValueAt(values, c), ValuesTo(ws[..n], c), ws[n].value);
      } else {
        assert ValuesTo(ws, c) == ValuesTo(ws[..n], c);
      }
    }
  }

  /** One write seen from its own channel. */
  ghost function Overwrite(current: Option<Json>, v: Json): Option<Json> {
    if !v.Array? then Some(v)
    else match current
      case None => Some(v)
      case Some(Array(items)) => Some(Array(items + v.items))
      case Some(other) => Some(other)
  }

  lemma FinalStep(start: Option<Json>, vs: seq<Json>, v: Json)
    ensures Final(start, vs + [v]) == Overwrite(Final(start, vs), v)
  {
    assert (vs + [v])[..|vs|] == vs;
    LastScalarIsScalar(vs);
    if v.Array? && LastScalar(vs).None? {
      if vs == [] {
        assert Items(vs + [v]) == v.items;
      } else if start.Some? && start.value.Array? {
        var items := start.value.items;
        assert items + (Items(vs) + v.items) == (items + Items(vs)) + v.items;
      }
    }
  }

  lemma LastScalarIsScalar(vs: seq<Json>)
    ensures LastScalar(vs).Some? ==> !LastScalar(vs).value.Array?
    ensures LastScalar(vs).None? <==> forall v :: v in vs ==> v.Array?
  {
  }

  /** Once a channel holds a non-array, later array writes to it are lost, though still counted. */
  lemma ArrayAfterScalarIsDropped(values: map<string, Json>, ws: seq<PendingWrite>, w: PendingWrite)
    requires w.value.Array?
    requires w.channel in Replay(values, ws) && !Replay(values, ws)[w.channel].Array?
    ensures Replay(values, ws + [w]) == Replay(values, ws)
    ensures VersionOf(Counts(ws + [w]), w.channel) == VersionOf(Counts(ws), w.channel) + 1
  {
    assert (ws + [w])[..|ws|] == ws;
  }

  // ----- Versions count the writes -----

  ghost function Sum(counts: map<string, nat>): nat
    decreases counts.Keys
  {
    if counts == map[] then 0
    else
      assert counts.Keys != {};
      var c :| c in counts;
      counts[c] + Sum(counts - {c})
  }

  lemma {:induction false} SumWithout(counts: map<string, nat>, c: string)
    requires c in counts
    ensures Sum(counts) == counts[c] + Sum(counts - {c})
    decreases counts.Keys
  {
    assert counts.Keys != {};
    var d :| d in counts && Sum(counts) == counts[d] + Sum(counts - {d});
    if d != c {
      SumWithout(counts - {d}, c);
      SumWithout(counts - {c}, d);
      assert counts - {c} - {d} == counts - {d} - {c};
    }
  }

  lemma {:induction false} CountsExact(ws: seq<PendingWrite>, c: string)
    ensures VersionOf(Counts(ws), c) == |ValuesTo(ws, c)|
    ensures c in Counts(ws) <==> ValuesTo(ws, c) != []
  {
    if ws != [] {
      CountsExact(ws[..|ws| - 1], c);
    }
  }

  lemma {:induction false} CountsSum(ws: seq<PendingWrite>)
    ensures Sum(Counts(ws)) == |ws|
  {
    if ws != [] {
      var n := |ws| - 1;
      var before, after := Counts(ws[..n]), Counts(ws);
      var c := ws[n].channel;
      CountsSum(ws[..n]);
      SumWithout(after, c);
      if c in before {
        SumWithout(before, c);
        assert after - {c} == before - {c};
      } else {
        assert after - {c} == before;
      }
    }
  }

  /** Every replayed write is counted once: in the totals, in `new_versions`, and in the channel's version. */
  lemma VersionConservation(base: Checkpoint, ws: seq<PendingWrite>)
    requires base.channelValues.Object?
    ensures var r := Rebuild(base, ws);
      && Sum(r.newVersions) == |ws|
      && (forall c :: c in r.newVersions <==> ValuesTo(ws, c) != [])
      && (forall c :: VersionOf(r.channelVersions, c) == VersionOf(base.channelVersions, c) + |ValuesTo(ws, c)|)
      && (forall c :: VersionOf(r.newVersions, c) == |ValuesTo(ws, c)|)
      && r.channelVersions.Keys == base.channelVersions.Keys + r.newVersions.Keys
  {
    CountsSum(ws);
    forall c ensures VersionOf(Counts(ws), c) == |ValuesTo(ws, c)| && (c in Counts(ws) <==> ValuesTo(ws, c) != []) {
      CountsExact(ws, c);
    }
  }

  // ----- Recovery does not look at the order of its input -----

  lemma ByIdOrders()
    ensures TotalPreorder(ById)
  {
    StrOrderFacts();
  }

  ghost predicate DistinctIds(s: seq<CheckpointTuple>) {
    forall i, j :: 0 <= i < j < |s| ==> s[i].checkpoint.id != s[j].checkpoint.id
  }

  /** What a tuple with this id contributes to the deltas. */
  ghost function Contribution(s: seq<CheckpointTuple>, baseId: string, id: string): seq<Delta> {
    if StrLeq(id, baseId) then []
    else match Position(s, (t: CheckpointTuple) => t.checkpoint.id == id)
      case None => []
      case Some(i) => Tagged(id, s[i].pendingWrites)
  }

  lemma {:induction false} CollectById(s: seq<CheckpointTuple>, baseId: string, y: Delta)
    requires DistinctIds(s)
    ensures Filter(Collect(s, baseId), Tied(y, ById)) == Contribution(s, baseId, y.0)
  {
    if s != [] {
      var n := |s| - 1;
      var id := s[n].checkpoint.id;
      var tail := Recorded(s[n], baseId);
      assert DistinctIds(s[..n]);
      assert Collect(s, baseId) == Collect(s[..n], baseId) + tail;
      hide Recorded, Contribution, ById, DistinctIds, Collect, Filter, Tagged, StrLeq;
      CollectById(s[..n], baseId, y);
      FilterConcat(Collect(s[..n], baseId), tail, Tied(y, ById));
      FilterRecorded(s[n], baseId, y);
      ContributionSnoc(s, baseId, y.0);
    }
  }

  lemma FilterRecorded(t: CheckpointTuple, baseId: string, y: Delta)
    ensures Filter(Recorded(t, baseId), Tied(y, ById)) ==
      if t.checkpoint.id == y.0 && !StrLeq(y.0, baseId) then Tagged(y.0, t.pendingWrites) else []
  {
    FilterTagged(t.checkpoint.id, t.pendingWrites, y);
  }

  lemma FilterTagged(id: string, writes: seq<PendingWrite>, y: Delta)
    ensures Filter(Tagged(id, writes), Tied(y, ById)) == if id == y.0 then Tagged(id, writes) else []
  {
    StrTotal(id, id);
    var ds, p := Tagged(id, writes), Tied(y, ById);
    if id != y.0 && StrLeq(id, y.0) && StrLeq(y.0, id) {
      StrAntisymmetric(id, y.0);
    }
    forall d | d in ds ensures p(d) <==> id == y.0 {
      assert d.0 == id;
      assert p(d) <==> ById(d, y) && ById(y, d);
    }
    if id == y.0 {
      FilterAll(ds, p);
    } else {
      FilterNone(ds, p);
    }
  }

  lemma ContributionSnoc(s: seq<CheckpointTuple>, baseId: string, id: string)
    requires s != [] && DistinctIds(s)
    ensures var n := |s| - 1;
      Contribution(s, baseId, id) ==
        if s[n].checkpoint.id == id && !StrLeq(id, baseId) then Tagged(id, s[n].pendingWrites)
        else Contribution(s[..n], baseId, id)
    ensures s[|s| - 1].checkpoint.id == id ==> Contribution(s[..|s| - 1], baseId, id) == []
  {
    var n := |s| - 1;
    var p := (t: CheckpointTuple) => t.checkpoint.id == id;
    var whole, part := Position(s, p), Position(s[..n], p);
    if part.Some? {
      assert p(s[part.value]);
    }
    if p(s[n]) {
      assert whole.Some?;
    }
  }

  lemma SameContribution(a: seq<CheckpointTuple>, b: seq<CheckpointTuple>, baseId: string, id: string)
    requires multiset(a) == multiset(b) && DistinctIds(a) && DistinctIds(b)
    ensures Contribution(a, baseId, id) == Contribution(b, baseId, id)
  {
    hide Tagged, StrLeq;
    var p := (t: CheckpointTuple) => t.checkpoint.id == id;
    assert forall t :: t in a <==> t in multiset(a);
    assert forall t :: t in b <==> t in multiset(b);
    match Position(a, p) {
      case Some(i) =>
        assert a[i] in b;
        var j :| 0 <= j < |b| && b[j] == a[i];
        assert p(b[j]);
      case None =>
        forall j | 0 <= j < |b| ensures !p(b[j]) {
          assert b[j] in a;
        }
    }
  }

  lemma PermutedIds(a: seq<CheckpointTuple>, b: seq<CheckpointTuple>)
    requires multiset(a) == multiset(b) && DistinctIds(a)
    ensures DistinctIds(b)
  {
    forall i, j | 0 <= i < j < |b| ensures b[i].checkpoint.id != b[j].checkpoint.id {
      PairCounts(b, i, j);
      if b[i] == b[j] {
        TwiceMeansTwo(a, b[i]);
      }
    }
  }

  lemma PairCounts(b: seq<CheckpointTuple>, i: nat, j: nat)
    requires i < j < |b|
    ensures b[i] in multiset(b) && b[j] in multiset(b) && (b[i] == b[j] ==> multiset(b)[b[i]] >= 2)
  {
    assert b == b[..i] + [b[i]] + b[i + 1..j] + [b[j]] + b[j + 1..];
  }

  lemma {:induction false} TwiceMeansTwo(a: seq<CheckpointTuple>, x: CheckpointTuple)
    requires multiset(a)[x] >= 2
    ensures exists i, j :: 0 <= i < j < |a| && a[i] == a[j] == x
  {
    var j :| 0 <= j < |a| && a[j] == x;
    var rest := a[..j] + a[j + 1..];
    assert a == a[..j] + [x] + a[j + 1..];
    assert multiset(rest)[x] >= 1;
    var i :| 0 <= i < |rest| && rest[i] == x;
    var k := if i < j then i else i + 1;
    assert a[k] == x && k != j;
    if k < j {
      assert a[k] == a[j] == x;
    } else {
      assert a[j] == a[k] == x;
    }
  }

  /**
   * With distinct ids, permuting the tuples up to the target changes nothing as long as the
   * same snapshot is chosen: the id cut-off and the stable sort undo the permutation.
   */
  lemma OrderInsensitive(a: seq<CheckpointTuple>, b: seq<CheckpointTuple>, baseId: string)
    requires multiset(a) == multiset(b) && DistinctIds(a)
    ensures Sort(Collect(a, baseId), ById) == Sort(Collect(b, baseId), ById)
  {
    PermutedIds(a, b);
    ByIdOrders();
    var da, db := Collect(a, baseId), Collect(b, baseId);
    SortIsStable(da, ById);
    SortIsStable(db, ById);
    forall y ensures Filter(Sort(da, ById), Tied(y, ById)) == Filter(Sort(db, ById), Tied(y, ById)) {
      CollectById(a, baseId, y);
      CollectById(b, baseId, y);
      SameContribution(a, b, baseId, y.0);
    }
    SortedUnique(Sort(da, ById), Sort(db, ById), ById);
  }

  lemma RecoveryIgnoresOrder(a: seq<CheckpointTuple>, b: seq<CheckpointTuple>, target: string)
    requires multiset(a) == multiset(b) && DistinctIds(a)
    requires a != [] && a[|a| - 1].checkpoint.id == target
    requires b != [] && b[|b| - 1].checkpoint.id == target
    requires BaseIndex(a).Some? && BaseIndex(b).Some? && a[BaseIndex(a).value] == b[BaseIndex(b).value]
    ensures Recover(a, target) == Recover(b, target)
  {
    PermutedIds(a, b);
    TargetLast(a, target);
    TargetLast(b, target);
    var base := a[BaseIndex(a).value].checkpoint;
    OrderInsensitive(a, b, base.id);
    assert RebuildFrom(base, a) == RebuildFrom(base, b);
  }

  lemma TargetLast(s: seq<CheckpointTuple>, target: string)
    requires s != [] && DistinctIds(s) && s[|s| - 1].checkpoint.id == target
    ensures Recover(s, target) == RecoverLast(s)
  {
    var p := (t: CheckpointTuple) => t.checkpoint.id == target;
    assert p(s[|s| - 1]);
    assert TargetIndex(s, target) == Some(|s| - 1);
    assert s[..|s|] == s;
  }

  /** Tuples listed after the first one with the target id play no part. */
  lemma {:induction false} LaterTuplesIrrelevant(s: seq<CheckpointTuple>, later: seq<CheckpointTuple>, target: string)
    requires exists k :: 0 <= k < |s| && s[k].checkpoint.id == target
    ensures Recover(s + later, target) == Recover(s, target)
  {
    var p := (t: CheckpointTuple) => t.checkpoint.id == target;
    var k :| 0 <= k < |s| && s[k].checkpoint.id == target;
    assert p(s[k]);
    PositionConcat(s, later, p);
    hide Recover, RecoverLast, Position;
    var i := Position(s, p).value;
    RecoverAt(s, target, i);
    RecoverAt(s + later, target, i);
    assert (s + later)[..i + 1] == s[..i + 1];
  }

  // ----- When recovery is the plain left fold -----

  /** The writes of consecutive tuples, in order. */
  ghost function WritesOf(s: seq<CheckpointTuple>): seq<PendingWrite> {
    if s == [] then [] else WritesOf(s[..|s| - 1]) + s[|s| - 1].pendingWrites
  }

  /** The same, each write with the id of its tuple. */
  ghost function DeltasOf(s: seq<CheckpointTuple>): (r: seq<Delta>)
    ensures Writes(r) == WritesOf(s)
  {
    if s == [] then []
    else
      var t := s[|s| - 1];
      var r := DeltasOf(s[..|s| - 1]) + Tagged(t.checkpoint.id, t.pendingWrites);
      assert Writes(r) == Writes(DeltasOf(s[..|s| - 1])) + t.pendingWrites;
      r
  }

  /** What recovery replays onto the snapshot at position `b`. */
  ghost function Replayed(relevant: seq<CheckpointTuple>, b: nat): seq<Delta>
    requires b < |relevant|
  {
    Sort(Collect(relevant, relevant[b].checkpoint.id), ById)
  }

  predicate HasWrites(t: CheckpointTuple) {
    t.pendingWrites != []
  }

  /** Of the tuples with writes, those up to the snapshot have ids up to its own. */
  ghost predicate NoneBeforeAbove(s: seq<CheckpointTuple>, b: nat)
    requires b < |s|
  {
    forall i :: 0 <= i <= b && HasWrites(s[i]) ==> StrLeq(s[i].checkpoint.id, s[b].checkpoint.id)
  }

  /** Those after it have greater ids. */
  ghost predicate AllAfterAbove(s: seq<CheckpointTuple>, b: nat)
    requires b < |s|
  {
    forall i :: b < i < |s| && HasWrites(s[i]) ==> StrLess(s[b].checkpoint.id, s[i].checkpoint.id)
  }

  /** Among tuples with writes, ids never decrease. */
  ghost predicate IdsRise(s: seq<CheckpointTuple>) {
    forall i, j :: 0 <= i < j < |s| && HasWrites(s[i]) && HasWrites(s[j]) ==>
      StrLeq(s[i].checkpoint.id, s[j].checkpoint.id)
  }

  ghost predicate InOrderFrom(s: seq<CheckpointTuple>, b: nat)
    requires b < |s|
  {
    NoneBeforeAbove(s, b) && AllAfterAbove(s, b) && IdsRise(s[b + 1..])
  }

  lemma {:induction false} CollectConcat(s: seq<CheckpointTuple>, t: seq<CheckpointTuple>, baseId: string)
    ensures Collect(s + t, baseId) == Collect(s, baseId) + Collect(t, baseId)
  {
    hide Recorded;
    if t == [] {
      assert s + t == s;
    } else {
      var n := |t| - 1;
      CollectConcat(s, t[..n], baseId);
      assert (s + t)[..|s| + n] == s + t[..n];
    }
  }

  lemma RecordedNothingIff(t: CheckpointTuple, baseId: string)
    ensures Recorded(t, baseId) == [] <==> (HasWrites(t) ==> StrLeq(t.checkpoint.id, baseId))
  {
  }

  ghost predicate NoneAbove(s: seq<CheckpointTuple>, baseId: string) {
    forall t :: t in s && HasWrites(t) ==> StrLeq(t.checkpoint.id, baseId)
  }

  lemma NoneAboveSnoc(s: seq<CheckpointTuple>, t: CheckpointTuple, baseId: string)
    ensures NoneAbove(s + [t], baseId) <==> NoneAbove(s, baseId) && (HasWrites(t) ==> StrLeq(t.checkpoint.id, baseId))
  {
    hide HasWrites, StrLeq;
    assert forall u :: u in s + [t] <==> u in s || u == t;
  }

  /** Nothing is collected exactly when no tuple above the base has writes. */
  lemma {:induction false} CollectNothingIff(s: seq<CheckpointTuple>, baseId: string)
    ensures Collect(s, baseId) == [] <==> NoneAbove(s, baseId)
  {
    assert if s == [] then Collect(s, baseId) == [] && NoneAbove(s, baseId)
           else Collect(s, baseId) == Collect(s[..|s| - 1], baseId) + Recorded(s[|s| - 1], baseId);
    hide Recorded, Collect, HasWrites, StrLeq, NoneAbove;
    if s != [] {
      var n := |s| - 1;
      CollectNothingIff(s[..n], baseId);
      RecordedNothingIff(s[n], baseId);
      NoneAboveSnoc(s[..n], s[n], baseId);
      assert s == s[..n] + [s[n]];
    }
  }

  /** Everything is collected, in list order, exactly when every tuple with writes is above the base. */
  lemma {:induction false} CollectAllIff(s: seq<CheckpointTuple>, baseId: string)
    ensures Collect(s, baseId) == DeltasOf(s) <==>
      forall t :: t in s && HasWrites(t) ==> StrLess(baseId, t.checkpoint.id)
    ensures |Collect(s, baseId)| <= |DeltasOf(s)|
  {
    if s != [] {
      var n := |s| - 1;
      var t := s[n];
      CollectAllIff(s[..n], baseId);
      DeltasSnoc(s);
      assert s == s[..n] + [t];
      hide Recorded, Tagged, DeltasOf, StrLeq, HasWrites;
      var mine, full := Recorded(t, baseId), Tagged(t.checkpoint.id, t.pendingWrites);
      SplitEqual(Collect(s[..n], baseId), DeltasOf(s[..n]), mine, full);
      assert Collect(s, baseId) == Collect(s[..n], baseId) + mine;
    }
  }

  lemma SplitEqual(u: seq<Delta>, v: seq<Delta>, x: seq<Delta>, y: seq<Delta>)
    requires |u| <= |v| && |x| <= |y|
    ensures u + x == v + y <==> u == v && x == y
  {
    if u + x == v + y {
      assert |u| == |v|;
      assert u == (u + x)[..|u|] && v == (v + y)[..|u|];
      assert x == (u + x)[|u|..] && y == (v + y)[|u|..];
    }
  }

  lemma {:induction false} DeltaMembers(s: seq<CheckpointTuple>, i: nat)
    requires i < |s| && HasWrites(s[i])
    ensures (s[i].checkpoint.id, s[i].pendingWrites[0]) in DeltasOf(s)
  {
    var n := |s| - 1;
    if i == n {
      var mine := Tagged(s[n].checkpoint.id, s[n].pendingWrites);
      assert mine[0] in mine;
    } else {
      DeltaMembers(s[..n], i);
    }
  }

  lemma {:induction false} DeltasFrom(s: seq<CheckpointTuple>, d: Delta)
    requires d in DeltasOf(s)
    ensures exists i :: 0 <= i < |s| && HasWrites(s[i]) && s[i].checkpoint.id == d.0
  {
    var n := |s| - 1;
    if d in DeltasOf(s[..n]) {
      DeltasFrom(s[..n], d);
      var i :| 0 <= i < n && HasWrites(s[..n][i]) && s[..n][i].checkpoint.id == d.0;
      assert s[i] == s[..n][i];
    } else {
      assert d in Tagged(s[n].checkpoint.id, s[n].pendingWrites);
    }
  }

  /** A write's delta compares by the tuple it came from. */
  lemma DeltaPosition(s: seq<CheckpointTuple>, i: nat) returns (p: nat)
    requires i < |s| && HasWrites(s[i])
    ensures p < |DeltasOf(s)| && DeltasOf(s)[p].0 == s[i].checkpoint.id
  {
    DeltaMembers(s, i);
    p :| 0 <= p < |DeltasOf(s)| && DeltasOf(s)[p] == (s[i].checkpoint.id, s[i].pendingWrites[0]);
  }

  lemma {:induction false} DeltasSortedIff(s: seq<CheckpointTuple>)
    ensures Sorted(DeltasOf(s), ById) <==> IdsRise(s)
  {
    hide DeltasOf;
    if s != [] {
      var n := |s| - 1;
      var before, mine := DeltasOf(s[..n]), Tagged(s[n].checkpoint.id, s[n].pendingWrites);
      DeltasSnoc(s);
      DeltasSortedIff(s[..n]);
      if IdsRise(s) {
        assert IdsRise(s[..n]);
        if HasWrites(s[n]) {
          BeforeBelow(s);
        }
        SortedConcat(before, s[n]);
      }
      if Sorted(before + mine, ById) {
        SortedRising(s);
      }
    } else {
      assert Sorted<Delta>([], ById);
      DeltasNone();
    }
  }

  lemma DeltasNone()
    ensures DeltasOf([]) == []
  {
  }

  lemma DeltasSnoc(s: seq<CheckpointTuple>)
    requires s != []
    ensures var n := |s| - 1;
      DeltasOf(s) == DeltasOf(s[..n]) + Tagged(s[n].checkpoint.id, s[n].pendingWrites)
  {
  }

  /** In a rising list no earlier write is above the last tuple's, if it has any. */
  lemma BeforeBelow(s: seq<CheckpointTuple>)
    requires s != [] && IdsRise(s) && HasWrites(s[|s| - 1])
    ensures forall d :: d in DeltasOf(s[..|s| - 1]) ==> StrLeq(d.0, s[|s| - 1].checkpoint.id)
  {
    hide DeltasOf;
    var n := |s| - 1;
    forall d | d in DeltasOf(s[..n]) ensures StrLeq(d.0, s[n].checkpoint.id) {
      DeltasFrom(s[..n], d);
      var k :| 0 <= k < n && HasWrites(s[..n][k]) && s[..n][k].checkpoint.id == d.0;
      assert s[k] == s[..n][k];
    }
  }

  lemma SortedConcat(a: seq<Delta>, t: CheckpointTuple)
    requires Sorted(a, ById)
    requires HasWrites(t) ==> forall d :: d in a ==> StrLeq(d.0, t.checkpoint.id)
    ensures Sorted(a + Tagged(t.checkpoint.id, t.pendingWrites), ById)
  {
    StrTotal(t.checkpoint.id, t.checkpoint.id);
    var all := a + Tagged(t.checkpoint.id, t.pendingWrites);
    forall i, j | 0 <= i < j < |all| ensures ById(all[i], all[j]) {
      if i < |a| {
        assert all[i] == a[i] && a[i] in a;
      }
    }
  }

  lemma SortedRising(s: seq<CheckpointTuple>)
    requires s != [] && (Sorted(DeltasOf(s[..|s| - 1]), ById) ==> IdsRise(s[..|s| - 1]))
    requires var n := |s| - 1;
      Sorted(DeltasOf(s[..n]) + Tagged(s[n].checkpoint.id, s[n].pendingWrites), ById)
    ensures IdsRise(s)
  {
    hide DeltasOf;
    var n := |s| - 1;
    var before, mine := DeltasOf(s[..n]), Tagged(s[n].checkpoint.id, s[n].pendingWrites);
    var all := before + mine;
    assert Sorted(before, ById) by {
      assert forall i :: 0 <= i < |before| ==> before[i] == all[i];
    }
    forall i, j | 0 <= i < j < |s| && HasWrites(s[i]) && HasWrites(s[j])
      ensures StrLeq(s[i].checkpoint.id, s[j].checkpoint.id)
    {
      assert s[i] == s[..n][i];
      if j == n {
        var p := DeltaPosition(s[..n], i);
        assert ById(all[p], all[|before|]);
      } else {
        assert s[j] == s[..n][j];
      }
    }
  }

  /** Every collected write is above the base. */
  lemma {:induction false} CollectedAbove(s: seq<CheckpointTuple>, baseId: string, d: Delta)
    requires d in Collect(s, baseId)
    ensures StrLess(baseId, d.0)
  {
    if d in Collect(s[..|s| - 1], baseId) {
      CollectedAbove(s[..|s| - 1], baseId, d);
    }
  }

  /**
   * Recovery replays exactly the writes listed after the snapshot, in list order, exactly when the
   * tuples with writes have ids up to the snapshot's own before it, greater ones after it, and the
   * latter never decrease.
   */
  lemma ReplayedAsListedIff(s: seq<CheckpointTuple>, b: nat)
    requires b < |s|
    ensures Replayed(s, b) == DeltasOf(s[b + 1..]) <==> InOrderFrom(s, b)
  {
    var id := s[b].checkpoint.id;
    var front, back := s[..b + 1], s[b + 1..];
    assert s == front + back;
    CollectConcat(front, back, id);
    CollectNothingIff(front, id);
    CollectAllIff(back, id);
    DeltasSortedIff(back);
    ByIdOrders();
    assert NoneBeforeAbove(s, b) <==> Collect(front, id) == [] by {
      FrontMembers(s, b);
    }
    assert AllAfterAbove(s, b) <==> Collect(back, id) == DeltasOf(back) by {
      BackMembers(s, b);
    }
    if InOrderFrom(s, b) {
      assert [] + Collect(back, id) == Collect(back, id);
      SortOfSorted(Collect(s, id), ById);
    }
    if Replayed(s, b) == DeltasOf(back) {
      ListedMeansInOrder(s, b);
    }
  }

  lemma FrontMembers(s: seq<CheckpointTuple>, b: nat)
    requires b < |s|
    ensures NoneBeforeAbove(s, b) <==>
      forall t :: t in s[..b + 1] && HasWrites(t) ==> StrLeq(t.checkpoint.id, s[b].checkpoint.id)
  {
    assert forall i :: 0 <= i <= b ==> s[..b + 1][i] == s[i] && s[i] in s[..b + 1];
  }

  lemma BackMembers(s: seq<CheckpointTuple>, b: nat)
    requires b < |s|
    ensures AllAfterAbove(s, b) <==>
      forall t :: t in s[b + 1..] && HasWrites(t) ==> StrLess(s[b].checkpoint.id, t.checkpoint.id)
  {
    assert forall i :: b < i < |s| ==> s[b + 1..][i - b - 1] == s[i] && s[i] in s[b + 1..];
  }

  lemma ListedMeansInOrder(s: seq<CheckpointTuple>, b: nat)
    requires b < |s| && Replayed(s, b) == DeltasOf(s[b + 1..])
    ensures InOrderFrom(s, b)
  {
    hide Collect, DeltasOf, Sort, HasWrites, StrLeq, IdsRise, NoneBeforeAbove;
    var id, back := s[b].checkpoint.id, s[b + 1..];
    ByIdOrders();
    SortIsStable(Collect(s, id), ById);
    DeltasSortedIff(back);
    ListedMeansAbove(s, b);
    BackMembers(s, b);
    NothingInFront(s, b);
    CollectNothingIff(s[..b + 1], id);
    FrontMembers(s, b);
  }

  /** As many deltas as are listed after the snapshot leave none for the tuples before. */
  lemma NothingInFront(s: seq<CheckpointTuple>, b: nat)
    requires b < |s| && Replayed(s, b) == DeltasOf(s[b + 1..])
    ensures Collect(s[..b + 1], s[b].checkpoint.id) == []
  {
    hide Collect, DeltasOf, Sort, HasWrites, StrLeq;
    var id, front, back := s[b].checkpoint.id, s[..b + 1], s[b + 1..];
    SortMembers(Collect(s, id), ById);
    assert |Collect(s, id)| == |multiset(Collect(s, id))| == |multiset(DeltasOf(back))| == |DeltasOf(back)|;
    ListedMeansAbove(s, b);
    CollectAllIff(back, id);
    assert s == front + back;
    CollectConcat(front, back, id);
  }

  lemma ListedMeansAbove(s: seq<CheckpointTuple>, b: nat)
    requires b < |s| && Replayed(s, b) == DeltasOf(s[b + 1..])
    ensures forall t :: t in s[b + 1..] && HasWrites(t) ==> StrLess(s[b].checkpoint.id, t.checkpoint.id)
  {
    hide DeltasOf, Sort, Collect, StrLeq;
    var id, back := s[b].checkpoint.id, s[b + 1..];
    SortMembers(Collect(s, id), ById);
    forall t | t in back && HasWrites(t) ensures StrLess(id, t.checkpoint.id) {
      var i :| 0 <= i < |back| && back[i] == t;
      DeltaMembers(back, i);
      CollectedAbove(s, id, (t.checkpoint.id, t.pendingWrites[0]));
    }
  }

  /** Under that condition the recovered checkpoint is the left fold of the writes at positions base+1 to target. */
  lemma RecoveryIsFold(s: seq<CheckpointTuple>, target: string, i: nat, b: nat)
    requires TargetIndex(s, target) == Some(i) && BaseIndex(s[..i + 1]) == Some(b)
    requires InOrderFrom(s[..i + 1], b)
    ensures Recover(s, target) == Ok(Some(Rebuild(s[b].checkpoint, WritesOf(s[b + 1..i + 1]))))
  {
    hide Rebuild, Sort, Collect, Writes, WritesOf, InOrderFrom;
    ReplayedAsListedIff(s[..i + 1], b);
    assert s[..i + 1][b + 1..] == s[b + 1..i + 1];
  }

  ghost predicate Ascending(s: seq<CheckpointTuple>) {
    forall i, j :: 0 <= i < j < |s| ==> StrLess(s[i].checkpoint.id, s[j].checkpoint.id)
  }

  lemma AscendingInOrder(s: seq<CheckpointTuple>, b: nat)
    requires Ascending(s) && b < |s|
    ensures InOrderFrom(s, b)
  {
    StrOrderFacts();
    assert forall i :: 0 <= i <= b ==> StrLeq(s[i].checkpoint.id, s[b].checkpoint.id);
    var back := s[b + 1..];
    forall i, j | 0 <= i < j < |back| ensures StrLeq(back[i].checkpoint.id, back[j].checkpoint.id) {
      assert StrLess(s[b + 1 + i].checkpoint.id, s[b + 1 + j].checkpoint.id);
    }
  }

  // ----- What a recovery returns -----

  ghost predicate HoldsChannels(t: CheckpointTuple) {
    t.checkpoint.channelValues.Object? && exists c: string :: c in t.checkpoint.channelValues.fields
  }

  /**
   * Recovery to the first tuple with that id, from the nearest tuple before it whose channel values are an
   * object holding some channel: nulls, scalars, arrays and empty objects in between are passed over.
   * Every channel ends in its closed form over the writes listed since, every write counts once, and
   * whatever else the snapshot holds is kept.
   */
  lemma RecoverySpelledOut(s: seq<CheckpointTuple>, b: nat, i: nat)
    requires b <= i < |s| && HoldsChannels(s[b]) && forall j :: b < j <= i ==> !HoldsChannels(s[j])
    requires forall j :: 0 <= j < i ==> s[j].checkpoint.id != s[i].checkpoint.id
    requires InOrderFrom(s[..i + 1], b)
    ensures var r := Recover(s, s[i].checkpoint.id);
      && r.Ok? && r.value.Some?
      && RebuiltFrom(r.value.value, s[b].checkpoint, WritesOf(s[b + 1..i + 1]))
  {
    NearestIsBase(s[..i + 1], b);
    assert TargetIndex(s, s[i].checkpoint.id) == Some(i) by {
      FirstIsTarget(s, i);
    }
    RecoveryIsFold(s, s[i].checkpoint.id, i, b);
    RebuildSpelledOut(s[b].checkpoint, WritesOf(s[b + 1..i + 1]));
  }

  /** `r` is `base` after the writes `ws`. */
  ghost predicate RebuiltFrom(r: Checkpoint, base: Checkpoint, ws: seq<PendingWrite>) {
    && r.channelValues.Object? && base.channelValues.Object?
    && (forall c :: ValueAt(r.channelValues.fields, c) ==
                    Final(ValueAt(base.channelValues.fields, c), ValuesTo(ws, c)))
    && (forall c :: c in r.channelVersions <==> c in base.channelVersions || ValuesTo(ws, c) != [])
    && (forall c :: c in r.channelVersions ==>
         r.channelVersions[c] == |ValuesTo(ws, c)| + if c in base.channelVersions then base.channelVersions[c] else 0)
    && (forall c :: c in r.newVersions <==> ValuesTo(ws, c) != [])
    && (forall c :: c in r.newVersions ==> r.newVersions[c] == |ValuesTo(ws, c)|)
    && r.countersSinceDeltaSnapshot == map[]
    && r.id == base.id && r.createdAt == base.createdAt && r.versionsSeen == base.versionsSeen
    && r.schemaVersion == base.schemaVersion && r.v == base.v
  }

  lemma RebuildSpelledOut(base: Checkpoint, ws: seq<PendingWrite>)
    requires base.channelValues.Object?
    ensures RebuiltFrom(Rebuild(base, ws), base, ws)
  {
    hide Final, ValuesTo, Counts, Replay;
    forall c
      ensures ValueAt(Replay(base.channelValues.fields, ws), c) ==
              Final(ValueAt(base.channelValues.fields, c), ValuesTo(ws, c))
      ensures VersionOf(Counts(ws), c) == |ValuesTo(ws, c)| && (c in Counts(ws) <==> ValuesTo(ws, c) != [])
    {
      ReplayClosedForm(base.channelValues.fields, ws, c);
      CountsExact(ws, c);
    }
  }

  lemma NearestIsBase(s: seq<CheckpointTuple>, b: nat)
    requires b < |s| && HoldsChannels(s[b]) && forall j :: b < j < |s| ==> !HoldsChannels(s[j])
    ensures BaseIndex(s) == Some(b)
  {
    assert IsFull(s[b]);
    forall j | b < j < |s| ensures !IsFull(s[j]) {
      assert !HoldsChannels(s[j]);
    }
    hide IsFull, BaseIndex;
  }

  lemma FirstIsTarget(s: seq<CheckpointTuple>, i: nat)
    requires i < |s| && forall j :: 0 <= j < i ==> s[j].checkpoint.id != s[i].checkpoint.id
    ensures TargetIndex(s, s[i].checkpoint.id) == Some(i)
  {
    var p := (t: CheckpointTuple) => t.checkpoint.id == s[i].checkpoint.id;
    assert p(s[i]);
  }

  /**
   * An unknown target recovers to nothing; a known one fails exactly when no tuple up to its first
   * occurrence has an object holding a channel.
   */
  lemma RecoveryFailsIff(s: seq<CheckpointTuple>, target: string)
    ensures Recover(s, target) == Ok(None) <==> forall t :: t in s ==> t.checkpoint.id != target
    ensures Recover(s, target).Err? <==>
      exists i :: 0 <= i < |s| && FirstWithId(s, i, target) && forall j :: 0 <= j <= i ==> !HoldsChannels(s[j])
    ensures Recover(s, target).Err? ==>
      Recover(s, target).error == Deserialize("No full snapshot found in checkpoint chain")
  {
    hide Position, Rebuild, Collect, Sort;
    match TargetIndex(s, target) {
      case None =>
        assert forall i :: 0 <= i < |s| ==> s[i].checkpoint.id != target;
      case Some(i) =>
        assert s[i].checkpoint.id == target && FirstWithId(s, i, target);
        forall k | 0 <= k < |s| && FirstWithId(s, k, target) ensures k == i {
        }
        forall j | 0 <= j <= i ensures IsFull(s[j]) <==> HoldsChannels(s[j]) {
          FullIff(s[j]);
        }
        hide IsFull, HoldsChannels;
        assert BaseIndex(s[..i + 1]).None? <==> forall j :: 0 <= j <= i ==> !HoldsChannels(s[j]);
    }
  }

  ghost predicate FirstWithId(s: seq<CheckpointTuple>, i: nat, target: string)
    requires i < |s|
  {
    s[i].checkpoint.id == target && forall j :: 0 <= j < i ==> s[j].checkpoint.id != target
  }

  lemma FullIff(t: CheckpointTuple)
    ensures IsFull(t) <==> HoldsChannels(t)
  {
    if IsFull(t) {
      var c :| c in t.checkpoint.channelValues.fields.Keys;
      assert c in t.checkpoint.channelValues.fields;
    }
  }

  // ----- Incremental recovery -----

  lemma {:induction false} ReplayConcat(values: map<string, Json>, u: seq<PendingWrite>, w: seq<PendingWrite>)
    ensures Replay(values, u + w) == Replay(Replay(values, u), w)
  {
    if w == [] {
      assert u + w == u;
    } else {
      var n := |w| - 1;
      ReplayConcat(values, u, w[..n]);
      assert (u + w)[..|u| + n] == u + w[..n];
    }
  }

  lemma {:induction false} ValuesToConcat(u: seq<PendingWrite>, w: seq<PendingWrite>, c: string)
    ensures ValuesTo(u + w, c) == ValuesTo(u, c) + ValuesTo(w, c)
  {
    if w == [] {
      assert u + w == u;
    } else {
      var n := |w| - 1;
      ValuesToConcat(u, w[..n], c);
      assert (u + w)[..|u| + n] == u + w[..n];
    }
  }

  lemma BumpConcat(versions: map<string, nat>, u: seq<PendingWrite>, w: seq<PendingWrite>)
    ensures Bump(versions, Counts(u + w)) == Bump(Bump(versions, Counts(u)), Counts(w))
  {
    forall c ensures VersionOf(Counts(u + w), c) == VersionOf(Counts(u), c) + VersionOf(Counts(w), c)
             ensures c in Counts(u + w) <==> c in Counts(u) || c in Counts(w) {
      CountsConcat(u, w, c);
    }
    var whole, parts := Bump(versions, Counts(u + w)), Bump(Bump(versions, Counts(u)), Counts(w));
    assert whole.Keys == parts.Keys;
    assert forall c :: c in whole ==> whole[c] == parts[c];
  }

  lemma CountsConcat(u: seq<PendingWrite>, w: seq<PendingWrite>, c: string)
    ensures VersionOf(Counts(u + w), c) == VersionOf(Counts(u), c) + VersionOf(Counts(w), c)
    ensures c in Counts(u + w) <==> c in Counts(u) || c in Counts(w)
  {
    CountsExact(u + w, c);
    CountsExact(u, c);
    CountsExact(w, c);
    ValuesToConcat(u, w, c);
  }

  lemma {:induction false} WritesOfConcat(s: seq<CheckpointTuple>, t: seq<CheckpointTuple>)
    ensures WritesOf(s + t) == WritesOf(s) + WritesOf(t)
  {
    if t == [] {
      assert s + t == s;
    } else {
      var n := |t| - 1;
      WritesOfConcat(s, t[..n]);
      assert (s + t)[..|s| + n] == s + t[..n] && (s + t)[|s| + n] == t[n];
      assert WritesOf(s + t) == WritesOf(s + t[..n]) + t[n].pendingWrites;
    }
  }

  /**
   * With no full snapshot in (j, k] and what is listed up to k in order from the snapshot, recovering
   * to k is recovering to j and then replaying the writes of tuples j+1..k: same values, same versions.
   */
  lemma RecoveryIncremental(s: seq<CheckpointTuple>, b: nat, j: nat, k: nat, atJ: Checkpoint)
    requires j <= k < |s| && forall i :: j < i <= k ==> !IsFull(s[i])
    requires TargetIndex(s, s[j].checkpoint.id) == Some(j) && TargetIndex(s, s[k].checkpoint.id) == Some(k)
    requires BaseIndex(s[..j + 1]) == Some(b) && InOrderFrom(s[..k + 1], b)
    requires Recover(s, s[j].checkpoint.id) == Ok(Some(atJ))
    ensures var ws := WritesOf(s[j + 1..k + 1]);
      var r := Recover(s, s[k].checkpoint.id);
      && atJ.channelValues.Object?
      && r.Ok? && r.value.Some?
      && r.value.value.channelValues == Object(Replay(atJ.channelValues.fields, ws))
      && r.value.value.channelVersions == Bump(atJ.channelVersions, Counts(ws))
  {
    hide InOrderFrom, TargetIndex, Recover, BaseIndex, WritesOf;
    InOrderPrefix(s, b, j, k);
    RecoveryIsFold(s, s[j].checkpoint.id, j, b);
    RecoveryIsFold(s, s[k].checkpoint.id, k, b);
    FoldExtends(s, b, j, k);
  }

  lemma InOrderPrefix(s: seq<CheckpointTuple>, b: nat, j: nat, k: nat)
    requires b <= j <= k < |s| && InOrderFrom(s[..k + 1], b)
    ensures InOrderFrom(s[..j + 1], b)
  {
    hide StrLeq, HasWrites;
    var short, long := s[..j + 1], s[..k + 1];
    assert forall i :: 0 <= i <= j ==> short[i] == long[i];
    var x, y := short[b + 1..], long[b + 1..];
    assert forall i :: 0 <= i < |x| ==> x[i] == y[i];
  }

  /** In particular with ascending ids. */
  lemma AscendingIncremental(s: seq<CheckpointTuple>, j: nat, k: nat, atJ: Checkpoint)
    requires Ascending(s) && j <= k < |s|
    requires forall i :: j < i <= k ==> !IsFull(s[i])
    requires Recover(s, s[j].checkpoint.id) == Ok(Some(atJ))
    ensures var ws := WritesOf(s[j + 1..k + 1]);
      var r := Recover(s, s[k].checkpoint.id);
      && atJ.channelValues.Object?
      && r.Ok? && r.value.Some?
      && r.value.value.channelValues == Object(Replay(atJ.channelValues.fields, ws))
      && r.value.value.channelVersions == Bump(atJ.channelVersions, Counts(ws))
  {
    AscendingTarget(s, j);
    AscendingTarget(s, k);
    RecoverAt(s, s[j].checkpoint.id, j);
    hide TargetIndex, Recover, WritesOf, InOrderFrom;
    var b := BaseIndex(s[..j + 1]).value;
    assert Ascending(s[..k + 1]);
    AscendingInOrder(s[..k + 1], b);
    RecoveryIncremental(s, b, j, k, atJ);
  }

  lemma FoldExtends(s: seq<CheckpointTuple>, b: nat, j: nat, k: nat)
    requires b <= j <= k < |s| && s[b].checkpoint.channelValues.Object?
    ensures var ws := WritesOf(s[j + 1..k + 1]);
      var atJ := Rebuild(s[b].checkpoint, WritesOf(s[b + 1..j + 1]));
      var atK := Rebuild(s[b].checkpoint, WritesOf(s[b + 1..k + 1]));
      && atK.channelValues == Object(Replay(atJ.channelValues.fields, ws))
      && atK.channelVersions == Bump(atJ.channelVersions, Counts(ws))
  {
    assert s[b + 1..k + 1] == s[b + 1..j + 1] + s[j + 1..k + 1];
    WritesOfConcat(s[b + 1..j + 1], s[j + 1..k + 1]);
    RebuildConcat(s[b].checkpoint, WritesOf(s[b + 1..j + 1]), WritesOf(s[j + 1..k + 1]));
  }

  lemma RebuildConcat(base: Checkpoint, u: seq<PendingWrite>, w: seq<PendingWrite>)
    requires base.channelValues.Object?
    ensures var once, twice := Rebuild(base, u + w), Rebuild(base, u);
      && once.channelValues == Object(Replay(twice.channelValues.fields, w))
      && once.channelVersions == Bump(twice.channelVersions, Counts(w))
  {
    ReplayConcat(base.channelValues.fields, u, w);
    BumpConcat(base.channelVersions, u, w);
  }

  lemma AscendingTarget(s: seq<CheckpointTuple>, i: nat)
    requires Ascending(s) && i < |s|
    ensures TargetIndex(s, s[i].checkpoint.id) == Some(i)
  {
    var p := (t: CheckpointTuple) => t.checkpoint.id == s[i].checkpoint.id;
    var r := Position(s, p);
    assert p(s[i]) && r.Some?;
    StrTotal(s[i].checkpoint.id, s[i].checkpoint.id);
  }

  // ----- Writes that are skipped -----

  /** A tuple with other writes. */
  function Rewritten(s: seq<CheckpointTuple>, i: nat, ws: seq<PendingWrite>): seq<CheckpointTuple>
    requires i < |s|
  {
    s[i := s[i].(pendingWrites := ws)]
  }

  lemma {:induction false} CollectRewritten(s: seq<CheckpointTuple>, i: nat, ws: seq<PendingWrite>, baseId: string)
    requires i < |s| && StrLeq(s[i].checkpoint.id, baseId)
    ensures Collect(Rewritten(s, i, ws), baseId) == Collect(s, baseId)
  {
    hide StrLeq, Tagged;
    var n := |s| - 1;
    var r := Rewritten(s, i, ws);
    assert Recorded(r[n], baseId) == Recorded(s[n], baseId);
    assert r[..n] == if i == n then s[..n] else Rewritten(s[..n], i, ws);
    hide Recorded, Rewritten;
    if i < n {
      assert s[..n][i] == s[i];
      CollectRewritten(s[..n], i, ws, baseId);
    }
  }

  lemma RewrittenAlike(s: seq<CheckpointTuple>, i: nat, ws: seq<PendingWrite>, j: nat)
    requires i < |s| && j < |s|
    ensures IsFull(Rewritten(s, i, ws)[j]) == IsFull(s[j])
    ensures Rewritten(s, i, ws)[j].checkpoint == s[j].checkpoint
  {
  }

  lemma BaseRewritten(s: seq<CheckpointTuple>, i: nat, ws: seq<PendingWrite>)
    requires i < |s|
    ensures BaseIndex(Rewritten(s, i, ws)) == BaseIndex(s)
  {
    var r := Rewritten(s, i, ws);
    assert |r| == |s|;
    hide BaseIndex, IsFull, Rewritten;
    forall j | 0 <= j < |s| ensures IsFull(r[j]) == IsFull(s[j]) {
      RewrittenAlike(s, i, ws, j);
    }
    SameBaseIndex(s, r);
  }

  lemma SameBaseIndex(s: seq<CheckpointTuple>, r: seq<CheckpointTuple>)
    requires |s| == |r| && forall j :: 0 <= j < |s| ==> IsFull(r[j]) == IsFull(s[j])
    ensures BaseIndex(r) == BaseIndex(s)
  {
    hide BaseIndex, IsFull;
    var x, y := BaseIndex(s), BaseIndex(r);
    if x.Some? && y.Some? {
      assert IsFull(r[x.value]) && IsFull(s[y.value]);
    }
  }

  lemma {:induction false} PositionRewritten(s: seq<CheckpointTuple>, i: nat, ws: seq<PendingWrite>, target: string)
    requires i < |s|
    ensures TargetIndex(Rewritten(s, i, ws), target) == TargetIndex(s, target)
  {
    hide Position;
    var r := Rewritten(s, i, ws);
    var p := (t: CheckpointTuple) => t.checkpoint.id == target;
    var x, y := Position(s, p), Position(r, p);
    assert forall j :: 0 <= j < |s| ==> p(s[j]) == p(r[j]);
    if x.Some? {
      assert p(r[x.value]);
    }
    if y.Some? {
      assert p(s[y.value]);
    }
  }

  /**
   * The writes of any tuple listed after the snapshot whose id is not greater are skipped: recovery
   * is the same whatever they are.
   */
  lemma OutOfOrderIdsDropWrites(
      s: seq<CheckpointTuple>, target: string, k: nat, b: nat, i: nat, ws: seq<PendingWrite>)
    requires TargetIndex(s, target) == Some(k) && BaseIndex(s[..k + 1]) == Some(b) && b < i <= k
    requires StrLeq(s[i].checkpoint.id, s[b].checkpoint.id)
    ensures Recover(Rewritten(s, i, ws), target) == Recover(s, target)
  {
    RecoverAt(s, target, k);
    hide Rewritten, Recover, RecoverLast, TargetIndex, BaseIndex, Collect, StrLeq, IsFull;
    var r, relevant := Rewritten(s, i, ws), s[..k + 1];
    SliceRewritten(s, i, ws, k + 1, b);
    PositionRewritten(s, i, ws, target);
    BaseRewritten(relevant, i, ws);
    CollectRewritten(relevant, i, ws, s[b].checkpoint.id);
    SameRecovery(relevant, r[..k + 1], b);
    RecoverAt(r, target, k);
  }

  lemma RecoverAt(s: seq<CheckpointTuple>, target: string, k: nat)
    requires TargetIndex(s, target) == Some(k)
    ensures k < |s| && Recover(s, target) == RecoverLast(s[..k + 1])
  {
    hide RecoverLast, Position;
  }

  lemma SliceRewritten(s: seq<CheckpointTuple>, i: nat, ws: seq<PendingWrite>, n: nat, b: nat)
    requires b < i < n <= |s|
    ensures var r := Rewritten(s, i, ws);
      |r| == |s| && r[..n] == Rewritten(s[..n], i, ws) && r[b] == s[b] && s[..n][i] == s[i]
  {
  }

  lemma SameRecovery(s: seq<CheckpointTuple>, r: seq<CheckpointTuple>, b: nat)
    requires BaseIndex(s) == Some(b) && BaseIndex(r) == Some(b) && r[b] == s[b]
    requires Collect(r, s[b].checkpoint.id) == Collect(s, s[b].checkpoint.id)
    ensures RecoverLast(r) == RecoverLast(s)
  {
    hide Rebuild, Sort, Collect, BaseIndex;
    assert RebuildFrom(s[b].checkpoint, r) == RebuildFrom(s[b].checkpoint, s);
  }

  /** And the writes of a tuple listed before the snapshot are replayed over it when their id is greater. */
  lemma EarlierWritesReplayed(s: seq<CheckpointTuple>, b: nat, i: nat)
    requires i < b < |s| && HasWrites(s[i]) && StrLess(s[b].checkpoint.id, s[i].checkpoint.id)
    ensures forall w :: w in s[i].pendingWrites ==> (s[i].checkpoint.id, w) in Replayed(s, b)
  {
    var id := s[b].checkpoint.id;
    SortMembers(Collect(s, id), ById);
    forall w | w in s[i].pendingWrites ensures (s[i].checkpoint.id, w) in Collect(s, id) {
      RecordedCollected(s, i, id, w);
    }
  }

  lemma {:induction false} RecordedCollected(s: seq<CheckpointTuple>, i: nat, baseId: string, w: PendingWrite)
    requires i < |s| && StrLess(baseId, s[i].checkpoint.id) && w in s[i].pendingWrites
    ensures (s[i].checkpoint.id, w) in Collect(s, baseId)
  {
    var n := |s| - 1;
    if i == n {
      var j :| 0 <= j < |s[i].pendingWrites| && s[i].pendingWrites[j] == w;
      assert Tagged(s[i].checkpoint.id, s[i].pendingWrites)[j] == (s[i].checkpoint.id, w);
    } else {
      RecordedCollected(s[..n], i, baseId, w);
    }
  }
}
