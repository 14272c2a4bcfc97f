/** What the in-memory saver answers after a run, told from the operations of the run alone. */
module SaverReplies {
  import opened Wrappers
  import opened Seqs
  import opened StringOrder
  import opened StableSorting
  import opened Checkpoints
  import opened Listing
  import opened SaverModel
  import opened LazyCleanup
  import opened LazyCleanupTheorems

  // ----- Which puts a reader is shown -----

  /** The namespace of a configuration; the root when unset. */
  predicate At(config: RunnableConfig, thread: string, ns: string) {
    && config.threadId == Some(thread)
    && match config.checkpointNs
       case None => ns == ""
       case Some(n) => ns == n.AsStr()
  }

  predicate IsPut(e: Event, thread: string, ns: string) {
    e.op.Put? && At(e.op.config, thread, ns)
  }

  /** A timestamp that cannot be read never expires; one ahead of the clock has the greatest age there is. */
  predicate Unexpired(cfg: TtlConfig, parse: TimestampParser, createdAt: string, now: int) {
    match (cfg.defaultTtl, parse(createdAt))
    case (Some(ttl), Some(created)) =>
      if created <= now then now <= created + ttl
      else ttl >= 0xFFFF_FFFF_FFFF_FFFF * 1_000_000_000 + 999_999_999
    case _ => true
  }

  predicate IsLivePut(cfg: TtlConfig, parse: TimestampParser, e: Event, thread: string, ns: string, now: int) {
    IsPut(e, thread, ns) && Unexpired(cfg, parse, e.op.checkpoint.createdAt, now)
  }

  /** Later `created_at` text first, then greater id, then the earlier put. */
  predicate Precedes(events: seq<Event>, i: nat, j: nat) {
    i < |events| && j < |events| && events[i].op.Put? && events[j].op.Put? &&
    var a, b := events[i].op.checkpoint, events[j].op.checkpoint;
    || StrLess(b.createdAt, a.createdAt)
    || (a.createdAt == b.createdAt && (StrLess(b.id, a.id) || (a.id == b.id && i < j)))
  }

  /** `src` names puts of this history, each preceding the next. */
  ghost predicate Ranked(events: seq<Event>, thread: string, ns: string, src: seq<nat>) {
    && (forall k :: 0 <= k < |src| ==> src[k] < |events| && IsPut(events[src[k]], thread, ns))
    && (forall j, k :: 0 <= j < k < |src| ==> Precedes(events, src[j], src[k]))
  }

  /** The unexpired puts in that order, up to the cap: one is left out only when `max` that precede it are in. */
  ghost predicate Shown(
      events: seq<Event>, cfg: TtlConfig, parse: TimestampParser, thread: string, ns: string, now: int, src: seq<nat>) {
    && Ranked(events, thread, ns, src)
    && (forall k :: 0 <= k < |src| ==> IsLivePut(cfg, parse, events[src[k]], thread, ns, now))
    && (cfg.maxCheckpoints.Some? ==> |src| <= cfg.maxCheckpoints.value)
    && (forall i :: 0 <= i < |events| && IsLivePut(cfg, parse, events[i], thread, ns, now) && i !in src ==>
         && cfg.maxCheckpoints == Some(|src|)
         && forall k :: 0 <= k < |src| ==> Precedes(events, src[k], i))
  }

  /** The tuple is the one that this operation put, whatever writes it carries. */
  predicate IsTupleOf(t: CheckpointTuple, e: Event) {
    && e.op.Put? && t.parentConfig.None?
    && t.config == e.op.config && t.checkpoint == e.op.checkpoint && t.metadata == e.op.metadata
  }

  ghost predicate AreTuplesOf(ts: seq<CheckpointTuple>, events: seq<Event>, src: seq<nat>) {
    |ts| == |src| &&
    forall k :: 0 <= k < |src| ==> src[k] < |events| && IsTupleOf(ts[k], events[src[k]]) && ts[k].pendingWrites == []
  }

  lemma PrecedesTransitive(events: seq<Event>, i: nat, j: nat, k: nat)
    requires Precedes(events, i, j) && Precedes(events, j, k)
    ensures Precedes(events, i, k)
  {
    StrOrderFacts();
  }

  lemma RankedCons(events: seq<Event>, thread: string, ns: string, i: nat, src: seq<nat>)
    requires Ranked(events, thread, ns, src) && i < |events| && IsPut(events[i], thread, ns)
    requires forall k :: k in src ==> Precedes(events, i, k)
    ensures Ranked(events, thread, ns, [i] + src)
  {
    hide IsPut, Precedes;
    assert forall k :: 0 <= k < |src| ==> src[k] in src;
  }

  lemma TuplesCons(events: seq<Event>, t: CheckpointTuple, i: nat, h: seq<CheckpointTuple>, src: seq<nat>)
    requires AreTuplesOf(h, events, src)
    requires i < |events| && IsTupleOf(t, events[i]) && t.pendingWrites == []
    ensures AreTuplesOf([t] + h, events, [i] + src)
  {
    hide IsTupleOf;
  }

  /** Inserting a later put into the history inserts its position into the sources. */
  lemma {:induction false} InsertSource(
      events: seq<Event>, thread: string, ns: string, h: seq<CheckpointTuple>, src: seq<nat>,
      t: CheckpointTuple, n: nat)
      returns (r: seq<nat>)
    requires Ranked(events, thread, ns, src) && AreTuplesOf(h, events, src)
    requires n < |events| && IsPut(events[n], thread, ns) && IsTupleOf(t, events[n]) && t.pendingWrites == []
    requires forall i :: i in src ==> i < n
    ensures Ranked(events, thread, ns, r) && AreTuplesOf(Insert(t, h, Newer), events, r)
    ensures forall i :: i in r <==> i == n || i in src
  {
    hide IsPut, Precedes, Newer, IsTupleOf;
    assert forall k :: 0 <= k < |src| ==> src[k] in src;
    if h == [] {
      r := [n];
    } else if Newer(h[0], t) {
      assert src == [src[0]] + src[1..];
      var rest := InsertSource(events, thread, ns, h[1..], src[1..], t, n);
      r := [src[0]] + rest;
      AheadOfInserted(events, h[0], src[0], t, n);
      RankedCons(events, thread, ns, src[0], rest);
      TuplesCons(events, h[0], src[0], Insert(t, h[1..], Newer), rest);
    } else {
      r := [n] + src;
      InsertedFirst(events, thread, ns, h, src, t, n);
      RankedCons(events, thread, ns, n, src);
      TuplesCons(events, t, n, h, src);
    }
  }

  lemma InsertedFirst(
      events: seq<Event>, thread: string, ns: string, h: seq<CheckpointTuple>, src: seq<nat>,
      t: CheckpointTuple, n: nat)
    requires Ranked(events, thread, ns, src) && AreTuplesOf(h, events, src) && h != [] && !Newer(h[0], t)
    requires n < |events| && IsTupleOf(t, events[n]) && src[0] < n
    ensures forall i :: i in src ==> Precedes(events, n, i)
  {
    BehindInserted(events, h[0], src[0], t, n);
    hide IsPut, Precedes, Newer, IsTupleOf;
    forall i | i in src ensures Precedes(events, n, i) {
      var k :| 0 <= k < |src| && src[k] == i;
      if k > 0 {
        PrecedesTransitive(events, n, src[0], src[k]);
      }
    }
  }

  lemma AheadOfInserted(events: seq<Event>, x: CheckpointTuple, i: nat, t: CheckpointTuple, n: nat)
    requires i < n < |events| && IsTupleOf(x, events[i]) && IsTupleOf(t, events[n]) && Newer(x, t)
    ensures Precedes(events, i, n)
  {
    StrOrderFacts();
  }

  lemma BehindInserted(events: seq<Event>, x: CheckpointTuple, i: nat, t: CheckpointTuple, n: nat)
    requires i < n < |events| && IsTupleOf(x, events[i]) && IsTupleOf(t, events[n]) && !Newer(x, t)
    ensures Precedes(events, n, i)
  {
    StrOrderFacts();
  }

  lemma RankedLonger(events: seq<Event>, e: Event, thread: string, ns: string, h: seq<CheckpointTuple>, src: seq<nat>)
    requires Ranked(events, thread, ns, src) && AreTuplesOf(h, events, src)
    ensures Ranked(events + [e], thread, ns, src) && AreTuplesOf(h, events + [e], src)
  {
    hide IsPut, IsTupleOf, StrLeq;
    assert forall i :: 0 <= i < |events| ==> (events + [e])[i] == events[i];
  }

  lemma PutsIntoIsPut(e: Event, thread: string, ns: string)
    ensures PutsInto(e, thread, ns) <==> IsPut(e, thread, ns)
  {
  }

  /** The sorted log, put by put. */
  lemma {:induction false} SortedSources(events: seq<Event>, thread: string, ns: string) returns (src: seq<nat>)
    ensures Ranked(events, thread, ns, src)
    ensures AreTuplesOf(Sort(AllPuts(events, thread, ns), Newer), events, src)
    ensures forall i :: i in src <==> 0 <= i < |events| && IsPut(events[i], thread, ns)
  {
    hide PutsInto, IsPut, Insert, Newer, StrLeq;
    if events == [] {
      src := [];
    } else {
      var n := |events| - 1;
      var front, e := events[..n], events[n];
      assert events == front + [e];
      var before := SortedSources(front, thread, ns);
      var h := Sort(AllPuts(front, thread, ns), Newer);
      RankedLonger(front, e, thread, ns, h, before);
      PutsIntoIsPut(e, thread, ns);
      assert forall i :: 0 <= i < n ==> events[i] == front[i];
      if IsPut(e, thread, ns) {
        assert e.op.Put? by { PutOnly(e, thread, ns); }
        var t := NewTuple(e.op.config, e.op.checkpoint, e.op.metadata);
        SortSnoc(AllPuts(front, thread, ns), t, Newer);
        src := InsertSource(events, thread, ns, h, before, t, n);
      } else {
        assert AllPuts(events, thread, ns) == AllPuts(front, thread, ns);
        src := before;
      }
    }
  }

  lemma PutOnly(e: Event, thread: string, ns: string)
    requires IsPut(e, thread, ns)
    ensures e.op.Put?
  {
  }

  /** The sources of the tuples that a filter keeps. */
  ghost function KeptSources(h: seq<CheckpointTuple>, src: seq<nat>, p: CheckpointTuple -> bool): seq<nat>
    requires |h| == |src|
  {
    if h == [] then []
    else if p(h[0]) then [src[0]] + KeptSources(h[1..], src[1..], p)
    else KeptSources(h[1..], src[1..], p)
  }

  lemma {:induction false} KeptMembers(h: seq<CheckpointTuple>, src: seq<nat>, p: CheckpointTuple -> bool)
    requires |h| == |src|
    ensures forall i :: i in KeptSources(h, src, p) ==> i in src
  {
    if h != [] {
      KeptMembers(h[1..], src[1..], p);
      assert src == [src[0]] + src[1..];
    }
  }

  lemma {:induction false} KeptAll(h: seq<CheckpointTuple>, src: seq<nat>, p: CheckpointTuple -> bool, k: nat)
    requires |h| == |src| && k < |h| && p(h[k])
    ensures src[k] in KeptSources(h, src, p)
  {
    if k > 0 {
      KeptAll(h[1..], src[1..], p, k - 1);
    }
  }

  lemma {:induction false} KeptRanked(
      events: seq<Event>, thread: string, ns: string, h: seq<CheckpointTuple>, src: seq<nat>,
      p: CheckpointTuple -> bool)
    requires Ranked(events, thread, ns, src) && AreTuplesOf(h, events, src)
    ensures var r := KeptSources(h, src, p);
      Ranked(events, thread, ns, r) && AreTuplesOf(Filter(h, p), events, r)
  {
    hide IsPut, IsTupleOf, Precedes;
    if h != [] {
      KeptRanked(events, thread, ns, h[1..], src[1..], p);
      KeptMembers(h[1..], src[1..], p);
      if p(h[0]) {
        hide Ranked, AreTuplesOf;
        HeadKept(events, thread, ns, h, src, Filter(h[1..], p), KeptSources(h[1..], src[1..], p));
      }
    }
  }

  lemma HeadKept(
      events: seq<Event>, thread: string, ns: string, h: seq<CheckpointTuple>, src: seq<nat>,
      kept: seq<CheckpointTuple>, rest: seq<nat>)
    requires Ranked(events, thread, ns, src) && AreTuplesOf(h, events, src) && h != []
    requires Ranked(events, thread, ns, rest) && AreTuplesOf(kept, events, rest)
    requires src != [] && forall i :: i in rest ==> i in src[1..]
    ensures Ranked(events, thread, ns, [src[0]] + rest) && AreTuplesOf([h[0]] + kept, events, [src[0]] + rest)
  {
    hide IsPut, IsTupleOf, Precedes;
    FirstPrecedes(events, thread, ns, src);
    RankedCons(events, thread, ns, src[0], rest);
    TuplesCons(events, h[0], src[0], kept, rest);
  }

  lemma FirstPrecedes(events: seq<Event>, thread: string, ns: string, src: seq<nat>)
    requires Ranked(events, thread, ns, src) && src != []
    ensures forall i :: i in src[1..] ==> Precedes(events, src[0], i)
  {
    hide IsPut, Precedes;
    forall i | i in src[1..] ensures Precedes(events, src[0], i) {
      var j :| 0 <= j < |src[1..]| && src[1..][j] == i;
      assert src[j + 1] == i;
    }
  }

  lemma SourceLive(
      cfg: TtlConfig, parse: TimestampParser, e: Event, thread: string, ns: string, t: CheckpointTuple, now: int)
    requires IsPut(e, thread, ns) && IsTupleOf(t, e)
    ensures Live(cfg, parse, now)(t) <==> IsLivePut(cfg, parse, e, thread, ns, now)
  {
  }

  /** The sources of the unexpired tuples are the puts that are still live. */
  lemma LiveSources(
      cfg: TtlConfig, parse: TimestampParser, events: seq<Event>, thread: string, ns: string, now: int,
      h: seq<CheckpointTuple>, all: seq<nat>)
    requires Ranked(events, thread, ns, all) && AreTuplesOf(h, events, all)
    requires forall i :: i in all <==> 0 <= i < |events| && IsPut(events[i], thread, ns)
    ensures var kept := KeptSources(h, all, Live(cfg, parse, now));
      && Ranked(events, thread, ns, kept) && AreTuplesOf(Filter(h, Live(cfg, parse, now)), events, kept)
      && forall i :: i in kept <==> 0 <= i < |events| && IsLivePut(cfg, parse, events[i], thread, ns, now)
  {
    var p := Live(cfg, parse, now);
    KeptRanked(events, thread, ns, h, all, p);
    hide IsPut, IsTupleOf, IsExpired, IsLivePut, Precedes, KeptSources;
    var kept := KeptSources(h, all, p);
    forall i | 0 <= i < |events| && IsLivePut(cfg, parse, events[i], thread, ns, now) ensures i in kept {
      LivePutIsPut(cfg, parse, events[i], thread, ns, now);
      var k :| 0 <= k < |all| && all[k] == i;
      SourceLive(cfg, parse, events[i], thread, ns, h[k], now);
      KeptAll(h, all, p, k);
    }
    forall i | i in kept ensures 0 <= i < |events| && IsLivePut(cfg, parse, events[i], thread, ns, now) {
      var k :| 0 <= k < |kept| && kept[k] == i;
      assert Filter(h, p)[k] in Filter(h, p);
      SourceLive(cfg, parse, events[i], thread, ns, Filter(h, p)[k], now);
    }
  }

  /** What the log shows is what was put, unexpired, in that order, up to the cap. */
  lemma ViewIsShown(
      cfg: TtlConfig, parse: TimestampParser, events: seq<Event>, thread: string, ns: string, now: int)
      returns (src: seq<nat>)
    ensures Shown(events, cfg, parse, thread, ns, now, src)
    ensures AreTuplesOf(LogView(LogRun(EMPTY, cfg, parse, events).0, cfg, parse, thread, ns, now), events, src)
  {
    LogHoldsEverything(cfg, parse, events);
    hide LogRun, AllPuts, Sort, Newer, IsPut, IsTupleOf, Filter, IsExpired, IsLivePut, Precedes, KeptSources;
    var h := Sort(AllPuts(events, thread, ns), Newer);
    var all := SortedSources(events, thread, ns);
    LiveSources(cfg, parse, events, thread, ns, now, h, all);
    var kept := KeptSources(h, all, Live(cfg, parse, now));
    src := if cfg.maxCheckpoints.Some? then Take(kept, cfg.maxCheckpoints.value) else kept;
    CutShown(events, cfg, thread, ns, kept, src);
    assert forall i :: i in src ==> i in kept;
    assert forall k :: 0 <= k < |src| ==> src[k] in src;
    assert History(LogRun(EMPTY, cfg, parse, events).0.storage, thread, ns) == AllPuts(events, thread, ns);
    CapTuples(cfg, events, Filter(h, Live(cfg, parse, now)), kept);
  }

  lemma CapTuples(cfg: TtlConfig, events: seq<Event>, h: seq<CheckpointTuple>, kept: seq<nat>)
    requires AreTuplesOf(h, events, kept)
    ensures AreTuplesOf(Cap(cfg, h), events,
      if cfg.maxCheckpoints.Some? then Take(kept, cfg.maxCheckpoints.value) else kept)
  {
    hide IsTupleOf;
  }

  lemma LivePutIsPut(cfg: TtlConfig, parse: TimestampParser, e: Event, thread: string, ns: string, now: int)
    requires IsLivePut(cfg, parse, e, thread, ns, now)
    ensures IsPut(e, thread, ns)
  {
  }

  /** The cap leaves out only what all of the kept precede. */
  lemma CutShown(events: seq<Event>, cfg: TtlConfig, thread: string, ns: string, kept: seq<nat>, src: seq<nat>)
    requires Ranked(events, thread, ns, kept)
    requires src == if cfg.maxCheckpoints.Some? then Take(kept, cfg.maxCheckpoints.value) else kept
    ensures Ranked(events, thread, ns, src)
    ensures forall i :: i in kept && i !in src ==>
      && cfg.maxCheckpoints == Some(|src|)
      && forall k :: 0 <= k < |src| ==> Precedes(events, src[k], i)
  {
    hide IsPut, Precedes;
    forall i | i in kept && i !in src
      ensures cfg.maxCheckpoints == Some(|src|) && forall k :: 0 <= k < |src| ==> Precedes(events, src[k], i)
    {
      assert kept == src + kept[|src|..];
      var j :| 0 <= j < |kept[|src|..]| && kept[|src|..][j] == i;
      assert kept[|src| + j] == i;
      assert forall k :: 0 <= k < |src| ==> src[k] == kept[k];
    }
  }

  lemma PrecedesOneWay(events: seq<Event>, i: nat, j: nat)
    requires Precedes(events, i, j)
    ensures !Precedes(events, j, i)
  {
    StrOrderFacts();
  }

  /** Only one selection of puts is shown: the order leaves no ties and the cap no choice. */
  lemma ShownUnique(
      events: seq<Event>, cfg: TtlConfig, parse: TimestampParser, thread: string, ns: string, now: int,
      a: seq<nat>, b: seq<nat>)
    requires Shown(events, cfg, parse, thread, ns, now, a) && Shown(events, cfg, parse, thread, ns, now, b)
    ensures a == b
  {
    forall i ensures i in a <==> i in b {
      if i in a {
        ShownInBoth(events, cfg, parse, thread, ns, now, a, b, i);
      }
      if i in b {
        ShownInBoth(events, cfg, parse, thread, ns, now, b, a, i);
      }
    }
    hide IsPut, IsLivePut, Precedes;
    RankedUnique(events, thread, ns, a, b);
  }

  lemma ShownInBoth(
      events: seq<Event>, cfg: TtlConfig, parse: TimestampParser, thread: string, ns: string, now: int,
      a: seq<nat>, b: seq<nat>, i: nat)
    requires Shown(events, cfg, parse, thread, ns, now, a) && Shown(events, cfg, parse, thread, ns, now, b)
    requires i in a
    ensures i in b
  {
    hide IsPut, IsLivePut, Precedes;
    if i !in b {
      assert cfg.maxCheckpoints == Some(|b|);
      RankedSize(events, thread, ns, a);
      RankedSize(events, thread, ns, b);
      if Elements(b) <= Elements(a) {
        Smaller(Elements(b), Elements(a), i);
      }
      var j :| j in Elements(b) && j !in Elements(a);
      assert Precedes(events, i, j) && Precedes(events, j, i);
      PrecedesOneWay(events, i, j);
    }
  }

  ghost function Elements(s: seq<nat>): set<nat> {
    set i | i in s
  }

  lemma Smaller(small: set<nat>, large: set<nat>, i: nat)
    requires small <= large && i in large && i !in small
    ensures |small| < |large|
  {
    assert small <= large - {i};
    SubsetSize(small, large - {i});
  }

  lemma SubsetSize(small: set<nat>, large: set<nat>)
    requires small <= large
    ensures |small| <= |large|
  {
    assert large == small + (large - small);
  }

  lemma {:induction false} RankedSize(events: seq<Event>, thread: string, ns: string, src: seq<nat>)
    requires Ranked(events, thread, ns, src)
    ensures |Elements(src)| == |src|
  {
    hide IsPut, Precedes;
    if src != [] {
      RankedSize(events, thread, ns, src[1..]);
      FirstPrecedes(events, thread, ns, src);
      if src[0] in src[1..] {
        PrecedesOneWay(events, src[0], src[0]);
      }
      assert Elements(src) == {src[0]} + Elements(src[1..]);
    }
  }

  lemma {:induction false} RankedUnique(events: seq<Event>, thread: string, ns: string, a: seq<nat>, b: seq<nat>)
    requires Ranked(events, thread, ns, a) && Ranked(events, thread, ns, b)
    requires forall i :: i in a <==> i in b
    ensures a == b
  {
    hide IsPut, Precedes;
    RankedSize(events, thread, ns, a);
    RankedSize(events, thread, ns, b);
    assert Elements(a) == Elements(b);
    if a != [] {
      FirstPrecedes(events, thread, ns, a);
      FirstPrecedes(events, thread, ns, b);
      assert a == [a[0]] + a[1..] && b == [b[0]] + b[1..];
      assert a[0] in b && b[0] in a;
      if a[0] != b[0] {
        PrecedesOneWay(events, a[0], b[0]);
      }
      assert a[0] !in a[1..] && b[0] !in b[1..] by {
        if a[0] in a[1..] || b[0] in b[1..] {
          PrecedesOneWay(events, a[0], b[0]);
        }
      }
      forall i ensures i in a[1..] <==> i in b[1..] {
        assert i in a <==> i == a[0] || i in a[1..];
        assert i in b <==> i == b[0] || i in b[1..];
      }
      RankedUnique(events, thread, ns, a[1..], b[1..]);
    }
  }

  // ----- Which writes a read attaches -----

  predicate IsWrite(e: Event, key: (string, string, string)) {
    e.op.PutWrites? && At(e.op.config, key.0, key.2) && e.op.config.checkpointId == Some(key.1)
  }

  predicate HasWrite(e: Event, key: (string, string, string), p: nat) {
    IsWrite(e, key) && p < |e.op.writes|
  }

  /** A write of this operation at this place, under the operation's task. */
  predicate IsWriteOf(w: PendingWrite, e: Event, p: nat) {
    && e.op.PutWrites? && p < |e.op.writes|
    && w.channel == e.op.writes[p].channel && w.value == e.op.writes[p].value && w.taskId == e.op.taskId
  }

  predicate Earlier(a: (nat, nat), b: (nat, nat)) {
    a.0 < b.0 || (a.0 == b.0 && a.1 < b.1)
  }

  /** `ws` are all writes put for this checkpoint, in order; `origin` says where each was put. */
  ghost predicate AllWritten(
      events: seq<Event>, key: (string, string, string), ws: seq<PendingWrite>, origin: seq<(nat, nat)>) {
    && |origin| == |ws|
    && (forall k :: 0 <= k < |ws| ==>
         && origin[k].0 < |events| && IsWrite(events[origin[k].0], key)
         && IsWriteOf(ws[k], events[origin[k].0], origin[k].1))
    && (forall j, k :: 0 <= j < k < |ws| ==> Earlier(origin[j], origin[k]))
    && (forall i: nat, p: nat :: i < |events| && HasWrite(events[i], key, p) ==> (i, p) in origin)
  }

  /** The places of the writes of one operation. */
  ghost function Places(i: nat, n: nat): (r: seq<(nat, nat)>)
    ensures |r| == n && forall p: nat :: p < n ==> r[p] == (i, p)
  {
    seq(n, p requires 0 <= p < n => (i, p))
  }

  lemma {:induction false} WritesOrigin(events: seq<Event>, key: (string, string, string))
    returns (origin: seq<(nat, nat)>)
    ensures AllWritten(events, key, AllWrites(events, key), origin)
  {
    if events == [] {
      origin := [];
    } else {
      var n := |events| - 1;
      var front, e := events[..n], events[n];
      assert events == front + [e];
      var before := WritesOrigin(front, key);
      var added := if WritesInto(e, key) then WithTask(e.op.writes, e.op.taskId) else [];
      origin := before + Places(n, |added|);
      WritesSnoc(front, e, key, AllWrites(front, key), before);
    }
  }

  lemma AddedWrites(e: Event, key: (string, string, string))
    ensures WritesInto(e, key) <==> IsWrite(e, key)
    ensures IsWrite(e, key) ==> e.op.PutWrites? && forall p: nat :: p < |e.op.writes| ==>
      HasWrite(e, key, p) && IsWriteOf(WithTask(e.op.writes, e.op.taskId)[p], e, p)
    ensures forall p: nat :: HasWrite(e, key, p) ==> IsWrite(e, key) && p < |e.op.writes|
  {
  }

  lemma WritesSnoc(
      front: seq<Event>, e: Event, key: (string, string, string), ws: seq<PendingWrite>, before: seq<(nat, nat)>)
    requires AllWritten(front, key, ws, before)
    ensures var added := if WritesInto(e, key) then WithTask(e.op.writes, e.op.taskId) else [];
      AllWritten(front + [e], key, ws + added, before + Places(|front|, |added|))
  {
    AddedWrites(e, key);
    hide IsWrite, HasWrite, WritesInto, IsWriteOf, WithTask;
    var n, events := |front|, front + [e];
    var added := if WritesInto(e, key) then WithTask(e.op.writes, e.op.taskId) else [];
    var all, origin := ws + added, before + Places(n, |added|);
    forall k | 0 <= k < |all|
      ensures origin[k].0 < |events| && IsWrite(events[origin[k].0], key)
      ensures IsWriteOf(all[k], events[origin[k].0], origin[k].1)
    {
      if k < |ws| {
        assert origin[k] == before[k] && all[k] == ws[k];
      } else {
        assert origin[k] == (n, k - |ws|) && all[k] == added[k - |ws|];
      }
    }
    forall i: nat, p: nat | i < |events| && HasWrite(events[i], key, p) ensures (i, p) in origin {
      if i < n {
        assert events[i] == front[i] && (i, p) in before;
      } else {
        assert origin[|before| + p] == (n, p);
      }
    }
    PlacesAscend(before, n, |added|);
  }

  lemma PlacesAscend(before: seq<(nat, nat)>, n: nat, m: nat)
    requires forall k :: 0 <= k < |before| ==> before[k].0 < n
    requires forall j, k :: 0 <= j < k < |before| ==> Earlier(before[j], before[k])
    ensures var origin := before + Places(n, m);
      forall j, k :: 0 <= j < k < |origin| ==> Earlier(origin[j], origin[k])
  {
  }

  // ----- What a run answers -----

  function ReplyTo(cfg: TtlConfig, parse: TimestampParser, events: seq<Event>, e: Event): Reply {
    Run(EMPTY, cfg, parse, events + [e]).1[|events|]
  }

  /** The chosen position: the first with that id, or the very first when no id is given. */
  ghost predicate Chosen(events: seq<Event>, src: seq<nat>, checkpointId: Option<string>, k: nat) {
    && k < |src| && src[k] < |events| && events[src[k]].op.Put?
    && match checkpointId
       case None => k == 0
       case Some(id) =>
         && events[src[k]].op.checkpoint.id == id
         && forall j :: 0 <= j < k ==>
              src[j] < |events| && events[src[j]].op.Put? && events[src[j]].op.checkpoint.id != id
  }

  /**
   * A read returns the first shown put with the id asked for, or the first shown of all when none is asked
   * for, and nothing exactly when there is none; while no cleanup can lose writes, all that were put for it
   * are attached, in order, each under its task.
   */
  lemma ReadSpelledOut(
      stamps: iset<string>, parse: TimestampParser, cfg: TtlConfig, events: seq<Event>,
      config: RunnableConfig, now: int, thread: string, ns: string)
      returns (src: seq<nat>, origin: seq<(nat, nat)>)
    requires CapIsSafe(stamps, parse, cfg) && At(config, thread, ns)
    requires Admissible(stamps, parse, events + [Event(now, Op.GetTuple(config))])
    ensures Shown(events, cfg, parse, thread, ns, now, src)
    ensures var reply := ReplyTo(cfg, parse, events, Event(now, Op.GetTuple(config)));
      && reply.Ok? && reply.value.Found?
      && match reply.value.tuple
         case None => forall k: nat :: !Chosen(events, src, config.checkpointId, k)
         case Some(t) =>
           && (exists k: nat :: Chosen(events, src, config.checkpointId, k) && IsTupleOf(t, events[src[k]]))
           && (WritesSafe(stamps, parse, cfg) ==>
                AllWritten(events, (thread, t.checkpoint.id, ns), t.pendingWrites, origin))
  {
    var e := Event(now, Op.GetTuple(config));
    var log := LogRun(EMPTY, cfg, parse, events).0;
    RunCoupled(stamps, parse, cfg, events + [e], now);
    LastReply(cfg, parse, events, e);
    src := ViewIsShown(cfg, parse, events, thread, ns, now);
    var h := LogView(log, cfg, parse, thread, ns, now);
    LogHoldsEverything(cfg, parse, events);
    hide Run, LogRun, LogView, CapIsSafe, Admissible, WritesSafe, CoupledStores, WritesAgree;
    hide Shown, AllWritten, IsTupleOf;
    assert ns == config.NsKey();
    var logged := AttachWrites(Pick(h, config.checkpointId), log.writes, thread, ns);
    assert LogRun(EMPTY, cfg, parse, events + [e]).1[|events|] == Ok(Found(logged));
    PickIsChosen(events, h, src, config.checkpointId);
    origin := [];
    if logged.Some? {
      origin := WritesOrigin(events, (thread, logged.value.checkpoint.id, ns));
    }
  }

  lemma PickIsChosen(events: seq<Event>, h: seq<CheckpointTuple>, src: seq<nat>, checkpointId: Option<string>)
    requires AreTuplesOf(h, events, src)
    ensures match Pick(h, checkpointId)
      case None => forall k: nat :: !Chosen(events, src, checkpointId, k)
      case Some(t) => exists k: nat :: Chosen(events, src, checkpointId, k) && IsTupleOf(t, events[src[k]])
  {
    forall k: nat | k < |src| ensures events[src[k]].op.Put? && h[k].checkpoint == events[src[k]].op.checkpoint {
    }
    if checkpointId.Some? {
      var i := Position(h, WithId(checkpointId.value));
      if i.Some? {
        forall j | 0 <= j < i.value ensures events[src[j]].op.checkpoint.id != checkpointId.value {
          assert !WithId(checkpointId.value)(h[j]);
        }
        assert Chosen(events, src, checkpointId, i.value);
      } else {
        forall j | 0 <= j < |src| ensures events[src[j]].op.checkpoint.id != checkpointId.value {
          assert !WithId(checkpointId.value)(h[j]);
        }
      }
    } else if h != [] {
      assert Chosen(events, src, checkpointId, 0);
    }
  }

  /** A list shows the same puts: all without a filter, else the first `limit` of a window of the matching ones. */
  lemma ListSpelledOut(
      stamps: iset<string>, parse: TimestampParser, cfg: TtlConfig, events: seq<Event>,
      config: RunnableConfig, filter: Option<CheckpointFilter>, now: int, thread: string, ns: string)
      returns (src: seq<nat>, shown: seq<CheckpointTuple>)
    requires CapIsSafe(stamps, parse, cfg) && At(config, thread, ns)
    requires Admissible(stamps, parse, events + [Event(now, Op.List(config, filter))])
    ensures Shown(events, cfg, parse, thread, ns, now, src) && AreTuplesOf(shown, events, src)
    ensures var reply := ReplyTo(cfg, parse, events, Event(now, Op.List(config, filter)));
      match filter
      case None => reply == Ok(Listed(shown))
      case Some(f) =>
        var s := Matching(shown, f);
        var window := s[WindowStart(s, f)..WindowEnd(s, f)];
        reply == Ok(Listed(if f.limit.Some? then Take(window, f.limit.value) else window))
  {
    var e := Event(now, Op.List(config, filter));
    var log := LogRun(EMPTY, cfg, parse, events).0;
    RunCoupled(stamps, parse, cfg, events + [e], now);
    LastReply(cfg, parse, events, e);
    src := ViewIsShown(cfg, parse, events, thread, ns, now);
    shown := LogView(log, cfg, parse, thread, ns, now);
    hide Run, LogRun, LogView, CapIsSafe, Admissible, WritesSafe, CoupledStores, WritesAgree, Shown, AreTuplesOf;
    assert ns == config.NsKey();
    if filter.Some? {
      ListIsWindow(shown, filter.value);
    }
  }

  /** Every other reply: the refusals in their own words, and the configuration that a put hands back. */
  lemma OtherReplies(cfg: TtlConfig, parse: TimestampParser, events: seq<Event>, e: Event)
    ensures var reply, config := ReplyTo(cfg, parse, events, e), e.op.config;
      && (config.threadId.None? ==> reply == Err(Storage("thread_id is required")))
      && (config.threadId.Some? && e.op.Put? ==>
           reply == Ok(Stored(RunnableConfig(config.threadId, config.checkpointNs, Some(e.op.checkpoint.id)))))
      && (config.threadId.Some? && e.op.PutWrites? ==>
           reply == if config.checkpointId.None? then Err(Storage("checkpoint_id is required")) else Ok(Done))
      && (reply.Err? ==> Run(EMPTY, cfg, parse, events + [e]).0 == Run(EMPTY, cfg, parse, events).0)
  {
    LastReply(cfg, parse, events, e);
    RunSnoc(cfg, parse, events, e);
    hide Run, Cleanup, Sort, AddWrites;
  }

  // ----- What holds of every read, whatever cleanup did -----

  ghost predicate StoredWerePut(st: SaverState, events: seq<Event>) {
    forall thread, ns, t :: t in History(st.storage, thread, ns) ==>
      exists i :: 0 <= i < |events| && IsPut(events[i], thread, ns) && IsTupleOf(t, events[i])
  }

  lemma {:induction false} RunStoresPuts(cfg: TtlConfig, parse: TimestampParser, events: seq<Event>)
    ensures StoredWerePut(Run(EMPTY, cfg, parse, events).0, events)
  {
    if events != [] {
      var n := |events| - 1;
      RunStoresPuts(cfg, parse, events[..n]);
      StepStoresPuts(Run(EMPTY, cfg, parse, events[..n]).0, cfg, parse, events[..n], events[n]);
      assert events == events[..n] + [events[n]];
    }
  }

  lemma StepStoresPuts(st: SaverState, cfg: TtlConfig, parse: TimestampParser, events: seq<Event>, e: Event)
    requires StoredWerePut(st, events)
    ensures StoredWerePut(Step(st, cfg, parse, e.op, e.now).0, events + [e])
  {
    var st' := Step(st, cfg, parse, e.op, e.now).0;
    var all := events + [e];
    forall thread, ns, t | t in History(st'.storage, thread, ns)
      ensures exists i :: 0 <= i < |all| && IsPut(all[i], thread, ns) && IsTupleOf(t, all[i])
    {
      StepKeeps(st, cfg, parse, e, thread, ns, t);
      if t in History(st.storage, thread, ns) {
        var i :| 0 <= i < |events| && IsPut(events[i], thread, ns) && IsTupleOf(t, events[i]);
        assert all[i] == events[i];
      } else {
        assert all[|events|] == e;
      }
    }
  }

  lemma StepKeeps(
      st: SaverState, cfg: TtlConfig, parse: TimestampParser, e: Event, thread: string, ns: string, t: CheckpointTuple)
    requires t in History(Step(st, cfg, parse, e.op, e.now).0.storage, thread, ns)
    ensures t in History(st.storage, thread, ns) || (IsPut(e, thread, ns) && IsTupleOf(t, e))
  {
    if e.op.config.threadId.Some? {
      if e.op.Put? {
        PutKeeps(st, cfg, parse, e, thread, ns, t);
      } else {
        hide Sort, Newer, IsExpired, View, Cleanup;
        var th, n := e.op.config.threadId.value, e.op.config.NsKey();
        var h := History(st.storage, th, n);
        CleanupIsView(st, cfg, parse, th, n, e.now);
        ViewMembers(cfg, parse, h, e.now);
        HistoryAfterSet(st.storage, th, n, View(cfg, parse, h, e.now), thread, ns);
        hide History, SetHistory;
      }
    }
  }

  lemma PutKeeps(
      st: SaverState, cfg: TtlConfig, parse: TimestampParser, e: Event, thread: string, ns: string, t: CheckpointTuple)
    requires e.op.Put? && t in History(Step(st, cfg, parse, e.op, e.now).0.storage, thread, ns)
    ensures t in History(st.storage, thread, ns) || (IsPut(e, thread, ns) && IsTupleOf(t, e))
  {
    hide Sort, Newer, Cleanup;
    if e.op.config.threadId.Some? {
      var th, n := e.op.config.threadId.value, e.op.config.NsKey();
      var h := History(st.storage, th, n) + [NewTuple(e.op.config, e.op.checkpoint, e.op.metadata)];
      SortMembers(h, Newer);
      HistoryAfterSet(st.storage, th, n, Sort(h, Newer), thread, ns);
      hide History, SetHistory;
    }
  }

  lemma ViewMembers(cfg: TtlConfig, parse: TimestampParser, h: seq<CheckpointTuple>, now: int)
    ensures forall t :: t in View(cfg, parse, h, now) ==> t in h && Live(cfg, parse, now)(t)
  {
    hide IsExpired;
    assert forall t :: t in View(cfg, parse, h, now) ==> t in Filter(h, Live(cfg, parse, now));
  }

  /**
   * In any run under any configuration, a read that finds something found a put of that history which has
   * not expired, with the id asked for if one was.
   */
  lemma ReadIsGenuine(
      parse: TimestampParser, cfg: TtlConfig, events: seq<Event>,
      config: RunnableConfig, now: int, thread: string, ns: string)
    requires At(config, thread, ns)
    ensures var reply := ReplyTo(cfg, parse, events, Event(now, Op.GetTuple(config)));
      && reply.Ok? && reply.value.Found?
      && (reply.value.tuple.Some? ==>
           var t := reply.value.tuple.value;
           && (config.checkpointId.Some? ==> t.checkpoint.id == config.checkpointId.value)
           && exists i :: 0 <= i < |events|
                && IsLivePut(cfg, parse, events[i], thread, ns, now) && IsTupleOf(t, events[i]))
  {
    var e := Event(now, Op.GetTuple(config));
    LastReply(cfg, parse, events, e);
    RunStoresPuts(cfg, parse, events);
    hide Run, IsExpired, Unexpired, Newer, RetainWrites;
    var st := Run(EMPTY, cfg, parse, events).0;
    assert ns == config.NsKey();
    var h := History(st.storage, thread, ns);
    CleanupIsView(st, cfg, parse, thread, ns, now);
    HistoryAfterSet(st.storage, thread, ns, View(cfg, parse, h, now), thread, ns);
    ViewMembers(cfg, parse, h, now);
    var picked := Pick(View(cfg, parse, h, now), config.checkpointId);
    if picked.Some? {
      PickedIsMember(View(cfg, parse, h, now), config.checkpointId);
      var i :| 0 <= i < |events| && IsPut(events[i], thread, ns) && IsTupleOf(picked.value, events[i]);
      SourceLive(cfg, parse, events[i], thread, ns, picked.value, now);
    }
  }

  lemma PickedIsMember(h: seq<CheckpointTuple>, checkpointId: Option<string>)
    requires Pick(h, checkpointId).Some?
    ensures var t := Pick(h, checkpointId).value;
      t in h && (checkpointId.Some? ==> t.checkpoint.id == checkpointId.value)
  {
    if checkpointId.Some? {
      var i := Position(h, WithId(checkpointId.value)).value;
      assert WithId(checkpointId.value)(h[i]);
    }
  }
}
