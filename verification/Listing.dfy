/** Listing a checkpoint history, as `MemorySaver::list` and `SqliteSaver::list` filter it. */
module Listing {
  import opened Wrappers
  import opened Seqs
  import opened Checkpoints

  function WithId(id: string): CheckpointTuple -> bool {
    (t: CheckpointTuple) => t.checkpoint.id == id
  }

  function OfSource(source: CheckpointSource): CheckpointTuple -> bool {
    (t: CheckpointTuple) => t.metadata.source == source
  }

  function FromStep(step: int): CheckpointTuple -> bool {
    (t: CheckpointTuple) => t.metadata.step >= step
  }

  function UpToStep(step: int): CheckpointTuple -> bool {
    (t: CheckpointTuple) => t.metadata.step <= step
  }

  /** The filter stages, applied one after the other to a newest-first history. */
  function ApplyListFilter(tuples: seq<CheckpointTuple>, f: CheckpointFilter): seq<CheckpointTuple> {
    var results := CutAtIds(RetainMatching(tuples, f), f);
    if f.limit.Some? then Take(results, f.limit.value) else results
  }

  /** Three `retain` passes: source, minimum step, maximum step. */
  function RetainMatching(tuples: seq<CheckpointTuple>, f: CheckpointFilter): seq<CheckpointTuple> {
    var s1 := if f.source.Some? then Filter(tuples, OfSource(f.source.value)) else tuples;
    var s2 := if f.stepGte.Some? then Filter(s1, FromStep(f.stepGte.value)) else s1;
    if f.stepLte.Some? then Filter(s2, UpToStep(f.stepLte.value)) else s2
  }

  /** `before`, then `after` within what is left. */
  function CutAtIds(tuples: seq<CheckpointTuple>, f: CheckpointFilter): seq<CheckpointTuple> {
    var s := if f.before.Some? then CutBefore(tuples, f.before.value) else tuples;
    if f.after.Some? then CutAfter(s, f.after.value) else s
  }

  /** Keeps what precedes the given id; an unknown id cuts nothing. */
  function CutBefore(s: seq<CheckpointTuple>, id: string): seq<CheckpointTuple> {
    match Position(s, WithId(id))
    case None => s
    case Some(i) => s[..i]
  }

  /** Keeps what follows the given id; an unknown id cuts nothing. */
  function CutAfter(s: seq<CheckpointTuple>, id: string): seq<CheckpointTuple> {
    match Position(s, WithId(id))
    case None => s
    case Some(i) => s[i + 1..]
  }

  function MemoryList(history: seq<CheckpointTuple>, filter: Option<CheckpointFilter>): seq<CheckpointTuple> {
    match filter
    case None => history
    case Some(f) => ApplyListFilter(history, f)
  }

  const I64_MAX: nat := 0x7FFF_FFFF_FFFF_FFFF
  const DEFAULT_LIMIT: nat := 10

  predicate HasNonLimitFilter(filter: Option<CheckpointFilter>) {
    filter.Some? &&
    var f := filter.value;
    f.source.Some? || f.stepGte.Some? || f.stepLte.Some? || f.before.Some? || f.after.Some?
  }

  function ExplicitLimit(filter: Option<CheckpointFilter>): Option<nat> {
    if filter.Some? then filter.value.limit else None
  }

  const LIMIT_TOO_LARGE := Storage("limit does not fit in i64")

  /** `rows` is the history in database order; without a criterion the query itself is limited, by 10 if unset. */
  function SqliteList(rows: seq<CheckpointTuple>, filter: Option<CheckpointFilter>)
    : Result<seq<CheckpointTuple>, CheckpointError>
  {
    if HasNonLimitFilter(filter) then Ok(ApplyListFilter(rows, filter.value))
    else
      var limit := if ExplicitLimit(filter).Some? then ExplicitLimit(filter).value else DEFAULT_LIMIT;
      if limit > I64_MAX then Err(LIMIT_TOO_LARGE)
      else
        var fetched := Take(rows, limit);
        Ok(if ExplicitLimit(filter).Some? then Take(fetched, limit) else fetched)
  }

  // ----- A filtered list is one window of the matching history -----

  /** The criteria that look at one tuple by itself. */
  predicate Matches(t: CheckpointTuple, f: CheckpointFilter) {
    && (f.source.Some? ==> t.metadata.source == f.source.value)
    && (f.stepGte.Some? ==> f.stepGte.value <= t.metadata.step)
    && (f.stepLte.Some? ==> t.metadata.step <= f.stepLte.value)
  }

  ghost function Matching(history: seq<CheckpointTuple>, f: CheckpointFilter): seq<CheckpointTuple> {
    Filter(history, t => Matches(t, f))
  }

  /** Where `before` ends the window: nowhere when it names no matching tuple. */
  ghost function WindowEnd(s: seq<CheckpointTuple>, f: CheckpointFilter): (hi: nat)
    ensures hi <= |s|
  {
    if f.before.Some? && Position(s, WithId(f.before.value)).Some? then Position(s, WithId(f.before.value)).value
    else |s|
  }

  /** Where `after` starts the window; an `after` at or past the end no longer counts. */
  ghost function WindowStart(s: seq<CheckpointTuple>, f: CheckpointFilter): (lo: nat)
    ensures lo <= WindowEnd(s, f)
  {
    if f.after.Some? && Position(s, WithId(f.after.value)).Some?
       && Position(s, WithId(f.after.value)).value < WindowEnd(s, f)
    then Position(s, WithId(f.after.value)).value + 1
    else 0
  }

  lemma RetainIsMatching(history: seq<CheckpointTuple>, f: CheckpointFilter)
    ensures RetainMatching(history, f) == Matching(history, f)
  {
    var s1 := if f.source.Some? then Filter(history, OfSource(f.source.value)) else history;
    var s2 := if f.stepGte.Some? then Filter(s1, FromStep(f.stepGte.value)) else s1;
    var p := t => Matches(t, f);
    FilterAll(RetainMatching(history, f), p);
    if f.stepLte.Some? { FilterAbsorb(s2, UpToStep(f.stepLte.value), p); }
    if f.stepGte.Some? { FilterAbsorb(s1, FromStep(f.stepGte.value), p); }
    if f.source.Some? { FilterAbsorb(history, OfSource(f.source.value), p); }
  }

  lemma {:induction false} PositionPrefix(s: seq<CheckpointTuple>, n: nat, p: CheckpointTuple -> bool)
    requires n <= |s|
    ensures Position(s[..n], p) ==
      if Position(s, p).Some? && Position(s, p).value < n then Position(s, p) else None
  {
    if n > 0 && !p(s[0]) {
      assert s[..n][1..] == s[1..][..n - 1];
      PositionPrefix(s[1..], n - 1, p);
    }
  }

  lemma CutIsWindow(s: seq<CheckpointTuple>, f: CheckpointFilter)
    ensures CutAtIds(s, f) == s[WindowStart(s, f)..WindowEnd(s, f)]
  {
    var hi := WindowEnd(s, f);
    assert s[..|s|] == s;
    assert (if f.before.Some? then CutBefore(s, f.before.value) else s) == s[..hi];
    if f.after.Some? {
      PositionPrefix(s, hi, WithId(f.after.value));
    }
  }

  /** Filtering returns the first `limit` tuples of a contiguous window of the matching history. */
  lemma ListIsWindow(history: seq<CheckpointTuple>, f: CheckpointFilter)
    ensures var s := Matching(history, f);
      var window := s[WindowStart(s, f)..WindowEnd(s, f)];
      ApplyListFilter(history, f) == if f.limit.Some? then Take(window, f.limit.value) else window
  {
    RetainIsMatching(history, f);
    CutIsWindow(Matching(history, f), f);
  }

  /** When no tuple is listed twice, `before` and `after` bound the listed positions exactly. */
  lemma ListedPositions(history: seq<CheckpointTuple>, f: CheckpointFilter, i: nat)
    requires f.limit.None? && i < |Matching(history, f)|
    requires Distinct(history)
    ensures var s := Matching(history, f);
      s[i] in ApplyListFilter(history, f) <==> WindowStart(s, f) <= i < WindowEnd(s, f)
  {
    var s := Matching(history, f);
    ListIsWindow(history, f);
    MatchingDistinct(history, f);
    InWindow(s, WindowStart(s, f), WindowEnd(s, f), i);
  }

  lemma MatchingDistinct(history: seq<CheckpointTuple>, f: CheckpointFilter)
    requires Distinct(history)
    ensures Distinct(Matching(history, f))
  {
    FilterDistinct(history, t => Matches(t, f));
  }

  lemma InWindow(s: seq<CheckpointTuple>, lo: nat, hi: nat, i: nat)
    requires Distinct(s) && lo <= hi <= |s| && i < |s|
    ensures s[i] in s[lo..hi] <==> lo <= i < hi
  {
    if lo <= i < hi {
      assert s[lo..hi][i - lo] == s[i];
    }
  }

  lemma TakeIs(s: seq<CheckpointTuple>, n: nat)
    ensures Take(s, n) == if |s| <= n then s else s[..n]
  {
    if |s| == n {
      assert s[..n] == s;
    }
  }

  /**
   * The database's list in full: with a criterion the window; without one the first rows, ten unless a
   * limit says otherwise, and an error for a limit beyond 64 bits.
   */
  lemma SqliteListSpelledOut(rows: seq<CheckpointTuple>, filter: Option<CheckpointFilter>)
    ensures var r := SqliteList(rows, filter);
      match filter
      case None => r == Ok(if |rows| <= 10 then rows else rows[..10])
      case Some(CheckpointFilter(None, None, None, None, None, None)) =>
        r == Ok(if |rows| <= 10 then rows else rows[..10])
      case Some(CheckpointFilter(None, None, None, None, None, Some(n))) =>
        if n < 0x8000_0000_0000_0000 then r == Ok(if |rows| <= n then rows else rows[..n]) else r.Err?
      case Some(f) =>
        var s := Matching(rows, f);
        var window := s[WindowStart(s, f)..WindowEnd(s, f)];
        r == Ok(if f.limit.Some? && f.limit.value <= |window| then window[..f.limit.value] else window)
  {
    if HasNonLimitFilter(filter) {
      ListIsWindow(rows, filter.value);
    }
    hide ApplyListFilter, Matching, WindowStart, WindowEnd;
    TakeIs(rows, 10);
    if filter.Some? && filter.value.limit.Some? {
      var fetched := Take(rows, filter.value.limit.value);
      TakeIs(rows, filter.value.limit.value);
      assert Take(fetched, filter.value.limit.value) == fetched;
    }
  }

  /** On one history the two savers list the same, except for SQLite's implicit limit and its `i64` bound. */
  lemma SaversAgreeIff(history: seq<CheckpointTuple>, filter: Option<CheckpointFilter>)
    ensures SqliteList(history, filter) == Ok(MemoryList(history, filter)) <==>
      || HasNonLimitFilter(filter)
      || (ExplicitLimit(filter).Some? && ExplicitLimit(filter).value <= I64_MAX)
      || (ExplicitLimit(filter).None? && |history| <= DEFAULT_LIMIT)
  {
    if !HasNonLimitFilter(filter) {
      assert MemoryList(history, filter) ==
        if ExplicitLimit(filter).Some? then Take(history, ExplicitLimit(filter).value) else history;
      if ExplicitLimit(filter).Some? {
        var fetched := Take(history, ExplicitLimit(filter).value);
        assert Take(fetched, ExplicitLimit(filter).value) == fetched;
      } else {
        var fetched := Take(history, DEFAULT_LIMIT);
        assert SqliteList(history, filter) == Ok(fetched);
        assert fetched == history <==> |fetched| == |history|;
      }
    }
  }
}
