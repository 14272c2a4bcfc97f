/** Sweeping: how far one gets, and what a client can notice of it. */
module StoreTheorems {
  import opened Wrappers
  import opened Filters
  import opened StoreModel

  // ----- Sweeps converge -----

  lemma ExpiredAfterRemove(data: Data, gone: set<Address>, now: int)
    ensures ExpiredIn(Remove(data, gone), now) == ExpiredIn(data, now) - gone
  {
  }

  /** Consecutive sweeps at one clock reading, each making its own choice. */
  function SweepAll(data: Data, choices: seq<set<Address>>): Data {
    if choices == [] then data else SweepAll(Remove(data, choices[0]), choices[1..])
  }

  ghost predicate ValidSweeps(data: Data, cfg: TtlConfig, choices: seq<set<Address>>, now: int) {
    choices == [] ||
    (SweepChoice(data, cfg, choices[0], now) && ValidSweeps(Remove(data, choices[0]), cfg, choices[1..], now))
  }

  lemma QuotaSteps(expired: nat, cap: nat, more: nat)
    ensures Quota(expired, cap) + Quota(expired - Quota(expired, cap), more) == Quota(expired, cap + more)
  {
  }

  lemma {:induction false} SweptCount(data: Data, cfg: TtlConfig, choices: seq<set<Address>>, now: int)
    requires cfg.sweepMaxItems >= 1 && ValidSweeps(data, cfg, choices, now)
    ensures |ExpiredIn(SweepAll(data, choices), now)|
         == |ExpiredIn(data, now)| - Quota(|ExpiredIn(data, now)|, |choices| * cfg.sweepMaxItems)
    decreases |choices|
  {
    hide Remove, ExpiredIn;
    if choices != [] {
      var gone, cap := choices[0], cfg.sweepMaxItems;
      SweepCount(data, cfg, gone, now);
      SweptCount(Remove(data, gone), cfg, choices[1..], now);
      TimesStep(|choices|, cap);
      QuotaSteps(|ExpiredIn(data, now)|, cap, (|choices| - 1) * cap);
    }
  }

  lemma TimesStep(n: nat, cap: nat)
    requires n > 0
    ensures n * cap == cap + (n - 1) * cap
  {
  }

  /** One sweep leaves the expired items it had no quota for. */
  lemma SweepCount(data: Data, cfg: TtlConfig, gone: set<Address>, now: int)
    requires cfg.sweepMaxItems >= 1 && SweepChoice(data, cfg, gone, now)
    ensures |ExpiredIn(Remove(data, gone), now)|
         == |ExpiredIn(data, now)| - Quota(|ExpiredIn(data, now)|, cfg.sweepMaxItems)
  {
    ExpiredAfterRemove(data, gone, now);
  }

  lemma {:induction false} SweptKeeps(data: Data, cfg: TtlConfig, choices: seq<set<Address>>, now: int, a: Address)
    requires ValidSweeps(data, cfg, choices, now) && Has(data, a) && !Expired(At(data, a), now)
    ensures var swept := SweepAll(data, choices);
      Has(swept, a) && At(swept, a) == At(data, a)
    decreases |choices|
  {
    if choices != [] {
      assert a !in choices[0];
      HasAfterRemove(data, choices[0], a);
      SweptKeeps(Remove(data, choices[0]), cfg, choices[1..], now, a);
    }
  }

  /**
   * With a positive cap, `n` sweeps remove `min(E, n * cap)` of the `E` expired items, whichever they
   * pick, and never a live one; so `ceil(E / cap)` of them leave none.
   */
  lemma SweepsConverge(data: Data, cfg: TtlConfig, choices: seq<set<Address>>, now: int)
    requires cfg.sweepMaxItems >= 1 && ValidSweeps(data, cfg, choices, now)
    ensures |ExpiredIn(SweepAll(data, choices), now)|
         == |ExpiredIn(data, now)| - Quota(|ExpiredIn(data, now)|, |choices| * cfg.sweepMaxItems)
    ensures |choices| * cfg.sweepMaxItems >= |ExpiredIn(data, now)| ==> ExpiredIn(SweepAll(data, choices), now) == {}
    ensures forall a :: Has(data, a) && !Expired(At(data, a), now) ==>
      Has(SweepAll(data, choices), a) && At(SweepAll(data, choices), a) == At(data, a)
  {
    SweptCount(data, cfg, choices, now);
    forall a | Has(data, a) && !Expired(At(data, a), now)
      ensures Has(SweepAll(data, choices), a) && At(SweepAll(data, choices), a) == At(data, a)
    {
      SweptKeeps(data, cfg, choices, now, a);
    }
  }

  // ----- Sweeps are unobservable, except through created_at -----

  /** An item without its creation time. */
  function Blur(item: Item): Item {
    item.(createdAt := 0)
  }

  function BlurAnswer(answer: Answer): Answer {
    match answer
    case Got(Some(item)) => Got(Some(Blur(item)))
    case Found(items, total) => Found(map a | a in items :: Blur(items[a]), total)
    case _ => answer
  }

  function BlurAll(answers: seq<Answer>): (r: seq<Answer>)
    ensures |r| == |answers|
  {
    if answers == [] then [] else [BlurAnswer(answers[0])] + BlurAll(answers[1..])
  }

  lemma BlurConcat(a: seq<Answer>, b: seq<Answer>)
    ensures BlurAll(a + b) == BlurAll(a) + BlurAll(b)
  {
    if a == [] {
      assert a + b == b;
    } else {
      assert (a + b)[1..] == a[1..] + b;
      BlurConcat(a[1..], b);
    }
  }

  /** The swept store lacks only expired items; otherwise the two differ only in creation times. */
  ghost predicate Similar(swept: Data, full: Data, now: int) {
    && swept.Keys == full.Keys
    && (forall a :: Has(swept, a) ==> Has(full, a) && Blur(At(swept, a)) == Blur(At(full, a)))
    && (forall a :: Has(full, a) && !Has(swept, a) ==> Expired(At(full, a), now))
  }

  lemma SimilarLater(swept: Data, full: Data, now: int, later: int)
    requires Similar(swept, full, now) && now <= later
    ensures Similar(swept, full, later)
  {
  }

  lemma HasAfterRemove(data: Data, gone: set<Address>, a: Address)
    ensures Has(Remove(data, gone), a) <==> Has(data, a) && a !in gone
    ensures Has(Remove(data, gone), a) ==> At(Remove(data, gone), a) == At(data, a)
  {
  }

  lemma SimilarSweep(swept: Data, full: Data, gone: set<Address>, now: int)
    requires Similar(swept, full, now) && gone <= ExpiredIn(swept, now)
    ensures Similar(Remove(swept, gone), full, now)
  {
    forall a ensures Has(Remove(swept, gone), a) <==> Has(swept, a) && a !in gone
             ensures Has(Remove(swept, gone), a) ==> At(Remove(swept, gone), a) == At(swept, a) {
      HasAfterRemove(swept, gone, a);
    }
    forall a | Has(full, a) && !Has(Remove(swept, gone), a) ensures Expired(At(full, a), now) {
      if a in gone {
        assert Blur(At(swept, a)) == Blur(At(full, a));
      }
    }
  }

  lemma SimilarRemove(swept: Data, full: Data, b: Address, now: int)
    requires Similar(swept, full, now)
    ensures Similar(Remove(swept, {b}), Remove(full, {b}), now)
  {
    forall a ensures Has(Remove(swept, {b}), a) <==> Has(swept, a) && a != b
             ensures Has(Remove(swept, {b}), a) ==> At(Remove(swept, {b}), a) == At(swept, a)
             ensures Has(Remove(full, {b}), a) <==> Has(full, a) && a != b
             ensures Has(Remove(full, {b}), a) ==> At(Remove(full, {b}), a) == At(full, a) {
      HasAfterRemove(swept, {b}, a);
      HasAfterRemove(full, {b}, a);
    }
  }

  lemma SimilarStore(swept: Data, full: Data, b: Address, x: Item, y: Item, now: int)
    requires Similar(swept, full, now) && Blur(x) == Blur(y)
    ensures Similar(Store(swept, b, x), Store(full, b, y), now)
  {
    forall a ensures Has(Store(swept, b, x), a) <==> a == b || Has(swept, a)
             ensures Has(Store(swept, b, x), a) ==> At(Store(swept, b, x), a) == if a == b then x else At(swept, a)
             ensures Has(Store(full, b, y), a) <==> a == b || Has(full, a)
             ensures Has(Store(full, b, y), a) ==> At(Store(full, b, y), a) == if a == b then y else At(full, a) {
    }
    assert Store(swept, b, x).Keys == Store(full, b, y).Keys;
  }

  lemma SimilarMatching(swept: Data, full: Data, prefix: string, filter: Option<FilterExpr>, now: int)
    requires Similar(swept, full, now)
    ensures Matching(swept, prefix, filter, now) == Matching(full, prefix, filter, now)
  {
    forall a ensures a in Matching(swept, prefix, filter, now) <==> a in Matching(full, prefix, filter, now) {
      if Has(swept, a) {
        assert Blur(At(swept, a)) == Blur(At(full, a));
      }
    }
  }

  lemma GetSimilar(swept: Data, full: Data, cfg: TtlConfig, a: Address, now: int)
    requires Similar(swept, full, now)
    ensures var (swept', x) := GetStep(swept, cfg, a, now);
      var (full', y) := GetStep(full, cfg, a, now);
      Similar(swept', full', now) && BlurAnswer(Got(x)) == BlurAnswer(Got(y))
  {
    if Has(swept, a) {
      assert Blur(At(swept, a)) == Blur(At(full, a));
      if Expired(At(swept, a), now) {
        SimilarRemove(swept, full, a, now);
      } else if cfg.refreshOnRead && cfg.defaultTtl.Some? {
        var x := At(swept, a).(expiresAt := ExpiryFrom(cfg, now), updatedAt := now);
        var y := At(full, a).(expiresAt := ExpiryFrom(cfg, now), updatedAt := now);
        SimilarStore(swept, full, a, x, y, now);
      }
    }
  }

  lemma SearchSimilar(swept: Data, full: Data, prefix: string, filter: Option<FilterExpr>, now: int)
    requires Similar(swept, full, now)
    ensures BlurAnswer(Found(Hits(swept, prefix, filter, now), |Matching(swept, prefix, filter, now)|))
         == BlurAnswer(Found(Hits(full, prefix, filter, now), |Matching(full, prefix, filter, now)|))
  {
    SimilarMatching(swept, full, prefix, filter, now);
    SimilarHits(swept, full, prefix, filter, now);
    hide Matching, Hits, Blur, Similar;
  }

  lemma SimilarHits(swept: Data, full: Data, prefix: string, filter: Option<FilterExpr>, now: int)
    requires Similar(swept, full, now)
    ensures var x, y := Hits(swept, prefix, filter, now), Hits(full, prefix, filter, now);
      (map a | a in x :: Blur(x[a])) == (map a | a in y :: Blur(y[a]))
  {
    SimilarMatching(swept, full, prefix, filter, now);
    hide Blur;
  }

  lemma StepSimilar(swept: Data, full: Data, cfg: TtlConfig, op: Op, now: int)
    requires Similar(swept, full, now) && !op.Sweep?
    ensures var (swept', x) := Step(swept, cfg, op, now);
      var (full', y) := Step(full, cfg, op, now);
      Similar(swept', full', now) && BlurAll(x) == BlurAll(y)
  {
    match op
    case Get(a) => GetSimilar(swept, full, cfg, a, now);
    case Put(a, value) =>
      var createdX := if Has(swept, a) then At(swept, a).createdAt else now;
      var createdY := if Has(full, a) then At(full, a).createdAt else now;
      SimilarStore(swept, full, a,
        Item(a.0, a.1, value, createdX, now, ExpiryFrom(cfg, now)),
        Item(a.0, a.1, value, createdY, now, ExpiryFrom(cfg, now)), now);
    case Delete(a) => SimilarRemove(swept, full, a, now);
    case Search(prefix, filter) =>
      SearchSimilar(swept, full, prefix, filter, now);
    case ListNamespaces =>
  }

  ghost predicate Monotone(events: seq<Event>) {
    forall i, j :: 0 <= i < j < |events| ==> events[i].now <= events[j].now
  }

  /** Every sweep in the run removes what a sweep of that state may remove. */
  ghost predicate SweepsValid(cfg: TtlConfig, events: seq<Event>) {
    events == [] ||
    (var n := |events| - 1;
     && SweepsValid(cfg, events[..n])
     && (events[n].op.Sweep? ==> SweepChoice(Run(cfg, events[..n]).0, cfg, events[n].op.gone, events[n].now)))
  }

  function WithoutSweeps(events: seq<Event>): seq<Event> {
    if events == [] then []
    else
      var n := |events| - 1;
      WithoutSweeps(events[..n]) + if events[n].op.Sweep? then [] else [events[n]]
  }

  lemma {:induction false} RunSimilar(cfg: TtlConfig, events: seq<Event>, now: int)
    requires Monotone(events) && SweepsValid(cfg, events)
    requires events != [] ==> events[|events| - 1].now <= now
    ensures var (swept, x) := Run(cfg, events);
      var (full, y) := Run(cfg, WithoutSweeps(events));
      Similar(swept, full, now) && BlurAll(x) == BlurAll(y)
  {
    if events != [] {
      var n := |events| - 1;
      var e := events[n];
      RunSimilar(cfg, events[..n], e.now);
      var (swept, x) := Run(cfg, events[..n]);
      var (full, y) := Run(cfg, WithoutSweeps(events[..n]));
      if e.op.Sweep? {
        SimilarSweep(swept, full, e.op.gone, e.now);
        SimilarLater(Remove(swept, e.op.gone), full, e.now, now);
        assert WithoutSweeps(events) == WithoutSweeps(events[..n]);
        assert x + [] == x;
      } else {
        StepSimilar(swept, full, cfg, e.op, e.now);
        var (swept', a) := Step(swept, cfg, e.op, e.now);
        var (full', b) := Step(full, cfg, e.op, e.now);
        SimilarLater(swept', full', e.now, now);
        BlurConcat(x, a);
        BlurConcat(y, b);
        var kept := WithoutSweeps(events[..n]);
        assert (kept + [e])[..|kept|] == kept;
      }
    }
  }

  /**
   * Inserting sweeps anywhere in a trace changes no answer of get, search and list_namespaces,
   * with or without refresh on read, apart from creation times.
   */
  lemma SweepsUnobservable(cfg: TtlConfig, events: seq<Event>)
    requires Monotone(events) && SweepsValid(cfg, events)
    ensures BlurAll(Run(cfg, events).1) == BlurAll(Run(cfg, WithoutSweeps(events)).1)
  {
    RunSimilar(cfg, events, if events == [] then 0 else events[|events| - 1].now);
  }

  // ----- What sweeps do to creation times -----

  /** Event `j` takes the item away in both runs: a delete, or a get that finds nothing live. */
  ghost predicate Forgets(cfg: TtlConfig, events: seq<Event>, j: nat, a: Address)
    requires j < |events|
  {
    events[j].op == Delete(a) ||
    (events[j].op == Get(a) && GetStep(Run(cfg, events[..j]).0, cfg, a, events[j].now).1.None?)
  }

  /** Event `i` sweeps the item, and nothing has taken it away since. */
  ghost predicate SweptSince(cfg: TtlConfig, events: seq<Event>, i: nat, a: Address) {
    && i < |events| && events[i].op.Sweep? && a in events[i].op.gone
    && forall j :: i < j < |events| ==> !Forgets(cfg, events, j, a)
  }

  ghost predicate WasSwept(cfg: TtlConfig, events: seq<Event>, a: Address) {
    exists i: nat :: SweptSince(cfg, events, i, a)
  }

  lemma WasSweptSnoc(cfg: TtlConfig, events: seq<Event>, a: Address)
    requires events != []
    ensures var n := |events| - 1;
      WasSwept(cfg, events, a) <==>
        || (events[n].op.Sweep? && a in events[n].op.gone)
        || (WasSwept(cfg, events[..n], a) && !Forgets(cfg, events, n, a))
  {
    var n := |events| - 1;
    if events[n].op.Sweep? && a in events[n].op.gone {
      assert SweptSince(cfg, events, n, a);
    } else {
      forall i: nat ensures SweptSince(cfg, events, i, a) <==>
        SweptSince(cfg, events[..n], i, a) && !Forgets(cfg, events, n, a)
      {
        forall j | 0 <= j < n ensures Forgets(cfg, events, j, a) <==> Forgets(cfg, events[..n], j, a) {
          assert events[..n][..j] == events[..j];
        }
      }
    }
  }

  /** An item expires no earlier than it was created. */
  ghost predicate ExpiryAfterCreation(item: Item) {
    item.createdAt <= item.updatedAt && (item.expiresAt.Some? ==> item.updatedAt <= item.expiresAt.value)
  }

  /** The two runs on one address: whether it was swept decides what differs. */
  ghost predicate CreationCoupled(swept: Data, full: Data, wasSwept: bool, a: Address, now: int) {
    && (Has(full, a) ==> ExpiryAfterCreation(At(full, a)) && At(full, a).updatedAt <= now)
    && (if Has(swept, a)
        then Has(full, a) && At(full, a).createdAt <= At(swept, a).createdAt
             && (wasSwept <==> At(swept, a).createdAt != At(full, a).createdAt)
        else wasSwept <==> Has(full, a))
  }

  lemma StepElsewhere(data: Data, cfg: TtlConfig, op: Op, now: int, a: Address)
    requires op != Delete(a) && op != Get(a) && !(op.Put? && op.address == a) && !(op.Sweep? && a in op.gone)
    ensures Has(Step(data, cfg, op, now).0, a) <==> Has(data, a)
    ensures Has(data, a) ==> At(Step(data, cfg, op, now).0, a) == At(data, a)
  {
    match op
    case Get(b) =>
      HasAfterRemove(data, {b}, a);
    case Delete(b) => HasAfterRemove(data, {b}, a);
    case Sweep(gone) => HasAfterRemove(data, gone, a);
    case _ =>
  }

  lemma {:induction false} RunCreation(cfg: TtlConfig, events: seq<Event>, a: Address, now: int)
    requires Monotone(events) && SweepsValid(cfg, events)
    requires events != [] ==> events[|events| - 1].now <= now
    ensures CreationCoupled(Run(cfg, events).0, Run(cfg, WithoutSweeps(events)).0, WasSwept(cfg, events, a), a, now)
  {
    if events != [] {
      var n := |events| - 1;
      var e := events[n];
      RunCreation(cfg, events[..n], a, e.now);
      RunSimilar(cfg, events[..n], e.now);
      WasSweptSnoc(cfg, events, a);
      FullSnoc(cfg, events);
      var swept, full := Run(cfg, events[..n]).0, Run(cfg, WithoutSweeps(events[..n])).0;
      StepCreation(swept, full, cfg, e.op, WasSwept(cfg, events[..n], a), a, e.now);
    }
  }

  lemma FullSnoc(cfg: TtlConfig, events: seq<Event>)
    requires events != []
    ensures var n := |events| - 1;
      Run(cfg, WithoutSweeps(events)).0 ==
        if events[n].op.Sweep? then Run(cfg, WithoutSweeps(events[..n])).0
        else Step(Run(cfg, WithoutSweeps(events[..n])).0, cfg, events[n].op, events[n].now).0
  {
    var n := |events| - 1;
    var kept := WithoutSweeps(events[..n]);
    if events[n].op.Sweep? {
      assert WithoutSweeps(events) == kept;
    } else {
      assert (kept + [events[n]])[..|kept|] == kept;
    }
  }

  lemma StepCreation(swept: Data, full: Data, cfg: TtlConfig, op: Op, was: bool, a: Address, now: int)
    requires Similar(swept, full, now) && CreationCoupled(swept, full, was, a, now)
    requires op.Sweep? ==> op.gone <= ExpiredIn(swept, now)
    ensures var forgets := op == Delete(a) || (op == Get(a) && GetStep(swept, cfg, a, now).1.None?);
      CreationCoupled(Step(swept, cfg, op, now).0, if op.Sweep? then full else Step(full, cfg, op, now).0,
        (op.Sweep? && a in op.gone) || (was && !forgets), a, now)
  {
    if op == Get(a) || op == Delete(a) {
      HasAfterRemove(swept, {a}, a);
      HasAfterRemove(full, {a}, a);
    } else if op.Sweep? && a in op.gone {
      HasAfterRemove(swept, op.gone, a);
    } else if !(op.Put? && op.address == a) {
      StepElsewhere(swept, cfg, op, now, a);
      if !op.Sweep? {
        StepElsewhere(full, cfg, op, now, a);
      }
    }
  }

  /**
   * After any run with sweeps, an item that is there has another creation time than without them,
   * and then a later one, exactly when a sweep took it and no delete, and no get that found nothing
   * live, has come since.
   */
  lemma SweepResetsCreationIff(cfg: TtlConfig, events: seq<Event>, a: Address)
    requires Monotone(events) && SweepsValid(cfg, events)
    requires Has(Run(cfg, events).0, a)
    ensures var swept, full := Run(cfg, events).0, Run(cfg, WithoutSweeps(events)).0;
      && Has(full, a)
      && At(full, a).createdAt <= At(swept, a).createdAt
      && (At(swept, a).createdAt != At(full, a).createdAt <==> exists i: nat :: SweptSince(cfg, events, i, a))
  {
    RunCreation(cfg, events, a, if events == [] then 0 else events[|events| - 1].now);
  }
}
