/** What the store answers after a run, told from the operations of the run. */
module StoreReplies {
  import opened Wrappers
  import opened Json
  import opened Filters
  import opened StoreModel
  import opened StoreTheorems

  // ----- How long a value stays readable -----

  predicate Refreshes(cfg: TtlConfig) {
    cfg.refreshOnRead && cfg.defaultTtl.Some?
  }

  /** The instant from which the lifetime counts: the put at `t`, or the last read since if reads refresh. */
  function LastTouch(cfg: TtlConfig, since: seq<Event>, a: Address, t: int): int {
    if since == [] then t
    else
      var e := since[|since| - 1];
      if e.op == Get(a) && Refreshes(cfg) then e.now else LastTouch(cfg, since[..|since| - 1], a, t)
  }

  predicate Within(cfg: TtlConfig, from: int, now: int) {
    cfg.defaultTtl.None? || now <= from + cfg.defaultTtl.value
  }

  /** Nothing replaces or removes the item put at `t`, and no read of it comes too late. */
  ghost predicate Undisturbed(cfg: TtlConfig, since: seq<Event>, a: Address, t: int) {
    forall j :: 0 <= j < |since| ==>
      match since[j].op
      case Put(b, _) => b != a
      case Delete(b) => b != a
      case Sweep(gone) => a !in gone
      case Get(b) => b == a ==> Within(cfg, LastTouch(cfg, since[..j], a, t), since[j].now)
      case _ => true
  }

  /** The item put at `t` and last touched at `touched`. */
  function Lasting(cfg: TtlConfig, a: Address, value: Json, created: int, touched: int): Item {
    Item(a.0, a.1, value, created, touched,
      match cfg.defaultTtl
      case None => None
      case Some(d) => Some(touched + d))
  }

  lemma RunSnoc(cfg: TtlConfig, events: seq<Event>, e: Event)
    ensures Run(cfg, events + [e]) ==
      var (before, answers) := Run(cfg, events);
      (Step(before, cfg, e.op, e.now).0, answers + Step(before, cfg, e.op, e.now).1)
  {
    assert (events + [e])[..|events|] == events;
  }

  /** A put keeps the creation time of what it replaces, whether that has expired or not. */
  lemma PutHeld(cfg: TtlConfig, before: seq<Event>, t: int, a: Address, value: Json)
    ensures var held, data := Run(cfg, before).0, Run(cfg, before + [Event(t, Put(a, value))]).0;
      Has(data, a) &&
      At(data, a) == Lasting(cfg, a, value, if Has(held, a) then At(held, a).createdAt else t, t)
  {
    RunSnoc(cfg, before, Event(t, Put(a, value)));
  }

  lemma StepTouches(data: Data, cfg: TtlConfig, e: Event, a: Address, value: Json, created: int, touched: int)
    requires Has(data, a) && At(data, a) == Lasting(cfg, a, value, created, touched)
    requires e.op != Delete(a) && !(e.op.Put? && e.op.address == a) && !(e.op.Sweep? && a in e.op.gone)
    requires e.op == Get(a) ==> Within(cfg, touched, e.now)
    ensures var data' := Step(data, cfg, e.op, e.now).0;
      Has(data', a) &&
      At(data', a) == Lasting(cfg, a, value, created, if e.op == Get(a) && Refreshes(cfg) then e.now else touched)
  {
    if e.op != Get(a) {
      hide Step;
      StepElsewhere(data, cfg, e.op, e.now, a);
    }
  }

  lemma {:induction false} HeldSince(
      cfg: TtlConfig, before: seq<Event>, since: seq<Event>, a: Address, value: Json, created: int, t: int)
    requires Undisturbed(cfg, since, a, t)
    requires Has(Run(cfg, before).0, a) && At(Run(cfg, before).0, a) == Lasting(cfg, a, value, created, t)
    ensures var data := Run(cfg, before + since).0;
      Has(data, a) && At(data, a) == Lasting(cfg, a, value, created, LastTouch(cfg, since, a, t))
  {
    hide Run, Step, Lasting;
    if since == [] {
      assert before + since == before;
    } else {
      var n := |since| - 1;
      assert forall j :: 0 <= j < n ==> since[..n][..j] == since[..j];
      HeldSince(cfg, before, since[..n], a, value, created, t);
      assert before + since == before + since[..n] + [since[n]];
      RunSnoc(cfg, before + since[..n], since[n]);
      StepTouches(Run(cfg, before + since[..n]).0, cfg, since[n], a, value, created, LastTouch(cfg, since[..n], a, t));
    }
  }

  /**
   * What was put is read back, whatever came before, until the lifetime has passed since the put or, with
   * refresh on read, since the last read; then it is gone. Without a lifetime it stays.
   */
  lemma PutThenGet(
      cfg: TtlConfig, before: seq<Event>, t: int, a: Address, value: Json, since: seq<Event>, now: int)
    requires Undisturbed(cfg, since, a, t)
    ensures var held := Run(cfg, before).0;
      var events := before + [Event(t, Put(a, value))] + since;
      var (data, answers) := Run(cfg, events + [Event(now, Get(a))]);
      var created := if Has(held, a) then At(held, a).createdAt else t;
      if Within(cfg, LastTouch(cfg, since, a, t), now)
      then answers == Run(cfg, events).1 +
             [Got(Some(Lasting(cfg, a, value, created, if Refreshes(cfg) then now else t)))]
      else answers == Run(cfg, events).1 + [Got(None)] && !Has(data, a)
  {
    var put := before + [Event(t, Put(a, value))];
    var held := Run(cfg, before).0;
    var created := if Has(held, a) then At(held, a).createdAt else t;
    PutHeld(cfg, before, t, a, value);
    HeldSince(cfg, put, since, a, value, created, t);
    RunSnoc(cfg, put + since, Event(now, Get(a)));
    TouchWithoutRefresh(cfg, since, a, t);
    hide Run;
    GetLasting(Run(cfg, put + since).0, cfg, a, value, created, LastTouch(cfg, since, a, t), now);
  }

  lemma {:induction false} TouchWithoutRefresh(cfg: TtlConfig, since: seq<Event>, a: Address, t: int)
    ensures !Refreshes(cfg) ==> LastTouch(cfg, since, a, t) == t
  {
    if since != [] {
      TouchWithoutRefresh(cfg, since[..|since| - 1], a, t);
    }
  }

  lemma GetLasting(data: Data, cfg: TtlConfig, a: Address, value: Json, created: int, touched: int, now: int)
    requires Has(data, a) && At(data, a) == Lasting(cfg, a, value, created, touched)
    ensures var (data', answer) := Step(data, cfg, Get(a), now);
      if Within(cfg, touched, now)
      then answer == [Got(Some(Lasting(cfg, a, value, created, if Refreshes(cfg) then now else touched)))]
      else answer == [Got(None)] && !Has(data', a)
  {
    HasAfterRemove(data, {a}, a);
  }

  // ----- Nothing is found until the next put -----

  /** The event takes the item away, or finds it gone. */
  ghost predicate Clears(cfg: TtlConfig, before: seq<Event>, e: Event, a: Address) {
    match e.op
    case Delete(b) => b == a
    case Sweep(gone) => a in gone
    case Get(b) => b == a && Run(cfg, before + [e]).1 == Run(cfg, before).1 + [Got(None)]
    case _ => false
  }

  lemma {:induction false} AbsentSince(cfg: TtlConfig, before: seq<Event>, since: seq<Event>, a: Address)
    requires !Has(Run(cfg, before).0, a)
    requires forall e :: e in since ==> !(e.op.Put? && e.op.address == a)
    ensures !Has(Run(cfg, before + since).0, a)
  {
    if since == [] {
      assert before + since == before;
    } else {
      var n := |since| - 1;
      AbsentSince(cfg, before, since[..n], a);
      assert before + since == before + since[..n] + [since[n]];
      RunSnoc(cfg, before + since[..n], since[n]);
      hide Run;
      StepAbsent(Run(cfg, before + since[..n]).0, cfg, since[n], a);
    }
  }

  lemma StepAbsent(data: Data, cfg: TtlConfig, e: Event, a: Address)
    requires !Has(data, a) && !(e.op.Put? && e.op.address == a)
    ensures !Has(Step(data, cfg, e.op, e.now).0, a)
  {
    match e.op
    case Get(b) => HasAfterRemove(data, {b}, a);
    case Delete(b) => HasAfterRemove(data, {b}, a);
    case Sweep(gone) => HasAfterRemove(data, gone, a);
    case _ =>
  }

  /** A read finds nothing before the first put, nor after a delete, a sweep or a late read until the next put. */
  lemma NothingUntilPut(cfg: TtlConfig, before: seq<Event>, e: Event, since: seq<Event>, a: Address, now: int)
    requires forall x :: x in since ==> !(x.op.Put? && x.op.address == a)
    requires Clears(cfg, before, e, a) || (before == [] && !(e.op.Put? && e.op.address == a))
    ensures var events := before + [e] + since;
      Run(cfg, events + [Event(now, Get(a))]).1 == Run(cfg, events).1 + [Got(None)]
  {
    RunSnoc(cfg, before, e);
    var data := Run(cfg, before).0;
    if Clears(cfg, before, e, a) {
      ClearedByStep(data, cfg, e, a, Run(cfg, before).1, Run(cfg, before + [e]).1);
    } else {
      StepAbsent(data, cfg, e, a);
    }
    AbsentSince(cfg, before + [e], since, a);
    RunSnoc(cfg, before + [e] + since, Event(now, Get(a)));
    hide Run;
  }

  lemma ClearedByStep(
      data: Data, cfg: TtlConfig, e: Event, a: Address, earlier: seq<Answer>, answers: seq<Answer>)
    requires answers == earlier + Step(data, cfg, e.op, e.now).1
    requires match e.op
      case Delete(b) => b == a
      case Sweep(gone) => a in gone
      case Get(b) => b == a && answers == earlier + [Got(None)]
      case _ => false
    ensures !Has(Step(data, cfg, e.op, e.now).0, a)
  {
    match e.op
    case Get(b) =>
      assert answers[|earlier|] == Got(None);
      HasAfterRemove(data, {a}, a);
    case Delete(b) => HasAfterRemove(data, {a}, a);
    case Sweep(gone) => HasAfterRemove(data, gone, a);
  }

  // ----- Searching and listing, against reading -----

  /** What reading this address now would return. */
  function Reading(cfg: TtlConfig, events: seq<Event>, a: Address, now: int): Option<Item> {
    GetStep(Run(cfg, events).0, cfg, a, now).1
  }

  /** The same item, but for what a refreshing read changes. */
  predicate SameItem(found: Item, read: Item, refreshed: bool) {
    && found.namespace == read.namespace && found.key == read.key && found.value == read.value
    && found.createdAt == read.createdAt
    && (!refreshed ==> found.updatedAt == read.updatedAt && found.expiresAt == read.expiresAt)
  }

  /** A search finds exactly what can be read under the prefix and passes the filter, and counts it. */
  lemma SearchFindsReadable(
      cfg: TtlConfig, events: seq<Event>, prefix: string, filter: Option<FilterExpr>, now: int)
      returns (items: map<Address, Item>)
    ensures Run(cfg, events + [Event(now, Search(prefix, filter))]).1
         == Run(cfg, events).1 + [Found(items, |items|)]
    ensures forall a :: a in items <==>
      && prefix <= a.0 && Reading(cfg, events, a, now).Some?
      && (filter.Some? ==> Evaluate(filter.value, Reading(cfg, events, a, now).value.value))
    ensures forall a :: a in items ==> SameItem(items[a], Reading(cfg, events, a, now).value, Refreshes(cfg))
  {
    RunSnoc(cfg, events, Event(now, Search(prefix, filter)));
    var data := Run(cfg, events).0;
    hide Run, Evaluate;
    items := Hits(data, prefix, filter, now);
    assert items.Keys == Matching(data, prefix, filter, now);
  }

  /** The listed namespaces are those ever put into: an emptied one stays. */
  lemma {:induction false} NamespacesEverPut(cfg: TtlConfig, events: seq<Event>)
    ensures forall ns :: ns in Run(cfg, events).0 <==>
      exists i :: 0 <= i < |events| && events[i].op.Put? && events[i].op.address.0 == ns
  {
    if events != [] {
      var n := |events| - 1;
      NamespacesEverPut(cfg, events[..n]);
      var data, data' := Run(cfg, events[..n]).0, Run(cfg, events).0;
      StepNamespaces(data, cfg, events[n].op, events[n].now);
      hide Run;
      forall ns ensures ns in data' <==>
        exists i :: 0 <= i < |events| && events[i].op.Put? && events[i].op.address.0 == ns
      {
        if ns in data {
          var i :| 0 <= i < n && events[..n][i].op.Put? && events[..n][i].op.address.0 == ns;
          assert events[i] == events[..n][i];
        }
        if i :| 0 <= i < n && events[i].op.Put? && events[i].op.address.0 == ns {
          assert events[..n][i] == events[i];
        }
      }
    }
  }

  lemma StepNamespaces(data: Data, cfg: TtlConfig, op: Op, now: int)
    ensures Step(data, cfg, op, now).0.Keys == data.Keys + if op.Put? then {op.address.0} else {}
  {
  }

  lemma ListedNamespaces(cfg: TtlConfig, events: seq<Event>, now: int) returns (names: set<string>)
    ensures Run(cfg, events + [Event(now, ListNamespaces)]).1 == Run(cfg, events).1 + [Namespaces(names)]
    ensures forall ns :: ns in names <==>
      exists i :: 0 <= i < |events| && events[i].op.Put? && events[i].op.address.0 == ns
  {
    RunSnoc(cfg, events, Event(now, ListNamespaces));
    NamespacesEverPut(cfg, events);
    names := Run(cfg, events).0.Keys;
  }
}
