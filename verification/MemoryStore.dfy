/** The key-value store with expiring items: its data and what each operation does to it. */
module StoreModel {
  import opened Wrappers
  import opened Json
  import opened Filters

  datatype Item = Item(
    namespace: string, key: string, value: Json, createdAt: int, updatedAt: int, expiresAt: Option<int>)

  predicate Expired(item: Item, now: int) {
    item.expiresAt.Some? && now > item.expiresAt.value
  }

  datatype TtlConfig = TtlConfig(defaultTtl: Option<nat>, refreshOnRead: bool, sweepMaxItems: nat)

  type Data = map<string, map<string, Item>>

  /** A namespace and a key. */
  type Address = (string, string)

  predicate Has(data: Data, a: Address) {
    a.0 in data && a.1 in data[a.0]
  }

  function At(data: Data, a: Address): Item
    requires Has(data, a)
  {
    data[a.0][a.1]
  }

  function Addresses(data: Data): set<Address> {
    set ns, key | ns in data && key in data[ns] :: (ns, key)
  }

  function ExpiredIn(data: Data, now: int): set<Address> {
    set a | a in Addresses(data) && Expired(At(data, a), now)
  }

  /** The data without the given items; namespaces stay, even when emptied. */
  function Remove(data: Data, gone: set<Address>): Data {
    map ns | ns in data :: map key | key in data[ns] && (ns, key) !in gone :: data[ns][key]
  }

  lemma RemoveOneNamespace(data: Data, ns: string, key: string)
    ensures Remove(data, {(ns, key)}) == if ns in data then data[ns := data[ns] - {key}] else data
  {
    var gone := {(ns, key)};
    var direct := if ns in data then data[ns := data[ns] - {key}] else data;
    forall n | n in data ensures Remove(data, gone)[n] == direct[n] {
      assert forall k :: k in data[n] ==> ((n, k) in gone <==> n == ns && k == key);
    }
  }

  lemma RemoveNone(data: Data)
    ensures Remove(data, {}) == data
  {
    forall n | n in data ensures Remove(data, {})[n] == data[n] {
    }
  }

  lemma RemoveTwice(data: Data, a: set<Address>, b: set<Address>)
    ensures Remove(Remove(data, a), b) == Remove(data, a + b)
  {
    forall n | n in data ensures Remove(Remove(data, a), b)[n] == Remove(data, a + b)[n] {
    }
  }

  function Store(data: Data, a: Address, item: Item): Data {
    data[a.0 := (if a.0 in data then data[a.0] else map[])[a.1 := item]]
  }

  // ----- Operations -----

  function ExpiryFrom(cfg: TtlConfig, now: int): Option<int> {
    if cfg.defaultTtl.Some? then Some(now + cfg.defaultTtl.value) else None
  }

  function GetStep(data: Data, cfg: TtlConfig, a: Address, now: int): (Data, Option<Item>) {
    if !Has(data, a) then (data, None)
    else if Expired(At(data, a), now) then (Remove(data, {a}), None)
    else if cfg.refreshOnRead && cfg.defaultTtl.Some? then
      var item := At(data, a).(expiresAt := ExpiryFrom(cfg, now), updatedAt := now);
      (Store(data, a, item), Some(item))
    else (data, Some(At(data, a)))
  }

  function PutStep(data: Data, cfg: TtlConfig, a: Address, value: Json, now: int): Data {
    var createdAt := if Has(data, a) then At(data, a).createdAt else now;
    Store(data, a, Item(a.0, a.1, value, createdAt, now, ExpiryFrom(cfg, now)))
  }

  predicate StartsWith(s: string, prefix: string) {
    |prefix| <= |s| && s[..|prefix|] == prefix
  }

  predicate Selected(item: Item, ns: string, prefix: string, filter: Option<FilterExpr>, now: int) {
    && StartsWith(ns, prefix)
    && !Expired(item, now)
    && (filter.Some? ==> Evaluate(filter.value, item.value))
  }

  /** The addresses a search matches, before ordering and paging. */
  function Matching(data: Data, prefix: string, filter: Option<FilterExpr>, now: int): set<Address> {
    set a | a in Addresses(data) && Selected(At(data, a), a.0, prefix, filter, now)
  }

  function Hits(data: Data, prefix: string, filter: Option<FilterExpr>, now: int): map<Address, Item> {
    map a | a in Matching(data, prefix, filter, now) :: At(data, a)
  }

  /** How many items one sweep removes. */
  function Quota(expired: nat, max: nat): nat {
    if expired <= max then expired else max
  }

  /** What one sweep may remove: map order decides which, the cap decides how many. */
  ghost predicate SweepChoice(data: Data, cfg: TtlConfig, gone: set<Address>, now: int) {
    && gone <= ExpiredIn(data, now)
    && (cfg.sweepMaxItems >= 1 ==> |gone| == Quota(|ExpiredIn(data, now)|, cfg.sweepMaxItems))
    && (cfg.sweepMaxItems == 0 ==> |gone| <= 1)
  }

  datatype Op =
    | Get(address: Address)
    | Put(address: Address, value: Json)
    | Delete(address: Address)
    | Search(prefix: string, filter: Option<FilterExpr>)
    | ListNamespaces
    | Sweep(gone: set<Address>)

  datatype Answer =
    | Got(item: Option<Item>)
    | Done
    | Found(items: map<Address, Item>, total: nat)
    | Namespaces(names: set<string>)

  /** One operation: the new data, and the answer unless it is a sweep. */
  function Step(data: Data, cfg: TtlConfig, op: Op, now: int): (Data, seq<Answer>) {
    match op
    case Get(a) =>
      var (after, item) := GetStep(data, cfg, a, now);
      (after, [Got(item)])
    case Put(a, value) => (PutStep(data, cfg, a, value, now), [Done])
    case Delete(a) => (Remove(data, {a}), [Done])
    case Search(prefix, filter) =>
      (data, [Found(Hits(data, prefix, filter, now), |Matching(data, prefix, filter, now)|)])
    case ListNamespaces => (data, [Namespaces(data.Keys)])
    case Sweep(gone) => (Remove(data, gone), [])
  }

  datatype Event = Event(now: int, op: Op)

  function Run(cfg: TtlConfig, events: seq<Event>): (Data, seq<Answer>) {
    if events == [] then (map[], [])
    else
      var n := |events| - 1;
      var (before, answers) := Run(cfg, events[..n]);
      var (after, answer) := Step(before, cfg, events[n].op, events[n].now);
      (after, answers + answer)
  }
}

/** The store object. Its maps have no order: loops visit keys as they come. */
module MemoryStores {
  import opened Wrappers
  import opened Json
  import opened Filters
  import opened StoreModel

  class MemoryStore {
    var data: Data
    const ttlConfig: TtlConfig

    constructor (ttlConfig: TtlConfig)
      ensures data == map[] && this.ttlConfig == ttlConfig
    {
      data := map[];
      this.ttlConfig := ttlConfig;
    }

    method Get(namespace: string, key: string, now: int) returns (r: Option<Item>)
      modifies this
      ensures (data, r) == GetStep(old(data), ttlConfig, (namespace, key), now)
    {
      if namespace !in data {
        return None;
      }
      if key !in data[namespace] {
        return None;
      }
      var item := data[namespace][key];
      if Expired(item, now) {
        RemoveOne(namespace, key);
        return None;
      }
      if ttlConfig.refreshOnRead && ttlConfig.defaultTtl.Some? {
        var refreshed := item.(expiresAt := Some(now + ttlConfig.defaultTtl.value), updatedAt := now);
        data := data[namespace := data[namespace][key := refreshed]];
        return Some(refreshed);
      }
      return Some(item);
    }

    method Put(namespace: string, key: string, value: Json, now: int)
      modifies this
      ensures data == PutStep(old(data), ttlConfig, (namespace, key), value, now)
    {
      var expiresAt := if ttlConfig.defaultTtl.Some? then Some(now + ttlConfig.defaultTtl.value) else None;
      var namespaceMap := if namespace in data then data[namespace] else map[];
      var createdAt := if key in namespaceMap then namespaceMap[key].createdAt else now;
      var item := Item(namespace, key, value, createdAt, now, expiresAt);
      data := data[namespace := namespaceMap[key := item]];
    }

    method Delete(namespace: string, key: string)
      modifies this
      ensures data == Remove(old(data), {(namespace, key)})
    {
      RemoveOne(namespace, key);
    }

    method RemoveOne(namespace: string, key: string)
      modifies this
      ensures data == Remove(old(data), {(namespace, key)})
    {
      RemoveOneNamespace(data, namespace, key);
      if namespace in data {
        data := data[namespace := data[namespace] - {key}];
      }
    }

    /** Gathers the matches in map order, then pages. */
    method Search(prefix: string, filter: Option<FilterExpr>, limit: nat, offset: nat, now: int)
      returns (page: seq<Item>, total: nat, ghost order: seq<Address>)
      ensures forall a :: a in order <==> a in Matching(data, prefix, filter, now)
      ensures forall i, j :: 0 <= i < j < |order| ==> order[i] != order[j]
      ensures total == |order|
      ensures var start := if offset <= |order| then offset else |order|;
        var end := if start + limit <= |order| then start + limit else |order|;
        && |page| == end - start
        && forall i :: 0 <= i < |page| ==> Has(data, order[start + i]) && page[i] == At(data, order[start + i])
    {
      var results: seq<Item> := [];
      order := [];
      var namespaces := data.Keys;
      while namespaces != {}
        invariant namespaces <= data.Keys
        invariant Gathered(order, results, prefix, filter, now)
        invariant forall a :: a in order <==> a in Matching(data, prefix, filter, now) && a.0 !in namespaces
      {
        var namespace :| namespace in namespaces;
        var rest := namespaces - {namespace};
        if StartsWith(namespace, prefix) {
          var keys := data[namespace].Keys;
          while keys != {}
            invariant keys <= data[namespace].Keys
            invariant Gathered(order, results, prefix, filter, now)
            invariant forall a :: a in order <==>
              a in Matching(data, prefix, filter, now) && a.0 !in rest && !(a.0 == namespace && a.1 in keys)
          {
            var key :| key in keys;
            keys := keys - {key};
            var item := data[namespace][key];
            if Expired(item, now) {
              continue;
            }
            if filter.Some? && !Evaluate(filter.value, item.value) {
              continue;
            }
            results := results + [item];
            order := order + [(namespace, key)];
          }
        }
        namespaces := rest;
      }
      total := |results|;
      var start := if offset <= |results| then offset else |results|;
      var end := if start + limit <= |results| then start + limit else |results|;
      page := results[start..end];
    }

    ghost predicate Gathered(
        order: seq<Address>, results: seq<Item>, prefix: string, filter: Option<FilterExpr>, now: int)
      reads this
    {
      && |order| == |results|
      && (forall i :: 0 <= i < |order| ==> Has(data, order[i]) && results[i] == At(data, order[i]))
      && (forall i, j :: 0 <= i < j < |order| ==> order[i] != order[j])
    }

    /** Collects at most `sweepMaxItems` expired keys, then removes them. */
    method SweepExpiredItems(now: int) returns (count: nat, ghost gone: set<Address>)
      modifies this
      ensures SweepChoice(old(data), ttlConfig, gone, now)
      ensures data == Remove(old(data), gone) && count == |gone|
    {
      var keysToRemove;
      count, keysToRemove := CollectExpired(now);
      gone := SetOf(keysToRemove);
      RemoveAll(keysToRemove);
    }

    /** Visits every namespace and key, leaving both loops as soon as the cap is reached. */
    method CollectExpired(now: int) returns (count: nat, keysToRemove: seq<Address>)
      ensures SweepChoice(data, ttlConfig, SetOf(keysToRemove), now) && count == |SetOf(keysToRemove)|
    {
      count, keysToRemove := 0, [];
      var namespaces := data.Keys;
      while namespaces != {}
        invariant namespaces <= data.Keys
        invariant Collected(keysToRemove, count, now)
        invariant BelowCap(count)
        invariant forall a :: a in keysToRemove ==> a.0 !in namespaces
        invariant forall a :: a in ExpiredIn(data, now) && a.0 !in namespaces ==> a in keysToRemove
        invariant ttlConfig.sweepMaxItems == 0 ==> namespaces == data.Keys
      {
        var namespace :| namespace in namespaces;
        var rest := namespaces - {namespace};
        var keys := data[namespace].Keys;
        while keys != {}
          invariant keys <= data[namespace].Keys
          invariant Collected(keysToRemove, count, now)
          invariant BelowCap(count)
          invariant forall a :: a in keysToRemove ==> a.0 !in rest && !(a.0 == namespace && a.1 in keys)
          invariant forall a :: a in ExpiredIn(data, now) && a.0 !in rest ==>
            a in keysToRemove || (a.0 == namespace && a.1 in keys)
        {
          var key :| key in keys;
          keys := keys - {key};
          if Expired(data[namespace][key], now) {
            CollectOne(keysToRemove, count, (namespace, key), now);
            keysToRemove := keysToRemove + [(namespace, key)];
            count := count + 1;
            if count >= ttlConfig.sweepMaxItems {
              break;
            }
          }
        }
        if count >= ttlConfig.sweepMaxItems {
          break;
        }
        namespaces := rest;
      }
      AllOrQuota(SetOf(keysToRemove), now);
    }

    lemma CollectOne(keys: seq<Address>, count: nat, a: Address, now: int)
      requires Collected(keys, count, now) && a !in keys && Has(data, a) && Expired(At(data, a), now)
      ensures Collected(keys + [a], count + 1, now)
    {
      assert a in ExpiredIn(data, now);
      assert SetOf(keys + [a]) == SetOf(keys) + {a};
    }

    method RemoveAll(keysToRemove: seq<Address>)
      modifies this
      ensures data == Remove(old(data), SetOf(keysToRemove))
    {
      ghost var start := data;
      RemoveNone(start);
      assert SetOf(keysToRemove[..0]) == {};
      for i := 0 to |keysToRemove|
        invariant data == Remove(start, SetOf(keysToRemove[..i]))
      {
        var (namespace, key) := keysToRemove[i];
        RemoveTwice(start, SetOf(keysToRemove[..i]), {(namespace, key)});
        assert SetOf(keysToRemove[..i + 1]) == SetOf(keysToRemove[..i]) + {(namespace, key)};
        RemoveOne(namespace, key);
      }
      assert keysToRemove[..|keysToRemove|] == keysToRemove;
    }

    static function SetOf(keys: seq<Address>): set<Address> {
      set a | a in keys
    }

    ghost predicate Collected(keys: seq<Address>, count: nat, now: int)
      reads this
    {
      SetOf(keys) <= ExpiredIn(data, now) && |SetOf(keys)| == count
    }

    /** Between rounds the cap is not reached; a zero cap stops at the first key or namespace. */
    ghost predicate BelowCap(count: nat) {
      count == 0 || count < ttlConfig.sweepMaxItems
    }

    lemma AllOrQuota(gone: set<Address>, now: int)
      requires gone <= ExpiredIn(data, now)
      ensures |gone| <= |ExpiredIn(data, now)|
      ensures ExpiredIn(data, now) <= gone ==> |gone| == |ExpiredIn(data, now)|
    {
      var all := ExpiredIn(data, now);
      assert |all| == |gone| + |all - gone| by {
        assert all == gone + (all - gone);
      }
      if all <= gone {
        assert all == gone;
      }
    }
  }
}
