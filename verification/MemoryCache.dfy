/** The LRU container: a recency list, most recent first, over a map of entries. */
module LruCaches {
  import opened Wrappers
  import opened Seqs

  /** `expiresAt` is the instant from which the entry counts as expired; `None` never expires. */
  datatype CacheEntry = CacheEntry(data: seq<bv8>, expiresAt: Option<int>)

  predicate Expired(e: CacheEntry, now: int) {
    e.expiresAt.Some? && now >= e.expiresAt.value
  }

  datatype Lru = Lru(capacity: nat, recency: seq<string>, entries: map<string, CacheEntry>) {

    /** List and map hold the same keys, each once, and no more than the capacity. */
    ghost predicate Valid() {
      && Distinct(recency)
      && (forall k :: k in recency <==> k in entries)
      && |recency| <= capacity
      && capacity > 0
    }
  }

  function EmptyLru(capacity: nat): Lru {
    Lru(capacity, [], map[])
  }

  function Not(k: string): string -> bool {
    x => x != k
  }

  function In(keys: set<string>): string -> bool {
    x => x in keys
  }

  function Without(s: seq<string>, k: string): seq<string> {
    Filter(s, Not(k))
  }

  /** `LruCache::pop`. */
  function Pop(c: Lru, k: string): Lru {
    Lru(c.capacity, Without(c.recency, k), c.entries - {k})
  }

  /** `LruCache::get_mut` on a present key: it becomes the most recent. */
  function Promote(c: Lru, k: string): Lru {
    c.(recency := [k] + Without(c.recency, k))
  }

  /** Making room for `k`: a full cache without it loses its least recent key. */
  function Room(c: Lru, k: string): Lru {
    if k !in c.entries && |c.recency| >= c.capacity && c.recency != []
    then Pop(c, c.recency[|c.recency| - 1]) else c
  }

  /** The key placed first, nothing evicted. */
  function Front(c: Lru, k: string, e: CacheEntry): Lru {
    Lru(c.capacity, [k] + Without(c.recency, k), c.entries[k := e])
  }

  /** `LruCache::put`: replaces in place, or evicts the least recent when full, then becomes the most recent. */
  function Insert(c: Lru, k: string, e: CacheEntry): Lru {
    Front(Room(c, k), k, e)
  }

  /** Everything but the keys in `keep` popped. */
  function Restrict(c: Lru, keep: set<string>): Lru {
    Lru(c.capacity, Filter(c.recency, In(keep)), map k | k in c.entries && k in keep :: c.entries[k])
  }

  // ----- Facts about key lists -----

  lemma WithoutDistinct(s: seq<string>, k: string)
    requires Distinct(s)
    ensures Distinct(Without(s, k))
    ensures |Without(s, k)| == if k in s then |s| - 1 else |s|
  {
    FilterDistinct(s, Not(k));
    if s != [] {
      assert Distinct(s[1..]);
      assert s[0] !in s[1..];
      if s[0] == k {
        FilterAll(s[1..], Not(k));
      } else {
        WithoutDistinct(s[1..], k);
      }
    }
  }

  lemma PopValid(c: Lru, k: string)
    requires c.Valid()
    ensures Pop(c, k).Valid() && Pop(c, k) == Restrict(c, c.entries.Keys - {k})
  {
    WithoutDistinct(c.recency, k);
    FilterCongruence(c.recency, Not(k), In(c.entries.Keys - {k}));
  }

  lemma PromoteValid(c: Lru, k: string)
    requires c.Valid() && k in c.entries
    ensures Promote(c, k).Valid() && |Promote(c, k).recency| == |c.recency|
  {
    WithoutDistinct(c.recency, k);
  }

  lemma WholeRestrict(c: Lru)
    requires c.Valid()
    ensures Restrict(c, c.entries.Keys) == c
  {
    FilterAll(c.recency, In(c.entries.Keys));
  }

  /** The keys left after making room. */
  function RoomKeys(c: Lru, k: string): set<string> {
    if k !in c.entries && |c.recency| >= c.capacity && c.recency != []
    then c.entries.Keys - {c.recency[|c.recency| - 1]} else c.entries.Keys
  }

  lemma RoomIsRestrict(c: Lru, k: string)
    requires c.Valid()
    ensures Room(c, k) == Restrict(c, RoomKeys(c, k))
  {
    if Room(c, k) == c {
      WholeRestrict(c);
    }
    if c.recency != [] {
      PopValid(c, c.recency[|c.recency| - 1]);
    }
  }

  lemma RoomValid(c: Lru, k: string)
    requires c.Valid()
    ensures Room(c, k).Valid() && Room(c, k).capacity == c.capacity
    ensures k in Room(c, k).entries <==> k in c.entries
    ensures |Room(c, k).recency| == if k !in c.entries && |c.recency| == c.capacity then |c.recency| - 1 else |c.recency|
  {
    if k !in c.entries && |c.recency| >= c.capacity {
      var last := c.recency[|c.recency| - 1];
      PopValid(c, last);
      WithoutDistinct(c.recency, last);
    }
  }

  lemma FrontValid(c: Lru, k: string, e: CacheEntry)
    requires c.Valid() && (k in c.entries || |c.recency| < c.capacity)
    ensures Front(c, k, e).Valid()
    ensures |Front(c, k, e).recency| == if k in c.entries then |c.recency| else |c.recency| + 1
  {
    WithoutDistinct(c.recency, k);
  }

  lemma InsertValid(c: Lru, k: string, e: CacheEntry)
    requires c.Valid()
    ensures Insert(c, k, e).Valid() && Insert(c, k, e).capacity == c.capacity
  {
    hide Room, Front;
    RoomValid(c, k);
    FrontValid(Room(c, k), k, e);
    FrontCapacity(Room(c, k), k, e);
  }

  lemma FrontCapacity(c: Lru, k: string, e: CacheEntry)
    ensures Front(c, k, e).capacity == c.capacity
  {
  }

  lemma RestrictValid(c: Lru, keep: set<string>)
    requires c.Valid()
    ensures Restrict(c, keep).Valid()
  {
    FilterDistinct(c.recency, In(keep));
  }

  lemma RestrictTwice(c: Lru, a: set<string>, b: set<string>)
    ensures Restrict(Restrict(c, a), b) == Restrict(c, a * b)
  {
    FilterFilter(c.recency, a, b);
  }

  lemma FilterFilter(s: seq<string>, a: set<string>, b: set<string>)
    ensures Filter(Filter(s, In(a)), In(b)) == Filter(s, In(a * b))
  {
    if s != [] {
      FilterFilter(s[1..], a, b);
    }
  }
}

/** The cache in front of the checkpoint store, and its operations. */
module CacheModel {
  import opened Wrappers
  import opened LruCaches

  type Bytes = seq<bv8>

  function BuildKey(namespace: string, key: string): string {
    namespace + ":" + key
  }

  /** A read takes two clock readings: one for the purge, one for the entry itself. */
  datatype Op =
    | Get(namespace: string, key: string, purgeAt: int, readAt: int)
    | Set(namespace: string, key: string, value: Bytes, ttl: Option<nat>, now: int)
    | Delete(namespace: string, key: string)
    | Clear(only: Option<string>)

  predicate IsPrefix(prefix: string, s: string) {
    |prefix| <= |s| && s[..|prefix|] == prefix
  }

  function LiveKeys(entries: map<string, CacheEntry>, now: int): set<string> {
    set k | k in entries && !Expired(entries[k], now)
  }

  function KeysOutside(entries: map<string, CacheEntry>, prefix: string): set<string> {
    set k | k in entries && !IsPrefix(prefix, k)
  }

  function Purge(c: Lru, now: int): Lru {
    Restrict(c, LiveKeys(c.entries, now))
  }

  function EntryFor(value: Bytes, ttl: Option<nat>, defaultTtl: Option<nat>, now: int): CacheEntry {
    var chosen := if ttl.Some? then ttl else defaultTtl;
    CacheEntry(value, if chosen.Some? then Some(now + chosen.value) else None)
  }

  /** A read after its purge: a present key is promoted, and popped if it has expired meanwhile. */
  function Read(clean: Lru, k: string, readAt: int): (Lru, Option<Bytes>) {
    if k !in clean.entries then (clean, None)
    else if Expired(clean.entries[k], readAt) then (Pop(Promote(clean, k), k), None)
    else (Promote(clean, k), Some(clean.entries[k].data))
  }

  /** One operation: the new cache and, for a read that hits, the bytes. */
  function Step(c: Lru, defaultTtl: Option<nat>, op: Op): (Lru, Option<Bytes>) {
    match op
    case Get(namespace, key, purgeAt, readAt) =>
      Read(Purge(c, purgeAt), BuildKey(namespace, key), readAt)
    case Set(namespace, key, value, ttl, now) =>
      (Insert(c, BuildKey(namespace, key), EntryFor(value, ttl, defaultTtl, now)), None)
    case Delete(namespace, key) => (Pop(c, BuildKey(namespace, key)), None)
    case Clear(only) =>
      (if only.Some? then Restrict(c, KeysOutside(c.entries, only.value + ":")) else EmptyLru(c.capacity), None)
  }

  function Run(c: Lru, defaultTtl: Option<nat>, ops: seq<Op>): (r: (Lru, seq<Option<Bytes>>))
    ensures |r.1| == |ops|
  {
    if ops == [] then (c, [])
    else
      var n := |ops| - 1;
      var (before, answers) := Run(c, defaultTtl, ops[..n]);
      var (after, answer) := Step(before, defaultTtl, ops[n]);
      (after, answers + [answer])
  }

  lemma StepValid(c: Lru, defaultTtl: Option<nat>, op: Op)
    requires c.Valid()
    ensures Step(c, defaultTtl, op).0.Valid()
    ensures Step(c, defaultTtl, op).0.capacity == c.capacity
  {
    hide Insert, EntryFor;
    match op
    case Get(namespace, key, purgeAt, readAt) =>
      var k := BuildKey(namespace, key);
      var clean := Purge(c, purgeAt);
      RestrictValid(c, LiveKeys(c.entries, purgeAt));
      if k in clean.entries {
        PromoteValid(clean, k);
        PopValid(Promote(clean, k), k);
      }
    case Set(namespace, key, value, ttl, now) =>
      InsertValid(c, BuildKey(namespace, key), EntryFor(value, ttl, defaultTtl, now));
    case Delete(namespace, key) =>
      PopValid(c, BuildKey(namespace, key));
    case Clear(only) =>
      if only.Some? {
        RestrictValid(c, KeysOutside(c.entries, only.value + ":"));
      }
  }

  /** In every reachable state the recency list and the map are in bijection, within the capacity. */
  lemma {:induction false} RunValid(capacity: nat, defaultTtl: Option<nat>, ops: seq<Op>)
    requires capacity > 0
    ensures var c := Run(EmptyLru(capacity), defaultTtl, ops).0;
      c.Valid() && c.capacity == capacity
  {
    if ops != [] {
      var n := |ops| - 1;
      RunValid(capacity, defaultTtl, ops[..n]);
      StepValid(Run(EmptyLru(capacity), defaultTtl, ops[..n]).0, defaultTtl, ops[n]);
    }
  }
}

/** The cache object; its entries change in place. */
module MemoryCaches {
  import opened Wrappers
  import opened Seqs
  import opened LruCaches
  import opened CacheModel

  class MemoryCache {
    var entries: Lru
    const defaultTtl: Option<nat>

    constructor (capacity: nat, defaultTtl: Option<nat>)
      requires capacity > 0
      ensures entries == EmptyLru(capacity) && entries.Valid() && this.defaultTtl == defaultTtl
    {
      entries := EmptyLru(capacity);
      this.defaultTtl := defaultTtl;
    }

    /** Pops the given keys, one after the other. */
    method PopAll(keys: seq<string>)
      requires entries.Valid()
      modifies this
      ensures entries.Valid()
      ensures entries == Restrict(old(entries), old(entries).entries.Keys - (set k | k in keys))
    {
      hide Restrict, Pop;
      ghost var start := entries;
      ghost var left := start.entries.Keys;
      WholeRestrict(start);
      for i := 0 to |keys|
        invariant entries.Valid()
        invariant left == start.entries.Keys - (set k | k in keys[..i])
        invariant entries == Restrict(start, left)
      {
        PopStep(start, left, keys[i]);
        assert keys[..i + 1] == keys[..i] + [keys[i]];
        entries := Pop(entries, keys[i]);
        left := left - {keys[i]};
      }
      assert keys[..|keys|] == keys;
    }

    /** One more key popped from what is left. */
    lemma PopStep(start: Lru, left: set<string>, k: string)
      requires start.Valid() && left <= start.entries.Keys && Restrict(start, left).Valid()
      ensures Pop(Restrict(start, left), k).Valid() && Pop(Restrict(start, left), k) == Restrict(start, left - {k})
    {
      var c := Restrict(start, left);
      PopValid(c, k);
      assert c.entries.Keys == left;
      RestrictTwice(start, left, left - {k});
      assert left * (left - {k}) == left - {k};
    }

    /** Collects the expired keys without promoting any, then pops them. */
    method PurgeExpired(now: int)
      requires entries.Valid()
      modifies this
      ensures entries.Valid() && entries == Purge(old(entries), now)
    {
      var cache := entries;
      var expiredKeys := Filter(cache.recency, k => k in cache.entries && Expired(cache.entries[k], now));
      PopAll(expiredKeys);
      assert cache.entries.Keys - (set k | k in expiredKeys) == LiveKeys(cache.entries, now);
    }

    method Get(namespace: string, key: string, purgeAt: int, readAt: int) returns (r: Option<Bytes>)
      requires entries.Valid()
      modifies this
      ensures entries.Valid()
      ensures (entries, r) == Step(old(entries), defaultTtl, Op.Get(namespace, key, purgeAt, readAt))
    {
      StepValid(entries, defaultTtl, Op.Get(namespace, key, purgeAt, readAt));
      PurgeExpired(purgeAt);
      var cacheKey := BuildKey(namespace, key);
      if cacheKey in entries.entries {
        entries := Promote(entries, cacheKey);
        var entry := entries.entries[cacheKey];
        if Expired(entry, readAt) {
          entries := Pop(entries, cacheKey);
          return None;
        }
        return Some(entry.data);
      }
      return None;
    }

    method Set(namespace: string, key: string, value: Bytes, ttl: Option<nat>, now: int)
      requires entries.Valid()
      modifies this
      ensures entries.Valid()
      ensures entries == Step(old(entries), defaultTtl, Op.Set(namespace, key, value, ttl, now)).0
    {
      hide Insert;
      StepValid(entries, defaultTtl, Op.Set(namespace, key, value, ttl, now));
      var cacheKey := BuildKey(namespace, key);
      var chosen := if ttl.Some? then ttl else defaultTtl;
      var entry := CacheEntry(value, if chosen.Some? then Some(now + chosen.value) else None);
      entries := Insert(entries, cacheKey, entry);
    }

    method Delete(namespace: string, key: string)
      requires entries.Valid()
      modifies this
      ensures entries.Valid()
      ensures entries == Step(old(entries), defaultTtl, Op.Delete(namespace, key)).0
    {
      StepValid(entries, defaultTtl, Op.Delete(namespace, key));
      entries := Pop(entries, BuildKey(namespace, key));
    }

    method Clear(only: Option<string>)
      requires entries.Valid()
      modifies this
      ensures entries.Valid()
      ensures entries == Step(old(entries), defaultTtl, Op.Clear(only)).0
    {
      if only.Some? {
        var prefix := only.value + ":";
        var cache := entries;
        var keysToRemove := Filter(cache.recency, k => IsPrefix(prefix, k));
        PopAll(keysToRemove);
        assert cache.entries.Keys - (set k | k in keysToRemove) == KeysOutside(cache.entries, prefix);
      } else {
        entries := EmptyLru(entries.capacity);
      }
    }
  }
}
