/** A larger cache never does worse: capacity monotonicity over whole traces. */
module CacheCapacity {
  import opened Wrappers
  import opened Seqs
  import opened LruCaches
  import opened CacheModel

  /** The smaller cache is the larger one restricted to fewer keys: same entries, same relative recency. */
  ghost predicate Within(small: Lru, large: Lru) {
    && small.Valid() && large.Valid()
    && (forall k :: k in small.entries ==> k in large.entries && large.entries[k] == small.entries[k])
    && small.recency == Filter(large.recency, In(small.entries.Keys))
  }

  /** What a larger cache holds beyond a smaller one never exceeds the difference of their capacities. */
  ghost predicate Nested(small: Lru, large: Lru) {
    && Within(small, large)
    && small.capacity <= large.capacity
    && |large.recency| - |small.recency| <= large.capacity - small.capacity
  }

  /** Of the keys outside `a`, a filter keeps at most all. */
  lemma {:induction false} FilterGap(s: seq<string>, a: set<string>, b: set<string>)
    ensures |Filter(s, In(b))| - |Filter(s, In(a * b))| <= |s| - |Filter(s, In(a))|
  {
    if s != [] {
      FilterGap(s[1..], a, b);
    }
  }

  lemma WithinRestrict(small: Lru, large: Lru, a: set<string>, b: set<string>)
    requires Within(small, large) && a * small.entries.Keys <= b
    ensures Within(Restrict(small, a), Restrict(large, b))
  {
    RestrictValid(small, a);
    RestrictValid(large, b);
    var keys := small.entries.Keys;
    assert Restrict(small, a).entries.Keys == keys * a;
    FilterFilter(large.recency, keys, a);
    FilterFilter(large.recency, b, keys * a);
    assert b * (keys * a) == keys * a;
  }

  lemma NestedRestrict(small: Lru, large: Lru, b: set<string>)
    requires Nested(small, large)
    ensures Nested(Restrict(small, b), Restrict(large, b))
  {
    WithinRestrict(small, large, b, b);
    FilterGap(large.recency, small.entries.Keys, b);
    FilterFilter(large.recency, small.entries.Keys, b);
  }

  lemma NestedPop(small: Lru, large: Lru, k: string)
    requires Nested(small, large)
    ensures Nested(Pop(small, k), Pop(large, k))
  {
    var a, b := small.entries.Keys - {k}, large.entries.Keys - {k};
    PopValid(large, k);
    PopValid(small, k);
    assert a == small.entries.Keys * b;
    hide Pop, Restrict;
    NestedSelect(small, large, a, b);
  }

  /** Moving a key to the front of the larger list moves it in the restricted list too, if it is there. */
  lemma RestrictedFront(s: seq<string>, k: string, a: set<string>)
    ensures Filter([k] + Without(s, k), In(a))
         == if k in a then [k] + Without(Filter(s, In(a)), k) else Filter(s, In(a))
  {
    FilterWithout(s, a, k);
    if k !in a {
      FilterAll(Filter(s, In(a)), Not(k));
    }
  }

  /** Reading a key the smaller cache may lack. */
  lemma NestedPromote(small: Lru, large: Lru, k: string)
    requires Nested(small, large) && k in large.entries
    ensures Nested(if k in small.entries then Promote(small, k) else small, Promote(large, k))
  {
    if k in small.entries {
      PromoteBoth(small, large, k);
    } else {
      PromoteLarger(small, large, k);
    }
  }

  lemma PromoteBoth(small: Lru, large: Lru, k: string)
    requires Nested(small, large) && k in small.entries
    ensures Nested(Promote(small, k), Promote(large, k))
  {
    PromoteValid(small, k);
    PromoteValid(large, k);
    RestrictedFront(large.recency, k, small.entries.Keys);
    hide Without, Lru.Valid;
  }

  lemma PromoteLarger(small: Lru, large: Lru, k: string)
    requires Nested(small, large) && k in large.entries && k !in small.entries
    ensures Nested(small, Promote(large, k))
  {
    PromoteValid(large, k);
    RestrictedFront(large.recency, k, small.entries.Keys);
    hide Without, Lru.Valid;
  }

  lemma FilterWithout(s: seq<string>, a: set<string>, k: string)
    ensures Filter(Without(s, k), In(a)) == Without(Filter(s, In(a)), k)
  {
    if s != [] {
      FilterWithout(s[1..], a, k);
    }
  }

  lemma WithinFront(small: Lru, large: Lru, k: string, e: CacheEntry)
    requires Within(small, large) && Front(small, k, e).Valid() && Front(large, k, e).Valid()
    ensures Within(Front(small, k, e), Front(large, k, e))
  {
    var keys := small.entries.Keys + {k};
    assert Front(small, k, e).entries.Keys == keys;
    RestrictedFront(large.recency, k, keys);
    FilterWithout(large.recency, keys, k);
    FilterWithout(large.recency, small.entries.Keys, k);
    FilterCongruence(Without(large.recency, k), In(keys), In(small.entries.Keys));
  }

  /** Eviction cannot separate the two: when both evict a shared last key, it is the same key. */
  lemma WithinRoom(small: Lru, large: Lru, k: string)
    requires Nested(small, large)
    ensures Within(Room(small, k), Room(large, k))
  {
    var a, b := RoomKeys(small, k), RoomKeys(large, k);
    RoomIsRestrict(small, k);
    RoomIsRestrict(large, k);
    RoomKeysNested(small, large, k);
    WithinRestrict(small, large, a, b);
  }

  lemma RoomKeysNested(small: Lru, large: Lru, k: string)
    requires Nested(small, large)
    ensures RoomKeys(small, k) <= RoomKeys(large, k)
  {
    if large.recency != [] && large.recency[|large.recency| - 1] in small.entries {
      LastShared(small, large);
    }
  }

  lemma LastShared(small: Lru, large: Lru)
    requires Within(small, large) && large.recency != [] && large.recency[|large.recency| - 1] in small.entries
    ensures small.recency != [] && small.recency[|small.recency| - 1] == large.recency[|large.recency| - 1]
  {
    var n := |large.recency| - 1;
    var p := In(small.entries.Keys);
    assert large.recency == large.recency[..n] + [large.recency[n]];
    FilterConcat(large.recency[..n], [large.recency[n]], p);
  }

  lemma NestedInsert(small: Lru, large: Lru, k: string, e: CacheEntry)
    requires Nested(small, large)
    ensures Nested(Insert(small, k, e), Insert(large, k, e))
  {
    hide Room, Front, Without;
    RoomValid(small, k);
    RoomValid(large, k);
    WithinRoom(small, large, k);
    InsertValid(small, k, e);
    InsertValid(large, k, e);
    FrontValid(Room(small, k), k, e);
    FrontValid(Room(large, k), k, e);
    WithinFront(Room(small, k), Room(large, k), k, e);
  }

  lemma StepGetNested(small: Lru, large: Lru, k: string, readAt: int)
    requires Nested(small, large)
    ensures Nested(Read(small, k, readAt).0, Read(large, k, readAt).0)
    ensures Read(small, k, readAt).1.Some? ==> Read(large, k, readAt).1 == Read(small, k, readAt).1
  {
    if k in large.entries {
      NestedPromote(small, large, k);
      var s := if k in small.entries then Promote(small, k) else small;
      NestedPop(s, Promote(large, k), k);
      if k !in small.entries {
        PopAbsent(small, k);
      }
    }
  }

  lemma StepNested(small: Lru, large: Lru, defaultTtl: Option<nat>, op: Op)
    requires Nested(small, large)
    ensures var (small', a) := Step(small, defaultTtl, op);
      var (large', b) := Step(large, defaultTtl, op);
      Nested(small', large') && (a.Some? ==> b == a)
  {
    hide Nested, Read, Insert, Pop, Purge;
    match op
    case Get(namespace, key, purgeAt, readAt) =>
      var k := BuildKey(namespace, key);
      NestedPurge(small, large, purgeAt);
      StepGetNested(Purge(small, purgeAt), Purge(large, purgeAt), k, readAt);
    case Set(namespace, key, value, ttl, now) =>
      NestedInsert(small, large, BuildKey(namespace, key), EntryFor(value, ttl, defaultTtl, now));
    case Delete(namespace, key) =>
      NestedPop(small, large, BuildKey(namespace, key));
    case Clear(only) =>
      NestedClear(small, large, only);
  }

  lemma NestedClear(small: Lru, large: Lru, only: Option<string>)
    requires Nested(small, large)
    ensures Nested(Step(small, None, Clear(only)).0, Step(large, None, Clear(only)).0)
  {
    hide Nested, EmptyLru, Restrict, KeysOutside, Read, Purge, Insert, Pop;
    if only.Some? {
      NestedClearPrefix(small, large, only.value + ":");
    } else {
      NestedEmpty(small, large);
    }
  }

  lemma NestedEmpty(small: Lru, large: Lru)
    requires Nested(small, large)
    ensures Nested(EmptyLru(small.capacity), EmptyLru(large.capacity))
  {
    assert 0 < small.capacity <= large.capacity;
    EmptyNested(small.capacity, large.capacity);
    hide Nested, EmptyLru;
  }

  lemma NestedClearPrefix(small: Lru, large: Lru, prefix: string)
    requires Nested(small, large)
    ensures Nested(
      Restrict(small, KeysOutside(small.entries, prefix)), Restrict(large, KeysOutside(large.entries, prefix)))
  {
    hide Restrict;
    var a, b := KeysOutside(small.entries, prefix), KeysOutside(large.entries, prefix);
    assert a == small.entries.Keys * b;
    hide Nested, KeysOutside;
    NestedSelect(small, large, a, b);
  }

  lemma PopAbsent(c: Lru, k: string)
    requires c.Valid() && k !in c.entries
    ensures Pop(c, k) == c
  {
    FilterAll(c.recency, Not(k));
  }

  lemma NestedPurge(small: Lru, large: Lru, now: int)
    requires Nested(small, large)
    ensures Nested(Purge(small, now), Purge(large, now))
  {
    NestedSelect(small, large, LiveKeys(small.entries, now), LiveKeys(large.entries, now));
  }

  /** Keeping keys by a rule that treats both caches alike. */
  lemma NestedSelect(small: Lru, large: Lru, a: set<string>, b: set<string>)
    requires Nested(small, large) && a == small.entries.Keys * b
    ensures Nested(Restrict(small, a), Restrict(large, b))
  {
    NestedRestrict(small, large, b);
    RestrictAlike(small, a, b);
    hide Nested, Restrict;
  }

  lemma RestrictAlike(c: Lru, a: set<string>, b: set<string>)
    requires c.Valid() && a == c.entries.Keys * b
    ensures Restrict(c, a) == Restrict(c, b)
  {
    assert forall k :: k in c.recency ==> In(a)(k) == In(b)(k);
    FilterCongruence(c.recency, In(a), In(b));
  }

  lemma EmptyNested(n: nat, m: nat)
    requires 0 < n <= m
    ensures Nested(EmptyLru(n), EmptyLru(m))
  {
  }

  lemma {:induction false} RunNested(n: nat, m: nat, defaultTtl: Option<nat>, ops: seq<Op>)
    requires 0 < n <= m
    ensures var (small, a) := Run(EmptyLru(n), defaultTtl, ops);
      var (large, b) := Run(EmptyLru(m), defaultTtl, ops);
      Nested(small, large) && forall i :: 0 <= i < |ops| && a[i].Some? ==> b[i] == a[i]
  {
    hide Nested, Step;
    if ops == [] {
      assert Run(EmptyLru(n), defaultTtl, ops) == (EmptyLru(n), []);
      assert Run(EmptyLru(m), defaultTtl, ops) == (EmptyLru(m), []);
      EmptyNested(n, m);
    } else {
      var k := |ops| - 1;
      RunNested(n, m, defaultTtl, ops[..k]);
      StepNested(Run(EmptyLru(n), defaultTtl, ops[..k]).0, Run(EmptyLru(m), defaultTtl, ops[..k]).0, defaultTtl, ops[k]);
    }
  }

  /** On one trace with purges, deletes and clears, every hit of the smaller cache is the same hit in the larger one. */
  lemma HitsGrowWithCapacity(n: nat, m: nat, defaultTtl: Option<nat>, ops: seq<Op>, i: nat)
    requires 0 < n <= m && i < |ops|
    requires Run(EmptyLru(n), defaultTtl, ops).1[i].Some?
    ensures Run(EmptyLru(m), defaultTtl, ops).1[i] == Run(EmptyLru(n), defaultTtl, ops).1[i]
  {
    RunNested(n, m, defaultTtl, ops);
  }
}

/** How long a key stays: retention as a function of what else is used. */
module CacheRetention {
  import opened Wrappers
  import opened Seqs
  import opened LruCaches
  import opened CacheModel

  /** The keys more recent than `k`. */
  ghost function Before(s: seq<string>, k: string): seq<string> {
    if s == [] || s[0] == k then [] else [s[0]] + Before(s[1..], k)
  }

  ghost function Keys(s: seq<string>): set<string> {
    set k | k in s
  }

  lemma BeforeFilter(s: seq<string>, k: string, p: string -> bool)
    requires p(k)
    ensures Before(Filter(s, p), k) == Filter(Before(s, k), p)
  {
    if s != [] && s[0] != k {
      BeforeFilter(s[1..], k, p);
    }
  }

  lemma BeforeLast(s: seq<string>, k: string)
    requires Distinct(s) && s != [] && s[|s| - 1] == k
    ensures |Before(s, k)| == |s| - 1
  {
    if |s| > 1 {
      assert Distinct(s[1..]) && s[0] != k;
      BeforeLast(s[1..], k);
    }
  }

  lemma BeforeDistinct(s: seq<string>, k: string)
    requires Distinct(s)
    ensures Distinct(Before(s, k)) && forall x :: x in Before(s, k) ==> x in s && x != k
  {
    if s != [] && s[0] != k {
      assert Distinct(s[1..]) && s[0] !in s[1..];
      BeforeDistinct(s[1..], k);
    }
  }

  lemma {:induction false} KeysCount(s: seq<string>)
    requires Distinct(s)
    ensures |Keys(s)| == |s|
  {
    if s != [] {
      assert Distinct(s[1..]) && s[0] !in s[1..];
      KeysCount(s[1..]);
      assert Keys(s) == {s[0]} + Keys(s[1..]);
    }
  }

  /** Key `k` is cached with entry `e`, and only keys in `used` are more recent. */
  ghost predicate Holds(c: Lru, k: string, e: CacheEntry, used: set<string>) {
    c.Valid() && k in c.entries && c.entries[k] == e && Keys(Before(c.recency, k)) <= used
  }

  /** The operation neither removes nor replaces `k`, and does not find it expired. */
  ghost predicate Spares(op: Op, k: string, e: CacheEntry) {
    match op
    case Get(namespace, key, purgeAt, readAt) =>
      !Expired(e, purgeAt) && (BuildKey(namespace, key) == k ==> !Expired(e, readAt))
    case Set(namespace, key, _, _, _) => BuildKey(namespace, key) != k
    case Delete(namespace, key) => BuildKey(namespace, key) != k
    case Clear(only) => only.Some? && !IsPrefix(only.value + ":", k)
  }

  /** The key an operation moves to the front: one it sets, or one it reads successfully. */
  ghost function Uses(c: Lru, defaultTtl: Option<nat>, op: Op): set<string> {
    match op
    case Get(namespace, key, _, _) =>
      if Step(c, defaultTtl, op).1.Some? then {BuildKey(namespace, key)} else {}
    case Set(namespace, key, _, _, _) => {BuildKey(namespace, key)}
    case _ => {}
  }

  /**
   * No operation of the trace removes or replaces `k` or finds it expired, and the keys other than
   * `k` that the trace uses all lie in `used`.
   */
  ghost predicate Undisturbed(
      c: Lru, defaultTtl: Option<nat>, ops: seq<Op>, k: string, e: CacheEntry, used: set<string>) {
    ops == [] ||
    (var n := |ops| - 1;
     Undisturbed(c, defaultTtl, ops[..n], k, e, used) && Spares(ops[n], k, e) &&
     Uses(Run(c, defaultTtl, ops[..n]).0, defaultTtl, ops[n]) - {k} <= used)
  }

  lemma HoldsRestrict(c: Lru, k: string, e: CacheEntry, used: set<string>, keep: set<string>)
    requires Holds(c, k, e, used) && k in keep
    ensures Holds(Restrict(c, keep), k, e, used)
  {
    RestrictValid(c, keep);
    BeforeFilter(c.recency, k, In(keep));
  }

  lemma HoldsFront(c: Lru, k: string, e: CacheEntry, used: set<string>, x: string)
    requires Holds(c, k, e, used)
    ensures Keys(Before([x] + Without(c.recency, x), k)) <= used + ({x} - {k})
  {
    var s := [x] + Without(c.recency, x);
    assert s[1..] == Without(c.recency, x);
    if x != k {
      BeforeFilter(c.recency, k, Not(x));
      assert Before(s, k) == [x] + Before(Without(c.recency, x), k);
    }
  }

  lemma HoldsInsert(c: Lru, k: string, e: CacheEntry, used: set<string>, x: string, f: CacheEntry)
    requires Holds(c, k, e, used) && x != k
    requires |used + {x}| < c.capacity
    ensures Holds(Insert(c, x, f), k, e, used + {x})
  {
    hide Room, RoomKeys;
    InsertValid(c, x, f);
    RoomIsRestrict(c, x);
    NotEvicted(c, k, e, used, x);
    HoldsRestrict(c, k, e, used, RoomKeys(c, x));
    HoldsFront(Room(c, x), k, e, used, x);
  }

  /** The least recent key of a full cache has too many keys before it. */
  lemma NotEvicted(c: Lru, k: string, e: CacheEntry, used: set<string>, x: string)
    requires Holds(c, k, e, used) && x != k && |used + {x}| < c.capacity
    ensures k in RoomKeys(c, x)
  {
    if x !in c.entries && c.recency != [] && c.recency[|c.recency| - 1] == k {
      var ahead := Before(c.recency, k);
      BeforeLast(c.recency, k);
      BeforeDistinct(c.recency, k);
      KeysCount(ahead);
      assert x !in Keys(ahead);
      SubsetSize(Keys(ahead) + {x}, used + {x});
    }
  }

  lemma {:induction false} SubsetSize(a: set<string>, b: set<string>)
    requires a <= b
    ensures |a| <= |b|
  {
    if a != {} {
      var x :| x in a;
      SubsetSize(a - {x}, b - {x});
    }
  }

  lemma StepHolds(c: Lru, defaultTtl: Option<nat>, op: Op, k: string, e: CacheEntry, used: set<string>)
    requires Holds(c, k, e, used) && Spares(op, k, e)
    requires |used + (Uses(c, defaultTtl, op) - {k})| < c.capacity
    ensures Holds(Step(c, defaultTtl, op).0, k, e, used + (Uses(c, defaultTtl, op) - {k}))
  {
    StepValid(c, defaultTtl, op);
    match op
    case Get(namespace, key, purgeAt, readAt) =>
      var x := BuildKey(namespace, key);
      var clean := Purge(c, purgeAt);
      HoldsRestrict(c, k, e, used, LiveKeys(c.entries, purgeAt));
      if x in clean.entries {
        HoldsFront(clean, k, e, used, x);
        if Expired(clean.entries[x], readAt) {
          PopPromoted(clean, x);
          PopValid(clean, x);
          HoldsRestrict(clean, k, e, used, clean.entries.Keys - {x});
        }
      }
    case Set(namespace, key, value, ttl, now) =>
      var x := BuildKey(namespace, key);
      assert Uses(c, defaultTtl, op) - {k} == {x};
      HoldsInsert(c, k, e, used, x, EntryFor(value, ttl, defaultTtl, now));
    case Delete(namespace, key) =>
      var x := BuildKey(namespace, key);
      PopValid(c, x);
      HoldsRestrict(c, k, e, used, c.entries.Keys - {x});
    case Clear(only) =>
      HoldsRestrict(c, k, e, used, KeysOutside(c.entries, only.value + ":"));
  }

  lemma PopPromoted(c: Lru, x: string)
    requires c.Valid()
    ensures Pop(Promote(c, x), x) == Pop(c, x)
  {
    var s := [x] + Without(c.recency, x);
    assert s[1..] == Without(c.recency, x);
    FilterAll(Without(c.recency, x), Not(x));
  }

  lemma {:induction false} RunHolds(
      c: Lru, defaultTtl: Option<nat>, ops: seq<Op>, k: string, e: CacheEntry, used: set<string>)
    requires Holds(c, k, e, used) && |used| < c.capacity
    requires Undisturbed(c, defaultTtl, ops, k, e, used)
    ensures Holds(Run(c, defaultTtl, ops).0, k, e, used)
    ensures Run(c, defaultTtl, ops).0.capacity == c.capacity
  {
    if ops != [] {
      var n := |ops| - 1;
      RunHolds(c, defaultTtl, ops[..n], k, e, used);
      var before := Run(c, defaultTtl, ops[..n]).0;
      StepValid(before, defaultTtl, ops[n]);
      assert used + (Uses(before, defaultTtl, ops[n]) - {k}) == used;
      StepHolds(before, defaultTtl, ops[n], k, e, used);
    }
  }

  /**
   * After any trace, once a key has been set or successfully read it stays readable, with the same
   * bytes, as long as it is spared by deletes, clears and its TTL and fewer than `capacity`
   * distinct other keys have been used since.
   */
  lemma RetentionGuarantee(
      capacity: nat, defaultTtl: Option<nat>, before: seq<Op>, use: Op, since: seq<Op>, get: Op,
      c: Lru, e: CacheEntry, used: set<string>)
    requires capacity > 0
    requires (use.Get? || use.Set?) && get.Get? && get.namespace == use.namespace && get.key == use.key
    requires c == Step(Run(EmptyLru(capacity), defaultTtl, before).0, defaultTtl, use).0
    requires use.Get? ==> Step(Run(EmptyLru(capacity), defaultTtl, before).0, defaultTtl, use).1.Some?
    requires BuildKey(get.namespace, get.key) in c.entries && c.entries[BuildKey(get.namespace, get.key)] == e
    requires Undisturbed(c, defaultTtl, since, BuildKey(get.namespace, get.key), e, used) && |used| < capacity
    requires !Expired(e, get.purgeAt) && !Expired(e, get.readAt)
    ensures Step(Run(c, defaultTtl, since).0, defaultTtl, get).1 == Some(e.data)
  {
    var start := Run(EmptyLru(capacity), defaultTtl, before).0;
    var k := BuildKey(get.namespace, get.key);
    RunValid(capacity, defaultTtl, before);
    StepValid(start, defaultTtl, use);
    assert c.recency[0] == k;
    assert Before(c.recency, k) == [];
    RunHolds(c, defaultTtl, since, k, e, used);
  }

  /** What this `Set` stored can still be read at this instant: by its own TTL if it gave one, else by the default. */
  predicate LivesAt(write: Op, defaultTtl: Option<nat>, at: int)
    requires write.Set?
  {
    match (write.ttl, defaultTtl)
    case (Some(d), _) => at < write.now + d
    case (None, Some(d)) => at < write.now + d
    case (None, None) => true
  }

  /** The operation leaves what `write` stored in place. */
  predicate LeavesAlone(op: Op, write: Op, defaultTtl: Option<nat>)
    requires write.Set?
  {
    var k := write.namespace + ":" + write.key;
    match op
    case Get(namespace, key, purgeAt, readAt) =>
      LivesAt(write, defaultTtl, purgeAt) && (namespace + ":" + key == k ==> LivesAt(write, defaultTtl, readAt))
    case Set(namespace, key, _, _, _) => namespace + ":" + key != k
    case Delete(namespace, key) => namespace + ":" + key != k
    case Clear(None) => false
    case Clear(Some(namespace)) => !(namespace + ":" <= k)
  }

  /** The operation set a key or read one successfully. */
  predicate Touches(op: Op, answer: Option<Bytes>) {
    op.Set? || (op.Get? && answer.Some?)
  }

  /**
   * After any trace, what a `Set` stored is read back, byte for byte, exactly when both clock readings come
   * before its deadline, as long as nothing since has removed or replaced it and fewer than `capacity`
   * distinct other keys have been touched.
   */
  lemma SetIsReadable(
      capacity: nat, defaultTtl: Option<nat>, before: seq<Op>, write: Op, since: seq<Op>, get: Op, used: set<string>)
    requires capacity > 0 && write.Set? && get.Get? && get.namespace == write.namespace && get.key == write.key
    requires forall j :: 0 <= j < |since| ==> LeavesAlone(since[j], write, defaultTtl)
    requires var answers := Run(Run(EmptyLru(capacity), defaultTtl, before + [write]).0, defaultTtl, since).1;
      forall j :: 0 <= j < |since| && Touches(since[j], answers[j]) ==>
        var k := since[j].namespace + ":" + since[j].key;
        k == write.namespace + ":" + write.key || k in used
    requires |used| < capacity
    ensures var c := Run(Run(EmptyLru(capacity), defaultTtl, before + [write]).0, defaultTtl, since).0;
      Step(c, defaultTtl, get).1 ==
        if LivesAt(write, defaultTtl, get.purgeAt) && LivesAt(write, defaultTtl, get.readAt) then Some(write.value)
        else None
  {
    var c := Run(EmptyLru(capacity), defaultTtl, before + [write]).0;
    var k := BuildKey(write.namespace, write.key);
    var e := EntryFor(write.value, write.ttl, defaultTtl, write.now);
    assert (before + [write])[..|before|] == before;
    RunValid(capacity, defaultTtl, before + [write]);
    assert c.recency[0] == k;
    assert Before(c.recency, k) == [];
    EntryLives(write, defaultTtl);
    hide Step, Insert;
    LeftAlone(c, defaultTtl, since, write, used);
    RunHolds(c, defaultTtl, since, k, e, used);
    ReadHeld(Run(c, defaultTtl, since).0, defaultTtl, get, e);
  }

  lemma EntryLives(write: Op, defaultTtl: Option<nat>)
    requires write.Set?
    ensures var e := EntryFor(write.value, write.ttl, defaultTtl, write.now);
      e.data == write.value && forall at :: Expired(e, at) <==> !LivesAt(write, defaultTtl, at)
  {
  }

  lemma {:induction false} LeftAlone(c: Lru, defaultTtl: Option<nat>, since: seq<Op>, write: Op, used: set<string>)
    requires write.Set? && forall j :: 0 <= j < |since| ==> LeavesAlone(since[j], write, defaultTtl)
    requires var answers := Run(c, defaultTtl, since).1;
      forall j :: 0 <= j < |since| && Touches(since[j], answers[j]) ==>
        var k := since[j].namespace + ":" + since[j].key;
        k == write.namespace + ":" + write.key || k in used
    ensures Undisturbed(c, defaultTtl, since, BuildKey(write.namespace, write.key),
      EntryFor(write.value, write.ttl, defaultTtl, write.now), used)
  {
    if since != [] {
      var n := |since| - 1;
      var before := Run(c, defaultTtl, since[..n]).0;
      var answers := Run(c, defaultTtl, since).1;
      assert answers == Run(c, defaultTtl, since[..n]).1 + [Step(before, defaultTtl, since[n]).1];
      hide Step, Run, EntryFor, LeavesAlone;
      forall j | 0 <= j < n && Touches(since[..n][j], Run(c, defaultTtl, since[..n]).1[j])
        ensures var k := since[..n][j].namespace + ":" + since[..n][j].key;
          k == write.namespace + ":" + write.key || k in used
      {
        assert since[..n][j] == since[j] && answers[j] == Run(c, defaultTtl, since[..n]).1[j];
      }
      LeftAlone(c, defaultTtl, since[..n], write, used);
      SparedAlone(since[n], write, defaultTtl);
      assert answers[n] == Step(before, defaultTtl, since[n]).1;
    }
  }

  lemma SparedAlone(op: Op, write: Op, defaultTtl: Option<nat>)
    requires write.Set? && LeavesAlone(op, write, defaultTtl)
    ensures Spares(op, BuildKey(write.namespace, write.key), EntryFor(write.value, write.ttl, defaultTtl, write.now))
  {
    EntryLives(write, defaultTtl);
  }

  /** A read of a cached entry. */
  lemma ReadHeld(c: Lru, defaultTtl: Option<nat>, get: Op, e: CacheEntry)
    requires get.Get? && BuildKey(get.namespace, get.key) in c.entries
    requires c.entries[BuildKey(get.namespace, get.key)] == e
    ensures Step(c, defaultTtl, get).1 ==
      if !Expired(e, get.purgeAt) && !Expired(e, get.readAt) then Some(e.data) else None
  {
  }

  // ----- What each operation leaves in the cache -----

  predicate NotYet(e: CacheEntry, at: int) {
    e.expiresAt.None? || at < e.expiresAt.value
  }

  /** The keys that an operation leaves, apart from what it sets. */
  ghost predicate Leaves(c: Lru, op: Op, x: string)
    requires c.Valid() && x in c.entries
  {
    match op
    case Get(namespace, key, purgeAt, readAt) =>
      NotYet(c.entries[x], purgeAt) && (x == namespace + ":" + key ==> NotYet(c.entries[x], readAt))
    case Set(namespace, key, _, _, _) =>
      namespace + ":" + key in c.entries || |c.recency| < c.capacity || x != c.recency[|c.recency| - 1]
    case Delete(namespace, key) => x != namespace + ":" + key
    case Clear(None) => false
    case Clear(Some(namespace)) => !(namespace + ":" <= x)
  }

  /**
   * A read drops every expired key, a set evicts the least recent key of a full cache unless it replaces
   * one, a delete drops its key and a clear what starts with the namespace and a colon; no more than that.
   */
  lemma StepLeaves(c: Lru, defaultTtl: Option<nat>, op: Op, x: string)
    requires c.Valid() && !(op.Set? && x == op.namespace + ":" + op.key)
    ensures var after := Step(c, defaultTtl, op).0;
      && (x in after.entries <==> x in c.entries && Leaves(c, op, x))
      && (x in after.entries ==> after.entries[x] == c.entries[x])
  {
    match op
    case Get(namespace, key, purgeAt, readAt) => GetLeaves(c, namespace + ":" + key, purgeAt, readAt, x);
    case Set(namespace, key, value, ttl, now) => RoomLeaves(c, namespace + ":" + key, x);
    case Delete(_, _) =>
    case Clear(_) =>
  }

  lemma GetLeaves(c: Lru, k: string, purgeAt: int, readAt: int, x: string)
    ensures var after := Read(Purge(c, purgeAt), k, readAt).0;
      && (x in after.entries <==>
           x in c.entries && NotYet(c.entries[x], purgeAt) && (x == k ==> NotYet(c.entries[x], readAt)))
      && (x in after.entries ==> after.entries[x] == c.entries[x])
  {
    hide Without, Filter;
  }

  lemma RoomLeaves(c: Lru, k: string, x: string)
    requires c.Valid()
    ensures var room := Room(c, k);
      && (x in room.entries <==>
           && x in c.entries
           && (k in c.entries || |c.recency| < c.capacity || x != c.recency[|c.recency| - 1]))
      && (x in room.entries ==> room.entries[x] == c.entries[x])
  {
    hide Without, Filter;
  }

  // ----- The bound is tight -----

  /** The operation uses another key, if any, and pops nothing but what it evicts. */
  ghost predicate OnlyUses(c: Lru, op: Op, k: string) {
    match op
    case Get(namespace, key, purgeAt, readAt) =>
      BuildKey(namespace, key) != k &&
      forall x :: x in c.entries ==> !Expired(c.entries[x], purgeAt) && !Expired(c.entries[x], readAt)
    case Set(namespace, key, _, _, _) => BuildKey(namespace, key) != k
    case _ => false
  }

  ghost predicate AllOnlyUse(c: Lru, defaultTtl: Option<nat>, ops: seq<Op>, k: string) {
    ops == [] ||
    (var n := |ops| - 1;
     AllOnlyUse(c, defaultTtl, ops[..n], k) && OnlyUses(Run(c, defaultTtl, ops[..n]).0, ops[n], k))
  }

  /** The distinct keys that the trace uses. */
  ghost function UsedBy(c: Lru, defaultTtl: Option<nat>, ops: seq<Op>): set<string> {
    if ops == [] then {}
    else
      var n := |ops| - 1;
      UsedBy(c, defaultTtl, ops[..n]) + Uses(Run(c, defaultTtl, ops[..n]).0, defaultTtl, ops[n])
  }

  /** If `k` is there, all of `used` is more recent. */
  ghost predicate Behind(c: Lru, k: string, used: set<string>) {
    c.Valid() && (k in c.entries ==> used <= Keys(Before(c.recency, k)))
  }

  lemma {:induction false} LastNotBefore(s: seq<string>, k: string)
    requires Distinct(s) && s != [] && k in s
    ensures s[|s| - 1] !in Before(s, k)
  {
    if s[0] != k {
      assert Distinct(s[1..]) && s[0] !in s[1..];
      LastNotBefore(s[1..], k);
      assert s[1..][|s[1..]| - 1] == s[|s| - 1];
    }
  }

  lemma BeforeWithoutLast(s: seq<string>, k: string)
    requires Distinct(s) && k in s && k != s[|s| - 1]
    ensures Before(Without(s, s[|s| - 1]), k) == Before(s, k)
  {
    var last := s[|s| - 1];
    BeforeFilter(s, k, Not(last));
    LastNotBefore(s, k);
    FilterAll(Before(s, k), Not(last));
  }

  /** Eviction takes no key that is more recent than one it leaves. */
  lemma RoomBehind(c: Lru, k: string, used: set<string>, x: string)
    requires Behind(c, k, used)
    ensures Behind(Room(c, x), k, used)
  {
    RoomValid(c, x);
    if k in Room(c, x).entries {
      hide Before, Without, Distinct, Keys;
      if Room(c, x) != c {
        BeforeWithoutLast(c.recency, k);
      }
    }
  }

  lemma FrontBehind(c: Lru, k: string, used: set<string>, x: string)
    requires Behind(c, k, used) && x != k && k in c.entries
    ensures used + {x} <= Keys(Before([x] + Without(c.recency, x), k))
  {
    var s := [x] + Without(c.recency, x);
    assert s[1..] == Without(c.recency, x);
    BeforeFilter(c.recency, k, Not(x));
    assert Before(s, k) == [x] + Before(Without(c.recency, x), k);
  }

  lemma InsertBehind(c: Lru, k: string, used: set<string>, x: string, f: CacheEntry)
    requires Behind(c, k, used) && x != k
    ensures Behind(Insert(c, x, f), k, used + {x})
  {
    InsertValid(c, x, f);
    RoomBehind(c, k, used, x);
    hide Room, Keys, Before;
    if k in Room(c, x).entries {
      FrontBehind(Room(c, x), k, used, x);
    }
  }

  lemma NothingPurged(c: Lru, now: int)
    requires c.Valid() && forall x :: x in c.entries ==> !Expired(c.entries[x], now)
    ensures Purge(c, now) == c
  {
    assert LiveKeys(c.entries, now) == c.entries.Keys;
    WholeRestrict(c);
  }

  lemma ReadBehind(c: Lru, k: string, used: set<string>, x: string, readAt: int)
    requires Behind(c, k, used) && x != k
    requires x in c.entries ==> !Expired(c.entries[x], readAt)
    ensures Behind(Read(c, x, readAt).0, k, used + if Read(c, x, readAt).1.Some? then {x} else {})
  {
    if x in c.entries {
      PromoteValid(c, x);
      if k in c.entries {
        FrontBehind(c, k, used, x);
      }
      hide Before, Without;
    }
  }

  lemma StepBehind(c: Lru, defaultTtl: Option<nat>, op: Op, k: string, used: set<string>)
    requires Behind(c, k, used) && OnlyUses(c, op, k)
    ensures Behind(Step(c, defaultTtl, op).0, k, used + Uses(c, defaultTtl, op))
  {
    StepValid(c, defaultTtl, op);
    hide Insert, EntryFor, Before, Without, BuildKey, Purge, Read, Keys;
    match op
    case Get(namespace, key, purgeAt, readAt) =>
      NothingPurged(c, purgeAt);
      ReadBehind(c, k, used, BuildKey(namespace, key), readAt);
    case Set(namespace, key, value, ttl, now) =>
      InsertBehind(c, k, used, BuildKey(namespace, key), EntryFor(value, ttl, defaultTtl, now));
  }

  lemma {:induction false} RunBehind(c: Lru, defaultTtl: Option<nat>, ops: seq<Op>, k: string)
    requires c.Valid() && AllOnlyUse(c, defaultTtl, ops, k)
    ensures Behind(Run(c, defaultTtl, ops).0, k, UsedBy(c, defaultTtl, ops))
    ensures Run(c, defaultTtl, ops).0.capacity == c.capacity
  {
    if ops != [] {
      var n := |ops| - 1;
      var before := Run(c, defaultTtl, ops[..n]).0;
      RunBehind(c, defaultTtl, ops[..n], k);
      StepValid(before, defaultTtl, ops[n]);
      StepBehind(before, defaultTtl, ops[n], k, UsedBy(c, defaultTtl, ops[..n]));
    }
  }

  /** Fewer than `capacity` keys fit before `k`. */
  lemma BehindCount(c: Lru, k: string, used: set<string>)
    requires Behind(c, k, used) && k in c.entries
    ensures |used| < c.capacity
  {
    var ahead := Before(c.recency, k);
    BeforeDistinct(c.recency, k);
    KeysCount(ahead);
    KeysCount(c.recency);
    SubsetSize(used, Keys(ahead));
    SubsetSize(Keys(ahead) + {k}, Keys(c.recency));
  }

  lemma {:induction false} RunKeeps(c: Lru, defaultTtl: Option<nat>, ops: seq<Op>, k: string, e: CacheEntry)
    requires Holds(c, k, e, {}) && AllOnlyUse(c, defaultTtl, ops, k)
    requires |UsedBy(c, defaultTtl, ops)| < c.capacity
    ensures Holds(Run(c, defaultTtl, ops).0, k, e, UsedBy(c, defaultTtl, ops))
    ensures Run(c, defaultTtl, ops).0.capacity == c.capacity
  {
    if ops != [] {
      var n := |ops| - 1;
      var before, used := Run(c, defaultTtl, ops[..n]).0, UsedBy(c, defaultTtl, ops[..n]);
      var uses := Uses(before, defaultTtl, ops[n]);
      SubsetSize(used, UsedBy(c, defaultTtl, ops));
      RunKeeps(c, defaultTtl, ops[..n], k, e);
      StepValid(before, defaultTtl, ops[n]);
      assert uses - {k} == uses;
      StepHolds(before, defaultTtl, ops[n], k, e, used);
    }
  }

  /**
   * When nothing is popped except by eviction, the most recent key stays cached exactly until
   * `capacity` distinct other keys have been used.
   */
  lemma RetentionIff(c: Lru, defaultTtl: Option<nat>, ops: seq<Op>, k: string, e: CacheEntry)
    requires Holds(c, k, e, {}) && AllOnlyUse(c, defaultTtl, ops, k)
    ensures k in Run(c, defaultTtl, ops).0.entries <==> |UsedBy(c, defaultTtl, ops)| < c.capacity
  {
    RunBehind(c, defaultTtl, ops, k);
    if k in Run(c, defaultTtl, ops).0.entries {
      BehindCount(Run(c, defaultTtl, ops).0, k, UsedBy(c, defaultTtl, ops));
    }
    if |UsedBy(c, defaultTtl, ops)| < c.capacity {
      RunKeeps(c, defaultTtl, ops, k, e);
    }
  }
}

/** What a hit means: the cache against the map of latest values, and which namespaces make it one. */
module CacheAgreement {
  import opened Wrappers
  import opened LruCaches
  import opened CacheModel
  import opened CacheRetention

  /** The operation replaces or removes what is stored under this pair. */
  predicate Overrides(op: Op, namespace: string, key: string) {
    match op
    case Get(_, _, _, _) => false
    case Set(n, x, _, _, _) => n == namespace && x == key
    case Delete(n, x) => n == namespace && x == key
    case Clear(only) => only.None? || only.value == namespace
  }

  /** Operation `i` is the `Set` of this pair that no later operation overrides. */
  predicate IsLatestSet(ops: seq<Op>, i: nat, namespace: string, key: string) {
    && i < |ops| && ops[i].Set? && ops[i].namespace == namespace && ops[i].key == key
    && forall j :: i < j < |ops| ==> !Overrides(ops[j], namespace, key)
  }

  ghost predicate UsesNamespaces(namespaces: iset<string>, op: Op) {
    op.Clear? || op.namespace in namespaces
  }

  /** Every hit of every cache returns the latest unexpired value stored under that very namespace and key. */
  ghost predicate Faithful(namespaces: iset<string>) {
    forall capacity: nat, defaultTtl, ops, get: Op ::
      capacity > 0 && get.Get? && UsesNamespaces(namespaces, get)
      && (forall op :: op in ops ==> UsesNamespaces(namespaces, op))
      ==> HitIsLatest(capacity, defaultTtl, ops, get)
  }

  ghost predicate HitIsLatest(capacity: nat, defaultTtl: Option<nat>, ops: seq<Op>, get: Op)
    requires get.Get?
  {
    var answer := Step(Run(EmptyLru(capacity), defaultTtl, ops).0, defaultTtl, get).1;
    answer.Some? ==> exists i: nat ::
      && IsLatestSet(ops, i, get.namespace, get.key) && answer.value == ops[i].value
      && LivesAt(ops[i], defaultTtl, get.purgeAt) && LivesAt(ops[i], defaultTtl, get.readAt)
  }

  /** No namespace, closed by a colon, begins another. */
  ghost predicate PrefixFree(namespaces: iset<string>) {
    forall a, b :: a in namespaces && b in namespaces && a != b ==> !IsPrefix(a + ":", b + ":")
  }

  lemma ShorterIsPrefix(p: string, x: string, q: string, y: string)
    requires p + x == q + y && |p| <= |q|
    ensures IsPrefix(p, q)
  {
    assert q[..|p|] == (q + y)[..|p|] == (p + x)[..|p|] == p;
  }

  lemma KeysInjective(namespaces: iset<string>, a: string, x: string, b: string, y: string)
    requires PrefixFree(namespaces) && a in namespaces && b in namespaces
    requires BuildKey(a, x) == BuildKey(b, y)
    ensures a == b && x == y
  {
    var p, q := a + ":", b + ":";
    if |p| <= |q| {
      ShorterIsPrefix(p, x, q, y);
    } else {
      ShorterIsPrefix(q, y, p, x);
    }
    assert x == BuildKey(a, x)[|p|..] && y == BuildKey(b, y)[|q|..];
  }

  /** The entry holds what the latest `Set` of this pair stored, until its deadline. */
  ghost predicate IsLatest(ops: seq<Op>, defaultTtl: Option<nat>, namespace: string, key: string, e: CacheEntry) {
    exists i: nat :: IsLatestSet(ops, i, namespace, key) && e.data == ops[i].value
      && forall at :: Expired(e, at) <==> !LivesAt(ops[i], defaultTtl, at)
  }

  /** Every cached entry is the latest of each pair that could have produced its key. */
  ghost predicate Mirrors(namespaces: iset<string>, c: Lru, defaultTtl: Option<nat>, ops: seq<Op>) {
    forall namespace, key :: namespace in namespaces && BuildKey(namespace, key) in c.entries ==>
      IsLatest(ops, defaultTtl, namespace, key, c.entries[BuildKey(namespace, key)])
  }

  lemma StillLatest(ops: seq<Op>, op: Op, defaultTtl: Option<nat>, namespace: string, key: string, e: CacheEntry)
    requires IsLatest(ops, defaultTtl, namespace, key, e) && !Overrides(op, namespace, key)
    ensures IsLatest(ops + [op], defaultTtl, namespace, key, e)
  {
    hide LivesAt, Expired;
    var i: nat :| IsLatestSet(ops, i, namespace, key) && e.data == ops[i].value
      && forall at :: Expired(e, at) <==> !LivesAt(ops[i], defaultTtl, at);
    assert IsLatestSet(ops + [op], i, namespace, key);
  }

  lemma NowLatest(ops: seq<Op>, op: Op, defaultTtl: Option<nat>)
    requires op.Set?
    ensures IsLatest(ops + [op], defaultTtl, op.namespace, op.key, EntryFor(op.value, op.ttl, defaultTtl, op.now))
  {
    EntryLives(op, defaultTtl);
    assert IsLatestSet(ops + [op], |ops|, op.namespace, op.key);
  }

  lemma StepMirrors(namespaces: iset<string>, c: Lru, defaultTtl: Option<nat>, ops: seq<Op>, op: Op)
    requires PrefixFree(namespaces) && Mirrors(namespaces, c, defaultTtl, ops) && UsesNamespaces(namespaces, op)
    ensures Mirrors(namespaces, Step(c, defaultTtl, op).0, defaultTtl, ops + [op])
  {
    var c' := Step(c, defaultTtl, op).0;
    forall namespace, key | namespace in namespaces && BuildKey(namespace, key) in c'.entries
      ensures IsLatest(ops + [op], defaultTtl, namespace, key, c'.entries[BuildKey(namespace, key)])
    {
      if op.Set? && BuildKey(op.namespace, op.key) == BuildKey(namespace, key) {
        KeysInjective(namespaces, op.namespace, op.key, namespace, key);
        NowLatest(ops, op, defaultTtl);
      } else {
        Untouched(c, defaultTtl, op, namespace, key);
        StillLatest(ops, op, defaultTtl, namespace, key, c.entries[BuildKey(namespace, key)]);
      }
    }
  }

  /** A key that is still cached after an operation that did not set it was not overridden. */
  lemma Untouched(c: Lru, defaultTtl: Option<nat>, op: Op, namespace: string, key: string)
    requires BuildKey(namespace, key) in Step(c, defaultTtl, op).0.entries
    requires !(op.Set? && BuildKey(op.namespace, op.key) == BuildKey(namespace, key))
    ensures var k := BuildKey(namespace, key);
      k in c.entries && Step(c, defaultTtl, op).0.entries[k] == c.entries[k] && !Overrides(op, namespace, key)
  {
    if op.Clear? && op.only.Some? && namespace == op.only.value {
      assert BuildKey(namespace, key) == (namespace + ":") + key;
      assert IsPrefix(namespace + ":", BuildKey(namespace, key));
    }
  }

  lemma {:induction false} RunMirrors(
      namespaces: iset<string>, capacity: nat, defaultTtl: Option<nat>, ops: seq<Op>)
    requires PrefixFree(namespaces) && forall op :: op in ops ==> UsesNamespaces(namespaces, op)
    ensures Mirrors(namespaces, Run(EmptyLru(capacity), defaultTtl, ops).0, defaultTtl, ops)
  {
    if ops != [] {
      var n := |ops| - 1;
      assert ops[n] in ops;
      RunMirrors(namespaces, capacity, defaultTtl, ops[..n]);
      StepMirrors(namespaces, Run(EmptyLru(capacity), defaultTtl, ops[..n]).0, defaultTtl, ops[..n], ops[n]);
      assert ops == ops[..n] + [ops[n]];
    }
  }

  /** Over prefix-free namespaces a hit is the latest `Set` of that pair, read before its deadline. */
  lemma MirroredHit(
      namespaces: iset<string>, capacity: nat, defaultTtl: Option<nat>, ops: seq<Op>, get: Op)
    requires get.Get? && get.namespace in namespaces
    requires Mirrors(namespaces, Run(EmptyLru(capacity), defaultTtl, ops).0, defaultTtl, ops)
    ensures HitIsLatest(capacity, defaultTtl, ops, get)
  {
    hide Run, LivesAt;
    var c := Run(EmptyLru(capacity), defaultTtl, ops).0;
    var k := BuildKey(get.namespace, get.key);
    if Step(c, defaultTtl, get).1.Some? {
      ReadHeld(c, defaultTtl, get, c.entries[k]);
      hide Step, Expired;
      var i: nat :| IsLatestSet(ops, i, get.namespace, get.key) && c.entries[k].data == ops[i].value
        && forall at :: Expired(c.entries[k], at) <==> !LivesAt(ops[i], defaultTtl, at);
    }
  }

  lemma NestedNamespaceCollides(a: string, b: string)
    requires a != b && IsPrefix(a + ":", b + ":")
    ensures |a| < |b| && ':' in b
    ensures BuildKey(a, b[|a| + 1..] + ":k") == BuildKey(b, "k")
  {
    var s := (b + ":")[..|a| + 1];
    assert s[|a|] == ':' && s[..|a|] == a;
    assert b[..|a|] == a;
    assert b[..|b|] == b;
    assert b[|a|] == s[|a|];
    assert b == a + ":" + b[|a| + 1..];
  }

  /** The cache is faithful to the map it speeds up exactly when no namespace and colon begin another. */
  lemma FaithfulIff(namespaces: iset<string>)
    ensures Faithful(namespaces) <==> PrefixFree(namespaces)
  {
    if PrefixFree(namespaces) {
      forall capacity: nat, defaultTtl, ops, get: Op |
        capacity > 0 && get.Get? && UsesNamespaces(namespaces, get)
        && (forall op :: op in ops ==> UsesNamespaces(namespaces, op))
        ensures HitIsLatest(capacity, defaultTtl, ops, get)
      {
        RunMirrors(namespaces, capacity, defaultTtl, ops);
        MirroredHit(namespaces, capacity, defaultTtl, ops, get);
      }
    } else {
      var a, b :| a in namespaces && b in namespaces && a != b && IsPrefix(a + ":", b + ":");
      NestedNamespaceCollides(a, b);
      CollisionHits(namespaces, a, b);
    }
  }

  /** A value set under `b` is read back under `a`, where nothing was ever set. */
  lemma CollisionHits(namespaces: iset<string>, a: string, b: string)
    requires a in namespaces && b in namespaces && a != b && IsPrefix(a + ":", b + ":")
    ensures !Faithful(namespaces)
  {
    NestedNamespaceCollides(a, b);
    var ops := [Set(b, "k", [], None, 0)];
    var get := Get(a, b[|a| + 1..] + ":k", 0, 0);
    var k := BuildKey(b, "k");
    assert ops[..0] == [];
    var c := Run(EmptyLru(1), None, ops).0;
    assert Run(EmptyLru(1), None, ops[..0]) == (EmptyLru(1), []);
    assert c == Step(EmptyLru(1), None, ops[0]).0;
    assert c == Insert(EmptyLru(1), k, CacheEntry([], None));
    assert k in c.entries && c.entries[k] == CacheEntry([], None);
    assert Step(c, None, get).1 == Some([]);
    assert forall i: nat :: !IsLatestSet(ops, i, a, get.key);
    assert UsesNamespaces(namespaces, get) && forall op :: op in ops ==> UsesNamespaces(namespaces, op);
    assert !HitIsLatest(1, None, ops, get);
  }

  /** Namespaces without a colon are safe. */
  lemma ColonFreeIsPrefixFree(namespaces: iset<string>)
    requires forall n :: n in namespaces ==> ':' !in n
    ensures PrefixFree(namespaces)
  {
    forall a, b | a in namespaces && b in namespaces && a != b ensures !IsPrefix(a + ":", b + ":") {
      if IsPrefix(a + ":", b + ":") {
        NestedNamespaceCollides(a, b);
      }
    }
  }
}
