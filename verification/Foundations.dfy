/** Results, options, and the sequence and string-order facts the other modules share. */
module Wrappers {

  datatype Option<+T> = None | Some(value: T) {
    predicate IsFailure() {
      None?
    }

    function PropagateFailure<U>(): Option<U>
      requires None?
    {
      None
    }

    function Extract(): T
      requires Some?
    {
      value
    }
  }

  datatype Result<+T, +E> = Ok(value: T) | Err(error: E)
}

/** Sequences as Rust's `Vec`: `retain`, `truncate`, `position`. */
module Seqs {
  import opened Wrappers

  /** `Vec::retain`: the elements satisfying `p`, in order. */
  function Filter<T(!new)>(s: seq<T>, p: T -> bool): (r: seq<T>)
    ensures |r| <= |s|
    ensures forall x :: x in r <==> x in s && p(x)
  {
    if s == [] then []
    else if p(s[0]) then [s[0]] + Filter(s[1..], p)
    else Filter(s[1..], p)
  }

  /** `Vec::truncate`: the first `n` elements, or all of them. */
  function Take<T(!new)>(s: seq<T>, n: nat): (r: seq<T>)
  {
    if n <= |s| then s[..n] else s
  }

  /** `Iterator::position`: the first index satisfying `p`. */
  function Position<T(!new)>(s: seq<T>, p: T -> bool): (r: Option<nat>)
    ensures r.Some? ==> r.value < |s| && p(s[r.value]) && forall j :: 0 <= j < r.value ==> !p(s[j])
    ensures r.None? ==> forall j :: 0 <= j < |s| ==> !p(s[j])
  {
    if s == [] then None
    else if p(s[0]) then Some(0)
    else match Position(s[1..], p)
      case None => None
      case Some(i) =>
        assert s[1..][i] == s[i + 1];
        Some(i + 1)
  }

  lemma PositionConcat<T(!new)>(s: seq<T>, t: seq<T>, p: T -> bool)
    requires Position(s, p).Some?
    ensures Position(s + t, p) == Position(s, p)
  {
    if !p(s[0]) {
      assert (s + t)[1..] == s[1..] + t;
      PositionConcat(s[1..], t, p);
    }
  }

  ghost predicate Distinct<T(!new)>(s: seq<T>) {
    forall i, j :: 0 <= i < j < |s| ==> s[i] != s[j]
  }

  lemma FilterConcat<T(!new)>(a: seq<T>, b: seq<T>, p: T -> bool)
    ensures Filter(a + b, p) == Filter(a, p) + Filter(b, p)
  {
    if a == [] {
      assert a + b == b;
    } else {
      assert (a + b)[1..] == a[1..] + b;
      FilterConcat(a[1..], b, p);
    }
  }

  lemma FilterAll<T(!new)>(s: seq<T>, p: T -> bool)
    requires forall x :: x in s ==> p(x)
    ensures Filter(s, p) == s
  {
    if s != [] {
      FilterAll(s[1..], p);
    }
  }

  lemma FilterNone<T(!new)>(s: seq<T>, p: T -> bool)
    requires forall x :: x in s ==> !p(x)
    ensures Filter(s, p) == []
  {
    if s != [] {
      assert s[0] in s;
      FilterNone(s[1..], p);
    }
  }

  /** Filters that agree on the elements give the same result. */
  lemma FilterCongruence<T(!new)>(s: seq<T>, p: T -> bool, q: T -> bool)
    requires forall x :: x in s ==> p(x) == q(x)
    ensures Filter(s, p) == Filter(s, q)
  {
    if s != [] {
      assert s[0] in s;
      FilterCongruence(s[1..], p, q);
    }
  }

  /** A second filter that implies the first makes the first redundant. */
  lemma FilterAbsorb<T(!new)>(s: seq<T>, p: T -> bool, q: T -> bool)
    requires forall x :: x in s && q(x) ==> p(x)
    ensures Filter(Filter(s, p), q) == Filter(s, q)
  {
    if s != [] {
      FilterAbsorb(s[1..], p, q);
    }
  }

  /** Whatever satisfies `p` comes before whatever does not. */
  ghost predicate PrefixClosed<T(!new)>(s: seq<T>, p: T -> bool) {
    forall i, j :: 0 <= i < j < |s| && p(s[j]) ==> p(s[i])
  }

  lemma {:induction false} FilterTake<T(!new)>(s: seq<T>, p: T -> bool, n: nat)
    requires PrefixClosed(s, p)
    ensures Filter(Take(s, n), p) == Take(Filter(s, p), n)
  {
    if s != [] && n != 0 {
      TakeCons(s[0], s[1..], n);
      assert s == [s[0]] + s[1..];
      if p(s[0]) {
        PrefixClosedRest(s, p);
        FilterTake(s[1..], p, n - 1);
        TakeCons(s[0], Filter(s[1..], p), n);
        assert ([s[0]] + Take(s[1..], n - 1))[1..] == Take(s[1..], n - 1);
        hide Take;
      } else {
        PrefixClosedNone(s, p);
        FilterNone(s, p);
        FilterNone(Take(s, n), p);
      }
    }
  }

  lemma TakeCons<T(!new)>(x: T, s: seq<T>, n: nat)
    requires n > 0
    ensures Take([x] + s, n) == [x] + Take(s, n - 1)
  {
  }

  lemma PrefixClosedRest<T(!new)>(s: seq<T>, p: T -> bool)
    requires PrefixClosed(s, p) && s != []
    ensures PrefixClosed(s[1..], p)
  {
    forall i, j | 0 <= i < j < |s[1..]| && p(s[1..][j]) ensures p(s[1..][i]) {
      assert s[1..][i] == s[i + 1] && s[1..][j] == s[j + 1];
    }
  }

  lemma PrefixClosedNone<T(!new)>(s: seq<T>, p: T -> bool)
    requires PrefixClosed(s, p) && s != [] && !p(s[0])
    ensures forall x :: x in s ==> !p(x)
  {
    forall x | x in s ensures !p(x) {
      var k :| 0 <= k < |s| && s[k] == x;
    }
  }

  lemma FilterDistinct<T(!new)>(s: seq<T>, p: T -> bool)
    requires Distinct(s)
    ensures Distinct(Filter(s, p))
  {
    if s != [] {
      assert Distinct(s[1..]);
      FilterDistinct(s[1..], p);
      assert s[0] !in s[1..];
    }
  }
}

/** Rust's `Ord` for `String`: lexicographic by code point. */
module StringOrder {

  predicate StrLeq(a: string, b: string) {
    a == "" || (b != "" && (a[0] < b[0] || (a[0] == b[0] && StrLeq(a[1..], b[1..]))))
  }

  predicate StrLess(a: string, b: string) {
    !StrLeq(b, a)
  }

  /** Whether the strings first differ at `i`, the first of them smaller there. */
  predicate SmallerAt(a: string, b: string, i: nat) {
    i < |a| && i < |b| && a[..i] == b[..i] && a[i] < b[i]
  }

  /** Lexicographic: a prefix, or smaller where the two first differ. */
  lemma {:induction false} StrLeqIff(a: string, b: string)
    ensures StrLeq(a, b) <==> a <= b || exists i: nat :: SmallerAt(a, b, i)
  {
    if a != "" && b != "" {
      if a[0] < b[0] {
        assert SmallerAt(a, b, 0);
      } else if a[0] == b[0] {
        var x, y := a[1..], b[1..];
        assert a == [a[0]] + x && b == [a[0]] + y;
        StrLeqIff(x, y);
        assert a <= b <==> x <= y;
        forall i: nat ensures SmallerAt(a, b, i + 1) <==> SmallerAt(x, y, i) {
          assert i < |x| && i < |y| ==> (a[..i + 1] == [a[0]] + x[..i] && b[..i + 1] == [a[0]] + y[..i]);
          if i < |x| && i < |y| && a[..i + 1] == b[..i + 1] {
            assert x[..i] == a[..i + 1][1..] && y[..i] == b[..i + 1][1..];
          }
        }
        if i: nat :| SmallerAt(a, b, i) {
          assert i > 0 && SmallerAt(x, y, i - 1);
        }
      }
    }
  }

  lemma {:induction false} StrTotal(a: string, b: string)
    ensures StrLeq(a, b) || StrLeq(b, a)
  {
    if a != "" && b != "" && a[0] == b[0] {
      StrTotal(a[1..], b[1..]);
    }
  }

  lemma {:induction false} StrAntisymmetric(a: string, b: string)
    requires StrLeq(a, b) && StrLeq(b, a)
    ensures a == b
  {
    if a != "" && b != "" {
      StrAntisymmetric(a[1..], b[1..]);
    }
  }

  lemma {:induction false} StrTransitive(a: string, b: string, c: string)
    requires StrLeq(a, b) && StrLeq(b, c)
    ensures StrLeq(a, c)
  {
    if a != "" && b != "" && c != "" && a[0] == b[0] && b[0] == c[0] {
      StrTransitive(a[1..], b[1..], c[1..]);
    }
  }

  lemma StrOrderFacts()
    ensures forall a: string, b: string :: StrLeq(a, b) || StrLeq(b, a)
    ensures forall a: string, b: string :: StrLeq(a, b) && StrLeq(b, a) ==> a == b
    ensures forall a: string, b: string, c: string :: StrLeq(a, b) && StrLeq(b, c) ==> StrLeq(a, c)
  {
    forall a: string, b: string ensures StrLeq(a, b) || StrLeq(b, a) { StrTotal(a, b); }
    forall a: string, b: string | StrLeq(a, b) && StrLeq(b, a) ensures a == b { StrAntisymmetric(a, b); }
    forall a: string, b: string, c: string | StrLeq(a, b) && StrLeq(b, c) ensures StrLeq(a, c) {
      StrTransitive(a, b, c);
    }
  }
}

/** Rust's stable `slice::sort_by`, over a total preorder `leq`. */
module StableSorting {
  import opened Seqs

  ghost predicate TotalPreorder<T(!new)>(leq: (T, T) -> bool) {
    && (forall a, b :: leq(a, b) || leq(b, a))
    && (forall a, b, c :: leq(a, b) && leq(b, c) ==> leq(a, c))
  }

  ghost predicate Sorted<T(!new)>(s: seq<T>, leq: (T, T) -> bool) {
    forall i, j :: 0 <= i < j < |s| ==> leq(s[i], s[j])
  }

  /** The elements that compare equal to `y`. */
  function Tied<T(!new)>(y: T, leq: (T, T) -> bool): T -> bool {
    z => leq(z, y) && leq(y, z)
  }

  /** Puts `x` after every element that does not compare greater. */
  function Insert<T(!new)>(x: T, s: seq<T>, leq: (T, T) -> bool): seq<T> {
    if s == [] then [x]
    else if leq(s[0], x) then [s[0]] + Insert(x, s[1..], leq)
    else [x] + s
  }

  function Sort<T(!new)>(s: seq<T>, leq: (T, T) -> bool): seq<T> {
    if s == [] then [] else Insert(s[|s| - 1], Sort(s[..|s| - 1], leq), leq)
  }

  lemma SortSnoc<T(!new)>(s: seq<T>, x: T, leq: (T, T) -> bool)
    ensures Sort(s + [x], leq) == Insert(x, Sort(s, leq), leq)
  {
    assert (s + [x])[..|s|] == s;
  }

  lemma {:induction false} InsertMembers<T(!new)>(x: T, s: seq<T>, leq: (T, T) -> bool)
    ensures multiset(Insert(x, s, leq)) == multiset(s) + multiset{x}
    ensures forall y :: y in Insert(x, s, leq) <==> y == x || y in s
  {
    if s != [] && leq(s[0], x) {
      assert s == [s[0]] + s[1..];
      assert Insert(x, s, leq) == [s[0]] + Insert(x, s[1..], leq);
      hide Insert;
      InsertMembers(x, s[1..], leq);
    }
  }

  lemma {:induction false} SortMembers<T(!new)>(s: seq<T>, leq: (T, T) -> bool)
    ensures multiset(Sort(s, leq)) == multiset(s)
    ensures forall y :: y in Sort(s, leq) <==> y in s
  {
    if s != [] {
      var n := |s| - 1;
      assert s == s[..n] + [s[n]];
      assert Sort(s, leq) == Insert(s[n], Sort(s[..n], leq), leq);
      hide Insert, Sort;
      SortMembers(s[..n], leq);
      InsertMembers(s[n], Sort(s[..n], leq), leq);
    }
  }

  lemma InsertDistinct<T(!new)>(x: T, s: seq<T>, leq: (T, T) -> bool)
    requires x !in s && Distinct(s)
    ensures Distinct(Insert(x, s, leq))
  {
    if s != [] && leq(s[0], x) {
      assert Distinct(s[1..]);
      InsertDistinct(x, s[1..], leq);
      InsertMembers(x, s[1..], leq);
      var r := Insert(x, s[1..], leq);
      assert s[0] !in r;
      assert forall j :: 0 <= j < |r| ==> r[j] in r;
    }
  }

  lemma InsertSorted<T(!new)>(x: T, s: seq<T>, leq: (T, T) -> bool)
    requires TotalPreorder(leq) && Sorted(s, leq)
    ensures Sorted(Insert(x, s, leq), leq)
  {
    if s != [] {
      if leq(s[0], x) {
        assert Sorted(s[1..], leq);
        InsertSorted(x, s[1..], leq);
        var r := Insert(x, s[1..], leq);
        InsertMembers(x, s[1..], leq);
        forall j | 0 <= j < |r| ensures leq(s[0], r[j]) {
          assert r[j] in r;
          if r[j] != x {
            var k :| 0 <= k < |s[1..]| && s[1..][k] == r[j];
            assert s[k + 1] == r[j];
          }
        }
      } else {
        forall j | 0 <= j < |s| ensures leq(x, s[j]) {
          assert leq(x, s[0]);
          assert j == 0 || leq(s[0], s[j]);
        }
      }
    }
  }

  lemma InsertStable<T(!new)>(x: T, s: seq<T>, y: T, leq: (T, T) -> bool)
    requires TotalPreorder(leq) && Sorted(s, leq)
    ensures Filter(Insert(x, s, leq), Tied(y, leq)) == Filter(s + [x], Tied(y, leq))
  {
    var p := Tied(y, leq);
    if s != [] {
      if leq(s[0], x) {
        assert Sorted(s[1..], leq);
        InsertStable(x, s[1..], y, leq);
        assert (s + [x])[1..] == s[1..] + [x];
      } else {
        FilterConcat(s, [x], p);
        if p(x) {
          forall z | z in s ensures !p(z) {
            var k :| 0 <= k < |s| && s[k] == z;
            assert k == 0 || leq(s[0], s[k]);
          }
          FilterNone(s, p);
        }
      }
    }
  }

  /** `Sort` sorts, and keeps the input order of elements that compare equal. */
  lemma SortIsStable<T(!new)>(s: seq<T>, leq: (T, T) -> bool)
    requires TotalPreorder(leq)
    ensures Sorted(Sort(s, leq), leq)
    ensures forall y :: Filter(Sort(s, leq), Tied(y, leq)) == Filter(s, Tied(y, leq))
  {
    if s != [] {
      var n := |s| - 1;
      var t := Sort(s[..n], leq);
      SortIsStable(s[..n], leq);
      InsertSorted(s[n], t, leq);
      assert s == s[..n] + [s[n]];
      forall y ensures Filter(Sort(s, leq), Tied(y, leq)) == Filter(s, Tied(y, leq)) {
        InsertStable(s[n], t, y, leq);
        FilterConcat(t, [s[n]], Tied(y, leq));
        FilterConcat(s[..n], [s[n]], Tied(y, leq));
      }
    }
  }

  /** Sortedness and the order of tied elements leave no freedom: a stable sort is unique. */
  lemma {:induction false} SortedUnique<T(!new)>(a: seq<T>, b: seq<T>, leq: (T, T) -> bool)
    requires TotalPreorder(leq) && Sorted(a, leq) && Sorted(b, leq)
    requires forall y :: Filter(a, Tied(y, leq)) == Filter(b, Tied(y, leq))
    ensures a == b
  {
    if a != [] {
      BothNonEmpty(a, b, leq);
    }
    if b != [] {
      BothNonEmpty(b, a, leq);
      HeadBelow(a, b, leq);
      HeadBelow(b, a, leq);
      var p := Tied(a[0], leq);
      assert p(a[0]) && p(b[0]);
      assert Filter(a, p)[0] == a[0] && Filter(b, p)[0] == b[0];
      assert a[0] == b[0];
      forall y ensures Filter(a[1..], Tied(y, leq)) == Filter(b[1..], Tied(y, leq)) {
        var q := Tied(y, leq);
        assert Filter(a, q) == Filter(b, q);
        if q(a[0]) {
          assert Filter(a, q)[1..] == Filter(a[1..], q);
          assert Filter(b, q)[1..] == Filter(b[1..], q);
        }
      }
      SortedUnique(a[1..], b[1..], leq);
    }
  }

  lemma BothNonEmpty<T(!new)>(a: seq<T>, b: seq<T>, leq: (T, T) -> bool)
    requires TotalPreorder(leq) && a != []
    requires forall y :: Filter(a, Tied(y, leq)) == Filter(b, Tied(y, leq))
    ensures b != []
  {
    assert a[0] in Filter(a, Tied(a[0], leq));
    assert a[0] in Filter(b, Tied(a[0], leq));
  }

  lemma HeadBelow<T(!new)>(a: seq<T>, b: seq<T>, leq: (T, T) -> bool)
    requires TotalPreorder(leq) && Sorted(b, leq) && a != [] && b != []
    requires forall y :: Filter(a, Tied(y, leq)) == Filter(b, Tied(y, leq))
    ensures leq(b[0], a[0])
  {
    assert a[0] in Filter(a, Tied(a[0], leq));
    assert a[0] in Filter(b, Tied(a[0], leq));
    var k :| 0 <= k < |b| && b[k] == a[0];
    assert k == 0 || leq(b[0], b[k]);
  }

  lemma TakeInsert<T(!new)>(x: T, s: seq<T>, n: nat, leq: (T, T) -> bool)
    ensures Take(Insert(x, s, leq), n) == Take(Insert(x, Take(s, n), leq), n)
  {
    if n > 0 && s != [] && leq(s[0], x) {
      TakeInsert(x, s[1..], n - 1, leq);
      assert Take(s, n)[1..] == Take(s[1..], n - 1);
      InsertLength(x, s, leq);
      InsertLength(x, Take(s, n), leq);
      InsertLength(x, s[1..], leq);
      InsertLength(x, Take(s, n)[1..], leq);
      assert Take(Insert(x, s, leq), n) == [s[0]] + Take(Insert(x, s[1..], leq), n - 1);
    } else if n > 0 {
      assert Take(s, n) == [] <==> s == [];
      var t := Take(s, n);
      assert Take([x] + s, n) == Take([x] + t, n);
    }
  }

  lemma InsertLength<T(!new)>(x: T, s: seq<T>, leq: (T, T) -> bool)
    ensures |Insert(x, s, leq)| == |s| + 1
  {
  }

  lemma FilterInsert<T(!new)>(x: T, s: seq<T>, p: T -> bool, leq: (T, T) -> bool)
    requires TotalPreorder(leq) && Sorted(s, leq)
    ensures Filter(Insert(x, s, leq), p) == if p(x) then Insert(x, Filter(s, p), leq) else Filter(s, p)
  {
    if s != [] {
      if leq(s[0], x) {
        assert Sorted(s[1..], leq);
        FilterInsert(x, s[1..], p, leq);
      } else {
        var rest := Filter(s, p);
        if rest != [] {
          assert rest[0] in rest;
          var k :| 0 <= k < |s| && s[k] == rest[0];
          assert leq(s[0], rest[0]);
          assert !leq(rest[0], x);
        }
      }
    }
  }

  lemma FilterSorted<T(!new)>(s: seq<T>, p: T -> bool, leq: (T, T) -> bool)
    requires Sorted(s, leq)
    ensures Sorted(Filter(s, p), leq)
  {
    if s != [] {
      assert Sorted(s[1..], leq);
      FilterSorted(s[1..], p, leq);
      forall x | x in Filter(s[1..], p) ensures leq(s[0], x) {
        var k :| 0 <= k < |s[1..]| && s[1..][k] == x;
        assert s[k + 1] == x;
      }
    }
  }

  lemma SortOfSorted<T(!new)>(s: seq<T>, leq: (T, T) -> bool)
    requires TotalPreorder(leq) && Sorted(s, leq)
    ensures Sort(s, leq) == s
  {
    SortIsStable(s, leq);
    SortedUnique(Sort(s, leq), s, leq);
  }
}
