/** Stable sorting by "better first", as the language runtime's `sorted(..., reverse=True)` does it. */
module Sorting {

  /** A strict weak order: elements of which neither is better share a rank. */
  ghost predicate IsRanking<T(!new)>(better: (T, T) -> bool) {
    && (forall a: T, b: T :: better(a, b) ==> !better(b, a))
    && (forall a: T, b: T, c: T :: better(a, c) ==> better(a, b) || better(b, c))
  }

  ghost predicate IsSorted<T(!new)>(s: seq<T>, better: (T, T) -> bool) {
    forall i, j :: 0 <= i < j < |s| ==> !better(s[j], s[i])
  }

  /** An element goes in front of the first that is not better, so in front of its equals. */
  function Insert<T>(x: T, s: seq<T>, better: (T, T) -> bool): seq<T> {
    if s == [] || !better(s[0], x) then [x] + s else [s[0]] + Insert(x, s[1..], better)
  }

  function Sorted<T>(s: seq<T>, better: (T, T) -> bool): (r: seq<T>) {
    if s == [] then [] else Insert(s[0], Sorted(s[1..], better), better)
  }

  lemma SortedStep<T>(s: seq<T>, better: (T, T) -> bool)
    requires s != []
    ensures Sorted(s, better) == Insert(s[0], Sorted(s[1..], better), better)
  {
    hide Insert;
  }

  lemma InsertStep<T>(x: T, s: seq<T>, better: (T, T) -> bool)
    ensures Insert(x, s, better) == if s == [] || !better(s[0], x) then [x] + s else [s[0]] + Insert(x, s[1..], better)
  {}

  lemma {:induction false} InsertHolds<T(!new)>(x: T, s: seq<T>, better: (T, T) -> bool)
    requires IsRanking(better) && IsSorted(s, better)
    ensures IsSorted(Insert(x, s, better), better)
    ensures multiset(Insert(x, s, better)) == multiset(s) + multiset{x}
  {
    if s == [] {
      assert multiset([x] + s) == multiset{x} + multiset(s);
    } else if !better(s[0], x) {
      assert multiset([x] + s) == multiset{x} + multiset(s);
      forall j | 0 <= j < |s| ensures !better(s[j], x) {
        assert j == 0 || !better(s[j], s[0]);
      }
    } else {
      InsertHolds(x, s[1..], better);
      var rest := Insert(x, s[1..], better);
      assert s == [s[0]] + s[1..];
      assert multiset([s[0]] + rest) == multiset{s[0]} + multiset(rest);
      forall y | y in rest ensures !better(y, s[0]) {
        assert y in multiset(rest);
        if y != x {
          var j :| 0 <= j < |s[1..]| && s[1..][j] == y;
          assert s[j + 1] == y;
        }
      }
    }
  }

  /** The result is in order and has the same elements. */
  lemma {:induction false} SortedHolds<T(!new)>(s: seq<T>, better: (T, T) -> bool)
    requires IsRanking(better)
    ensures IsSorted(Sorted(s, better), better) && multiset(Sorted(s, better)) == multiset(s)
    ensures |Sorted(s, better)| == |s|
  {
    if s != [] {
      SortedHolds(s[1..], better);
      InsertHolds(s[0], Sorted(s[1..], better), better);
      assert s == [s[0]] + s[1..];
      assert |multiset(Sorted(s, better))| == |multiset(s)|;
    }
  }

  lemma SortedMembers<T(!new)>(s: seq<T>, better: (T, T) -> bool, x: T)
    requires IsRanking(better)
    ensures x in Sorted(s, better) <==> x in s
  {
    SortedHolds(s, better);
    assert x in multiset(Sorted(s, better)) <==> x in multiset(s);
  }

  /** The elements that share the rank of `x`, in their order. */
  function Equals<T>(s: seq<T>, x: T, better: (T, T) -> bool): seq<T> {
    if s == [] then []
    else (if !better(s[0], x) && !better(x, s[0]) then [s[0]] else []) + Equals(s[1..], x, better)
  }

  lemma {:induction false} InsertIsStable<T(!new)>(y: T, s: seq<T>, x: T, better: (T, T) -> bool)
    requires IsRanking(better)
    ensures Equals(Insert(y, s, better), x, better) == Equals([y] + s, x, better)
  {
    assert ([y] + s)[1..] == s;
    if s != [] && better(s[0], y) {
      InsertIsStable(y, s[1..], x, better);
      assert ([y] + s[1..])[1..] == s[1..];
      var rest := Insert(y, s[1..], better);
      assert ([s[0]] + rest)[1..] == rest;
    }
  }

  /** Elements of equal rank keep their order. */
  lemma {:induction false} SortedIsStable<T(!new)>(s: seq<T>, x: T, better: (T, T) -> bool)
    requires IsRanking(better)
    ensures Equals(Sorted(s, better), x, better) == Equals(s, x, better)
  {
    if s != [] {
      SortedIsStable(s[1..], x, better);
      InsertIsStable(s[0], Sorted(s[1..], better), x, better);
      assert ([s[0]] + Sorted(s[1..], better))[1..] == Sorted(s[1..], better);
    }
  }

  /** A sequence that is in order already stays as it is. */
  lemma {:induction false} SortedOfSorted<T(!new)>(s: seq<T>, better: (T, T) -> bool)
    requires IsSorted(s, better)
    ensures Sorted(s, better) == s
  {
    if s != [] {
      SortedOfSorted(s[1..], better);
      if |s| > 1 { assert !better(s[1], s[0]); }
    }
  }

  // ---------- keys ----------

  predicate DistinctBy<T, K(==)>(s: seq<T>, key: T -> K) {
    forall i, j :: 0 <= i < j < |s| ==> key(s[i]) != key(s[j])
  }

  lemma {:induction false} InsertDistinct<T(!new), K>(x: T, s: seq<T>, better: (T, T) -> bool, key: T -> K)
    requires DistinctBy(s, key) && forall y <- s :: key(y) != key(x)
    ensures DistinctBy(Insert(x, s, better), key)
    ensures forall y :: y in Insert(x, s, better) <==> y == x || y in s
  {
    if s != [] && better(s[0], x) {
      var rest := Insert(x, s[1..], better);
      InsertDistinct(x, s[1..], better, key);
      forall y ensures y in [s[0]] + rest <==> y == x || y in s { assert y in s <==> y == s[0] || y in s[1..]; }
      forall j | 0 <= j < |rest| ensures key(rest[j]) != key(s[0]) {
        assert rest[j] in rest;
        if rest[j] != x { var k :| 0 <= k < |s[1..]| && s[1..][k] == rest[j]; }
      }
    }
  }

  /** Sorting keeps distinct keys distinct. */
  lemma {:induction false} SortedStaysDistinct<T(!new), K>(s: seq<T>, better: (T, T) -> bool, key: T -> K)
    requires DistinctBy(s, key)
    ensures DistinctBy(Sorted(s, better), key)
    ensures forall y :: y in Sorted(s, better) <==> y in s
  {
    if s != [] {
      SortedStaysDistinct(s[1..], better, key);
      forall y | y in Sorted(s[1..], better) ensures key(y) != key(s[0]) {
        var k :| 0 <= k < |s[1..]| && s[1..][k] == y;
      }
      InsertDistinct(s[0], Sorted(s[1..], better), better, key);
      forall y ensures y in s <==> y == s[0] || y in s[1..] {}
    }
  }

  lemma SortedOfTwo<T>(a: T, b: T, better: (T, T) -> bool)
    ensures Sorted([a, b], better) == if better(b, a) then [b, a] else [a, b]
    ensures Sorted([b], better) == [b]
  {
    assert [a, b][1..] == [b] && [b][1..] == [];
    assert Sorted([b], better) == [b];
    if better(b, a) { assert Insert(a, [b], better) == [b] + Insert(a, [], better); }
  }
}
