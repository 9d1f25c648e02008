/** Normalized discounted cumulative gain at ten, over any positive discount that falls with the rank. */
module Ndcg {
  import opened Arithmetic

  type Passage = int

  /** The grades in the order of the dictionary; every passage is graded once. */
  type Grades = seq<(Passage, nat)>

  /** `discount(i)` stands for `1 / log2(i + 2)`, the discount of index `i`. */
  type Discount = nat -> real

  ghost predicate Falls(discount: Discount) {
    (forall i: nat :: discount(i) > 0.0) && forall i: nat :: discount(i + 1) <= discount(i)
  }

  ghost predicate FallsStrictly(discount: Discount) {
    (forall i: nat :: discount(i) > 0.0) && forall i: nat :: discount(i + 1) < discount(i)
  }

  predicate DistinctPassages(ranked: seq<Passage>) { forall i, j :: 0 <= i < j < |ranked| ==> ranked[i] != ranked[j] }

  predicate GradedOnce(grades: Grades) { forall i, j :: 0 <= i < j < |grades| ==> grades[i].0 != grades[j].0 }

  function Grade(grades: Grades, p: Passage): nat {
    if grades == [] then 0 else if grades[0].0 == p then grades[0].1 else Grade(grades[1..], p)
  }

  function Values(grades: Grades): (v: seq<nat>)
    ensures |v| == |grades|
  {
    if grades == [] then [] else [grades[0].1] + Values(grades[1..])
  }

  function Gains(grades: Grades, ranked: seq<Passage>): (g: seq<nat>)
    ensures |g| == |ranked| && forall i :: 0 <= i < |g| ==> g[i] == Grade(grades, ranked[i])
  {
    seq(|ranked|, i requires 0 <= i < |ranked| => Grade(grades, ranked[i]))
  }

  // ---------- sorting in falling order ----------

  predicate IsFalling(s: seq<nat>) { forall i, j :: 0 <= i < j < |s| ==> s[i] >= s[j] }

  function Insert(x: nat, s: seq<nat>): (r: seq<nat>) {
    if s == [] || x >= s[0] then [x] + s else [s[0]] + Insert(x, s[1..])
  }

  lemma {:induction false} InsertHolds(x: nat, s: seq<nat>)
    requires IsFalling(s)
    ensures IsFalling(Insert(x, s)) && multiset(Insert(x, s)) == multiset(s) + multiset{x} && |Insert(x, s)| == |s| + 1
  {
    InsertStep(x, s);
    hide Insert;
    if s == [] || x >= s[0] {
      MultisetOfCons(x, s);
      InFront(x, s);
    } else {
      TailFalls(s);
      hide IsFalling;
      InsertHolds(x, s[1..]);
      InsertedLater(x, s, Insert(x, s[1..]));
    }
  }

  lemma InFront(x: nat, s: seq<nat>)
    requires IsFalling(s) && (s == [] || x >= s[0])
    ensures IsFalling([x] + s)
  {
    forall y | y in s ensures y <= x {
      var i :| 0 <= i < |s| && s[i] == y;
      assert i == 0 || s[0] >= s[i];
    }
    FallingCons(x, s);
  }

  lemma TailFalls(s: seq<nat>)
    requires s != [] && IsFalling(s)
    ensures IsFalling(s[1..])
  {}

  lemma InsertedLater(x: nat, s: seq<nat>, rest: seq<nat>)
    requires s != [] && IsFalling(s) && x < s[0] && IsFalling(rest) && multiset(rest) == multiset(s[1..]) + multiset{x}
    ensures IsFalling([s[0]] + rest) && multiset([s[0]] + rest) == multiset(s) + multiset{x}
  {
    BelowHead(x, s, rest);
    FallingCons(s[0], rest);
    hide IsFalling;
    MultisetOfCons(s[0], rest);
    MultisetOfCons(s[0], s[1..]);
    assert s == [s[0]] + s[1..];
  }

  lemma InsertStep(x: nat, s: seq<nat>)
    ensures Insert(x, s) == if s == [] || x >= s[0] then [x] + s else [s[0]] + Insert(x, s[1..])
  {}

  lemma MultisetOfCons(x: nat, s: seq<nat>)
    ensures multiset([x] + s) == multiset{x} + multiset(s)
  {}

  lemma FallingCons(x: nat, s: seq<nat>)
    requires IsFalling(s) && forall y <- s :: y <= x
    ensures IsFalling([x] + s)
  {
    var r := [x] + s;
    forall i, j | 0 <= i < j < |r| ensures r[i] >= r[j] {
      assert r[j] == s[j - 1] && s[j - 1] in s;
      if i > 0 { assert r[i] == s[i - 1]; }
    }
  }

  lemma BelowHead(x: nat, s: seq<nat>, rest: seq<nat>)
    requires s != [] && IsFalling(s) && x < s[0] && multiset(rest) == multiset(s[1..]) + multiset{x}
    ensures forall y <- rest :: y <= s[0]
  {
    forall y | y in rest ensures y <= s[0] {
      assert y in multiset(rest);
      if y != x { assert y in s[1..]; }
    }
  }

  /** `sorted(values, reverse=True)`. */
  function Sorted(s: seq<nat>): (r: seq<nat>) { if s == [] then [] else Insert(s[0], Sorted(s[1..])) }

  lemma {:induction false} SortedHolds(s: seq<nat>)
    ensures IsFalling(Sorted(s)) && multiset(Sorted(s)) == multiset(s) && |Sorted(s)| == |s|
  {
    hide Insert;
    if s != [] {
      SortedHolds(s[1..]);
      InsertHolds(s[0], Sorted(s[1..]));
      MultisetOfCons(s[0], s[1..]);
      assert s == [s[0]] + s[1..];
    }
  }

  // ---------- the metric ----------

  function Dcg(gains: seq<nat>, discount: Discount): real {
    if gains == [] then 0.0
    else Dcg(gains[..|gains| - 1], discount) + gains[|gains| - 1] as real * discount(|gains| - 1)
  }

  const CUTOFF := 10

  function Top(ranked: seq<Passage>): seq<Passage> { if |ranked| <= CUTOFF then ranked else ranked[..CUTOFF] }

  function Ideal(grades: Grades): seq<nat> { Sorted(Values(grades)) }

  /** `_ndcg_at_10`. */
  function NdcgAt10(grades: Grades, ranked: seq<Passage>, discount: Discount): real {
    if grades == [] then 1.0
    else
      var idcg := Dcg(Ideal(grades), discount);
      if idcg == 0.0 then 0.0 else Dcg(Gains(grades, Top(ranked)), discount) / idcg
  }

  // ---------- sums ----------

  function Sum(s: seq<nat>): nat { if s == [] then 0 else Sum(s[..|s| - 1]) + s[|s| - 1] }

  lemma {:induction false} SumConcat(a: seq<nat>, b: seq<nat>)
    ensures Sum(a + b) == Sum(a) + Sum(b)
  {
    if b == [] {
      assert a + b == a;
    } else {
      assert (a + b)[..|a + b| - 1] == a + b[..|b| - 1];
      SumConcat(a, b[..|b| - 1]);
    }
  }

  lemma SumWithout(s: seq<nat>, i: nat)
    requires i < |s|
    ensures Sum(s[..i] + s[i + 1..]) + s[i] == Sum(s)
    ensures multiset(s[..i] + s[i + 1..]) == multiset(s) - multiset{s[i]}
  {
    hide Sum;
    var a, x, b := s[..i], s[i], s[i + 1..];
    assert s == a + [x] + b;
    SumOfParts(a, x, b);
    MultisetOfParts(a, x, b);
  }

  lemma SumOfParts(a: seq<nat>, x: nat, b: seq<nat>)
    ensures Sum(a + b) + x == Sum(a + [x] + b)
  {
    SumOfOneMore(a, x);
    hide Sum;
    SumConcat(a + [x], b);
    SumConcat(a, b);
  }

  lemma MultisetOfParts(a: seq<nat>, x: nat, b: seq<nat>)
    ensures multiset(a + b) == multiset(a + [x] + b) - multiset{x}
  {
    assert multiset(a + [x] + b) == multiset(a) + multiset{x} + multiset(b);
    assert multiset(a + b) == multiset(a) + multiset(b);
  }

  lemma SumOfOneMore(s: seq<nat>, x: nat)
    ensures Sum(s + [x]) == Sum(s) + x
  {
    assert (s + [x])[..|s|] == s;
  }

  lemma {:induction false} SumOfSame(a: seq<nat>, b: seq<nat>)
    requires multiset(a) == multiset(b)
    ensures Sum(a) == Sum(b) && |a| == |b|
    decreases |a|
  {
    assert |multiset(a)| == |a| && |multiset(b)| == |b|;
    if a != [] {
      var last := a[|a| - 1];
      assert last in multiset(a);
      var i :| 0 <= i < |b| && b[i] == last;
      SumWithout(b, i);
      assert a == a[..|a| - 1] + [last];
      assert multiset(a[..|a| - 1]) == multiset(a) - multiset{last};
      SumOfSame(a[..|a| - 1], b[..i] + b[i + 1..]);
    }
  }

  /** No selection from a falling sequence has a greater sum than the front of that length. */
  lemma {:induction false} FrontIsGreatest(g: seq<nat>, s: seq<nat>)
    requires IsFalling(s) && multiset(g) <= multiset(s)
    ensures |g| <= |s| && Sum(g) <= Sum(s[..|g|])
    decreases |s|
  {
    hide Sum;
    SubsetSizes(g, s);
    if |g| == |s| {
      SameSize(multiset(g), multiset(s));
      SumOfSame(g, s);
      assert s[..|g|] == s;
    } else {
      var front := s[..|s| - 1];
      assert front[..|g|] == s[..|g|];
      if multiset(g) <= multiset(front) {
        FrontIsGreatest(g, front);
      } else {
        var h := WithoutLast(g, s);
        FrontIsGreatest(h, front);
      }
    }
  }

  /** A selection that takes the last and least element can take a better one that it left out. */
  lemma WithoutLast(g: seq<nat>, s: seq<nat>) returns (h: seq<nat>)
    requires IsFalling(s) && multiset(g) <= multiset(s) && |g| < |s| && !(multiset(g) <= multiset(s[..|s| - 1]))
    ensures |h| == |g| && Sum(h) >= Sum(g) && multiset(h) <= multiset(s[..|s| - 1])
  {
    hide Sum, IsFalling;
    var front, last := s[..|s| - 1], s[|s| - 1];
    assert s == front + [last];
    assert multiset(front) == multiset(s) - multiset{last};
    var x := Unused(g, s);
    LastIsTaken(g, s);
    var i :| 0 <= i < |g| && g[i] == last;
    SumWithout(g, i);
    var others := g[..i] + g[i + 1..];
    h := others + [x];
    SumOfOneMore(others, x);
    assert multiset(h) == multiset(others) + multiset{x};
    Exchange(multiset(g), multiset(s), last, x);
    LastIsLeast(s, x);
  }

  lemma LastIsLeast(s: seq<nat>, x: nat)
    requires IsFalling(s) && x in multiset(s)
    ensures s != [] && x >= s[|s| - 1]
  {
    var k :| 0 <= k < |s| && s[k] == x;
  }

  lemma SubsetSizes(g: seq<nat>, s: seq<nat>)
    requires multiset(g) <= multiset(s)
    ensures |g| <= |s|
  {
    assert multiset(s) == multiset(g) + (multiset(s) - multiset(g));
    assert |multiset(s)| == |multiset(g)| + |multiset(s) - multiset(g)|;
  }

  lemma SameSize(a: multiset<nat>, b: multiset<nat>)
    requires a <= b && |a| == |b|
    ensures a == b
  {
    assert b == a + (b - a);
    assert |b - a| == 0;
    assert b - a == multiset{};
  }

  lemma Unused(g: seq<nat>, s: seq<nat>) returns (x: nat)
    requires multiset(g) <= multiset(s) && |g| < |s|
    ensures multiset(g)[x] < multiset(s)[x] && x in s
  {
    var rest := multiset(s) - multiset(g);
    assert multiset(s) == multiset(g) + rest;
    assert |multiset(s)| == |multiset(g)| + |rest|;
    assert rest != multiset{};
    x :| x in rest;
    assert x in multiset(s);
  }

  lemma LastIsTaken(g: seq<nat>, s: seq<nat>)
    requires s != [] && multiset(g) <= multiset(s) && !(multiset(g) <= multiset(s[..|s| - 1]))
    ensures s[|s| - 1] in multiset(g)
  {
    assert s == s[..|s| - 1] + [s[|s| - 1]];
  }

  lemma Exchange(g: multiset<nat>, s: multiset<nat>, last: nat, x: nat)
    requires g <= s && last in g && g[x] < s[x]
    requires !(g <= s - multiset{last})
    ensures g - multiset{last} + multiset{x} <= s - multiset{last}
  {
    assert g[last] == s[last];
  }

  // ---------- gains are a selection of the grades ----------

  function Zeros(n: nat): seq<nat> { seq(n, _ => 0) }

  lemma {:induction false} GradeIsValue(grades: Grades, p: Passage) returns (i: nat)
    ensures i <= |grades| && (i == |grades| ==> Grade(grades, p) == 0)
    ensures i < |grades| ==> grades[i].0 == p && Values(grades)[i] == grades[i].1 == Grade(grades, p)
    ensures i == |grades| ==> forall k :: 0 <= k < |grades| ==> grades[k].0 != p
  {
    if grades == [] || grades[0].0 == p {
      i := 0;
    } else {
      i := GradeIsValue(grades[1..], p);
      i := i + 1;
    }
  }

  lemma {:induction false} ValuesWithout(grades: Grades, i: nat)
    requires i < |grades|
    ensures Values(grades[..i] + grades[i + 1..]) == Values(grades)[..i] + Values(grades)[i + 1..]
    decreases i
  {
    if i == 0 {
      assert grades[..0] + grades[1..] == grades[1..];
    } else {
      ValuesWithout(grades[1..], i - 1);
      assert (grades[..i] + grades[i + 1..])[1..] == grades[1..][..i - 1] + grades[1..][i..];
    }
  }

  lemma {:induction false} GradeWithout(grades: Grades, i: nat, p: Passage)
    requires i < |grades| && grades[i].0 != p
    ensures Grade(grades[..i] + grades[i + 1..], p) == Grade(grades, p)
    decreases i
  {
    if i == 0 {
      assert grades[..0] + grades[1..] == grades[1..];
    } else {
      assert (grades[..i] + grades[i + 1..])[1..] == grades[1..][..i - 1] + grades[1..][i..];
      GradeWithout(grades[1..], i - 1, p);
    }
  }

  /** Distinct passages take distinct grades; ungraded ones take a zero. */
  lemma {:induction false} GainsAreSelected(grades: Grades, ranked: seq<Passage>)
    requires DistinctPassages(ranked) && GradedOnce(grades)
    ensures multiset(Gains(grades, ranked)) <= multiset(Values(grades)) + multiset(Zeros(|ranked|))
    decreases |ranked|
  {
    if ranked != [] {
      var p, rest := ranked[0], ranked[1..];
      var i := GradeIsValue(grades, p);
      hide Values;
      assert Gains(grades, ranked) == [Grade(grades, p)] + Gains(grades, rest);
      assert Zeros(|ranked|) == [0] + Zeros(|rest|);
      if i == |grades| {
        GainsAreSelected(grades, rest);
      } else {
        var others := grades[..i] + grades[i + 1..];
        GradesOfOthers(grades, i, rest);
        GainsAreSelected(others, rest);
        OneMoreSelected(multiset(Gains(grades, rest)), multiset(Values(others)), multiset(Zeros(|rest|)), Grade(grades, p));
        assert multiset(Zeros(|ranked|)) == multiset{0} + multiset(Zeros(|rest|));
      }
    }
  }

  lemma GradesOfOthers(grades: Grades, i: nat, rest: seq<Passage>)
    requires i < |grades| && GradedOnce(grades) && forall p <- rest :: p != grades[i].0
    ensures var others := grades[..i] + grades[i + 1..];
            && GradedOnce(others) && Gains(others, rest) == Gains(grades, rest)
            && multiset(Values(grades)) == multiset(Values(others)) + multiset{Values(grades)[i]}
  {
    var others := grades[..i] + grades[i + 1..];
    forall k | 0 <= k < |rest| ensures Grade(others, rest[k]) == Grade(grades, rest[k]) {
      assert rest[k] in rest;
      GradeWithout(grades, i, rest[k]);
    }
    hide Values, Grade;
    ValuesWithout(grades, i);
    SumWithout(Values(grades), i);
    assert Values(grades)[i] in multiset(Values(grades));
  }

  lemma OneMoreSelected(gains: multiset<nat>, values: multiset<nat>, zeros: multiset<nat>, x: nat)
    requires gains <= values + zeros
    ensures gains + multiset{x} <= (values + multiset{x}) + (zeros + multiset{0})
  {}

  lemma PaddedIsFalling(s: seq<nat>, n: nat)
    requires IsFalling(s)
    ensures IsFalling(s + Zeros(n)) && multiset(s + Zeros(n)) == multiset(s) + multiset(Zeros(n))
  {}

  /** The first gains of any ranking add up to no more than the first ideal gains. */
  lemma GainsStayBelow(grades: Grades, ranked: seq<Passage>, k: nat)
    requires DistinctPassages(ranked) && GradedOnce(grades) && k <= |ranked|
    ensures var ideal := Ideal(grades) + Zeros(|ranked|);
            Sum(Gains(grades, ranked)[..k]) <= Sum(ideal[..k])
  {
    SortedHolds(Values(grades));
    hide Sum, Values, Grade, Sorted;
    var g, s := Gains(grades, ranked[..k]), Ideal(grades) + Zeros(k);
    GainsAreSelected(grades, ranked[..k]);
    PaddedIsFalling(Ideal(grades), k);
    FrontIsGreatest(g, s);
    assert g == Gains(grades, ranked)[..k];
    assert s[..k] == (Ideal(grades) + Zeros(|ranked|))[..k];
  }

  // ---------- summation by parts ----------

  predicate StaysBelow(a: seq<nat>, b: seq<nat>) {
    |a| <= |b| && forall k :: 0 <= k <= |a| ==> Sum(a[..k]) <= Sum(b[..k])
  }

  lemma LastTerm(s: seq<nat>, discount: Discount)
    requires s != []
    ensures var n := |s| - 1;
            Sum(s) == Sum(s[..n]) + s[n] && Dcg(s, discount) == Dcg(s[..n], discount) + s[n] as real * discount(n)
  {}

  lemma WholeSums(a: seq<nat>, b: seq<nat>)
    requires |a| == |b| && StaysBelow(a, b)
    ensures Sum(a) <= Sum(b)
  {
    assert a[..|a|] == a && b[..|b|] == b;
  }

  lemma NoSum(discount: Discount)
    ensures Sum([]) == 0 && Dcg([], discount) == 0.0
  {}

  lemma Positive(discount: Discount, i: nat)
    requires Falls(discount)
    ensures discount(i) > 0.0 && discount(i + 1) <= discount(i)
  {}

  /** If the sums of `a` stay below those of `b`, so do the discounted sums. */
  lemma {:induction false} DiscountKeepsOrder(a: seq<nat>, b: seq<nat>, discount: Discount)
    requires Falls(discount) && |a| == |b| && StaysBelow(a, b)
    ensures a != [] ==> Dcg(b, discount) - Dcg(a, discount) >= (Sum(b) - Sum(a)) as real * discount(|a| - 1)
    ensures Dcg(a, discount) <= Dcg(b, discount)
    decreases |a|
  {
    hide Sum, Dcg, StaysBelow, Falls;
    NoSum(discount);
    if a != [] {
      var n := |a| - 1;
      var c, d := a[..n], b[..n];
      LastTerm(a, discount);
      LastTerm(b, discount);
      WholeSums(a, b);
      SharedFronts(a, b);
      WholeSums(c, d);
      DiscountKeepsOrder(c, d, discount);
      Positive(discount, n);
      if n > 0 { Positive(discount, n - 1); }
      ByParts(Dcg(d, discount) - Dcg(c, discount), (Sum(d) - Sum(c)) as real, b[n] as real, a[n] as real,
              if n > 0 then discount(n - 1) else discount(n), discount(n));
      assert (Sum(b) - Sum(a)) as real == (Sum(d) - Sum(c)) as real + b[n] as real - a[n] as real;
      Scale((Sum(b) - Sum(a)) as real, 0.0, discount(n));
    }
  }

  lemma ByParts(difference: real, before: real, more: real, less: real, previous: real, here: real)
    requires before >= 0.0 && here <= previous && difference >= before * previous
    ensures difference + (more * here - less * here) >= (before + more - less) * here
  {
    Scale(before, here, previous);
    Distribute(before + more, less, here);
    Distribute(before, -more, here);
    assert (-more) * here == -(more * here);
  }

  lemma SharedFronts(a: seq<nat>, b: seq<nat>)
    requires |a| == |b| > 0 && StaysBelow(a, b)
    ensures StaysBelow(a[..|a| - 1], b[..|b| - 1])
  {
    var n := |a| - 1;
    forall k | 0 <= k <= n ensures Sum(a[..n][..k]) <= Sum(b[..n][..k]) {
      assert a[..n][..k] == a[..k] && b[..n][..k] == b[..k];
    }
  }

  /** With a strictly falling discount, equal discounted sums have equal terms. */
  lemma {:induction false} EqualSumsAreEqual(a: seq<nat>, b: seq<nat>, discount: Discount)
    requires FallsStrictly(discount) && |a| == |b| && StaysBelow(a, b)
    ensures a != b ==> Dcg(b, discount) > Dcg(a, discount)
    decreases |a|
  {
    hide Sum, Dcg, StaysBelow;
    if a != b {
      var n := |a| - 1;
      LastTerm(a, discount);
      LastTerm(b, discount);
      WholeSums(a, b);
      var c, d := a[..n], b[..n];
      SharedFronts(a, b);
      WholeSums(c, d);
      DiscountKeepsOrder(a, b, discount);
      if Sum(a) < Sum(b) {
        PositiveProduct((Sum(b) - Sum(a)) as real, discount(n));
      } else {
        LastDiffers(a, b);
        EqualSumsAreEqual(c, d, discount);
        DiscountKeepsOrder(c, d, discount);
        StrictlyByParts(Dcg(d, discount) - Dcg(c, discount), (Sum(d) - Sum(c)) as real, b[n] as real, a[n] as real,
                        discount(n - 1), discount(n));
      }
    }
  }

  lemma LastDiffers(a: seq<nat>, b: seq<nat>)
    requires |a| == |b| > 0 && a != b && Sum(a) == Sum(b)
    ensures a[..|a| - 1] != b[..|b| - 1]
  {
    assert a == a[..|a| - 1] + [a[|a| - 1]] && b == b[..|b| - 1] + [b[|b| - 1]];
  }

  lemma StrictlyByParts(difference: real, before: real, more: real, less: real, previous: real, here: real)
    requires before >= 0.0 && here < previous && difference >= before * previous && difference > 0.0
    requires before + more - less == 0.0
    ensures difference + (more * here - less * here) > 0.0
  {
    assert more == less - before;
    Distribute(less, before, here);
    if before > 0.0 {
      ScaleStrictly(before, here, previous);
      Remainder(difference, before * previous, before * here, more * here, less * here);
    } else {
      assert before * here == 0.0;
    }
  }

  lemma Remainder(difference: real, floor: real, lost: real, more: real, less: real)
    requires floor <= difference && lost < floor && more == less - lost
    ensures difference + (more - less) > 0.0
  {}

  lemma Distribute(a: real, b: real, x: real)
    ensures (a - b) * x == a * x - b * x
  {}

  lemma {:induction false} ZerosAddNothing(s: seq<nat>, n: nat, discount: Discount)
    ensures Dcg(s + Zeros(n), discount) == Dcg(s, discount)
    decreases n
  {
    if n == 0 {
      assert s + Zeros(0) == s;
    } else {
      assert (s + Zeros(n))[..|s| + n - 1] == s + Zeros(n - 1);
      ZerosAddNothing(s, n - 1, discount);
    }
  }

  lemma {:induction false} DcgIsNotNegative(s: seq<nat>, discount: Discount)
    requires Falls(discount)
    ensures Dcg(s, discount) >= 0.0
    ensures Dcg(s, discount) == 0.0 <==> forall x <- s :: x == 0
    decreases |s|
  {
    if s != [] {
      var n := |s| - 1;
      DcgIsNotNegative(s[..n], discount);
      assert s == s[..n] + [s[n]];
      if s[n] > 0 {
        PositiveProduct(s[n] as real, discount(n));
        assert s[n] in s;
      } else {
        assert forall x :: x in s <==> x in s[..n] || x == s[n];
      }
    }
  }

  /** Gains and ideal gains, both padded with zeros to the same length. */
  function PaddedGains(grades: Grades, ranked: seq<Passage>): seq<nat> {
    Gains(grades, Top(ranked)) + Zeros(|grades|)
  }

  function PaddedIdeal(grades: Grades, ranked: seq<Passage>): seq<nat> {
    Ideal(grades) + Zeros(|Top(ranked)|)
  }

  lemma PaddedStaysBelow(grades: Grades, ranked: seq<Passage>)
    requires DistinctPassages(ranked) && GradedOnce(grades)
    ensures StaysBelow(PaddedGains(grades, ranked), PaddedIdeal(grades, ranked))
    ensures |PaddedGains(grades, ranked)| == |PaddedIdeal(grades, ranked)|
  {
    hide IsFalling, Sum, GradedOnce;
    SortedHolds(Values(grades));
    var a, b := PaddedGains(grades, ranked), PaddedIdeal(grades, ranked);
    var top, m := Top(ranked), |Top(ranked)|;
    forall k | 0 <= k <= |a| ensures Sum(a[..k]) <= Sum(b[..k]) {
      if k <= m {
        GainsStayBelow(grades, top, k);
        assert a[..k] == Gains(grades, top)[..k];
      } else {
        GainsStayBelow(grades, top, m);
        assert a[..k] == Gains(grades, top) + Zeros(k - m);
        SumConcat(Gains(grades, top), Zeros(k - m));
        ZerosSumToNothing(k - m);
        assert Gains(grades, top)[..m] == Gains(grades, top);
        assert b[..k] == b[..m] + b[m..k];
        SumConcat(b[..m], b[m..k]);
      }
    }
  }

  lemma {:induction false} ZerosSumToNothing(n: nat)
    ensures Sum(Zeros(n)) == 0
  {
    if n > 0 {
      assert Zeros(n)[..n - 1] == Zeros(n - 1);
      ZerosSumToNothing(n - 1);
    }
  }

  /** The metric lies between zero and one for every ranking without repetitions. */
  lemma NdcgIsBounded(grades: Grades, ranked: seq<Passage>, discount: Discount)
    requires Falls(discount) && DistinctPassages(ranked) && GradedOnce(grades)
    ensures 0.0 <= NdcgAt10(grades, ranked, discount) <= 1.0
  {
    var gains, ideal := Gains(grades, Top(ranked)), Ideal(grades);
    DcgIsNotNegative(gains, discount);
    DcgIsNotNegative(ideal, discount);
    PaddedStaysBelow(grades, ranked);
    DiscountKeepsOrder(PaddedGains(grades, ranked), PaddedIdeal(grades, ranked), discount);
    ZerosAddNothing(gains, |grades|, discount);
    ZerosAddNothing(ideal, |Top(ranked)|, discount);
    if Dcg(ideal, discount) > 0.0 { Quotient(Dcg(gains, discount), Dcg(ideal, discount)); }
  }

  lemma Quotient(a: real, b: real)
    requires 0.0 <= a <= b && b > 0.0
    ensures 0.0 <= a / b <= 1.0 && (a / b == 1.0 <==> a == b)
  {
    var q := a / b;
    assert q * b == a;
  }

  lemma NdcgIsOneForPadded(grades: Grades, ranked: seq<Passage>, discount: Discount)
    requires FallsStrictly(discount) && DistinctPassages(ranked) && GradedOnce(grades)
    ensures NdcgAt10(grades, ranked, discount) == 1.0 <==>
              grades == [] || ((exists v <- Ideal(grades) :: v > 0)
                                && PaddedGains(grades, ranked) == PaddedIdeal(grades, ranked))
  {
    var gains, ideal := Gains(grades, Top(ranked)), Ideal(grades);
    DcgIsNotNegative(gains, discount);
    DcgIsNotNegative(ideal, discount);
    PaddedStaysBelow(grades, ranked);
    DiscountKeepsOrder(PaddedGains(grades, ranked), PaddedIdeal(grades, ranked), discount);
    EqualSumsAreEqual(PaddedGains(grades, ranked), PaddedIdeal(grades, ranked), discount);
    ZerosAddNothing(gains, |grades|, discount);
    ZerosAddNothing(ideal, |Top(ranked)|, discount);
    if Dcg(ideal, discount) > 0.0 { Quotient(Dcg(gains, discount), Dcg(ideal, discount)); }
  }

  /** The first ten places, or all there are. */
  function Places(ranked: seq<Passage>): (k: nat)
    ensures k <= |ranked|
  {
    if |ranked| < 10 then |ranked| else 10
  }

  lemma TopIs(ranked: seq<Passage>)
    ensures Top(ranked) == ranked[..Places(ranked)]
  {}

  /** The metric is one exactly for nothing graded, or when some grade is positive and the first ten passages have
      the grades of all passages in falling order, zeros aside. */
  lemma NdcgIsOneExactly(grades: Grades, ranked: seq<Passage>, discount: Discount)
    requires FallsStrictly(discount) && DistinctPassages(ranked) && GradedOnce(grades)
    ensures NdcgAt10(grades, ranked, discount) == 1.0 <==>
              grades == [] || ((exists v <- Ideal(grades) :: v > 0)
                                && Gains(grades, ranked[..Places(ranked)]) + Zeros(|grades|)
                                     == Ideal(grades) + Zeros(Places(ranked)))
  {
    hide Gains, Ideal, Zeros, NdcgAt10, Top, Places;
    TopIs(ranked);
    NdcgIsOneForPadded(grades, ranked, discount);
  }

  /** `_ordered_unique`: every passage once, in the order of first occurrence. */
  function OrderedUnique(items: seq<Passage>): (r: seq<Passage>)
    ensures DistinctPassages(r) && forall p :: p in r <==> p in items
    decreases |items|
  {
    if items == [] then []
    else
      var init, last := items[..|items| - 1], items[|items| - 1];
      assert items == init + [last];
      if last in init then OrderedUnique(init) else OrderedUnique(init) + [last]
  }

  /** What the evaluation scores is always within the bounds: it removes repeated passages first. */
  lemma ScoredRankingIsBounded(grades: Grades, items: seq<Passage>, discount: Discount)
    requires Falls(discount) && GradedOnce(grades)
    ensures 0.0 <= NdcgAt10(grades, OrderedUnique(items), discount) <= 1.0
  {
    NdcgIsBounded(grades, OrderedUnique(items), discount);
  }

  /** Why repetitions have to be removed: the only relevant passage ranked twice would score above one. */
  lemma RepetitionsExceedOne(p: Passage, grade: nat, discount: Discount)
    requires Falls(discount) && grade > 0
    ensures NdcgAt10([(p, grade)], [p, p], discount) > 1.0
  {
    var grades, ranked := [(p, grade)], [p, p];
    assert Values(grades) == [grade] by { assert Values(grades[1..]) == []; }
    SortedOne(grade);
    assert Gains(grades, ranked) == [grade, grade];
    var x, y := grade as real * discount(0), grade as real * discount(1);
    assert Dcg([grade], discount) == x by { assert [grade][..0] == []; }
    assert Dcg([grade, grade], discount) == x + y by { assert [grade, grade][..1] == [grade] && [grade][..0] == []; }
    PositiveProduct(grade as real, discount(0));
    PositiveProduct(grade as real, discount(1));
    Exceeds(x + y, x);
  }

  lemma SortedOne(x: nat)
    ensures Sorted([x]) == [x]
  {
    assert [x][1..] == [] && Sorted([]) == [];
  }

  lemma Exceeds(a: real, b: real)
    requires 0.0 < b < a
    ensures a / b > 1.0
  {
    var q := a / b;
    assert q * b == a;
  }

  // ---------- the metric on small inputs and long rankings ----------

  /** What is ranked below the tenth place makes no difference. */
  lemma OnlyTenCount(grades: Grades, ranked: seq<Passage>, discount: Discount)
    requires |ranked| >= 10
    ensures NdcgAt10(grades, ranked, discount) == NdcgAt10(grades, ranked[..10], discount)
  {
    hide Dcg, Gains, Ideal;
    TopIs(ranked);
    TopIs(ranked[..10]);
    assert ranked[..10][..10] == ranked[..10];
  }

  lemma {:induction false} OneGain(gains: seq<nat>, i: nat, discount: Discount)
    requires i < |gains| && forall j :: 0 <= j < |gains| && j != i ==> gains[j] == 0
    ensures Dcg(gains, discount) == gains[i] as real * discount(i)
    decreases |gains|
  {
    hide Dcg;
    var n := |gains| - 1;
    LastTerm(gains, discount);
    if i == n { NothingGained(gains[..n], discount); } else { OneGain(gains[..n], i, discount); }
  }

  lemma {:induction false} NothingGained(gains: seq<nat>, discount: Discount)
    requires forall j :: 0 <= j < |gains| ==> gains[j] == 0
    ensures Dcg(gains, discount) == 0.0
    decreases |gains|
  {
    if gains != [] { NothingGained(gains[..|gains| - 1], discount); }
  }

  lemma OneValue(p: Passage, grade: nat)
    ensures Values([(p, grade)]) == [grade] && Ideal([(p, grade)]) == [grade]
    ensures forall q :: Grade([(p, grade)], q) == if q == p then grade else 0
  {
    var grades := [(p, grade)];
    assert grades[1..] == [];
    assert Values(grades[1..]) == [];
    SortedOne(grade);
  }

  /** With one relevant passage the metric is the discount of its rank over that of the first rank, and nothing from the
      eleventh place on. */
  lemma OneRelevant(p: Passage, grade: nat, ranked: seq<Passage>, i: nat, discount: Discount)
    requires Falls(discount) && grade > 0 && DistinctPassages(ranked) && i < |ranked| && ranked[i] == p
    ensures discount(0) > 0.0
    ensures NdcgAt10([(p, grade)], ranked, discount) == if i < 10 then discount(i) / discount(0) else 0.0
  {
    hide Dcg, Ideal, Grade, Falls, NdcgAt10;
    var grades := [(p, grade)];
    OneValue(p, grade);
    var gains := Gains(grades, ranked[..Places(ranked)]);
    Positive(discount, 0);
    OneGain([grade], 0, discount);
    PositiveProduct(grade as real, discount(0));
    NdcgIsQuotient(grades, ranked, discount);
    if i < 10 {
      OneGain(gains, i, discount);
      Cancelled(grade as real, discount(i), discount(0));
    } else {
      NothingGained(gains, discount);
    }
  }

  lemma Cancelled(x: real, a: real, b: real)
    requires x > 0.0 && b > 0.0 && x * b > 0.0
    ensures x * a / (x * b) == a / b
  {
    var q := a / b;
    assert q * b == a;
    assert x * a == q * (x * b);
  }

  lemma TwoValues(p: Passage, q: Passage, high: nat, low: nat)
    requires p != q && high > low
    ensures Ideal([(p, high), (q, low)]) == [high, low]
    ensures Grade([(p, high), (q, low)], p) == high && Grade([(p, high), (q, low)], q) == low
  {
    var grades := [(p, high), (q, low)];
    OneValue(q, low);
    assert grades[1..] == [(q, low)];
    assert Values(grades) == [high, low];
    assert [high, low][1..] == [low];
  }

  lemma NdcgIsQuotient(grades: Grades, ranked: seq<Passage>, discount: Discount)
    requires grades != [] && Dcg(Ideal(grades), discount) != 0.0
    ensures NdcgAt10(grades, ranked, discount)
         == Dcg(Gains(grades, ranked[..Places(ranked)]), discount) / Dcg(Ideal(grades), discount)
  {
    hide Dcg, Ideal, Gains;
    TopIs(ranked);
  }

  lemma PositiveSum(a: nat, b: nat, x: real, y: real)
    requires a > 0 && b > 0 && x > 0.0 && y > 0.0
    ensures a as real * x + b as real * y > 0.0
  {
    PositiveProduct(a as real, x);
    PositiveProduct(b as real, y);
  }

  /** Gains are the grades themselves: with the lower of two grades first, the metric is this quotient. */
  lemma SwappedPair(p: Passage, q: Passage, high: nat, low: nat, discount: Discount)
    requires Falls(discount) && p != q && high > low > 0
    ensures high as real * discount(0) + low as real * discount(1) > 0.0
    ensures NdcgAt10([(p, high), (q, low)], [q, p], discount)
         == (low as real * discount(0) + high as real * discount(1)) / (high as real * discount(0) + low as real * discount(1))
  {
    hide Dcg, Ideal, Grade, Falls, NdcgAt10, Top;
    var grades := [(p, high), (q, low)];
    TwoValues(p, q, high, low);
    assert [q, p][..Places([q, p])] == [q, p];
    assert Gains(grades, [q, p]) == [low, high];
    hide Gains, Places;
    Positive(discount, 0);
    Positive(discount, 1);
    PairGains(high, low, discount);
    PairGains(low, high, discount);
    PositiveSum(high, low, discount(0), discount(1));
    NdcgIsQuotient(grades, [q, p], discount);
  }

  lemma PairGains(a: nat, b: nat, discount: Discount)
    ensures Dcg([a, b], discount) == a as real * discount(0) + b as real * discount(1)
  {
    hide Dcg;
    LastTerm([a, b], discount);
    LastTerm([a], discount);
    NoSum(discount);
    assert [a, b][..1] == [a] && [a][..0] == [];
  }

  /** Where a passage first occurs. */
  function FirstPlace(items: seq<Passage>, p: Passage): (k: nat)
    ensures k <= |items| && (k < |items| <==> p in items)
    ensures k < |items| ==> items[k] == p && forall j :: 0 <= j < k ==> items[j] != p
  {
    if items == [] || items[0] == p then 0
    else
      assert items == [items[0]] + items[1..];
      1 + FirstPlace(items[1..], p)
  }

  lemma FirstPlaceBefore(items: seq<Passage>, last: Passage, p: Passage)
    requires p in items
    ensures FirstPlace(items + [last], p) == FirstPlace(items, p)
  {
    var a, b := FirstPlace(items + [last], p), FirstPlace(items, p);
    assert (items + [last])[b] == p;
    if a < b { assert items[a] == (items + [last])[a]; }
  }

  /** Removing repetitions keeps the order of the first occurrences. */
  lemma {:induction false} UniqueKeepsOrder(items: seq<Passage>, i: nat, j: nat)
    requires i < j < |OrderedUnique(items)|
    ensures FirstPlace(items, OrderedUnique(items)[i]) < FirstPlace(items, OrderedUnique(items)[j])
    decreases |items|
  {
    var init, last := items[..|items| - 1], items[|items| - 1];
    assert items == init + [last];
    var r := OrderedUnique(init);
    assert r[i] in r;
    FirstPlaceBefore(init, last, r[i]);
    if j < |r| {
      assert r[j] in r;
      FirstPlaceBefore(init, last, r[j]);
      UniqueKeepsOrder(init, i, j);
    }
  }
}
