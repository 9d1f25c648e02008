/** Duplicate suppression, greedy diversity and the evidence budget. */
module EvidenceAssembly {
  import opened Arithmetic
  import opened Wrappers
  import opened Sorting

  /** What the selection looks at; `score` is the effective score. */
  datatype Candidate = Candidate(
    id: int, document: int, parent: Option<int>, start: Option<int>, end: Option<int>, hash: Option<int>,
    tokens: nat, score: real)

  // ---------- duplicates ----------

  /** `_highly_overlapping`: at least nine tenths of the shorter passage. */
  predicate Overlapping(a: Candidate, b: Candidate) {
    && a.document == b.document && a.start.Some? && a.end.Some? && b.start.Some? && b.end.Some?
    && var overlap := Max(0, Min(a.end.value, b.end.value) - Max(a.start.value, b.start.value));
       var shorter := Min(a.end.value - a.start.value, b.end.value - b.start.value);
       shorter > 0 && 10 * overlap >= 9 * shorter
  }

  predicate SameContent(a: Candidate, b: Candidate) { a.hash.Some? && a.document == b.document && a.hash == b.hash }

  predicate OverlapsAny(c: Candidate, retained: seq<Candidate>) { exists r <- retained :: Overlapping(c, r) }

  predicate SeenContent(c: Candidate, seen: seq<Candidate>) { exists s <- seen :: SameContent(c, s) }

  /** `suppress_duplicates` from position `i` on; an overlapping candidate still leaves its content hash behind. */
  function Retained(cs: seq<Candidate>, i: nat, retained: seq<Candidate>): seq<Candidate>
    requires i <= |cs|
    decreases |cs| - i
  {
    if i == |cs| then retained
    else if SeenContent(cs[i], cs[..i]) || OverlapsAny(cs[i], retained) then Retained(cs, i + 1, retained)
    else Retained(cs, i + 1, retained + [cs[i]])
  }

  function Suppressed(cs: seq<Candidate>): seq<Candidate> { Retained(cs, 0, []) }

  method SuppressDuplicates(cs: seq<Candidate>) returns (retained: seq<Candidate>)
    ensures retained == Suppressed(cs)
  {
    retained := [];
    var hashes: set<(int, int)> := {};
    for i := 0 to |cs|
      invariant Retained(cs, i, retained) == Suppressed(cs)
      invariant forall d: int, h: int :: (d, h) in hashes <==> exists s <- cs[..i] :: s.document == d && s.hash == Some(h)
    {
      var c := cs[i];
      assert cs[..i + 1] == cs[..i] + [c];
      if c.hash.Some? {
        var h := c.hash.value;
        assert SeenContent(c, cs[..i]) <==> exists s <- cs[..i] :: s.document == c.document && s.hash == Some(h);
      }
      var isKnown := c.hash.Some? && (c.document, c.hash.value) in hashes;
      if c.hash.Some? { hashes := hashes + {(c.document, c.hash.value)}; }
      if !isKnown && !(exists r <- retained :: Overlapping(c, r)) { retained := retained + [c]; }
    }
  }

  predicate DuplicateFree(cs: seq<Candidate>) {
    forall i, j :: 0 <= i < j < |cs| ==> !Overlapping(cs[j], cs[i]) && !SameContent(cs[j], cs[i])
  }

  /** A candidate was retained, or an earlier one has its content, or an earlier retained one covers it. */
  predicate Accounted(cs: seq<Candidate>, retained: seq<Candidate>, k: nat)
    requires k < |cs|
  {
    || cs[k] in retained
    || SeenContent(cs[k], cs[..k])
    || exists r <- retained :: Overlapping(cs[k], r) && r in cs[..k]
  }

  lemma {:induction false} RetainedHolds(cs: seq<Candidate>, i: nat, retained: seq<Candidate>)
    requires i <= |cs| && DuplicateFree(retained) && forall r <- retained :: r in cs[..i]
    ensures var r := Retained(cs, i, retained);
            && retained <= r && DuplicateFree(r) && (forall x <- r :: x in cs)
            && (forall k :: i <= k < |cs| ==> Accounted(cs, r, k))
    decreases |cs| - i
  {
    hide DuplicateFree, SeenContent, OverlapsAny, SameContent, Overlapping, Accounted;
    if i < |cs| {
      var c, r := cs[i], Retained(cs, i, retained);
      assert cs[..i + 1] == cs[..i] + [c];
      if SeenContent(c, cs[..i]) || OverlapsAny(c, retained) {
        RetainedHolds(cs, i + 1, retained);
        DroppedIsAccounted(cs, i, retained, r);
      } else {
        StaysDuplicateFree(cs, i, retained);
        RetainedHolds(cs, i + 1, retained + [c]);
        assert r[|retained|] == c;
        KeptIsAccounted(cs, i, r);
      }
    }
  }

  lemma KeptIsAccounted(cs: seq<Candidate>, i: nat, r: seq<Candidate>)
    requires i < |cs| && cs[i] in r
    ensures Accounted(cs, r, i)
  {}

  lemma DroppedIsAccounted(cs: seq<Candidate>, i: nat, retained: seq<Candidate>, r: seq<Candidate>)
    requires i < |cs| && (SeenContent(cs[i], cs[..i]) || OverlapsAny(cs[i], retained))
    requires retained <= r && forall x <- retained :: x in cs[..i]
    ensures Accounted(cs, r, i)
  {
    hide SeenContent, Overlapping;
    if !SeenContent(cs[i], cs[..i]) {
      var k :| 0 <= k < |retained| && Overlapping(cs[i], retained[k]);
      assert r[k] in r && retained[k] in retained;
    }
  }

  lemma StaysDuplicateFree(cs: seq<Candidate>, i: nat, retained: seq<Candidate>)
    requires i < |cs| && DuplicateFree(retained) && forall r <- retained :: r in cs[..i]
    requires !SeenContent(cs[i], cs[..i]) && !OverlapsAny(cs[i], retained)
    ensures DuplicateFree(retained + [cs[i]])
  {
    hide SameContent, Overlapping;
    forall k | 0 <= k < |retained| ensures !Overlapping(cs[i], retained[k]) && !SameContent(cs[i], retained[k]) {
      assert retained[k] in retained;
    }
  }

  /** What is left is free of duplicates, and every candidate is in it or has an earlier one that stands for it. */
  lemma SuppressionHolds(cs: seq<Candidate>, k: nat)
    requires k < |cs|
    ensures DuplicateFree(Suppressed(cs)) && (forall x <- Suppressed(cs) :: x in cs) && Accounted(cs, Suppressed(cs), k)
  {
    RetainedHolds(cs, 0, []);
  }

  lemma {:induction false} NothingToSuppress(cs: seq<Candidate>, i: nat)
    requires i <= |cs| && DuplicateFree(cs)
    ensures Retained(cs, i, cs[..i]) == cs
    decreases |cs| - i
  {
    if i == |cs| {
      assert cs[..i] == cs;
    } else {
      assert !SeenContent(cs[i], cs[..i]) by {
        forall s | s in cs[..i] ensures !SameContent(cs[i], s) { var k :| 0 <= k < i && cs[..i][k] == s; }
      }
      assert !OverlapsAny(cs[i], cs[..i]) by {
        forall s | s in cs[..i] ensures !Overlapping(cs[i], s) { var k :| 0 <= k < i && cs[..i][k] == s; }
      }
      assert cs[..i + 1] == cs[..i] + [cs[i]];
      NothingToSuppress(cs, i + 1);
    }
  }

  /** Suppression is idempotent. */
  lemma SuppressionIsIdempotent(cs: seq<Candidate>)
    ensures Suppressed(Suppressed(cs)) == Suppressed(cs)
  {
    RetainedHolds(cs, 0, []);
    NothingToSuppress(Suppressed(cs), 0);
  }

  function At(cs: seq<Candidate>, places: seq<nat>): seq<Candidate>
    requires forall k :: 0 <= k < |places| ==> places[k] < |cs|
  {
    if places == [] then [] else [cs[places[0]]] + At(cs, places[1..])
  }

  /** Suppression keeps the order: the result is the input without the dropped positions. */
  lemma {:induction false} SuppressionKeepsOrder(cs: seq<Candidate>, i: nat, retained: seq<Candidate>) returns (places: seq<nat>)
    requires i <= |cs|
    ensures forall k :: 0 <= k < |places| ==> i <= places[k] < |cs|
    ensures Retained(cs, i, retained) == retained + At(cs, places)
    ensures forall k, m :: 0 <= k < m < |places| ==> places[k] < places[m]
    decreases |cs| - i
  {
    hide SeenContent, OverlapsAny;
    places := [];
    if i < |cs| {
      if SeenContent(cs[i], cs[..i]) || OverlapsAny(cs[i], retained) {
        places := SuppressionKeepsOrder(cs, i + 1, retained);
      } else {
        var rest := SuppressionKeepsOrder(cs, i + 1, retained + [cs[i]]);
        places := [i] + rest;
        assert places[1..] == rest;
        assert retained + [cs[i]] + At(cs, rest) == retained + ([cs[i]] + At(cs, rest));
      }
    } else {
      assert retained + At(cs, places) == retained;
    }
  }

  // ---------- diversity ----------

  function ParentKey(c: Candidate): (int, int) { (c.document, if c.parent.Some? then c.parent.value else c.id) }

  function DocumentCount(cs: seq<Candidate>, c: Candidate): nat {
    if cs == [] then 0 else DocumentCount(cs[..|cs| - 1], c) + if cs[|cs| - 1].document == c.document then 1 else 0
  }

  function ParentCount(cs: seq<Candidate>, c: Candidate): nat {
    if cs == [] then 0 else ParentCount(cs[..|cs| - 1], c) + if ParentKey(cs[|cs| - 1]) == ParentKey(c) then 1 else 0
  }

  function Divisor(c: Candidate, selected: seq<Candidate>, penalty: real): (d: real)
    requires penalty >= 0.0
    ensures d >= 1.0
  {
    Nonnegative(penalty, DocumentCount(selected, c) as real);
    Nonnegative(penalty * 0.5, ParentCount(selected, c) as real);
    1.0 + penalty * DocumentCount(selected, c) as real + penalty * 0.5 * ParentCount(selected, c) as real
  }

  lemma Nonnegative(a: real, b: real)
    requires a >= 0.0 && b >= 0.0
    ensures a * b >= 0.0
  {}

  /** `_diversity_score`. */
  function Adjusted(c: Candidate, selected: seq<Candidate>, penalty: real): real
    requires penalty >= 0.0
  {
    c.score / Divisor(c, selected, penalty)
  }

  /** The first of the candidates with the greatest adjusted score. */
  function Best(cs: seq<Candidate>, selected: seq<Candidate>, penalty: real): (b: nat)
    requires cs != [] && penalty >= 0.0
    ensures b < |cs|
    ensures forall k :: 0 <= k < |cs| ==> Adjusted(cs[k], selected, penalty) <= Adjusted(cs[b], selected, penalty)
    ensures forall k :: 0 <= k < b ==> Adjusted(cs[k], selected, penalty) < Adjusted(cs[b], selected, penalty)
  {
    if |cs| == 1 then 0
    else
      var n := |cs| - 1;
      var b := Best(cs[..n], selected, penalty);
      assert forall k :: 0 <= k < n ==> cs[..n][k] == cs[k];
      if Adjusted(cs[n], selected, penalty) > Adjusted(cs[b], selected, penalty) then n else b
  }

  function Without<T>(s: seq<T>, i: nat): (r: seq<T>)
    requires i < |s|
    ensures |r| == |s| - 1
  {
    s[..i] + s[i + 1..]
  }

  function Greedy(remaining: seq<Candidate>, selected: seq<Candidate>, limit: nat, penalty: real): seq<Candidate>
    requires penalty >= 0.0
    decreases |remaining|
  {
    if remaining == [] || |selected| >= limit then selected
    else
      var b := Best(remaining, selected, penalty);
      Greedy(Without(remaining, b), selected + [remaining[b]], limit, penalty)
  }

  /** `apply_adaptive_diversity`. */
  function Diverse(cs: seq<Candidate>, limit: nat, penalty: real): seq<Candidate>
    requires penalty >= 0.0
  {
    Greedy(Suppressed(cs), [], limit, penalty)
  }

  /** The first of the remaining candidates with the greatest adjusted score, by one pass. */
  method FirstBest(cs: seq<Candidate>, selected: seq<Candidate>, penalty: real) returns (b: nat)
    requires cs != [] && penalty >= 0.0
    ensures b < |cs| && b == Best(cs, selected, penalty)
  {
    hide Adjusted, Best;
    b := 0;
    for i := 1 to |cs|
      invariant b < i
      invariant forall k :: 0 <= k < i ==> Adjusted(cs[k], selected, penalty) <= Adjusted(cs[b], selected, penalty)
      invariant forall k :: 0 <= k < b ==> Adjusted(cs[k], selected, penalty) < Adjusted(cs[b], selected, penalty)
    {
      if Adjusted(cs[i], selected, penalty) > Adjusted(cs[b], selected, penalty) { b := i; }
    }
    BestIsUnique(cs, selected, penalty, b);
  }

  method ApplyAdaptiveDiversity(cs: seq<Candidate>, limit: nat, penalty: real) returns (selected: seq<Candidate>)
    requires penalty >= 0.0
    ensures selected == Diverse(cs, limit, penalty)
  {
    hide Adjusted, Best, Suppressed;
    var remaining := SuppressDuplicates(cs);
    selected := [];
    while remaining != [] && |selected| < limit
      invariant Greedy(remaining, selected, limit, penalty) == Diverse(cs, limit, penalty)
      decreases |remaining|
    {
      var b := FirstBest(remaining, selected, penalty);
      selected, remaining := selected + [remaining[b]], Without(remaining, b);
    }
  }

  lemma BestIsUnique(cs: seq<Candidate>, selected: seq<Candidate>, penalty: real, b: nat)
    requires penalty >= 0.0 && b < |cs|
    requires forall k :: 0 <= k < |cs| ==> Adjusted(cs[k], selected, penalty) <= Adjusted(cs[b], selected, penalty)
    requires forall k :: 0 <= k < b ==> Adjusted(cs[k], selected, penalty) < Adjusted(cs[b], selected, penalty)
    ensures b == Best(cs, selected, penalty)
  {
    hide Adjusted;
    var best := Best(cs, selected, penalty);
    assert Adjusted(cs[best], selected, penalty) == Adjusted(cs[b], selected, penalty);
  }

  /** A further selection never raises an adjusted score. */
  lemma PenaltyGrows(c: Candidate, selected: seq<Candidate>, more: Candidate, penalty: real)
    requires penalty >= 0.0 && c.score >= 0.0
    ensures Adjusted(c, selected + [more], penalty) <= Adjusted(c, selected, penalty)
  {
    var longer := selected + [more];
    assert longer[..|selected|] == selected;
    var a, b := Divisor(c, selected, penalty), Divisor(c, longer, penalty);
    Scale(penalty, DocumentCount(selected, c) as real, DocumentCount(longer, c) as real);
    Scale(penalty * 0.5, ParentCount(selected, c) as real, ParentCount(longer, c) as real);
    QuotientsFall(c.score, a, b);
  }

  /** The adjusted score with which the `i`-th selection was made. */
  function PickedAt(r: seq<Candidate>, i: nat, penalty: real): real
    requires i < |r| && penalty >= 0.0
  {
    Adjusted(r[i], r[..i], penalty)
  }

  predicate NonIncreasing(r: seq<Candidate>, penalty: real)
    requires penalty >= 0.0
  {
    forall i: nat, j: nat :: i < j < |r| ==> PickedAt(r, j, penalty) <= PickedAt(r, i, penalty)
  }

  /** Every remaining candidate is worth no more than each selection was when it was made. */
  predicate Bounded(remaining: seq<Candidate>, selected: seq<Candidate>, penalty: real)
    requires penalty >= 0.0
  {
    forall c <- remaining :: forall i: nat :: i < |selected| ==>
      Adjusted(c, selected, penalty) <= PickedAt(selected, i, penalty)
  }

  lemma {:induction false} GreedyHolds(remaining: seq<Candidate>, selected: seq<Candidate>, limit: nat, penalty: real)
    requires penalty >= 0.0 && |selected| <= limit && (forall c <- remaining :: c.score >= 0.0)
    requires NonIncreasing(selected, penalty) && Bounded(remaining, selected, penalty)
    ensures var r := Greedy(remaining, selected, limit, penalty);
            && NonIncreasing(r, penalty)
            && |r| == Min(limit, |selected| + |remaining|)
            && multiset(r) <= multiset(selected) + multiset(remaining)
    decreases |remaining|
  {
    hide Adjusted, Best;
    if remaining != [] && |selected| < limit {
      var b := Best(remaining, selected, penalty);
      var c, longer, rest := remaining[b], selected + [remaining[b]], Without(remaining, b);
      assert remaining == remaining[..b] + [c] + remaining[b + 1..];
      assert multiset(rest) + multiset{c} == multiset(remaining);
      assert longer[..|selected|] == selected;
      PicksStay(selected, c, penalty);
      forall j: nat | j < |selected| ensures PickedAt(longer, |selected|, penalty) <= PickedAt(longer, j, penalty) {
        assert c in remaining && longer[..j] == selected[..j];
      }
      forall d, i: nat | d in rest && i < |longer| ensures Adjusted(d, longer, penalty) <= PickedAt(longer, i, penalty) {
        assert d in remaining;
        PenaltyGrows(d, selected, c, penalty);
        BestIsGreatest(remaining, selected, penalty, d);
      }
      GreedyHolds(rest, longer, limit, penalty);
    }
  }

  lemma PicksStay(selected: seq<Candidate>, c: Candidate, penalty: real)
    requires penalty >= 0.0
    ensures forall i: nat :: i < |selected| ==> PickedAt(selected + [c], i, penalty) == PickedAt(selected, i, penalty)
  {
    forall i: nat | i < |selected| ensures PickedAt(selected + [c], i, penalty) == PickedAt(selected, i, penalty) {
      assert (selected + [c])[..i] == selected[..i];
    }
  }

  lemma BestIsGreatest(cs: seq<Candidate>, selected: seq<Candidate>, penalty: real, d: Candidate)
    requires penalty >= 0.0 && d in cs
    ensures Adjusted(d, selected, penalty) <= Adjusted(cs[Best(cs, selected, penalty)], selected, penalty)
  {
    var k :| 0 <= k < |cs| && cs[k] == d;
  }

  /** Over non-negative scores the selection is made with adjusted scores that never rise, as many as the limit
      and the distinct candidates allow, each candidate at most as often as it is among the distinct ones. */
  lemma DiversityHolds(cs: seq<Candidate>, limit: nat, penalty: real)
    requires penalty >= 0.0 && forall c <- cs :: c.score >= 0.0
    ensures var r := Diverse(cs, limit, penalty);
            && NonIncreasing(r, penalty)
            && |r| == Min(limit, |Suppressed(cs)|)
            && multiset(r) <= multiset(Suppressed(cs))
  {
    RetainedHolds(cs, 0, []);
    GreedyHolds(Suppressed(cs), [], limit, penalty);
  }

  /** Suppressing duplicates first makes no difference. */
  lemma DiversityAfterSuppression(cs: seq<Candidate>, limit: nat, penalty: real)
    requires penalty >= 0.0
    ensures Diverse(Suppressed(cs), limit, penalty) == Diverse(cs, limit, penalty)
  {
    SuppressionIsIdempotent(cs);
  }

  // ---------- no penalty ----------

  predicate HigherScore(a: Candidate, b: Candidate) { a.score > b.score }

  lemma {:induction false} FirstBestIsSortedFirst(cs: seq<Candidate>, b: nat)
    requires b < |cs| && (forall k :: 0 <= k < |cs| ==> cs[k].score <= cs[b].score) && (forall k :: 0 <= k < b ==> cs[k].score < cs[b].score)
    ensures Sorted(cs, HigherScore) == [cs[b]] + Sorted(Without(cs, b), HigherScore)
  {
    hide Sorted, Insert;
    SortedStep(cs, HigherScore);
    if b == 0 {
      assert Without(cs, 0) == cs[1..];
      var tail := Sorted(cs[1..], HigherScore);
      InsertStep(cs[0], tail, HigherScore);
      if tail != [] { HeadIsMember(cs[1..]); }
    } else {
      FirstBestIsSortedFirst(cs[1..], b - 1);
      var tail := Sorted(Without(cs[1..], b - 1), HigherScore);
      SortedWithout(cs, b);
      InsertStep(cs[0], [cs[b]] + tail, HigherScore);
      assert ([cs[b]] + tail)[1..] == tail;
    }
  }

  lemma HeadIsMember(cs: seq<Candidate>)
    requires Sorted(cs, HigherScore) != []
    ensures exists k :: 0 <= k < |cs| && cs[k] == Sorted(cs, HigherScore)[0]
  {
    hide Sorted;
    assert IsRanking(HigherScore);
    SortedMembers(cs, HigherScore, Sorted(cs, HigherScore)[0]);
  }

  lemma SortedWithout(cs: seq<Candidate>, b: nat)
    requires 0 < b < |cs|
    ensures Sorted(Without(cs, b), HigherScore)
         == Insert(cs[0], Sorted(Without(cs[1..], b - 1), HigherScore), HigherScore)
  {
    hide Sorted, Insert;
    assert Without(cs, b) == [cs[0]] + Without(cs[1..], b - 1);
    assert Without(cs, b)[1..] == Without(cs[1..], b - 1);
    SortedStep(Without(cs, b), HigherScore);
  }

  lemma NoPenalty(c: Candidate, selected: seq<Candidate>)
    ensures Adjusted(c, selected, 0.0) == c.score
  {
    assert Divisor(c, selected, 0.0) == 1.0;
  }

  lemma {:induction false} GreedyIsSorted(remaining: seq<Candidate>, selected: seq<Candidate>, limit: nat)
    requires |selected| <= limit
    ensures Greedy(remaining, selected, limit, 0.0)
              == selected + Sorted(remaining, HigherScore)[..Min(limit - |selected|, |Sorted(remaining, HigherScore)|)]
    decreases |remaining|
  {
    hide Adjusted;
    if remaining != [] && |selected| < limit {
      var b := Best(remaining, selected, 0.0);
      forall k | 0 <= k < |remaining|
        ensures remaining[k].score <= remaining[b].score && (k < b ==> remaining[k].score < remaining[b].score)
      {
        NoPenalty(remaining[k], selected);
        NoPenalty(remaining[b], selected);
      }
      FirstBestIsSortedFirst(remaining, b);
      GreedyIsSorted(Without(remaining, b), selected + [remaining[b]], limit);
    }
  }

  /** Without a penalty the selection is the front of the stable descending sort. */
  lemma NoPenaltySortsByScore(cs: seq<Candidate>, limit: nat)
    ensures var sorted := Sorted(Suppressed(cs), HigherScore);
            Diverse(cs, limit, 0.0) == sorted[..Min(limit, |sorted|)]
  {
    hide Greedy, Retained, Sorted;
    GreedyIsSorted(Suppressed(cs), [], limit);
  }

  // ---------- the evidence budget ----------

  datatype Drops = Drops(duplication: nat, itemLimit: nat, tokenBudget: nat)

  function TokensOf(cs: seq<Candidate>): nat { if cs == [] then 0 else TokensOf(cs[..|cs| - 1]) + cs[|cs| - 1].tokens }

  /** What becomes of a candidate when its turn comes. */
  datatype Fate = Selected | OverItemLimit | OverBudget

  function FateAfter(selected: seq<Candidate>, c: Candidate, maxItems: nat, budget: nat): Fate {
    if |selected| >= maxItems then OverItemLimit
    else if TokensOf(selected) + c.tokens > budget then OverBudget
    else Selected
  }

  /** What is selected of a list without duplicates. */
  function Taken(cs: seq<Candidate>, maxItems: nat, budget: nat): seq<Candidate> {
    if cs == [] then []
    else
      var before, c := Taken(cs[..|cs| - 1], maxItems, budget), cs[|cs| - 1];
      if FateAfter(before, c, maxItems, budget) == Selected then before + [c] else before
  }

  /** The fate of every candidate, judged by what was selected before it. */
  function Fates(cs: seq<Candidate>, maxItems: nat, budget: nat): (fates: seq<Fate>)
    ensures |fates| == |cs|
    ensures forall i :: 0 <= i < |cs| ==> fates[i] == FateAfter(Taken(cs[..i], maxItems, budget), cs[i], maxItems, budget)
  {
    seq(|cs|, i requires 0 <= i < |cs| => FateAfter(Taken(cs[..i], maxItems, budget), cs[i], maxItems, budget))
  }

  lemma TakenStep(cs: seq<Candidate>, i: nat, maxItems: nat, budget: nat)
    requires i < |cs|
    ensures Taken(cs[..i + 1], maxItems, budget)
         == Taken(cs[..i], maxItems, budget)
            + if FateAfter(Taken(cs[..i], maxItems, budget), cs[i], maxItems, budget) == Selected then [cs[i]] else []
    ensures Fates(cs[..i + 1], maxItems, budget)
         == Fates(cs[..i], maxItems, budget) + [FateAfter(Taken(cs[..i], maxItems, budget), cs[i], maxItems, budget)]
  {
    hide FateAfter;
    assert cs[..i + 1][..i] == cs[..i];
    forall k | 0 <= k < i ensures Fates(cs[..i + 1], maxItems, budget)[k] == Fates(cs[..i], maxItems, budget)[k] {
      assert cs[..i + 1][..k] == cs[..k] && cs[..i][..k] == cs[..k];
    }
  }

  /** What was selected before a candidate stays selected, and a selected candidate comes right after it. */
  lemma {:induction false} TakenBefore(cs: seq<Candidate>, i: nat, n: nat, maxItems: nat, budget: nat)
    requires i < n <= |cs|
    ensures var before, all := Taken(cs[..i], maxItems, budget), Taken(cs[..n], maxItems, budget);
            && before <= all
            && (FateAfter(before, cs[i], maxItems, budget) == Selected ==> |before| < |all| && all[|before|] == cs[i])
    decreases n
  {
    hide FateAfter, Taken, Fates;
    TakenStep(cs, n - 1, maxItems, budget);
    if i < n - 1 { TakenBefore(cs, i, n - 1, maxItems, budget); }
  }

  /** Selection stays within both limits, and a candidate is dropped only when it has to be: when its turn comes, it is
      selected if and only if there is room for one more candidate and for its tokens. */
  lemma {:induction false} TakenHolds(cs: seq<Candidate>, maxItems: nat, budget: nat, i: nat)
    requires i < |cs|
    ensures var selected, before := Taken(cs, maxItems, budget), Taken(cs[..i], maxItems, budget);
            && |selected| <= maxItems && TokensOf(selected) <= budget && before <= selected
            && match Fates(cs, maxItems, budget)[i] {
                 case Selected => |before| < |selected| && selected[|before|] == cs[i]
                 case OverItemLimit => |before| == |selected| == maxItems
                 case OverBudget => |before| < maxItems && TokensOf(before) + cs[i].tokens > budget
               }
  {
    TakenWithin(cs, maxItems, budget);
    TakenWithin(cs[..i], maxItems, budget);
    assert cs[..|cs|] == cs;
    TakenBefore(cs, i, |cs|, maxItems, budget);
  }

  lemma {:induction false} TakenWithin(cs: seq<Candidate>, maxItems: nat, budget: nat)
    ensures |Taken(cs, maxItems, budget)| <= maxItems && TokensOf(Taken(cs, maxItems, budget)) <= budget
    decreases |cs|
  {
    if cs != [] {
      var n := |cs| - 1;
      TakenWithin(cs[..n], maxItems, budget);
      TokensOfOneMore(Taken(cs[..n], maxItems, budget), cs[n]);
    }
  }

  /** `assemble_evidence_candidates`: what is selected stays within both limits, in order and without duplicates;
      every candidate is selected or counted as dropped, for the reason that held when its turn came. */
  method AssembleEvidence(cs: seq<Candidate>, maxItems: nat, budget: nat) returns (selected: seq<Candidate>, drops: Drops)
    ensures |selected| <= maxItems && TokensOf(selected) <= budget
    ensures DuplicateFree(selected) && forall c <- selected :: c in cs
    ensures |selected| + drops.duplication + drops.itemLimit + drops.tokenBudget == |cs|
    ensures selected == Taken(Suppressed(cs), maxItems, budget)
    ensures var fates := multiset(Fates(Suppressed(cs), maxItems, budget));
            && drops.duplication == |cs| - |Suppressed(cs)|
            && drops.itemLimit == fates[OverItemLimit] && drops.tokenBudget == fates[OverBudget]
  {
    SuppressedIsShorter(cs);
    hide Retained, Suppressed, DuplicateFree, TokensOf, Taken;
    var distinct := SuppressDuplicates(cs);
    NothingSelected();
    selected, drops := [], Drops(|cs| - |distinct|, 0, 0);
    var used := 0;
    NothingTaken(distinct, maxItems, budget);
    for i := 0 to |distinct|
      invariant |selected| <= maxItems && used == TokensOf(selected) <= budget
      invariant |selected| + drops.itemLimit + drops.tokenBudget == i
      invariant DuplicateFree(selected) && forall c <- selected :: c in distinct[..i]
      invariant selected == Taken(distinct[..i], maxItems, budget)
      invariant var fates := multiset(Fates(distinct[..i], maxItems, budget));
                && drops.duplication == |cs| - |distinct|
                && drops.itemLimit == fates[OverItemLimit] && drops.tokenBudget == fates[OverBudget]
    {
      var c := distinct[i];
      assert distinct[..i + 1] == distinct[..i] + [c];
      TakenStep(distinct, i, maxItems, budget);
      assert selected + [] == selected;
      if |selected| >= maxItems {
        drops := drops.(itemLimit := drops.itemLimit + 1);
      } else if used + c.tokens > budget {
        drops := drops.(tokenBudget := drops.tokenBudget + 1);
      } else {
        StillDuplicateFree(distinct, i, selected);
        TokensOfOneMore(selected, c);
        selected := selected + [c];
        used := used + c.tokens;
      }
    }
    assert distinct[..|distinct|] == distinct;
  }

  lemma NothingTaken(cs: seq<Candidate>, maxItems: nat, budget: nat)
    ensures Taken(cs[..0], maxItems, budget) == [] && Fates(cs[..0], maxItems, budget) == []
  {}

  lemma SuppressedIsShorter(cs: seq<Candidate>)
    ensures |Suppressed(cs)| <= |cs| && DuplicateFree(Suppressed(cs)) && forall c <- Suppressed(cs) :: c in cs
  {
    RetainedHolds(cs, 0, []);
    var places := SuppressionKeepsOrder(cs, 0, []);
    AtLength(cs, places);
    Increasing(places, |cs|);
  }

  lemma NothingSelected()
    ensures DuplicateFree([]) && TokensOf([]) == 0
  {}

  lemma TokensOfOneMore(cs: seq<Candidate>, c: Candidate)
    ensures TokensOf(cs + [c]) == TokensOf(cs) + c.tokens
  {
    assert (cs + [c])[..|cs|] == cs;
  }

  lemma StillDuplicateFree(distinct: seq<Candidate>, i: nat, selected: seq<Candidate>)
    requires i < |distinct| && DuplicateFree(distinct) && DuplicateFree(selected) && forall c <- selected :: c in distinct[..i]
    ensures DuplicateFree(selected + [distinct[i]])
  {
    forall k | 0 <= k < |selected| ensures !Overlapping(distinct[i], selected[k]) && !SameContent(distinct[i], selected[k]) {
      assert selected[k] in selected;
      var j :| 0 <= j < i && distinct[..i][j] == selected[k];
    }
  }

  lemma {:induction false} AtLength(cs: seq<Candidate>, places: seq<nat>)
    requires forall k :: 0 <= k < |places| ==> places[k] < |cs|
    ensures |At(cs, places)| == |places|
  {
    if places != [] { AtLength(cs, places[1..]); }
  }

  lemma {:induction false} Increasing(places: seq<nat>, n: nat)
    requires forall k, m :: 0 <= k < m < |places| ==> places[k] < places[m]
    requires forall k :: 0 <= k < |places| ==> places[k] < n
    ensures |places| <= n
    decreases n
  {
    if |places| > 0 { Increasing(places[..|places| - 1], places[|places| - 1]); }
  }
}
