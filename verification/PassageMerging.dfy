/** Merging retrieved passages that stand next to each other in one parent. */
module PassageMerging {
  import opened Wrappers
  import opened Tokenization
  import opened Segments
  import opened Sorting
  import opened MergedText

  /** What merging looks at; `score` is the effective score. */
  datatype Candidate = Candidate(id: int, document: int, parent: Option<int>, isChild: bool, ordinal: int, text: Text, score: real)

  /** A merged passage, with the candidates it was made of. */
  datatype Passage = Passage(members: seq<Candidate>, text: Text, score: real)

  /** `_same_merge_group`. */
  predicate SameGroup(seed: Candidate, c: Candidate) {
    seed.document == c.document && seed.parent.Some? && seed.parent == c.parent && seed.isChild && c.isChild
  }

  predicate HigherScore(a: Candidate, b: Candidate) { a.score > b.score }

  predicate Earlier(a: Candidate, b: Candidate) { a.ordinal < b.ordinal }

  predicate HigherPassage(a: Passage, b: Passage) { a.score > b.score }

  predicate Distinct(cs: seq<Candidate>) { forall i, j :: 0 <= i < j < |cs| ==> cs[i].id != cs[j].id }

  // ---------- one seed ----------

  function Group(cs: seq<Candidate>, seed: Candidate, consumed: set<int>): seq<Candidate> {
    if cs == [] then []
    else (if cs[0].id !in consumed && SameGroup(seed, cs[0]) then [cs[0]] else []) + Group(cs[1..], seed, consumed)
  }

  function PlaceOf(cs: seq<Candidate>, id: int): (i: nat)
    ensures i <= |cs| && (i < |cs| ==> cs[i].id == id)
    ensures forall j :: 0 <= j < i ==> cs[j].id != id
  {
    if cs == [] || cs[0].id == id then 0 else 1 + PlaceOf(cs[1..], id)
  }

  predicate Adjacent(cs: seq<Candidate>, i: nat)
    requires 0 < i < |cs|
  {
    cs[i].ordinal - cs[i - 1].ordinal <= 1
  }

  function RunStart(cs: seq<Candidate>, i: nat): (s: nat)
    requires i < |cs|
    ensures s <= i && (forall k :: s < k <= i ==> Adjacent(cs, k)) && (s == 0 || !Adjacent(cs, s))
  {
    if i > 0 && Adjacent(cs, i) then RunStart(cs, i - 1) else i
  }

  function RunEnd(cs: seq<Candidate>, i: nat): (e: nat)
    requires 0 < i <= |cs|
    ensures i <= e <= |cs| && (forall k :: i <= k < e ==> Adjacent(cs, k)) && (e == |cs| || !Adjacent(cs, e))
    decreases |cs| - i
  {
    if i < |cs| && Adjacent(cs, i) then RunEnd(cs, i + 1) else i
  }

  /** The contiguous run around the seed among the candidates that are left; the seed alone if it has no parent. */
  function Run(cs: seq<Candidate>, seed: Candidate, consumed: set<int>): seq<Candidate> {
    var group := Sorted(Group(cs, seed, consumed), Earlier);
    var i := PlaceOf(group, seed.id);
    if i == |group| then [seed] else group[RunStart(group, i)..RunEnd(group, i + 1)]
  }

  function Single(c: Candidate): Passage { Passage([c], c.text, c.score) }

  /** `_merged_candidate`. */
  function Joined(p: Passage, c: Candidate): Passage {
    Passage(p.members + [c], MergeText(p.text, c.text), if p.score >= c.score then p.score else c.score)
  }

  /** The inner loop: join while the result fits. */
  function Grow(p: Passage, rest: seq<Candidate>, maxTokens: nat): Passage
    decreases |rest|
  {
    if rest == [] || Count(MergeText(p.text, rest[0].text)) > maxTokens then p
    else Grow(Joined(p, rest[0]), rest[1..], maxTokens)
  }

  function PassageOf(cs: seq<Candidate>, seed: Candidate, consumed: set<int>, maxTokens: nat): Passage {
    var run := Run(cs, seed, consumed);
    if run == [] then Single(seed) else Grow(Single(run[0]), run[1..], maxTokens)
  }

  function Ids(cs: seq<Candidate>): set<int> { set c <- cs :: c.id }

  // ---------- all seeds ----------

  /** `merge_adjacent_candidates` from the `i`-th seed on. */
  function MergedFrom(cs: seq<Candidate>, ranked: seq<Candidate>, i: nat, consumed: set<int>, maxTokens: nat): seq<Passage>
    requires i <= |ranked|
    decreases |ranked| - i
  {
    if i == |ranked| then []
    else if ranked[i].id in consumed then MergedFrom(cs, ranked, i + 1, consumed, maxTokens)
    else
      var p := PassageOf(cs, ranked[i], consumed, maxTokens);
      [p] + MergedFrom(cs, ranked, i + 1, consumed + Ids(p.members), maxTokens)
  }

  function Merged(cs: seq<Candidate>, maxTokens: nat): seq<Passage> {
    Sorted(MergedFrom(cs, Sorted(cs, HigherScore), 0, {}, maxTokens), HigherPassage)
  }

  method MergeAdjacent(cs: seq<Candidate>, maxTokens: nat) returns (merged: seq<Passage>)
    ensures merged == Merged(cs, maxTokens)
  {
    hide PassageOf, Sorted;
    var ranked := Sorted(cs, HigherScore);
    var consumed: set<int> := {};
    merged := [];
    for i := 0 to |ranked|
      invariant merged + MergedFrom(cs, ranked, i, consumed, maxTokens) == MergedFrom(cs, ranked, 0, {}, maxTokens)
    {
      var seed := ranked[i];
      if seed.id !in consumed {
        var passage, added := PassageAround(cs, seed, consumed, maxTokens);
        consumed := consumed + added;
        merged := merged + [passage];
      }
    }
    assert merged + [] == merged;
    merged := Sorted(merged, HigherPassage);
  }

  /** The passage that a seed starts, and the ids that it consumes. */
  method PassageAround(cs: seq<Candidate>, seed: Candidate, consumed: set<int>, maxTokens: nat)
    returns (passage: Passage, added: set<int>)
    ensures passage == PassageOf(cs, seed, consumed, maxTokens) && added == Ids(passage.members)
  {
    hide Run, Ids, Count, MergeText;
    var run := RunAround(cs, seed, consumed);
    if run == [] {
      OneId(seed);
      return Single(seed), {seed.id};
    }
    passage, added := Single(run[0]), {run[0].id};
    OneId(run[0]);
    var k := 1;
    while k < |run|
      invariant 1 <= k <= |run| && added == Ids(passage.members)
      invariant Grow(passage, run[k..], maxTokens) == PassageOf(cs, seed, consumed, maxTokens)
    {
      var proposed := MergeTexts(passage.text, run[k].text);
      assert run[k..][0] == run[k] && run[k..][1..] == run[k + 1..];
      if Count(proposed) > maxTokens { break; }
      IdsOfOneMore(passage.members, run[k]);
      passage := Joined(passage, run[k]);
      added := added + {run[k].id};
      k := k + 1;
    }
  }

  lemma OneId(c: Candidate)
    ensures Ids([c]) == {c.id}
  {
    assert c in [c];
  }

  lemma IdsOfOneMore(cs: seq<Candidate>, c: Candidate)
    ensures Ids(cs + [c]) == Ids(cs) + {c.id}
  {
    forall x ensures x in Ids(cs + [c]) <==> x in Ids(cs) + {c.id} {
      if x in Ids(cs) { var d :| d in cs && d.id == x; assert d in cs + [c]; }
      if x == c.id { assert c in cs + [c]; }
    }
  }

  /** The two loops that widen the run around the seed. */
  method RunAround(cs: seq<Candidate>, seed: Candidate, consumed: set<int>) returns (run: seq<Candidate>)
    ensures run == Run(cs, seed, consumed)
  {
    hide Sorted, Group, PlaceOf, RunStart, RunEnd;
    var group := Sorted(Group(cs, seed, consumed), Earlier);
    var place := PlaceOf(group, seed.id);
    if place == |group| { return [seed]; }
    var start: nat, end: nat := place, place + 1;
    while start > 0 && group[start].ordinal - group[start - 1].ordinal <= 1
      invariant start <= place && RunStart(group, start) == RunStart(group, place)
    {
      RunStartStep(group, start);
      start := start - 1;
    }
    RunStartStep(group, start);
    while end < |group| && group[end].ordinal - group[end - 1].ordinal <= 1
      invariant place < end <= |group| && RunEnd(group, end) == RunEnd(group, place + 1)
      decreases |group| - end
    {
      RunEndStep(group, end);
      end := end + 1;
    }
    RunEndStep(group, end);
    return group[start..end];
  }

  lemma RunStartStep(cs: seq<Candidate>, i: nat)
    requires i < |cs|
    ensures RunStart(cs, i) == if i > 0 && Adjacent(cs, i) then RunStart(cs, i - 1) else i
  {}

  lemma RunEndStep(cs: seq<Candidate>, i: nat)
    requires 0 < i <= |cs|
    ensures RunEnd(cs, i) == if i < |cs| && Adjacent(cs, i) then RunEnd(cs, i + 1) else i
  {}

  // ---------- what a passage is ----------

  lemma {:induction false} GroupMembers(cs: seq<Candidate>, seed: Candidate, consumed: set<int>, c: Candidate)
    ensures c in Group(cs, seed, consumed) <==> c in cs && c.id !in consumed && SameGroup(seed, c)
  {
    if cs != [] { GroupMembers(cs[1..], seed, consumed, c); }
  }

  lemma OrdersAreRankings()
    ensures IsRanking(Earlier) && IsRanking(HigherScore) && IsRanking(HigherPassage)
  {}

  /** Neighbours in one parent, in order, with no gap between ordinals. */
  predicate Contiguous(cs: seq<Candidate>) {
    forall i :: 0 < i < |cs| ==> SameGroup(cs[0], cs[i]) && 0 <= cs[i].ordinal - cs[i - 1].ordinal <= 1
  }

  lemma RunHolds(cs: seq<Candidate>, seed: Candidate, consumed: set<int>)
    requires seed in cs && seed.id !in consumed && Distinct(cs)
    ensures var run := Run(cs, seed, consumed);
            && Contiguous(run) && seed in run && forall c <- run :: c in cs && c.id !in consumed
  {
    hide Group, Sorted, SameGroup, Contiguous, RunStart, RunEnd, Adjacent, IsSorted;
    var group := Sorted(Group(cs, seed, consumed), Earlier);
    if SameGroup(seed, seed) {
      SortedGroup(cs, seed, consumed);
      var i := SeedIsPlaced(cs, group, seed);
      RunIsContiguous(group, seed, i);
      SliceMembers(group, RunStart(group, i), RunEnd(group, i + 1));
    } else {
      NoGroup(cs, seed, consumed);
      NothingSorted();
      OneIsContiguous(seed);
    }
  }

  lemma SortedGroup(cs: seq<Candidate>, seed: Candidate, consumed: set<int>)
    ensures var group := Sorted(Group(cs, seed, consumed), Earlier);
            && IsSorted(group, Earlier)
            && forall c :: c in group <==> c in cs && c.id !in consumed && SameGroup(seed, c)
  {
    hide Group, Sorted, SameGroup;
    var all := Group(cs, seed, consumed);
    OrdersAreRankings();
    SortedHolds(all, Earlier);
    forall c ensures c in Sorted(all, Earlier) <==> c in cs && c.id !in consumed && SameGroup(seed, c) {
      SortedMembers(all, Earlier, c);
      GroupMembers(cs, seed, consumed, c);
    }
  }

  lemma SliceMembers(group: seq<Candidate>, s: nat, e: nat)
    requires s <= e <= |group|
    ensures forall c <- group[s..e] :: c in group
  {}

  lemma OneIsContiguous(c: Candidate)
    ensures Contiguous([c])
  {}

  lemma RunIsContiguous(group: seq<Candidate>, seed: Candidate, i: nat)
    requires i < |group| && group[i] == seed && IsSorted(group, Earlier) && forall c <- group :: SameGroup(seed, c)
    ensures var run := group[RunStart(group, i)..RunEnd(group, i + 1)];
            Contiguous(run) && seed in run
  {
    hide IsSorted, Earlier, RunStart, RunEnd, Contiguous, SameGroup, IsChain, IsMaximal;
    ChainOfRun(group, i);
    ChainIsContiguous(group, seed, RunStart(group, i), RunEnd(group, i + 1));
    InSlice(group, RunStart(group, i), i, RunEnd(group, i + 1));
  }

  lemma InSlice(group: seq<Candidate>, s: nat, i: nat, e: nat)
    requires s <= i < e <= |group|
    ensures group[i] in group[s..e]
  {
    assert group[s..e][i - s] == group[i];
  }

  lemma ChainIsContiguous(group: seq<Candidate>, seed: Candidate, s: nat, e: nat)
    requires s < e <= |group| && IsChain(group, s, e) && IsSorted(group, Earlier) && forall c <- group :: SameGroup(seed, c)
    ensures Contiguous(group[s..e])
  {
    hide IsSorted, Earlier, Contiguous, SameGroup, Adjacent, Neighbours;
    forall k: nat | s < k < e ensures Neighbours(group, s, k) { OneStep(group, seed, s, k); }
    SliceIsContiguous(group, s, e);
  }

  predicate Neighbours(group: seq<Candidate>, s: nat, k: nat)
    requires s < k < |group|
  {
    SameGroup(group[s], group[k]) && 0 <= group[k].ordinal - group[k - 1].ordinal <= 1
  }

  lemma SliceIsContiguous(group: seq<Candidate>, s: nat, e: nat)
    requires s < e <= |group| && forall k: nat :: s < k < e ==> Neighbours(group, s, k)
    ensures Contiguous(group[s..e])
  {
    hide SameGroup;
    var run := group[s..e];
    forall k | 0 < k < |run| ensures SameGroup(run[0], run[k]) && 0 <= run[k].ordinal - run[k - 1].ordinal <= 1 {
      assert Neighbours(group, s, s + k);
      assert run[0] == group[s] && run[k] == group[s + k] && run[k - 1] == group[s + k - 1];
    }
  }

  lemma OneStep(group: seq<Candidate>, seed: Candidate, s: nat, k: nat)
    requires s < k < |group| && IsSorted(group, Earlier) && (forall c <- group :: SameGroup(seed, c)) && Adjacent(group, k)
    ensures Neighbours(group, s, k)
  {
    assert group[s] in group && group[k] in group;
    assert !Earlier(group[k], group[k - 1]);
  }

  lemma SameIdSame(cs: seq<Candidate>, a: Candidate, b: Candidate)
    requires Distinct(cs) && a in cs && b in cs && a.id == b.id
    ensures a == b
  {
    var i :| 0 <= i < |cs| && cs[i] == a;
    var j :| 0 <= j < |cs| && cs[j] == b;
  }

  /** The text that joining a run of candidates one by one gives. */
  function JoinedText(cs: seq<Candidate>): Text
    requires cs != []
  {
    if |cs| == 1 then cs[0].text else MergeText(JoinedText(cs[..|cs| - 1]), cs[|cs| - 1].text)
  }

  /** The run up to and with its `k`-th member fits. */
  predicate FitsTo(run: seq<Candidate>, k: nat, maxTokens: nat)
    requires k < |run|
  {
    Count(JoinedText(run[..k + 1])) <= maxTokens
  }

  /** A passage is a front of the run: as long as it can be, and within the size unless it is a single candidate. */
  lemma {:induction false} GrowHolds(p: Passage, run: seq<Candidate>, k: nat, maxTokens: nat)
    requires 0 < k <= |run| && p.members == run[..k] && p.text == JoinedText(run[..k])
    requires k > 1 ==> Count(p.text) <= maxTokens
    ensures var r := Grow(p, run[k..], maxTokens);
            && k <= |r.members| <= |run| && r.members == run[..|r.members|] && r.text == JoinedText(r.members)
            && (|r.members| > 1 ==> Count(r.text) <= maxTokens)
            && (|r.members| < |run| ==> !FitsTo(run, |r.members|, maxTokens))
    decreases |run| - k
  {
    hide MergeText, Count;
    if k < |run| {
      assert run[..k + 1] == run[..k] + [run[k]] && run[..k + 1][..k] == run[..k];
      assert run[k..][0] == run[k] && run[k..][1..] == run[k + 1..];
      if Count(MergeText(p.text, run[k].text)) <= maxTokens {
        GrowHolds(Joined(p, run[k]), run, k + 1, maxTokens);
      } else {
        assert Grow(p, run[k..], maxTokens) == p;
      }
    } else {
      assert run[k..] == [];
    }
  }

  /** A well-formed passage. */
  predicate IsPassage(p: Passage, maxTokens: nat) {
    && p.members != [] && Contiguous(p.members) && p.text == JoinedText(p.members)
    && (|p.members| > 1 ==> Count(p.text) <= maxTokens)
  }

  lemma PassageHolds(cs: seq<Candidate>, seed: Candidate, consumed: set<int>, maxTokens: nat)
    requires seed in cs && seed.id !in consumed && Distinct(cs)
    ensures var p := PassageOf(cs, seed, consumed, maxTokens);
            IsPassage(p, maxTokens) && (forall c <- p.members :: c in cs && c.id !in consumed)
  {
    hide JoinedText, Count, MergeText, Run, Contiguous, Grow, FitsTo;
    var run := Run(cs, seed, consumed);
    RunHolds(cs, seed, consumed);
    OneText(run[0]);
    assert run[..1] == [run[0]];
    GrowHolds(Single(run[0]), run, 1, maxTokens);
    FrontIsContiguous(run, |PassageOf(cs, seed, consumed, maxTokens).members|);
  }

  lemma FrontIsContiguous(run: seq<Candidate>, n: nat)
    requires 0 < n <= |run| && Contiguous(run)
    ensures Contiguous(run[..n]) && forall c <- run[..n] :: c in run
  {
    hide SameGroup;
    var front := run[..n];
    forall i | 0 < i < n ensures SameGroup(front[0], front[i]) && 0 <= front[i].ordinal - front[i - 1].ordinal <= 1 {
      assert front[i] == run[i] && front[i - 1] == run[i - 1] && front[0] == run[0];
    }
  }

  lemma OneText(c: Candidate)
    ensures JoinedText([c]) == c.text
  {}

  // ---------- all passages ----------

  lemma {:induction false} MergedFromHolds(cs: seq<Candidate>, ranked: seq<Candidate>, i: nat, consumed: set<int>, maxTokens: nat)
    requires i <= |ranked| && Distinct(cs) && forall c <- ranked :: c in cs
    ensures var ps := MergedFrom(cs, ranked, i, consumed, maxTokens);
            && (forall p <- ps :: IsPassage(p, maxTokens) && forall c <- p.members :: c in cs && c.id !in consumed)
            && (forall a, b :: 0 <= a < b < |ps| ==> Ids(ps[a].members) !! Ids(ps[b].members))
    decreases |ranked| - i
  {
    hide IsPassage, PassageOf;
    if i < |ranked| {
      if ranked[i].id in consumed {
        MergedFromHolds(cs, ranked, i + 1, consumed, maxTokens);
      } else {
        var p := PassageOf(cs, ranked[i], consumed, maxTokens);
        PassageHolds(cs, ranked[i], consumed, maxTokens);
        MergedFromHolds(cs, ranked, i + 1, consumed + Ids(p.members), maxTokens);
        var rest := MergedFrom(cs, ranked, i + 1, consumed + Ids(p.members), maxTokens);
        forall q | q in rest ensures Ids(p.members) !! Ids(q.members) {
          forall c | c in q.members ensures c.id !in Ids(p.members) { assert c.id !in consumed + Ids(p.members); }
        }
        var ps := [p] + rest;
        forall a, b | 0 <= a < b < |ps| ensures Ids(ps[a].members) !! Ids(ps[b].members) {
          if a == 0 { assert ps[b] in rest; } else { assert ps[a] == rest[a - 1] && ps[b] == rest[b - 1]; }
        }
      }
    }
  }

  /** Every passage is made of neighbours in one parent, fits the size unless it is a single candidate, and has the
      text of its members joined in order; no chunk is in two passages. */
  lemma MergingHolds(cs: seq<Candidate>, maxTokens: nat, p: Passage)
    requires Distinct(cs) && p in Merged(cs, maxTokens)
    ensures IsPassage(p, maxTokens) && forall c <- p.members :: c in cs
    ensures forall q <- Merged(cs, maxTokens) :: q != p ==> Ids(q.members) !! Ids(p.members)
  {
    hide IsPassage, MergedFrom;
    var ranked := Sorted(cs, HigherScore);
    OrdersAreRankings();
    forall c | c in ranked ensures c in cs { SortedMembers(cs, HigherScore, c); }
    MergedFromHolds(cs, ranked, 0, {}, maxTokens);
    var ps := MergedFrom(cs, ranked, 0, {}, maxTokens);
    SortedMembers(ps, HigherPassage, p);
    forall q | q in Merged(cs, maxTokens) && q != p ensures Ids(q.members) !! Ids(p.members) {
      SortedMembers(ps, HigherPassage, q);
      var a :| 0 <= a < |ps| && ps[a] == p;
      var b :| 0 <= b < |ps| && ps[b] == q;
      assert a < b || b < a;
    }
  }

  // ---------- what is lost ----------

  predicate IsIn(ps: seq<Passage>, c: Candidate) { exists p <- ps :: c in p.members }

  /** A seed is in the passage that it starts exactly when the run up to it fits, or it is the first of its run. */
  lemma SeedIsKeptExactly(cs: seq<Candidate>, seed: Candidate, consumed: set<int>, maxTokens: nat)
    requires seed in cs && seed.id !in consumed && Distinct(cs)
    ensures var run := Run(cs, seed, consumed);
            var place := PlaceOf(run, seed.id);
            && place < |run| && run[place] == seed
            && (seed in PassageOf(cs, seed, consumed, maxTokens).members <==>
                 forall k: nat :: 0 < k <= place ==> FitsTo(run, k, maxTokens))
  {
    hide JoinedText, Count, MergeText, FitsTo, Run, Contiguous, Grow;
    var run := Run(cs, seed, consumed);
    RunHolds(cs, seed, consumed);
    RunIsDistinct(cs, seed, consumed);
    var place := PlaceOf(run, seed.id);
    var at :| 0 <= at < |run| && run[at] == seed;
    assert run[..1] == [run[0]] && JoinedText([run[0]]) == run[0].text by { OneText(run[0]); }
    var p := PassageOf(cs, seed, consumed, maxTokens);
    GrowHolds(Single(run[0]), run, 1, maxTokens);
    FrontsFit(run, 1, maxTokens, Single(run[0]));
    FrontHas(run, |p.members|, place);
  }

  lemma FrontHas(run: seq<Candidate>, n: nat, place: nat)
    requires n <= |run| && place < |run| && Distinct(run)
    ensures run[place] in run[..n] <==> place < n
  {
    if place < n { assert run[..n][place] == run[place]; }
  }

  /** Every front that the loop passed fits. */
  lemma {:induction false} FrontsFit(run: seq<Candidate>, k: nat, maxTokens: nat, p: Passage)
    requires 0 < k <= |run| && p.members == run[..k] && p.text == JoinedText(run[..k])
    ensures var n := |Grow(p, run[k..], maxTokens).members|;
            n <= |run| && forall m: nat :: k <= m < n ==> FitsTo(run, m, maxTokens)
    decreases |run| - k
  {
    hide MergeText, Count;
    if k < |run| {
      assert run[..k + 1] == run[..k] + [run[k]] && run[..k + 1][..k] == run[..k];
      assert run[k..][0] == run[k] && run[k..][1..] == run[k + 1..];
      if Count(MergeText(p.text, run[k].text)) <= maxTokens { FrontsFit(run, k + 1, maxTokens, Joined(p, run[k])); }
    } else {
      assert run[k..] == [];
    }
  }

  lemma RunIsDistinct(cs: seq<Candidate>, seed: Candidate, consumed: set<int>)
    requires Distinct(cs)
    ensures Distinct(Run(cs, seed, consumed))
  {
    var all := Group(cs, seed, consumed);
    GroupIsDistinct(cs, seed, consumed);
    SortedStaysDistinct(all, Earlier, (c: Candidate) => c.id);
  }

  lemma {:induction false} GroupIsDistinct(cs: seq<Candidate>, seed: Candidate, consumed: set<int>)
    requires Distinct(cs)
    ensures Distinct(Group(cs, seed, consumed))
  {
    if cs != [] {
      GroupIsDistinct(cs[1..], seed, consumed);
      var rest := Group(cs[1..], seed, consumed);
      forall k | 0 <= k < |rest| ensures rest[k].id != cs[0].id {
        GroupMembers(cs[1..], seed, consumed, rest[k]);
        var j :| 0 <= j < |cs[1..]| && cs[1..][j] == rest[k];
        assert cs[j + 1] == rest[k];
      }
    }
  }

  // ---------- runs among fewer candidates ----------

  /** What stands outside a maximal run stands apart from it, and what stands between its ends is in it. */
  lemma MaximalRun(full: seq<Candidate>, s: nat, e: nat, x: Candidate)
    requires s < e <= |full| && IsSorted(full, Earlier) && x in full
    requires (s == 0 || !Adjacent(full, s)) && (e == |full| || !Adjacent(full, e))
    ensures x.ordinal <= full[e - 1].ordinal || x.ordinal > full[e - 1].ordinal + 1
    ensures x.ordinal >= full[s].ordinal || x.ordinal < full[s].ordinal - 1
    ensures full[s].ordinal <= x.ordinal <= full[e - 1].ordinal ==> x in full[s..e]
  {
    var j :| 0 <= j < |full| && full[j] == x;
    if j < s {
      if j < s - 1 { assert !Earlier(full[s - 1], full[j]); }
      assert full[s].ordinal - full[s - 1].ordinal > 1;
      if s < e - 1 { assert !Earlier(full[e - 1], full[s]); }
    } else if j >= e {
      if j > e { assert !Earlier(full[j], full[e]); }
      assert full[e].ordinal - full[e - 1].ordinal > 1;
      if s < e - 1 { assert !Earlier(full[e - 1], full[s]); }
    } else {
      if s < j { assert !Earlier(full[j], full[s]); }
      if j < e - 1 { assert !Earlier(full[e - 1], full[j]); }
      assert full[s..e][j - s] == x;
    }
  }

  /** A chain of neighbours that starts between the ends of a maximal run never leaves it, upwards or downwards. */
  lemma {:induction false} ChainStays(full: seq<Candidate>, s: nat, e: nat, few: seq<Candidate>, i: nat, k: nat)
    requires s < e <= |full| && IsSorted(full, Earlier) && IsSorted(few, Earlier) && forall x <- few :: x in full
    requires (s == 0 || !Adjacent(full, s)) && (e == |full| || !Adjacent(full, e))
    requires i < |few| && k < |few| && full[s].ordinal <= few[i].ordinal <= full[e - 1].ordinal
    requires forall m :: (i < m <= k || k < m <= i) ==> Adjacent(few, m)
    ensures full[s].ordinal <= few[k].ordinal <= full[e - 1].ordinal
    decreases if k > i then k - i else i - k
  {
    if k > i {
      ChainStays(full, s, e, few, i, k - 1);
      assert Adjacent(few, k) && !Earlier(few[k], few[k - 1]) && few[k] in few;
      MaximalRun(full, s, e, few[k]);
    } else if k < i {
      ChainStays(full, s, e, few, i, k + 1);
      assert Adjacent(few, k + 1) && !Earlier(few[k + 1], few[k]) && few[k] in few;
      MaximalRun(full, s, e, few[k]);
    }
  }

  lemma {:induction false} NoGroup(cs: seq<Candidate>, seed: Candidate, consumed: set<int>)
    requires !SameGroup(seed, seed)
    ensures Group(cs, seed, consumed) == []
  {
    if cs != [] { NoGroup(cs[1..], seed, consumed); }
  }

  lemma NothingSorted()
    ensures Sorted([], Earlier) == []
  {}

  /** Whatever has been consumed, the run around a seed is a part of its run among all candidates. */
  lemma RunIsPart(cs: seq<Candidate>, seed: Candidate, consumed: set<int>)
    requires seed in cs && seed.id !in consumed && Distinct(cs)
    ensures forall x <- Run(cs, seed, consumed) :: x in Run(cs, seed, {})
  {
    hide Group, Sorted, SameGroup, RunStart, RunEnd, Adjacent, IsSorted;
    var few, full := Sorted(Group(cs, seed, consumed), Earlier), Sorted(Group(cs, seed, {}), Earlier);
    if SameGroup(seed, seed) {
      SortedGroup(cs, seed, consumed);
      SortedGroup(cs, seed, {});
      var i := SeedIsPlaced(cs, few, seed);
      var j := SeedIsPlaced(cs, full, seed);
      ChainOfRun(few, i);
      ChainOfRun(full, j);
      SliceIsPart(few, RunStart(few, i), i, RunEnd(few, i + 1), full, RunStart(full, j), j, RunEnd(full, j + 1));
    } else {
      NoGroup(cs, seed, consumed);
      NoGroup(cs, seed, {});
      NothingSorted();
    }
  }

  lemma SeedIsPlaced(cs: seq<Candidate>, group: seq<Candidate>, seed: Candidate) returns (i: nat)
    requires Distinct(cs) && seed in group && forall c <- group :: c in cs
    ensures i == PlaceOf(group, seed.id) && i < |group| && group[i] == seed
  {
    i := PlaceOf(group, seed.id);
    assert group[i] in group;
    SameIdSame(cs, group[i], seed);
  }

  /** From `s` to `e`, each is a neighbour of the one before. */
  predicate IsChain(cs: seq<Candidate>, s: nat, e: nat)
    requires e <= |cs|
  {
    forall k :: s < k < e ==> Adjacent(cs, k)
  }

  predicate IsMaximal(cs: seq<Candidate>, s: nat, e: nat)
    requires s < e <= |cs|
  {
    (s == 0 || !Adjacent(cs, s)) && (e == |cs| || !Adjacent(cs, e))
  }

  lemma ChainOfRun(cs: seq<Candidate>, i: nat)
    requires i < |cs|
    ensures IsChain(cs, RunStart(cs, i), RunEnd(cs, i + 1)) && IsMaximal(cs, RunStart(cs, i), RunEnd(cs, i + 1))
  {
    hide Adjacent;
  }

  lemma SliceIsPart(few: seq<Candidate>, start: nat, i: nat, end: nat, full: seq<Candidate>, s: nat, j: nat, e: nat)
    requires start <= i < end <= |few| && s <= j < e <= |full| && few[i] == full[j] && forall x <- few :: x in full
    requires IsSorted(few, Earlier) && IsSorted(full, Earlier) && IsChain(few, start, end) && IsMaximal(full, s, e)
    ensures forall x <- few[start..end] :: x in full[s..e]
  {
    OrdinalsBetween(full, s, j, e);
    hide IsSorted;
    forall x | x in few[start..end] ensures x in full[s..e] {
      var k :| 0 <= k < end - start && few[start..end][k] == x;
      assert few[start + k] == x && x in few;
      ChainStays(full, s, e, few, i, start + k);
      MaximalRun(full, s, e, x);
    }
  }

  lemma OrdinalsBetween(full: seq<Candidate>, s: nat, j: nat, e: nat)
    requires s <= j < e <= |full| && IsSorted(full, Earlier)
    ensures full[s].ordinal <= full[j].ordinal <= full[e - 1].ordinal
  {
    if s < j { assert !Earlier(full[j], full[s]); }
    if j < e - 1 { assert !Earlier(full[e - 1], full[j]); }
  }

  // ---------- a candidate that is lost ----------

  /** When a run does not fit, even the best candidate can be lost: here it comes second in its run, and the two do not fit. */
  lemma BestCandidateCanBeLost(first: Candidate, best: Candidate)
    requires first.id != best.id && SameGroup(best, first) && best.ordinal == first.ordinal + 1 && best.score > first.score
    requires first.text == [Other(1)] && best.text == [Other(2)]
    ensures !IsIn(Merged([first, best], 1), best)
  {
    hide Count, MergeText, Sorted;
    var cs := [first, best];
    GroupOfTwo(first, best);
    SortedOfTwo(first, best, HigherScore);
    SortedOfTwo(first, best, Earlier);
    assert PlaceOf([first, best], best.id) == 1 by { assert [first, best][1..][0] == best; }
    assert Run(cs, best, {}) == [first, best];
    MergedOfTwo(first.text, best.text);
    var p := Single(first);
    assert Grow(p, [best], 1) == p;
    assert PassageOf(cs, best, {}, 1) == p by { assert [first, best][1..] == [best]; }
    OneId(first);
    var ranked := [best, first];
    assert MergedFrom(cs, ranked, 2, {} + Ids(p.members), 1) == [];
    assert MergedFrom(cs, ranked, 1, {} + Ids(p.members), 1) == [];
    assert MergedFrom(cs, ranked, 0, {}, 1) == [p];
    SortedOfTwo(p, p, HigherPassage);
  }

  lemma GroupOfTwo(first: Candidate, best: Candidate)
    requires SameGroup(best, first)
    ensures Group([first, best], best, {}) == [first, best]
  {
    assert SameGroup(best, best);
    assert [first, best][1..] == [best] && [best][1..] == [];
    assert Group([best], best, {}) == [best];
  }

  lemma MergedOfTwo(a: Text, b: Text)
    requires a == [Other(1)] && b == [Other(2)]
    ensures Count(MergeText(a, b)) == 2
  {
    OneWord(a);
    OneWord(b);
    assert [a][0..] != [b][..1] by { assert [a][0..][0] == a && [b][..1][0] == b; }
    assert !Overlaps([a], [b], 1);
    assert Overlap(WordsOf(a), WordsOf(b)) == 0;
    TokensJoin(a, PARAGRAPH_BREAK, b);
    OneToken(a);
    OneToken(b);
  }

  lemma OneWord(t: Text)
    requires |t| == 1 && t[0].Other?
    ensures WordsOf(t) == [t]
  {
    assert t[0..1] == t && WordEnd(t, 0) == 1 && WordsFrom(t, 1) == [];
    assert WordsFrom(t, 0) == [t[0..1]] + WordsFrom(t, 1);
  }

  lemma OneToken(t: Text)
    requires |t| == 1 && t[0].Other?
    ensures Count(t) == 1
  {
    assert TokensIn(t, 0, 1) == [t[0..1]] + TokensIn(t, 1, 1);
  }

  // ---------- runs are maximal, passages are ranked ----------

  lemma OutsideIsApart(group: seq<Candidate>, i: nat, k: nat, m: nat)
    requires i < |group| && k < |group| && IsSorted(group, Earlier)
    requires RunStart(group, i) <= m < RunEnd(group, i + 1) && !(RunStart(group, i) <= k < RunEnd(group, i + 1))
    ensures group[k].ordinal < group[m].ordinal - 1 || group[k].ordinal > group[m].ordinal + 1
  {
    var s, e := RunStart(group, i), RunEnd(group, i + 1);
    forall a, b | 0 <= a <= b < |group| ensures group[a].ordinal <= group[b].ordinal {
      if a < b { assert !Earlier(group[b], group[a]); }
    }
    if k < s {
      assert !Adjacent(group, s);
      assert group[k].ordinal <= group[s - 1].ordinal && group[s].ordinal <= group[m].ordinal;
    } else {
      assert !Adjacent(group, e);
      assert group[e].ordinal <= group[k].ordinal && group[m].ordinal <= group[e - 1].ordinal;
    }
  }

  lemma SliceIsMaximal(group: seq<Candidate>, i: nat, m: Candidate, x: Candidate)
    requires i < |group| && IsSorted(group, Earlier) && m in group[RunStart(group, i)..RunEnd(group, i + 1)] && x in group
    requires m.ordinal - 1 <= x.ordinal <= m.ordinal + 1
    ensures x in group[RunStart(group, i)..RunEnd(group, i + 1)]
  {
    hide IsSorted, Earlier, RunStart, RunEnd;
    var s, e := RunStart(group, i), RunEnd(group, i + 1);
    var k :| 0 <= k < |group| && group[k] == x;
    var at :| 0 <= at < e - s && group[s..e][at] == m;
    if !(s <= k < e) { OutsideIsApart(group, i, k, s + at); } else { InSlice(group, s, k, e); }
  }

  /** A run leaves nobody out: a candidate of the same document and parent that stands next to a member is a member. */
  lemma RunIsMaximal(cs: seq<Candidate>, seed: Candidate, consumed: set<int>, m: Candidate, x: Candidate)
    requires seed in cs && seed.id !in consumed && Distinct(cs) && m in Run(cs, seed, consumed)
    requires x in cs && x.id !in consumed
    requires x.document == seed.document && x.parent == seed.parent && seed.parent.Some? && seed.isChild && x.isChild
    requires m.ordinal - 1 <= x.ordinal <= m.ordinal + 1
    ensures x in Run(cs, seed, consumed)
  {
    hide Group, Sorted, IsSorted, Distinct;
    var group := Sorted(Group(cs, seed, consumed), Earlier);
    SortedGroup(cs, seed, consumed);
    assert SameGroup(seed, seed) && SameGroup(seed, x);
    hide SameGroup;
    var i := SeedIsPlaced(cs, group, seed);
    hide RunStart, RunEnd;
    SliceIsMaximal(group, i, m, x);
  }

  /** The score of a passage is the greatest of its members. */
  predicate HasBestScore(p: Passage) {
    (forall c <- p.members :: c.score <= p.score) && exists c <- p.members :: c.score == p.score
  }

  lemma {:induction false} GrowKeepsScore(p: Passage, rest: seq<Candidate>, maxTokens: nat)
    requires HasBestScore(p)
    ensures HasBestScore(Grow(p, rest, maxTokens))
    decreases |rest|
  {
    hide MergeText, Count;
    if rest != [] && Count(MergeText(p.text, rest[0].text)) <= maxTokens {
      var q := Joined(p, rest[0]);
      assert rest[0] in q.members && forall c <- p.members :: c in q.members;
      GrowKeepsScore(q, rest[1..], maxTokens);
    }
  }

  lemma PassageHasScore(cs: seq<Candidate>, seed: Candidate, consumed: set<int>, maxTokens: nat)
    ensures HasBestScore(PassageOf(cs, seed, consumed, maxTokens))
  {
    hide Run, Grow, HasBestScore;
    var run := Run(cs, seed, consumed);
    SingleHasScore(seed);
    if run != [] {
      SingleHasScore(run[0]);
      GrowKeepsScore(Single(run[0]), run[1..], maxTokens);
    }
  }

  lemma SingleHasScore(c: Candidate)
    ensures HasBestScore(Single(c))
  {
    assert c in Single(c).members;
  }

  lemma {:induction false} MergedFromScores(cs: seq<Candidate>, ranked: seq<Candidate>, i: nat, consumed: set<int>, maxTokens: nat)
    requires i <= |ranked|
    ensures forall p <- MergedFrom(cs, ranked, i, consumed, maxTokens) :: HasBestScore(p)
    decreases |ranked| - i
  {
    hide PassageOf, HasBestScore;
    if i < |ranked| {
      if ranked[i].id in consumed {
        MergedFromScores(cs, ranked, i + 1, consumed, maxTokens);
      } else {
        var p := PassageOf(cs, ranked[i], consumed, maxTokens);
        PassageHasScore(cs, ranked[i], consumed, maxTokens);
        MergedFromScores(cs, ranked, i + 1, consumed + Ids(p.members), maxTokens);
      }
    }
  }

  /** Passages have the score of their best member and come in falling order of it. */
  lemma PassagesAreRanked(cs: seq<Candidate>, maxTokens: nat, i: nat, j: nat)
    requires i < j < |Merged(cs, maxTokens)|
    ensures var ps := Merged(cs, maxTokens);
            ps[i].score >= ps[j].score && HasBestScore(ps[i]) && HasBestScore(ps[j])
  {
    hide MergedFrom, HasBestScore, Sorted;
    var ranked := Sorted(cs, HigherScore);
    var all := MergedFrom(cs, ranked, 0, {}, maxTokens);
    OrdersAreRankings();
    MergedFromScores(cs, ranked, 0, {}, maxTokens);
    SortedHolds(all, HigherPassage);
    var ps := Merged(cs, maxTokens);
    SortedMembers(all, HigherPassage, ps[i]);
    SortedMembers(all, HigherPassage, ps[j]);
    assert !HigherPassage(ps[j], ps[i]);
  }

  /** Candidates that share a passage are child chunks of one parent in one document. */
  lemma MembersBelongTogether(cs: seq<Candidate>, maxTokens: nat, p: Passage, c: Candidate)
    requires Distinct(cs) && p in Merged(cs, maxTokens) && |p.members| > 1 && c in p.members
    ensures c.isChild && c.parent.Some? && c.parent == p.members[0].parent && c.document == p.members[0].document
  {
    hide Merged, JoinedText, Distinct, Count;
    MergingHolds(cs, maxTokens, p);
    var i :| 0 <= i < |p.members| && p.members[i] == c;
    assert SameGroup(p.members[0], p.members[1]);
  }
}
