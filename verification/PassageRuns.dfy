/** Which candidates merging keeps: every run of neighbours is cut from left to right, one cut for every candidate
    that still stands in it when its turn comes. */
module PassageRuns {
  import Tokenization
  import opened Sorting
  import opened MergedText
  import opened PassageMerging

  // ---------- the candidates that are left ----------

  function Unused(cs: seq<Candidate>, consumed: set<int>): seq<Candidate> {
    if cs == [] then [] else (if cs[0].id in consumed then [] else [cs[0]]) + Unused(cs[1..], consumed)
  }

  lemma {:induction false} UnusedMembers(cs: seq<Candidate>, consumed: set<int>, c: Candidate)
    ensures c in Unused(cs, consumed) <==> c in cs && c.id !in consumed
  {
    if cs != [] { UnusedMembers(cs[1..], consumed, c); }
  }

  lemma {:induction false} UnusedConcat(a: seq<Candidate>, b: seq<Candidate>, consumed: set<int>)
    ensures Unused(a + b, consumed) == Unused(a, consumed) + Unused(b, consumed)
  {
    if a == [] {
      assert a + b == b;
    } else {
      assert (a + b)[1..] == a[1..] + b;
      UnusedConcat(a[1..], b, consumed);
    }
  }

  lemma {:induction false} UnusedAll(cs: seq<Candidate>, consumed: set<int>)
    ensures (forall c <- cs :: c.id !in consumed) ==> Unused(cs, consumed) == cs
    ensures (forall c <- cs :: c.id in consumed) ==> Unused(cs, consumed) == []
  {
    if cs != [] { UnusedAll(cs[1..], consumed); }
  }

  lemma UnusedOne(c: Candidate, consumed: set<int>)
    ensures Unused([c], consumed) == if c.id in consumed then [] else [c]
  {
    assert [c][1..] == [];
  }

  lemma {:induction false} GroupIsUnused(cs: seq<Candidate>, seed: Candidate, consumed: set<int>)
    ensures Group(cs, seed, consumed) == Unused(Group(cs, seed, {}), consumed)
  {
    hide SameGroup;
    if cs != [] {
      GroupIsUnused(cs[1..], seed, consumed);
      UnusedConcat(if SameGroup(seed, cs[0]) then [cs[0]] else [], Group(cs[1..], seed, {}), consumed);
      UnusedOne(cs[0], consumed);
    }
  }

  lemma InsertPast(x: Candidate, first: Candidate, rest: seq<Candidate>)
    requires Earlier(first, x)
    ensures Insert(x, [first] + rest, Earlier) == [first] + Insert(x, rest, Earlier)
  {
    assert ([first] + rest)[1..] == rest;
  }

  lemma {:induction false} InsertUnused(x: Candidate, s: seq<Candidate>, consumed: set<int>)
    requires IsSorted(s, Earlier)
    ensures Unused(Insert(x, s, Earlier), consumed)
         == if x.id in consumed then Unused(s, consumed) else Insert(x, Unused(s, consumed), Earlier)
  {
    InsertStep(x, s, Earlier);
    hide Insert;
    if s != [] && Earlier(s[0], x) {
      InsertUnused(x, s[1..], consumed);
      UnusedConcat([s[0]], Insert(x, s[1..], Earlier), consumed);
      UnusedConcat([s[0]], s[1..], consumed);
      UnusedOne(s[0], consumed);
      assert s == [s[0]] + s[1..];
      InsertPast(x, s[0], Unused(s[1..], consumed));
      var few, more := Unused(s[1..], consumed), Unused(Insert(x, s[1..], Earlier), consumed);
      assert [] + few == few && [] + more == more;
      assert Unused(Insert(x, s, Earlier), consumed) == Unused([s[0]], consumed) + more;
      assert Unused(s, consumed) == Unused([s[0]], consumed) + few;
    } else {
      assert ([x] + s)[1..] == s;
      var few := Unused(s, consumed);
      InsertStep(x, few, Earlier);
      if few != [] {
        UnusedMembers(s, consumed, few[0]);
        var j :| 0 <= j < |s| && s[j] == few[0];
        if j > 0 { assert !Earlier(s[j], s[0]); }
      }
    }
  }

  /** Stable sorting and dropping candidates commute. */
  lemma {:induction false} SortedUnused(s: seq<Candidate>, consumed: set<int>)
    ensures Sorted(Unused(s, consumed), Earlier) == Unused(Sorted(s, Earlier), consumed)
  {
    hide Insert, IsSorted;
    if s != [] {
      var rest := s[1..];
      SortedUnused(rest, consumed);
      OrdersAreRankings();
      SortedHolds(rest, Earlier);
      SortedStep(s, Earlier);
      InsertUnused(s[0], Sorted(rest, Earlier), consumed);
      if s[0].id !in consumed {
        assert ([s[0]] + Unused(rest, consumed))[1..] == Unused(rest, consumed);
        SortedStep([s[0]] + Unused(rest, consumed), Earlier);
      } else {
        assert Unused(s, consumed) == Unused(rest, consumed);
      }
    }
  }

  // ---------- one run ----------

  /** A maximal chain of neighbours is the run of each of its members. */
  lemma RunIsUnique(cs: seq<Candidate>, s: nat, i: nat, e: nat)
    requires s <= i < e <= |cs| && IsChain(cs, s, e) && IsMaximal(cs, s, e)
    ensures RunStart(cs, i) == s && RunEnd(cs, i + 1) == e
  {
    hide Adjacent;
  }

  /** Where the run of a seed with a parent lies in its sorted group. */
  lemma RunPlace(cs: seq<Candidate>, seed: Candidate) returns (s: nat, e: nat)
    requires seed in cs && Distinct(cs) && SameGroup(seed, seed)
    ensures var full := Sorted(Group(cs, seed, {}), Earlier);
            && IsSorted(full, Earlier) && s < e <= |full| && Run(cs, seed, {}) == full[s..e]
            && IsChain(full, s, e) && IsMaximal(full, s, e) && seed in full[s..e]
  {
    hide Group, Sorted, SameGroup, RunStart, RunEnd, Adjacent, IsSorted;
    var full := Sorted(Group(cs, seed, {}), Earlier);
    SortedGroup(cs, seed, {});
    var i := SeedIsPlaced(cs, full, seed);
    ChainOfRun(full, i);
    s, e := RunStart(full, i), RunEnd(full, i + 1);
    assert full[s..e][i - s] == seed;
  }

  lemma LoneRun(cs: seq<Candidate>, seed: Candidate, consumed: set<int>)
    requires !SameGroup(seed, seed)
    ensures Run(cs, seed, consumed) == [seed]
  {
    hide Group, Sorted;
    NoGroup(cs, seed, consumed);
    NothingSorted();
  }

  lemma {:induction false} GroupsAgree(cs: seq<Candidate>, a: Candidate, b: Candidate, consumed: set<int>)
    requires SameGroup(a, b)
    ensures Group(cs, a, consumed) == Group(cs, b, consumed)
  {
    if cs != [] { GroupsAgree(cs[1..], a, b, consumed); }
  }

  /** The run of a member of the sorted group, from where it lies in the group. */
  lemma RunAt(cs: seq<Candidate>, x: Candidate, consumed: set<int>, s: nat, k: nat, e: nat)
    requires Distinct(cs)
    requires var group := Sorted(Group(cs, x, consumed), Earlier);
             && s <= k < e <= |group| && group[k] == x && IsChain(group, s, e) && IsMaximal(group, s, e)
    ensures Run(cs, x, consumed) == Sorted(Group(cs, x, consumed), Earlier)[s..e]
  {
    hide Group, Sorted, SameGroup, RunStart, RunEnd, Adjacent;
    var group := Sorted(Group(cs, x, consumed), Earlier);
    SortedGroupIsDistinct(cs, x, consumed);
    PlaceIsIndex(group, k, PlaceOf(group, x.id));
    RunIsUnique(group, s, k, e);
  }

  lemma SortedGroupIsDistinct(cs: seq<Candidate>, seed: Candidate, consumed: set<int>)
    requires Distinct(cs)
    ensures Distinct(Sorted(Group(cs, seed, consumed), Earlier))
  {
    hide Sorted, Group;
    GroupIsDistinct(cs, seed, consumed);
    SortedStaysDistinct(Group(cs, seed, consumed), Earlier, (c: Candidate) => c.id);
  }

  /** The members of one run have the same run. */
  lemma MembersShareRun(cs: seq<Candidate>, seed: Candidate, x: Candidate)
    requires seed in cs && Distinct(cs) && x in Run(cs, seed, {})
    ensures x in cs && Run(cs, x, {}) == Run(cs, seed, {})
  {
    hide Run, Group, Sorted, SameGroup, Adjacent, IsSorted, IsChain, IsMaximal;
    if SameGroup(seed, seed) {
      var s, e := RunPlace(cs, seed);
      var full := Sorted(Group(cs, seed, {}), Earlier);
      SortedGroup(cs, seed, {});
      var k :| 0 <= k < e - s && full[s..e][k] == x;
      assert full[s + k] == x && x in full;
      GroupsAgree(cs, seed, x, {});
      RunAt(cs, x, {}, s, s + k, e);
    } else {
      LoneRun(cs, seed, {});
    }
  }

  lemma PlaceIsIndex(group: seq<Candidate>, k: nat, i: nat)
    requires k < |group| && i < |group| && i == PlaceOf(group, group[k].id) && Distinct(group)
    ensures i == k
  {}

  /** The first `k` candidates of the run are consumed, and no others of it. */
  predicate ConsumedTo(run: seq<Candidate>, k: nat, consumed: set<int>) {
    k <= |run| && forall i :: 0 <= i < |run| ==> (run[i].id in consumed <==> i < k)
  }

  lemma UnusedOfRun(run: seq<Candidate>, k: nat, consumed: set<int>)
    requires ConsumedTo(run, k, consumed)
    ensures Unused(run, consumed) == run[k..]
  {
    assert run == run[..k] + run[k..];
    UnusedConcat(run[..k], run[k..], consumed);
    UnusedAll(run[..k], consumed);
    UnusedAll(run[k..], consumed);
  }

  /** What stands before a maximal chain stands apart from every end of the chain, and so does what stands after. */
  lemma StillMaximal(a: seq<Candidate>, run: seq<Candidate>, b: seq<Candidate>, k: nat, consumed: set<int>)
    requires IsSorted(a + run + b, Earlier) && k < |run|
    requires IsChain(a + run + b, |a|, |a| + |run|) && IsMaximal(a + run + b, |a|, |a| + |run|)
    ensures var fewA, fewB := Unused(a, consumed), Unused(b, consumed);
            var few := fewA + run[k..] + fewB;
            IsChain(few, |fewA|, |fewA| + |run| - k) && IsMaximal(few, |fewA|, |fewA| + |run| - k)
  {
    hide IsSorted;
    var full := a + run + b;
    var fewA, fewB := Unused(a, consumed), Unused(b, consumed);
    var few, s, n := fewA + run[k..] + fewB, |fewA|, |run| - k;
    forall m | s < m < s + n ensures Adjacent(few, m) {
      assert few[m] == run[k + m - s] && few[m - 1] == run[k + m - s - 1];
      assert Adjacent(full, |a| + k + m - s);
    }
    if s > 0 {
      UnusedMembers(a, consumed, fewA[s - 1]);
      var j :| 0 <= j < |a| && a[j] == fewA[s - 1];
      InSorted(full, j, |a| - 1);
      InSorted(full, |a|, |a| + k);
      assert !Adjacent(full, |a|);
      assert few[s] == full[|a| + k] && few[s - 1] == full[j];
    }
    if fewB != [] {
      UnusedMembers(b, consumed, fewB[0]);
      var j :| 0 <= j < |b| && b[j] == fewB[0];
      InSorted(full, |a| + |run|, |a| + |run| + j);
      assert !Adjacent(full, |a| + |run|);
      assert few[s + n] == full[|a| + |run| + j] && few[s + n - 1] == full[|a| + |run| - 1];
    }
  }

  lemma InSorted(cs: seq<Candidate>, i: nat, j: nat)
    requires i <= j < |cs| && IsSorted(cs, Earlier)
    ensures cs[i].ordinal <= cs[j].ordinal
  {
    if i < j { assert !Earlier(cs[j], cs[i]); }
  }

  /** The sorted group of a seed is its group among all candidates without those that are consumed. */
  lemma FewerSorted(cs: seq<Candidate>, seed: Candidate, consumed: set<int>, s: nat, e: nat)
    requires s <= e <= |Sorted(Group(cs, seed, {}), Earlier)|
    ensures var full := Sorted(Group(cs, seed, {}), Earlier);
            Sorted(Group(cs, seed, consumed), Earlier)
            == Unused(full[..s], consumed) + Unused(full[s..e], consumed) + Unused(full[e..], consumed)
  {
    hide Group, Sorted, Unused;
    var full := Sorted(Group(cs, seed, {}), Earlier);
    GroupIsUnused(cs, seed, consumed);
    SortedUnused(Group(cs, seed, {}), consumed);
    UnusedConcat(full[..s] + full[s..e], full[e..], consumed);
    UnusedConcat(full[..s], full[s..e], consumed);
    assert full == full[..s] + full[s..e] + full[e..];
  }

  /** What a seed finds of its run: everything that was not consumed, still in one piece. */
  lemma RunIsRest(cs: seq<Candidate>, seed: Candidate, consumed: set<int>, k: nat)
    requires Distinct(cs) && seed in cs && seed.id !in consumed && ConsumedTo(Run(cs, seed, {}), k, consumed)
    ensures k < |Run(cs, seed, {})| && seed in Run(cs, seed, {})[k..]
    ensures Run(cs, seed, consumed) == Run(cs, seed, {})[k..]
  {
    hide Run, Group, Sorted, SameGroup, Adjacent, IsSorted, IsChain, IsMaximal, Unused, Distinct;
    var run := Run(cs, seed, {});
    RunFacts(cs, seed);
    SeedStands(cs, run, k, consumed, seed);
    if SameGroup(seed, seed) {
      var s, e := RunPlace(cs, seed);
      RestInGroup(cs, seed, consumed, k, s, e);
    } else {
      LoneRun(cs, seed, {});
      LoneRun(cs, seed, consumed);
      assert run[0..] == run;
    }
  }

  lemma RestInGroup(cs: seq<Candidate>, seed: Candidate, consumed: set<int>, k: nat, s: nat, e: nat)
    requires Distinct(cs)
    requires var full := Sorted(Group(cs, seed, {}), Earlier);
             && IsSorted(full, Earlier) && s < e <= |full| && IsChain(full, s, e) && IsMaximal(full, s, e)
             && k < e - s && seed in full[s..e][k..] && ConsumedTo(full[s..e], k, consumed)
    ensures Run(cs, seed, consumed) == Sorted(Group(cs, seed, {}), Earlier)[s..e][k..]
  {
    hide Run, Group, Sorted, SameGroup, Adjacent, IsSorted, IsChain, IsMaximal, Unused, Distinct, ConsumedTo;
    var full := Sorted(Group(cs, seed, {}), Earlier);
    var a, run, b := full[..s], full[s..e], full[e..];
    assert full == a + run + b;
    FewerSorted(cs, seed, consumed, s, e);
    UnusedOfRun(run, k, consumed);
    StillMaximal(a, run, b, k, consumed);
    var fewA, rest, fewB := Unused(a, consumed), run[k..], Unused(b, consumed);
    var i :| 0 <= i < |rest| && rest[i] == seed;
    assert (fewA + rest + fewB)[|fewA| + i] == seed;
    RunAt(cs, seed, consumed, |fewA|, |fewA| + i, |fewA| + |rest|);
    assert (fewA + rest + fewB)[|fewA|..|fewA| + |rest|] == rest;
  }

  // ---------- the cuts of a run ----------

  /** The longest front of a run of which every front fits; a single candidate always does. */
  function FrontLength(run: seq<Candidate>, n: nat, maxTokens: nat): (r: nat)
    requires n <= |run|
    ensures n <= r <= |run|
    decreases |run| - n
  {
    if n < |run| && FitsTo(run, n, maxTokens) then FrontLength(run, n + 1, maxTokens) else n
  }

  /** The inner loop takes exactly that front. */
  lemma {:induction false} GrowIsFront(p: Passage, run: seq<Candidate>, k: nat, maxTokens: nat)
    requires 0 < k <= |run| && p.members == run[..k] && p.text == JoinedText(run[..k])
    ensures Grow(p, run[k..], maxTokens).members == run[..FrontLength(run, k, maxTokens)]
    decreases |run| - k
  {
    hide MergeText, Tokenization.Count;
    if k < |run| {
      assert run[..k + 1] == run[..k] + [run[k]] && run[..k + 1][..k] == run[..k];
      assert run[k..][0] == run[k] && run[k..][1..] == run[k + 1..];
      if FitsTo(run, k, maxTokens) { GrowIsFront(Joined(p, run[k]), run, k + 1, maxTokens); }
    } else {
      assert run[k..] == [];
    }
  }

  /** Where the next cut of a run ends when it has been cut to `k`. */
  function NextCut(run: seq<Candidate>, k: nat, maxTokens: nat): (r: nat)
    requires k < |run|
    ensures k < r <= |run|
  {
    k + FrontLength(run[k..], 1, maxTokens)
  }

  /** How far a run is cut in the end: each candidate in rank order that still stands in it makes the next cut. */
  function CutTo(run: seq<Candidate>, ranked: seq<Candidate>, i: nat, k: nat, maxTokens: nat): (r: nat)
    requires i <= |ranked| && k <= |run|
    ensures k <= r <= |run|
    decreases |ranked| - i
  {
    if i == |ranked| then k
    else CutTo(run, ranked, i + 1, if ranked[i] in run[k..] then NextCut(run, k, maxTokens) else k, maxTokens)
  }

  /** The passage that a seed of a run starts is the next cut of the run, wherever the seed stands in it. */
  lemma PassageIsCut(cs: seq<Candidate>, seed: Candidate, consumed: set<int>, k: nat, maxTokens: nat)
    requires Distinct(cs) && seed in cs && seed.id !in consumed && ConsumedTo(Run(cs, seed, {}), k, consumed)
    ensures var run := Run(cs, seed, {});
            && seed in run[k..] && k < |run|
            && PassageOf(cs, seed, consumed, maxTokens).members == run[k..NextCut(run, k, maxTokens)]
  {
    hide Run, Grow, FrontLength, JoinedText;
    var rest := Run(cs, seed, {})[k..];
    RunIsRest(cs, seed, consumed, k);
    OneText(rest[0]);
    assert rest[..1] == [rest[0]];
    GrowIsFront(Single(rest[0]), rest, 1, maxTokens);
    var n := FrontLength(rest, 1, maxTokens);
    assert rest[..n] == Run(cs, seed, {})[k..k + n];
  }

  lemma CutIsConsumed(run: seq<Candidate>, k: nat, n: nat, consumed: set<int>)
    requires ConsumedTo(run, k, consumed) && k <= n <= |run| && Distinct(run)
    ensures ConsumedTo(run, n, consumed + Ids(run[k..n]))
  {
    forall i | 0 <= i < |run| ensures run[i].id in consumed + Ids(run[k..n]) <==> i < n {
      if k <= i < n { assert run[k..n][i - k] == run[i] && run[i] in run[k..n]; }
      if run[i].id in Ids(run[k..n]) {
        var c :| c in run[k..n] && c.id == run[i].id;
        var j :| k <= j < n && run[j] == c;
        assert i == j;
      }
    }
  }

  lemma OthersStay(cs: seq<Candidate>, run: seq<Candidate>, k: nat, consumed: set<int>, members: seq<Candidate>)
    requires Distinct(cs) && ConsumedTo(run, k, consumed) && (forall c <- run :: c in cs)
    requires forall c <- members :: c in cs && c !in run
    ensures ConsumedTo(run, k, consumed + Ids(members))
  {
    forall i | 0 <= i < |run| ensures run[i].id !in Ids(members) {
      if run[i].id in Ids(members) {
        var c :| c in members && c.id == run[i].id;
        assert run[i] in run;
        SameIdSame(cs, c, run[i]);
      }
    }
  }

  /** The passage of a seed outside a run takes nothing from it. */
  lemma RunsAreDisjoint(cs: seq<Candidate>, c: Candidate, seed: Candidate, consumed: set<int>, maxTokens: nat)
    requires Distinct(cs) && c in cs && seed in cs && seed.id !in consumed && seed !in Run(cs, c, {})
    ensures forall x <- PassageOf(cs, seed, consumed, maxTokens).members :: x in cs && x !in Run(cs, c, {})
  {
    hide Run, PassageOf, Contiguous;
    var p := PassageOf(cs, seed, consumed, maxTokens);
    PassageHolds(cs, seed, consumed, maxTokens);
    PassageInRun(cs, seed, consumed, maxTokens);
    RunIsPart(cs, seed, consumed);
    RunHolds(cs, seed, {});
    forall x | x in p.members ensures x !in Run(cs, c, {}) {
      if x in Run(cs, c, {}) {
        MembersShareRun(cs, c, x);
        MembersShareRun(cs, seed, x);
      }
    }
  }

  lemma PassageInRun(cs: seq<Candidate>, seed: Candidate, consumed: set<int>, maxTokens: nat)
    requires Distinct(cs) && seed in cs && seed.id !in consumed
    ensures forall x <- PassageOf(cs, seed, consumed, maxTokens).members :: x in Run(cs, seed, consumed)
  {
    hide Run, Grow, JoinedText, FitsTo, Contiguous;
    var run := Run(cs, seed, consumed);
    RunHolds(cs, seed, consumed);
    OneText(run[0]);
    assert run[..1] == [run[0]];
    GrowHolds(Single(run[0]), run, 1, maxTokens);
  }

  lemma CutStep(run: seq<Candidate>, ranked: seq<Candidate>, i: nat, k: nat, maxTokens: nat)
    requires i <= |ranked| && k <= |run|
    ensures CutTo(run, ranked, i, k, maxTokens) ==
            if i == |ranked| then k
            else CutTo(run, ranked, i + 1, if ranked[i] in run[k..] then NextCut(run, k, maxTokens) else k, maxTokens)
  {
    hide NextCut;
  }

  /** A seed that is not consumed stands in the run exactly when it is a member of it. */
  lemma SeedStands(cs: seq<Candidate>, run: seq<Candidate>, k: nat, consumed: set<int>, seed: Candidate)
    requires Distinct(cs) && seed in cs && (forall c <- run :: c in cs) && ConsumedTo(run, k, consumed)
    ensures k <= |run| && (seed in run[k..] <==> seed in run && seed.id !in consumed)
  {
    if seed in run {
      var i :| 0 <= i < |run| && run[i] == seed;
      if i >= k { assert run[k..][i - k] == seed; }
      if seed in run[k..] {
        var j :| 0 <= j < |run| - k && run[k..][j] == seed;
        assert run[k + j].id == seed.id;
      }
    }
  }

  lemma MergedStep(cs: seq<Candidate>, ranked: seq<Candidate>, i: nat, consumed: set<int>, maxTokens: nat, c: Candidate)
    requires i <= |ranked|
    ensures i == |ranked| ==> !IsIn(MergedFrom(cs, ranked, i, consumed, maxTokens), c)
    ensures i < |ranked| ==>
              var p := PassageOf(cs, ranked[i], consumed, maxTokens);
              IsIn(MergedFrom(cs, ranked, i, consumed, maxTokens), c) <==>
                if ranked[i].id in consumed then IsIn(MergedFrom(cs, ranked, i + 1, consumed, maxTokens), c)
                else c in p.members || IsIn(MergedFrom(cs, ranked, i + 1, consumed + Ids(p.members), maxTokens), c)
  {
    hide PassageOf, Ids;
    if i < |ranked| && ranked[i].id !in consumed {
      var p := PassageOf(cs, ranked[i], consumed, maxTokens);
      InOneOf(p, MergedFrom(cs, ranked, i + 1, consumed + Ids(p.members), maxTokens), c);
    }
  }

  lemma InOneOf(p: Passage, rest: seq<Passage>, c: Candidate)
    ensures IsIn([p] + rest, c) <==> c in p.members || IsIn(rest, c)
  {
    var ps := [p] + rest;
    if c in p.members { assert p in ps; }
    if q :| q in rest && c in q.members { assert q in ps; }
  }

  lemma NotInIds(cs: seq<Candidate>, members: seq<Candidate>, c: Candidate)
    requires Distinct(cs) && c in cs && c !in members && forall x <- members :: x in cs
    ensures c.id !in Ids(members)
  {
    if c.id in Ids(members) {
      var x :| x in members && x.id == c.id;
      SameIdSame(cs, x, c);
    }
  }

  lemma InSlices(run: seq<Candidate>, k: nat, n: nat, m: nat, c: Candidate)
    requires k <= n <= m <= |run|
    ensures c in run[k..m] <==> c in run[k..n] || c in run[n..m]
  {
    assert run[k..m] == run[k..n] + run[n..m];
  }

  lemma RunFacts(cs: seq<Candidate>, c: Candidate)
    requires Distinct(cs) && c in cs
    ensures var run := Run(cs, c, {}); c in run && Distinct(run) && forall x <- run :: x in cs
  {
    hide Run, Contiguous;
    RunHolds(cs, c, {});
    RunIsDistinct(cs, c, {});
  }

  /** From the `i`-th seed on: a candidate of the run is in one of the passages to come exactly when the cuts reach it. */
  lemma {:induction false} KeptFrom(
      cs: seq<Candidate>, ranked: seq<Candidate>, i: nat, consumed: set<int>, maxTokens: nat, c: Candidate, k: nat)
    requires i <= |ranked| && Distinct(cs) && c in cs && (forall x <- ranked :: x in cs)
    requires ConsumedTo(Run(cs, c, {}), k, consumed) && c.id !in consumed
    ensures k <= |Run(cs, c, {})|
    ensures IsIn(MergedFrom(cs, ranked, i, consumed, maxTokens), c) <==>
              c in Run(cs, c, {})[k..CutTo(Run(cs, c, {}), ranked, i, k, maxTokens)]
    decreases |ranked| - i
  {
    hide Run, PassageOf, MergedFrom, Ids, ConsumedTo, NextCut, CutTo, IsIn, Distinct;
    var run := Run(cs, c, {});
    RunFacts(cs, c);
    SeedStands(cs, run, k, consumed, c);
    CutStep(run, ranked, i, k, maxTokens);
    MergedStep(cs, ranked, i, consumed, maxTokens, c);
    if i < |ranked| {
      var seed := ranked[i];
      SeedStands(cs, run, k, consumed, seed);
      if seed.id in consumed {
        KeptFrom(cs, ranked, i + 1, consumed, maxTokens, c, k);
      } else if seed in run {
        MembersShareRun(cs, c, seed);
        PassageIsCut(cs, seed, consumed, k, maxTokens);
        var n := NextCut(run, k, maxTokens);
        CutIsConsumed(run, k, n, consumed);
        var after := consumed + Ids(run[k..n]);
        InSlices(run, k, n, CutTo(run, ranked, i + 1, n, maxTokens), c);
        if c !in run[k..n] {
          SliceMembersIn(cs, run, k, n);
          NotInIds(cs, run[k..n], c);
          KeptFrom(cs, ranked, i + 1, after, maxTokens, c, n);
        }
      } else {
        var p := PassageOf(cs, seed, consumed, maxTokens);
        RunsAreDisjoint(cs, c, seed, consumed, maxTokens);
        OthersStay(cs, run, k, consumed, p.members);
        NotInIds(cs, p.members, c);
        KeptFrom(cs, ranked, i + 1, consumed + Ids(p.members), maxTokens, c, k);
      }
    }
  }

  lemma SliceMembersIn(cs: seq<Candidate>, run: seq<Candidate>, k: nat, n: nat)
    requires k <= n <= |run| && forall x <- run :: x in cs
    ensures forall x <- run[k..n] :: x in cs
  {}

  // ---------- exactly what is kept ----------

  lemma NothingConsumed(run: seq<Candidate>)
    ensures ConsumedTo(run, 0, {})
  {}

  lemma InMerged(cs: seq<Candidate>, maxTokens: nat, p: Passage)
    ensures p in Merged(cs, maxTokens) <==> p in MergedFrom(cs, Sorted(cs, HigherScore), 0, {}, maxTokens)
  {
    hide MergedFrom, Sorted;
    OrdersAreRankings();
    SortedMembers(MergedFrom(cs, Sorted(cs, HigherScore), 0, {}, maxTokens), HigherPassage, p);
  }

  lemma RankedMembers(cs: seq<Candidate>)
    ensures forall x :: x in Sorted(cs, HigherScore) <==> x in cs
  {
    hide Sorted;
    OrdersAreRankings();
    forall x ensures x in Sorted(cs, HigherScore) <==> x in cs { SortedMembers(cs, HigherScore, x); }
  }

  /** A candidate is in some passage if and only if the cuts of its run reach it: the runs do not interfere, and each
      is cut from its left end, once for every candidate in rank order that still stands in it. */
  lemma KeptExactly(cs: seq<Candidate>, maxTokens: nat, c: Candidate)
    requires Distinct(cs) && c in cs
    ensures var run := Run(cs, c, {});
            IsIn(Merged(cs, maxTokens), c) <==> c in run[..CutTo(run, Sorted(cs, HigherScore), 0, 0, maxTokens)]
  {
    hide MergedFrom, Merged, Run, CutTo, Sorted, Distinct;
    var ranked, run := Sorted(cs, HigherScore), Run(cs, c, {});
    RankedMembers(cs);
    NothingConsumed(run);
    KeptFrom(cs, ranked, 0, {}, maxTokens, c, 0);
    var ps := MergedFrom(cs, ranked, 0, {}, maxTokens);
    forall p ensures p in Merged(cs, maxTokens) <==> p in ps { InMerged(cs, maxTokens, p); }
    var n := CutTo(run, ranked, 0, 0, maxTokens);
    assert run[0..n] == run[..n];
  }

  // ---------- when nothing is lost ----------

  /** Every run of neighbours in one parent that has more than one candidate fits when it is joined. */
  predicate RunsFit(cs: seq<Candidate>, maxTokens: nat) {
    forall c <- cs :: RunFits(Run(cs, c, {}), maxTokens)
  }

  predicate RunFits(run: seq<Candidate>, maxTokens: nat) {
    |run| > 1 ==> Tokenization.Count(JoinedText(run)) <= maxTokens
  }

  lemma {:induction false} FrontsAreSmaller(run: seq<Candidate>, k: nat)
    requires 0 < k <= |run|
    ensures Tokenization.Count(JoinedText(run[..k])) <= Tokenization.Count(JoinedText(run))
    decreases |run|
  {
    hide Tokenization.Count, MergeText;
    if k < |run| {
      var n := |run| - 1;
      assert run[..n][..k] == run[..k];
      FrontsAreSmaller(run[..n], k);
      MergedCount(JoinedText(run[..n]), run[n].text);
    } else {
      assert run[..k] == run;
    }
  }

  /** A run that fits is one cut. */
  lemma {:induction false} FittingRunIsOneCut(run: seq<Candidate>, n: nat, maxTokens: nat)
    requires 0 < n <= |run| && RunFits(run, maxTokens)
    ensures FrontLength(run, n, maxTokens) == |run|
    decreases |run| - n
  {
    hide Tokenization.Count, JoinedText;
    if n < |run| {
      FrontsAreSmaller(run, n + 1);
      FittingRunIsOneCut(run, n + 1, maxTokens);
    }
  }

  lemma {:induction false} FirstMemberCuts(run: seq<Candidate>, ranked: seq<Candidate>, i: nat, maxTokens: nat, c: Candidate)
    requires i <= |ranked| && c in run && c in ranked[i..] && RunFits(run, maxTokens)
    ensures CutTo(run, ranked, i, 0, maxTokens) == |run|
    decreases |ranked| - i
  {
    hide FrontLength, RunFits;
    assert run[0..] == run;
    if ranked[i] in run {
      FittingRunIsOneCut(run, 1, maxTokens);
    } else {
      assert ranked[i..] == [ranked[i]] + ranked[i + 1..];
      FirstMemberCuts(run, ranked, i + 1, maxTokens, c);
    }
  }

  /** When every run of neighbours fits one passage, no candidate is lost. */
  lemma NothingIsLost(cs: seq<Candidate>, maxTokens: nat, c: Candidate)
    requires Distinct(cs) && RunsFit(cs, maxTokens) && c in cs
    ensures IsIn(Merged(cs, maxTokens), c)
  {
    hide Run, CutTo, Sorted, RunFits, Merged, IsIn, Distinct;
    var ranked, run := Sorted(cs, HigherScore), Run(cs, c, {});
    KeptExactly(cs, maxTokens, c);
    RunFacts(cs, c);
    RankedMembers(cs);
    assert ranked[0..] == ranked;
    FirstMemberCuts(run, ranked, 0, maxTokens, c);
    assert run[..|run|] == run;
  }

  predicate IsPassageOf(ps: seq<Passage>, run: seq<Candidate>) { exists p <- ps :: p.members == run }

  lemma {:induction false} WholeRunFrom(
      cs: seq<Candidate>, ranked: seq<Candidate>, i: nat, consumed: set<int>, maxTokens: nat, c: Candidate)
    requires i <= |ranked| && Distinct(cs) && c in cs && c in ranked[i..] && (forall x <- ranked :: x in cs)
    requires ConsumedTo(Run(cs, c, {}), 0, consumed) && RunFits(Run(cs, c, {}), maxTokens)
    ensures IsPassageOf(MergedFrom(cs, ranked, i, consumed, maxTokens), Run(cs, c, {}))
    decreases |ranked| - i
  {
    hide Run, PassageOf, Ids, ConsumedTo, RunFits, Distinct, FrontLength;
    var run, seed := Run(cs, c, {}), ranked[i];
    RunFacts(cs, c);
    SeedStands(cs, run, 0, consumed, seed);
    assert run[0..] == run && ranked[i..] == [seed] + ranked[i + 1..];
    var p := PassageOf(cs, seed, consumed, maxTokens);
    if seed.id in consumed {
      SeedStands(cs, run, 0, consumed, c);
      WholeRunFrom(cs, ranked, i + 1, consumed, maxTokens, c);
    } else if seed in run {
      MembersShareRun(cs, c, seed);
      PassageIsCut(cs, seed, consumed, 0, maxTokens);
      FittingRunIsOneCut(run, 1, maxTokens);
      assert run[0..|run|] == run;
      assert p in MergedFrom(cs, ranked, i, consumed, maxTokens);
    } else {
      RunsAreDisjoint(cs, c, seed, consumed, maxTokens);
      OthersStay(cs, run, 0, consumed, p.members);
      WholeRunFrom(cs, ranked, i + 1, consumed + Ids(p.members), maxTokens, c);
      var rest := MergedFrom(cs, ranked, i + 1, consumed + Ids(p.members), maxTokens);
      var q :| q in rest && q.members == run;
      assert q in [p] + rest;
    }
  }

  /** The passages are the maximal runs, one for each, if and only if every run fits. */
  lemma RunsArePassagesExactly(cs: seq<Candidate>, maxTokens: nat)
    requires Distinct(cs)
    ensures (forall c <- cs :: IsPassageOf(Merged(cs, maxTokens), Run(cs, c, {}))) <==> RunsFit(cs, maxTokens)
  {
    hide Run, MergedFrom, Sorted, Merged, JoinedText, Contiguous, Tokenization.Count, Distinct;
    var ranked := Sorted(cs, HigherScore);
    RankedMembers(cs);
    assert ranked[0..] == ranked;
    if RunsFit(cs, maxTokens) {
      forall c | c in cs ensures IsPassageOf(Merged(cs, maxTokens), Run(cs, c, {})) {
        NothingConsumed(Run(cs, c, {}));
        WholeRunFrom(cs, ranked, 0, {}, maxTokens, c);
        var p :| p in MergedFrom(cs, ranked, 0, {}, maxTokens) && p.members == Run(cs, c, {});
        InMerged(cs, maxTokens, p);
      }
    }
    if forall c <- cs :: IsPassageOf(Merged(cs, maxTokens), Run(cs, c, {})) {
      forall c | c in cs ensures RunFits(Run(cs, c, {}), maxTokens) {
        var p :| p in Merged(cs, maxTokens) && p.members == Run(cs, c, {});
        MergingHolds(cs, maxTokens, p);
      }
    }
  }
}
