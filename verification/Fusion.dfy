/** Weighted reciprocal-rank fusion of a semantic and a lexical leg. */
module Fusion {
  import opened Arithmetic
  import opened Wrappers
  import opened Sorting

  type ChunkId = int
  type DocumentId = int

  datatype Candidate = Candidate(
    id: ChunkId, document: DocumentId, semantic: Option<real>, lexical: Option<real>, fused: real)

  datatype Leg = Semantic | Lexical

  /** The weights and the rank constant; all non-negative in every configuration. */
  datatype Weights = Weights(k: nat, semantic: real, lexical: real)

  function Weight(w: Weights, leg: Leg): real { if leg == Semantic then w.semantic else w.lexical }

  /** What rank `n` (from one) of a leg is worth. */
  function Share(w: Weights, leg: Leg, n: nat): real
    requires n > 0
  {
    Weight(w, leg) / (w.k + n) as real
  }

  // ---------- combining ----------

  /** The place of an id, or the length when it is absent. */
  function PlaceOf(cs: seq<Candidate>, id: ChunkId): (i: nat)
    ensures i <= |cs| && (i < |cs| ==> cs[i].id == id)
    ensures forall j :: 0 <= j < i ==> cs[j].id != id
  {
    if cs == [] || cs[0].id == id then 0 else 1 + PlaceOf(cs[1..], id)
  }

  predicate Distinct(cs: seq<Candidate>) { forall i, j :: 0 <= i < j < |cs| ==> cs[i].id != cs[j].id }

  function Credited(current: Candidate, c: Candidate, leg: Leg, share: real): Candidate {
    if leg == Semantic then current.(semantic := c.semantic, fused := current.fused + share)
    else current.(lexical := c.lexical, fused := current.fused + share)
  }

  /** `combined.setdefault(...)` and the update of the entry; the dictionary keeps the order of insertion. */
  function Credit(combined: seq<Candidate>, c: Candidate, leg: Leg, share: real): seq<Candidate> {
    var i := PlaceOf(combined, c.id);
    if i < |combined| then combined[i := Credited(combined[i], c, leg, share)]
    else combined + [Credited(c, c, leg, share)]
  }

  function WithLeg(combined: seq<Candidate>, cs: seq<Candidate>, leg: Leg, w: Weights): seq<Candidate> {
    if cs == [] then combined
    else Credit(WithLeg(combined, cs[..|cs| - 1], leg, w), cs[|cs| - 1], leg, Share(w, leg, |cs|))
  }

  function Combined(semantic: seq<Candidate>, lexical: seq<Candidate>, w: Weights): seq<Candidate> {
    WithLeg(WithLeg([], semantic, Semantic, w), lexical, Lexical, w)
  }

  // ---------- ranking and selection ----------

  function OrElse(x: Option<real>, default: real): real { if x.Some? then x.value else default }

  /** The order of the sort keys. */
  predicate Better(a: Candidate, b: Candidate) {
    || a.fused > b.fused
    || (a.fused == b.fused
        && (|| OrElse(a.semantic, -2.0) > OrElse(b.semantic, -2.0)
            || (OrElse(a.semantic, -2.0) == OrElse(b.semantic, -2.0) && OrElse(a.lexical, -1.0) > OrElse(b.lexical, -1.0))))
  }

  function Ranked(semantic: seq<Candidate>, lexical: seq<Candidate>, w: Weights): seq<Candidate> {
    Sorted(Combined(semantic, lexical, w), Better)
  }

  function CountOf(cs: seq<Candidate>, document: DocumentId): nat {
    if cs == [] then 0 else CountOf(cs[..|cs| - 1], document) + if cs[|cs| - 1].document == document then 1 else 0
  }

  /** The selection loop from position `i` on; the limit is tested after each selection. */
  function Capped(ranked: seq<Candidate>, i: nat, selected: seq<Candidate>, limit: nat, cap: nat): seq<Candidate>
    requires i <= |ranked|
    decreases |ranked| - i
  {
    if i == |ranked| then selected
    else if CountOf(selected, ranked[i].document) >= cap then Capped(ranked, i + 1, selected, limit, cap)
    else if |selected| + 1 == limit then selected + [ranked[i]]
    else Capped(ranked, i + 1, selected + [ranked[i]], limit, cap)
  }

  function Front<T>(s: seq<T>, n: nat): seq<T> { if |s| <= n then s else s[..n] }

  /** `RrfFusionStrategy.fuse`. */
  function Fused(semantic: seq<Candidate>, lexical: seq<Candidate>, w: Weights, limit: nat, cap: Option<nat>): seq<Candidate> {
    var ranked := Ranked(semantic, lexical, w);
    if cap.None? then Front(ranked, limit) else Capped(ranked, 0, [], limit, cap.value)
  }

  // ---------- the loops ----------

  method AddLeg(combined: seq<Candidate>, cs: seq<Candidate>, leg: Leg, w: Weights) returns (r: seq<Candidate>)
    ensures r == WithLeg(combined, cs, leg, w)
  {
    r := combined;
    var rank := 1;
    assert cs[..0] == [];
    while rank <= |cs|
      invariant 1 <= rank <= |cs| + 1
      invariant r == WithLeg(combined, cs[..rank - 1], leg, w)
    {
      var c := cs[rank - 1];
      assert cs[..rank][..rank - 1] == cs[..rank - 1];
      var i := PlaceOf(r, c.id);
      if i == |r| { r := r + [c]; }
      if leg == Semantic {
        r := r[i := r[i].(semantic := c.semantic)];
      } else {
        r := r[i := r[i].(lexical := c.lexical)];
      }
      r := r[i := r[i].(fused := r[i].fused + Share(w, leg, rank))];
      rank := rank + 1;
    }
    assert cs[..|cs|] == cs;
  }

  method Fuse(semantic: seq<Candidate>, lexical: seq<Candidate>, w: Weights, limit: nat, cap: Option<nat>)
    returns (selected: seq<Candidate>)
    ensures selected == Fused(semantic, lexical, w, limit, cap)
  {
    var combined := AddLeg([], semantic, Semantic, w);
    combined := AddLeg(combined, lexical, Lexical, w);
    var ranked := Sorted(combined, Better);
    if cap.None? { return Front(ranked, limit); }
    selected := [];
    var counts: map<DocumentId, nat> := map[];
    for i := 0 to |ranked|
      invariant Capped(ranked, 0, [], limit, cap.value) == Capped(ranked, i, selected, limit, cap.value)
      invariant forall d: DocumentId :: CountOf(selected, d) == if d in counts then counts[d] else 0
    {
      var d := ranked[i].document;
      var count := if d in counts then counts[d] else 0;
      if count < cap.value {
        assert (selected + [ranked[i]])[..|selected|] == selected;
        selected := selected + [ranked[i]];
        counts := counts[d := count + 1];
        if |selected| == limit { return; }
      }
    }
  }

  // ---------- scores ----------

  /** What the leg is worth to an id: the sum over its ranks there. */
  function Earned(cs: seq<Candidate>, leg: Leg, w: Weights, id: ChunkId): real {
    if cs == [] then 0.0
    else Earned(cs[..|cs| - 1], leg, w, id) + if cs[|cs| - 1].id == id then Share(w, leg, |cs|) else 0.0
  }

  predicate Has(cs: seq<Candidate>, id: ChunkId) { exists c <- cs :: c.id == id }

  function ScoreOf(cs: seq<Candidate>, id: ChunkId): real { if PlaceOf(cs, id) < |cs| then cs[PlaceOf(cs, id)].fused else 0.0 }

  predicate Unscored(cs: seq<Candidate>) { forall c <- cs :: c.fused == 0.0 }

  lemma PlacedIffHas(cs: seq<Candidate>, id: ChunkId)
    ensures PlaceOf(cs, id) < |cs| <==> Has(cs, id)
  {
    if PlaceOf(cs, id) < |cs| { assert cs[PlaceOf(cs, id)] in cs; }
  }

  lemma CreditHolds(combined: seq<Candidate>, c: Candidate, leg: Leg, share: real, id: ChunkId)
    requires Distinct(combined) && c.fused == 0.0
    ensures var r := Credit(combined, c, leg, share);
            && Distinct(r)
            && (PlaceOf(r, id) < |r| <==> PlaceOf(combined, id) < |combined| || c.id == id)
            && ScoreOf(r, id) == ScoreOf(combined, id) + if c.id == id then share else 0.0
  {
    var r := Credit(combined, c, leg, share);
    var i := PlaceOf(combined, c.id);
    if i == |combined| {
      assert r[i].id == c.id;
    }
    PlacesAreUnique(r, id);
    PlacesAreUnique(combined, id);
    if PlaceOf(combined, id) < |combined| { assert r[PlaceOf(combined, id)].id == id; }
    if PlaceOf(r, id) < |combined| { assert combined[PlaceOf(r, id)].id == id; }
  }

  lemma PlacesAreUnique(cs: seq<Candidate>, id: ChunkId)
    requires Distinct(cs)
    ensures forall i :: 0 <= i < |cs| && cs[i].id == id ==> PlaceOf(cs, id) == i
  {}

  lemma {:induction false} WithLegHolds(combined: seq<Candidate>, cs: seq<Candidate>, leg: Leg, w: Weights, id: ChunkId)
    requires Distinct(combined) && Unscored(cs)
    ensures var r := WithLeg(combined, cs, leg, w);
            && Distinct(r)
            && (PlaceOf(r, id) < |r| <==> PlaceOf(combined, id) < |combined| || Has(cs, id))
            && ScoreOf(r, id) == ScoreOf(combined, id) + Earned(cs, leg, w, id)
    decreases |cs|
  {
    if cs != [] {
      var n := |cs| - 1;
      WithLegHolds(combined, cs[..n], leg, w, id);
      CreditHolds(WithLeg(combined, cs[..n], leg, w), cs[n], leg, Share(w, leg, n + 1), id);
      assert cs == cs[..n] + [cs[n]];
    }
  }

  /** Fusion keeps one candidate for each id of either leg, with what both legs are worth to it. */
  lemma FusedScores(semantic: seq<Candidate>, lexical: seq<Candidate>, w: Weights, id: ChunkId)
    requires Unscored(semantic) && Unscored(lexical)
    ensures var r := Combined(semantic, lexical, w);
            && Distinct(r) && (Has(r, id) <==> Has(semantic, id) || Has(lexical, id))
            && ScoreOf(r, id) == Earned(semantic, Semantic, w, id) + Earned(lexical, Lexical, w, id)
  {
    WithLegHolds([], semantic, Semantic, w, id);
    WithLegHolds(WithLeg([], semantic, Semantic, w), lexical, Lexical, w, id);
    PlacedIffHas(Combined(semantic, lexical, w), id);
  }

  /** In a leg without repetitions an id earns the share of its one rank. */
  lemma {:induction false} EarnedOnce(cs: seq<Candidate>, leg: Leg, w: Weights, id: ChunkId)
    requires Distinct(cs)
    ensures Earned(cs, leg, w, id) == if PlaceOf(cs, id) < |cs| then Share(w, leg, PlaceOf(cs, id) + 1) else 0.0
    decreases |cs|
  {
    if cs != [] {
      var n := |cs| - 1;
      EarnedOnce(cs[..n], leg, w, id);
      PlacesAreUnique(cs, id);
      PlacesAreUnique(cs[..n], id);
      if PlaceOf(cs[..n], id) < n { assert cs[PlaceOf(cs[..n], id)].id == id; }
      if PlaceOf(cs, id) < n { assert cs[..n][PlaceOf(cs, id)].id == id; }
    }
  }

  lemma SharesFall(w: Weights, leg: Leg, m: nat, n: nat)
    requires 0 < m <= n && Weight(w, leg) >= 0.0
    ensures 0.0 <= Share(w, leg, n) <= Share(w, leg, m)
    ensures Weight(w, leg) > 0.0 && m < n ==> Share(w, leg, n) < Share(w, leg, m)
  {
    QuotientsFall(Weight(w, leg), (w.k + m) as real, (w.k + n) as real);
  }

  /** In every leg that has `b`, `a` is there at no worse a rank. */
  predicate Dominates(cs: seq<Candidate>, a: ChunkId, b: ChunkId) {
    PlaceOf(cs, b) < |cs| ==> PlaceOf(cs, a) <= PlaceOf(cs, b)
  }

  /** Dominance: a candidate in every leg the other is in, at no worse a rank, never has the lower fused score. */
  lemma FusionRespectsDominance(semantic: seq<Candidate>, lexical: seq<Candidate>, w: Weights, a: ChunkId, b: ChunkId)
    requires Unscored(semantic) && Unscored(lexical) && Distinct(semantic) && Distinct(lexical)
    requires w.semantic >= 0.0 && w.lexical >= 0.0
    requires Dominates(semantic, a, b) && Dominates(lexical, a, b)
    ensures ScoreOf(Combined(semantic, lexical, w), a) >= ScoreOf(Combined(semantic, lexical, w), b)
  {
    FusedScores(semantic, lexical, w, a);
    FusedScores(semantic, lexical, w, b);
    LegRespectsDominance(semantic, Semantic, w, a, b);
    LegRespectsDominance(lexical, Lexical, w, a, b);
  }

  lemma LegRespectsDominance(cs: seq<Candidate>, leg: Leg, w: Weights, a: ChunkId, b: ChunkId)
    requires Distinct(cs) && Weight(w, leg) >= 0.0 && Dominates(cs, a, b)
    ensures Earned(cs, leg, w, a) >= Earned(cs, leg, w, b)
  {
    EarnedOnce(cs, leg, w, a);
    EarnedOnce(cs, leg, w, b);
    if PlaceOf(cs, b) < |cs| {
      SharesFall(w, leg, PlaceOf(cs, a) + 1, PlaceOf(cs, b) + 1);
    } else if PlaceOf(cs, a) < |cs| {
      SharesFall(w, leg, PlaceOf(cs, a) + 1, PlaceOf(cs, a) + 1);
    }
  }

  // ---------- the output ----------

  lemma BetterIsRanking()
    ensures IsRanking(Better)
  {}

  /** The ranking has the ids of both legs, each once, and no candidate stands before a better one. */
  lemma RankedHolds(semantic: seq<Candidate>, lexical: seq<Candidate>, w: Weights, id: ChunkId)
    requires Unscored(semantic) && Unscored(lexical)
    ensures var r := Ranked(semantic, lexical, w);
            IsSorted(r, Better) && Distinct(r) && (Has(r, id) <==> Has(semantic, id) || Has(lexical, id))
  {
    var c := Combined(semantic, lexical, w);
    BetterIsRanking();
    SortedHolds(c, Better);
    FusedScores(semantic, lexical, w, id);
    SortedStaysDistinct(c, Better, (x: Candidate) => x.id);
  }

  /** A single leg of positive weight, semantic or lexical, keeps its order. */
  lemma SingleLegKeepsOrder(cs: seq<Candidate>, leg: Leg, w: Weights)
    requires Unscored(cs) && Distinct(cs) && Weight(w, leg) > 0.0
    ensures var r := if leg == Semantic then Ranked(cs, [], w) else Ranked([], cs, w);
            |r| == |cs| && forall i :: 0 <= i < |cs| ==> r[i].id == cs[i].id
  {
    var c := WithLeg([], cs, leg, w);
    LegInOrder(cs, leg, w);
    forall i, j | 0 <= i < j < |c| ensures !Better(c[j], c[i]) { SharesFall(w, leg, i + 1, j + 1); }
    SortedOfSorted(c, Better);
  }

  lemma {:induction false} LegInOrder(cs: seq<Candidate>, leg: Leg, w: Weights)
    requires Unscored(cs) && Distinct(cs)
    ensures var c := WithLeg([], cs, leg, w);
            |c| == |cs| && forall i :: 0 <= i < |cs| ==> c[i].id == cs[i].id && c[i].fused == Share(w, leg, i + 1)
    decreases |cs|
  {
    if cs != [] {
      var n := |cs| - 1;
      LegInOrder(cs[..n], leg, w);
      var c := WithLeg([], cs[..n], leg, w);
      forall j | 0 <= j < n ensures c[j].id != cs[n].id { assert cs[..n][j] == cs[j]; }
    }
  }

  // ---------- the cap ----------

  /** The candidates of a document among the first `n` of the ranking that were selected. */
  predicate Explained(ranked: seq<Candidate>, selected: seq<Candidate>, limit: nat, cap: nat, i: nat)
    requires i < |ranked|
  {
    || ranked[i] in selected
    || (|selected| == limit && forall c <- selected :: c in ranked[..i])
    || (exists n: nat :: n <= |selected| && CountOf(selected[..n], ranked[i].document) >= cap
          && forall c <- selected[..n] :: c in ranked[..i])
  }

  /** Whatever was selected so far comes from the first `i` candidates and keeps the cap. */
  ghost predicate Chosen(ranked: seq<Candidate>, i: nat, selected: seq<Candidate>, cap: nat)
    requires i <= |ranked|
  {
    && (forall c <- selected :: c in ranked[..i])
    && Distinct(selected) && (forall d: DocumentId :: CountOf(selected, d) <= cap)
  }

  lemma CappedStep(ranked: seq<Candidate>, i: nat, selected: seq<Candidate>, limit: nat, cap: nat)
    requires i < |ranked|
    ensures Capped(ranked, i, selected, limit, cap)
         == if CountOf(selected, ranked[i].document) >= cap then Capped(ranked, i + 1, selected, limit, cap)
            else if |selected| + 1 == limit then selected + [ranked[i]]
            else Capped(ranked, i + 1, selected + [ranked[i]], limit, cap)
  {
    hide CountOf;
  }

  lemma ChosenMore(ranked: seq<Candidate>, i: nat, selected: seq<Candidate>, cap: nat)
    requires i < |ranked| && Chosen(ranked, i, selected, cap) && Distinct(ranked)
    ensures Chosen(ranked, i + 1, selected, cap)
    ensures CountOf(selected, ranked[i].document) < cap ==> Chosen(ranked, i + 1, selected + [ranked[i]], cap)
  {
    var c := ranked[i];
    assert ranked[..i + 1] == ranked[..i] + [c];
    NewIsDistinct(ranked, i, selected);
    forall d: DocumentId
      ensures CountOf(selected + [c], d) == CountOf(selected, d) + if c.document == d then 1 else 0
    {
      assert (selected + [c])[..|selected|] == selected;
    }
  }

  lemma {:induction false} CappedHolds(ranked: seq<Candidate>, i: nat, selected: seq<Candidate>, limit: nat, cap: nat)
    requires i <= |ranked| && limit > 0 && |selected| < limit && Distinct(ranked) && Chosen(ranked, i, selected, cap)
    ensures var r := Capped(ranked, i, selected, limit, cap);
            && |r| <= limit && selected <= r && Chosen(ranked, |ranked|, r, cap)
            && (forall k :: i <= k < |ranked| ==> Explained(ranked, r, limit, cap, k))
    decreases |ranked| - i
  {
    if i < |ranked| {
      var c, r := ranked[i], Capped(ranked, i, selected, limit, cap);
      ChosenMore(ranked, i, selected, cap);
      CappedStep(ranked, i, selected, limit, cap);
      hide Capped, Chosen, Explained, CountOf;
      if CountOf(selected, c.document) >= cap {
        CappedHolds(ranked, i + 1, selected, limit, cap);
        CapReached(ranked, selected, r, limit, cap, i);
      } else {
        var longer := selected + [c];
        if |longer| == limit {
          LimitReached(ranked, longer, limit, cap, i);
        } else {
          CappedHolds(ranked, i + 1, longer, limit, cap);
          assert r[|selected|] == c;
          IsSelected(ranked, r, limit, cap, i);
        }
      }
    }
  }

  lemma CapReached(ranked: seq<Candidate>, selected: seq<Candidate>, r: seq<Candidate>, limit: nat, cap: nat, i: nat)
    requires i < |ranked| && Chosen(ranked, i, selected, cap) && selected <= r
    requires CountOf(selected, ranked[i].document) >= cap
    ensures Explained(ranked, r, limit, cap, i)
  {
    assert r[..|selected|] == selected;
  }

  lemma IsSelected(ranked: seq<Candidate>, r: seq<Candidate>, limit: nat, cap: nat, i: nat)
    requires i < |ranked| && ranked[i] in r
    ensures Explained(ranked, r, limit, cap, i)
  {}

  lemma LimitReached(ranked: seq<Candidate>, longer: seq<Candidate>, limit: nat, cap: nat, i: nat)
    requires i < |ranked| && Chosen(ranked, i + 1, longer, cap) && |longer| == limit > 0 && longer[limit - 1] == ranked[i]
    ensures Chosen(ranked, |ranked|, longer, cap)
    ensures forall k :: i <= k < |ranked| ==> Explained(ranked, longer, limit, cap, k)
  {
    forall k, x | i < k <= |ranked| && x in longer ensures x in ranked[..k] { Earlier(ranked, i + 1, k, x); }
    assert ranked[i] in longer;
  }

  lemma Earlier(ranked: seq<Candidate>, i: nat, k: nat, x: Candidate)
    requires i <= k <= |ranked| && x in ranked[..i]
    ensures x in ranked[..k]
  {
    var j :| 0 <= j < i && ranked[..i][j] == x;
    assert ranked[..k][j] == x;
  }

  lemma NewIsDistinct(ranked: seq<Candidate>, i: nat, selected: seq<Candidate>)
    requires i < |ranked| && Distinct(ranked) && Distinct(selected) && forall c <- selected :: c in ranked[..i]
    ensures Distinct(selected + [ranked[i]])
  {
    forall k | 0 <= k < |selected| ensures selected[k].id != ranked[i].id {
      assert selected[k] in selected;
      var j :| 0 <= j < i && ranked[..i][j] == selected[k];
    }
  }

  /** The cap holds and explains what is left out: with a positive limit no document has more than its share, and a
      candidate is missing only because the limit was reached before it, or because that share of its document was
      selected from better or equal ranks. */
  lemma CapExplainsOmissions(semantic: seq<Candidate>, lexical: seq<Candidate>, w: Weights, limit: nat, cap: nat, i: nat)
    requires Unscored(semantic) && Unscored(lexical) && limit > 0
    requires i < |Ranked(semantic, lexical, w)|
    ensures var ranked := Ranked(semantic, lexical, w);
            var selected := Fused(semantic, lexical, w, limit, Some(cap));
            && |selected| <= limit && Distinct(selected)
            && (forall d: DocumentId :: CountOf(selected, d) <= cap)
            && (forall c <- selected :: c in ranked)
            && Explained(ranked, selected, limit, cap, i)
  {
    RankedHolds(semantic, lexical, w, 0);
    var ranked := Ranked(semantic, lexical, w);
    CappedHolds(ranked, 0, [], limit, cap);
    assert ranked[..|ranked|] == ranked;
  }

  lemma {:induction false} CappedLength(ranked: seq<Candidate>, i: nat, selected: seq<Candidate>, limit: nat, cap: nat)
    requires i <= |ranked|
    ensures selected <= Capped(ranked, i, selected, limit, cap)
    ensures |selected| < limit ==> |Capped(ranked, i, selected, limit, cap)| <= limit
    ensures cap == 0 ==> Capped(ranked, i, selected, limit, cap) == selected
    decreases |ranked| - i
  {
    hide CountOf;
    if i < |ranked| {
      CappedLength(ranked, i + 1, selected, limit, cap);
      CappedLength(ranked, i + 1, selected + [ranked[i]], limit, cap);
    }
  }

  lemma {:induction false} WithLegEmpty(combined: seq<Candidate>, cs: seq<Candidate>, leg: Leg, w: Weights)
    ensures WithLeg(combined, cs, leg, w) == [] <==> combined == [] && cs == []
    decreases |cs|
  {
    if cs != [] { WithLegEmpty(combined, cs[..|cs| - 1], leg, w); }
  }

  lemma RankedEmpty(semantic: seq<Candidate>, lexical: seq<Candidate>, w: Weights)
    ensures Ranked(semantic, lexical, w) == [] <==> semantic == [] && lexical == []
  {
    WithLegEmpty([], semantic, Semantic, w);
    WithLegEmpty(WithLeg([], semantic, Semantic, w), lexical, Lexical, w);
    BetterIsRanking();
    SortedHolds(Combined(semantic, lexical, w), Better);
  }

  /** The limit is tested only after a selection: with a cap it holds if and only if it is positive, or the cap is zero,
      or there is nothing to select from. */
  lemma LimitHoldsExactly(semantic: seq<Candidate>, lexical: seq<Candidate>, w: Weights, limit: nat, cap: nat)
    ensures |Fused(semantic, lexical, w, limit, Some(cap))| <= limit <==>
              limit > 0 || cap == 0 || (semantic == [] && lexical == [])
  {
    var ranked := Ranked(semantic, lexical, w);
    RankedEmpty(semantic, lexical, w);
    CappedLength(ranked, 0, [], limit, cap);
    if limit == 0 && cap > 0 && ranked != [] {
      var none: seq<Candidate> := [];
      assert CountOf(none, ranked[0].document) == 0;
      CappedStep(ranked, 0, none, limit, cap);
      CappedLength(ranked, 1, none + [ranked[0]], limit, cap);
    }
  }

  // ---------- the candidates, exactly ----------

  function EntryOf(cs: seq<Candidate>, id: ChunkId): Option<Candidate> {
    if PlaceOf(cs, id) < |cs| then Some(cs[PlaceOf(cs, id)]) else None
  }

  lemma CreditedEntry(combined: seq<Candidate>, c: Candidate, leg: Leg, share: real, id: ChunkId)
    requires Distinct(combined)
    ensures Distinct(Credit(combined, c, leg, share))
    ensures EntryOf(Credit(combined, c, leg, share), id) ==
              if c.id != id then EntryOf(combined, id)
              else if EntryOf(combined, id).Some? then Some(Credited(EntryOf(combined, id).value, c, leg, share))
              else Some(Credited(c, c, leg, share))
  {
    var r, i := Credit(combined, c, leg, share), PlaceOf(combined, c.id);
    if i == |combined| { assert r[i].id == c.id; }
    PlacesAreUnique(r, id);
    PlacesAreUnique(combined, id);
    if PlaceOf(combined, id) < |combined| { assert r[PlaceOf(combined, id)].id == id; }
    if PlaceOf(r, id) < |combined| { assert combined[PlaceOf(r, id)].id == id; }
  }

  lemma {:induction false} LegEntry(combined: seq<Candidate>, cs: seq<Candidate>, leg: Leg, w: Weights, id: ChunkId)
    requires Distinct(combined) && Distinct(cs)
    ensures Distinct(WithLeg(combined, cs, leg, w))
    ensures var before, n := EntryOf(combined, id), PlaceOf(cs, id);
            EntryOf(WithLeg(combined, cs, leg, w), id) ==
              if n == |cs| then before
              else Some(Credited(if before.Some? then before.value else cs[n], cs[n], leg, Share(w, leg, n + 1)))
    decreases |cs|
  {
    hide Credit, Credited, Share;
    if cs != [] {
      var n := |cs| - 1;
      LegEntry(combined, cs[..n], leg, w, id);
      CreditedEntry(WithLeg(combined, cs[..n], leg, w), cs[n], leg, Share(w, leg, |cs|), id);
      PlacesAreUnique(cs, id);
      PlacesAreUnique(cs[..n], id);
      if PlaceOf(cs[..n], id) < n { assert cs[PlaceOf(cs[..n], id)].id == id; }
    }
  }

  /** The place of an id in a leg, if it is there. */
  predicate IsPlace(cs: seq<Candidate>, id: ChunkId, place: Option<nat>) {
    match place
    case Some(i) => i < |cs| && cs[i].id == id
    case None => forall i :: 0 <= i < |cs| ==> cs[i].id != id
  }

  /** A ranked candidate is the one of the semantic leg, or else of the lexical leg, with the values of both legs and the
      score `weight / (k + rank)` of each leg that it is in, ranks counted from one. */
  lemma RankedCandidate(semantic: seq<Candidate>, lexical: seq<Candidate>, w: Weights, c: Candidate,
                        s: Option<nat>, l: Option<nat>)
    requires Unscored(semantic) && Unscored(lexical) && Distinct(semantic) && Distinct(lexical)
    requires c in Ranked(semantic, lexical, w) && IsPlace(semantic, c.id, s) && IsPlace(lexical, c.id, l)
    ensures s.Some? || l.Some?
    ensures var base := if s.Some? then semantic[s.value] else lexical[l.value];
            c == Candidate(
              c.id, base.document,
              if s.Some? then semantic[s.value].semantic else base.semantic,
              if l.Some? then lexical[l.value].lexical else base.lexical,
              (if s.Some? then w.semantic / (w.k + s.value + 1) as real else 0.0)
                + (if l.Some? then w.lexical / (w.k + l.value + 1) as real else 0.0))
  {
    hide Sorted, WithLeg;
    var combined := Combined(semantic, lexical, w);
    BetterIsRanking();
    SortedMembers(combined, Better, c);
    LegEntry([], semantic, Semantic, w, c.id);
    LegEntry(WithLeg([], semantic, Semantic, w), lexical, Lexical, w, c.id);
    PlacesAreUnique(semantic, c.id);
    PlacesAreUnique(lexical, c.id);
    PlacesAreUnique(combined, c.id);
    var i :| 0 <= i < |combined| && combined[i] == c;
    assert EntryOf(combined, c.id) == Some(c);
    if s.Some? { assert semantic[s.value] in semantic; }
    if l.Some? { assert lexical[l.value] in lexical; }
  }

  /** Of two ranked candidates the first has the higher score, or the same score and the higher semantic similarity, or
      the same of both and no lower lexical score; an unknown similarity counts as -2 and an unknown score as -1. */
  lemma RankedInOrder(semantic: seq<Candidate>, lexical: seq<Candidate>, w: Weights, i: nat, j: nat)
    requires Unscored(semantic) && Unscored(lexical)
    requires i < j < |Ranked(semantic, lexical, w)|
    ensures var a, b := Ranked(semantic, lexical, w)[i], Ranked(semantic, lexical, w)[j];
            var x := match a.semantic { case Some(v) => v case None => -2.0 };
            var y := match b.semantic { case Some(v) => v case None => -2.0 };
            var p := match a.lexical { case Some(v) => v case None => -1.0 };
            var q := match b.lexical { case Some(v) => v case None => -1.0 };
            a.fused > b.fused || (a.fused == b.fused && (x > y || (x == y && p >= q)))
  {
    hide Ranked;
    RankedHolds(semantic, lexical, w, 0);
  }

  /** Without a cap the selection is the front of the ranking, as long as the limit allows. */
  lemma UncappedIsFront(semantic: seq<Candidate>, lexical: seq<Candidate>, w: Weights, limit: nat)
    ensures var r, ranked := Fused(semantic, lexical, w, limit, None), Ranked(semantic, lexical, w);
            && r <= ranked && |r| <= limit && (|r| == limit || |r| == |ranked|)
  {
    hide Ranked;
  }
}
