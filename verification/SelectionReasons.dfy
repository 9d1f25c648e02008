/** Why candidates are dropped as duplicates, and why the greedy selection took each of the others: the score of a
    candidate is divided by what was selected of its document and of its parent. */
module SelectionReasons {
  import opened Arithmetic
  import opened EvidenceAssembly

  // ---------- duplicates ----------

  /** The common stretch of two passages, and the shorter of the two. */
  function CommonLength(a: Candidate, b: Candidate): int
    requires a.start.Some? && a.end.Some? && b.start.Some? && b.end.Some?
  {
    var from := if a.start.value >= b.start.value then a.start.value else b.start.value;
    var to := if a.end.value <= b.end.value then a.end.value else b.end.value;
    if to >= from then to - from else 0
  }

  function ShorterLength(a: Candidate, b: Candidate): int
    requires a.start.Some? && a.end.Some? && b.start.Some? && b.end.Some?
  {
    if a.end.value - a.start.value <= b.end.value - b.start.value then a.end.value - a.start.value else b.end.value - b.start.value
  }

  /** Passages of one document with known offsets, of which nine tenths of the shorter are in the other. */
  predicate IsCovered(a: Candidate, b: Candidate) {
    && a.document == b.document && a.start.Some? && a.end.Some? && b.start.Some? && b.end.Some?
    && ShorterLength(a, b) > 0 && 10 * CommonLength(a, b) >= 9 * ShorterLength(a, b)
  }

  predicate IsCopy(a: Candidate, b: Candidate) { a.document == b.document && a.hash.Some? && b.hash == a.hash }

  lemma ReasonsAre(a: Candidate, b: Candidate)
    ensures Overlapping(a, b) <==> IsCovered(a, b)
    ensures SameContent(a, b) <==> IsCopy(a, b)
  {}

  /** Of two candidates that are left, the later neither repeats the content of the earlier nor overlaps it by nine tenths
      of the shorter one. */
  lemma KeptAreApart(cs: seq<Candidate>, i: nat, j: nat)
    requires i < j < |Suppressed(cs)|
    ensures !IsCopy(Suppressed(cs)[j], Suppressed(cs)[i]) && !IsCovered(Suppressed(cs)[j], Suppressed(cs)[i])
  {
    hide Suppressed, Overlapping, SameContent, IsCovered, IsCopy;
    SuppressedIsShorter(cs);
    ReasonsAre(Suppressed(cs)[j], Suppressed(cs)[i]);
  }

  /** A candidate is dropped only because an earlier one has its content, or because one that was kept before overlaps it. */
  lemma DroppedForReason(cs: seq<Candidate>, k: nat)
    requires k < |cs| && cs[k] !in Suppressed(cs)
    ensures (exists i :: 0 <= i < k && IsCopy(cs[k], cs[i])) || (exists r <- Suppressed(cs) :: r in cs[..k] && IsCovered(cs[k], r))
  {
    hide Suppressed, Overlapping, SameContent, IsCovered, IsCopy;
    SuppressionHolds(cs, k);
    if SeenContent(cs[k], cs[..k]) {
      var s :| s in cs[..k] && SameContent(cs[k], s);
      var i :| 0 <= i < k && cs[..k][i] == s;
      ReasonsAre(cs[k], cs[i]);
    } else {
      var r :| r in Suppressed(cs) && Overlapping(cs[k], r) && r in cs[..k];
      ReasonsAre(cs[k], r);
    }
  }

  lemma {:induction false} OneMoreCandidate(cs: seq<Candidate>, c: Candidate, i: nat, retained: seq<Candidate>)
    requires i <= |cs|
    ensures var kept := Retained(cs, i, retained);
            Retained(cs + [c], i, retained) == if SeenContent(c, cs) || OverlapsAny(c, kept) then kept else kept + [c]
    decreases |cs| - i
  {
    hide SeenContent, OverlapsAny;
    var longer := cs + [c];
    assert longer[..i] == cs[..i];
    if i == |cs| {
      assert cs[..i] == cs && longer[i] == c;
      AllLookedAt(longer, retained);
      AllLookedAt(longer, retained + [c]);
    } else {
      assert longer[i] == cs[i];
      OneMoreCandidate(cs, c, i + 1, retained);
      OneMoreCandidate(cs, c, i + 1, retained + [cs[i]]);
    }
  }

  lemma AllLookedAt(cs: seq<Candidate>, retained: seq<Candidate>)
    ensures Retained(cs, |cs|, retained) == retained
  {}

  /** A candidate is kept if and only if no earlier candidate, kept or not, has its content, and none that was kept before
      overlaps it. */
  lemma KeptExactly(cs: seq<Candidate>, c: Candidate)
    ensures var isDropped := (exists i :: 0 <= i < |cs| && IsCopy(c, cs[i])) || (exists r <- Suppressed(cs) :: IsCovered(c, r));
            Suppressed(cs + [c]) == if isDropped then Suppressed(cs) else Suppressed(cs) + [c]
    ensures Suppressed([]) == []
  {
    hide Retained, Overlapping, SameContent, IsCovered, IsCopy;
    OneMoreCandidate(cs, c, 0, []);
    AllLookedAt([], []);
    forall x ensures Overlapping(c, x) <==> IsCovered(c, x) { ReasonsAre(c, x); }
    forall x ensures SameContent(c, x) <==> IsCopy(c, x) { ReasonsAre(c, x); }
    if s :| s in cs && SameContent(c, s) {
      var i :| 0 <= i < |cs| && cs[i] == s;
      assert IsCopy(c, cs[i]);
    }
    if i :| 0 <= i < |cs| && IsCopy(c, cs[i]) {
      assert cs[i] in cs;
    }
  }

  // ---------- diversity ----------

  /** How many of the first `i` selections are of this document. */
  function OfDocument(r: seq<Candidate>, i: nat, document: int): nat
    requires i <= |r|
  {
    |set j | 0 <= j < i && r[j].document == document|
  }

  /** The parent of a candidate, or the candidate itself when it has none. */
  function Family(c: Candidate): int { match c.parent case Some(p) => p case None => c.id }

  /** How many of the first `i` selections are of this document and family. */
  function OfFamily(r: seq<Candidate>, i: nat, document: int, family: int): nat
    requires i <= |r|
  {
    |set j | 0 <= j < i && r[j].document == document && Family(r[j]) == family|
  }

  lemma {:induction false} DocumentCountIs(r: seq<Candidate>, i: nat, c: Candidate)
    requires i <= |r|
    ensures DocumentCount(r[..i], c) == OfDocument(r, i, c.document)
  {
    if i > 0 {
      DocumentCountIs(r, i - 1, c);
      assert r[..i][..i - 1] == r[..i - 1];
      var before := set j | 0 <= j < i - 1 && r[j].document == c.document;
      var now := set j | 0 <= j < i && r[j].document == c.document;
      if r[i - 1].document == c.document { assert now == before + {i - 1}; } else { assert now == before; }
    }
  }

  lemma {:induction false} ParentCountIs(r: seq<Candidate>, i: nat, c: Candidate)
    requires i <= |r|
    ensures ParentCount(r[..i], c) == OfFamily(r, i, c.document, Family(c))
  {
    if i > 0 {
      ParentCountIs(r, i - 1, c);
      assert r[..i][..i - 1] == r[..i - 1];
      var before := set j | 0 <= j < i - 1 && r[j].document == c.document && Family(r[j]) == Family(c);
      var now := set j | 0 <= j < i && r[j].document == c.document && Family(r[j]) == Family(c);
      if r[i - 1].document == c.document && Family(r[i - 1]) == Family(c) { assert now == before + {i - 1}; } else { assert now == before; }
    }
  }

  /** What the score of a candidate is divided by when the first `i` selections have been made. */
  function Share(r: seq<Candidate>, i: nat, c: Candidate, penalty: real): real
    requires i <= |r|
  {
    1.0 + penalty * OfDocument(r, i, c.document) as real + penalty / 2.0 * OfFamily(r, i, c.document, Family(c)) as real
  }

  lemma ShareIs(r: seq<Candidate>, i: nat, c: Candidate, penalty: real)
    requires i <= |r| && penalty >= 0.0
    ensures Share(r, i, c, penalty) == Divisor(c, r[..i], penalty) >= 1.0
    ensures Adjusted(c, r[..i], penalty) == c.score / Share(r, i, c, penalty)
  {
    hide DocumentCount, ParentCount, OfDocument, OfFamily;
    DocumentCountIs(r, i, c);
    ParentCountIs(r, i, c);
  }

  lemma {:induction false} SelectionsStay(remaining: seq<Candidate>, selected: seq<Candidate>, limit: nat, penalty: real)
    requires penalty >= 0.0
    ensures selected <= Greedy(remaining, selected, limit, penalty)
    decreases |remaining|
  {
    hide Adjusted;
    if remaining != [] && |selected| < limit {
      var b := Best(remaining, selected, penalty);
      SelectionsStay(Without(remaining, b), selected + [remaining[b]], limit, penalty);
    }
  }

  lemma MovedOver(remaining: seq<Candidate>, selected: seq<Candidate>, b: nat)
    requires b < |remaining|
    ensures multiset(selected + [remaining[b]]) + multiset(Without(remaining, b)) == multiset(selected) + multiset(remaining)
  {
    assert remaining == remaining[..b] + [remaining[b]] + remaining[b + 1..];
  }

  /** What is left when the `i`-th selection is made is worth no more than that selection. */
  lemma {:induction false} GreedySelects(remaining: seq<Candidate>, selected: seq<Candidate>, limit: nat, penalty: real,
                                         i: nat, c: Candidate)
    requires penalty >= 0.0 && |selected| <= i < |Greedy(remaining, selected, limit, penalty)|
    requires (multiset(selected) + multiset(remaining))[c] > multiset(Greedy(remaining, selected, limit, penalty)[..i])[c]
    ensures var r := Greedy(remaining, selected, limit, penalty);
            Adjusted(c, r[..i], penalty) <= Adjusted(r[i], r[..i], penalty)
    decreases |remaining|
  {
    hide Adjusted, Best;
    if remaining != [] && |selected| < limit {
      var b := Best(remaining, selected, penalty);
      var longer, rest := selected + [remaining[b]], Without(remaining, b);
      var r := Greedy(remaining, selected, limit, penalty);
      SelectionsStay(rest, longer, limit, penalty);
      MovedOver(remaining, selected, b);
      if i == |selected| {
        assert r[..i] == selected && r[i] == remaining[b];
        BestIsGreatest(remaining, selected, penalty, c);
      } else {
        GreedySelects(rest, longer, limit, penalty, i, c);
      }
    }
  }

  /** At every place of the selection stands a candidate whose score, divided by one plus the penalty for every earlier
      selection of its document and half the penalty for every one of its document and parent, is at least that of
      every distinct candidate that was still there. */
  lemma SelectedForScore(cs: seq<Candidate>, limit: nat, penalty: real, i: nat, c: Candidate)
    requires penalty >= 0.0 && i < |Diverse(cs, limit, penalty)|
    requires multiset(Suppressed(cs))[c] > multiset(Diverse(cs, limit, penalty)[..i])[c]
    ensures var r := Diverse(cs, limit, penalty);
            && Share(r, i, c, penalty) >= 1.0 && Share(r, i, r[i], penalty) >= 1.0
            && r[i].score / Share(r, i, r[i], penalty) >= c.score / Share(r, i, c, penalty)
  {
    hide Greedy, Adjusted, Divisor, Share, Suppressed;
    var r := Diverse(cs, limit, penalty);
    GreedySelects(Suppressed(cs), [], limit, penalty, i, c);
    ShareIs(r, i, c, penalty);
    ShareIs(r, i, r[i], penalty);
  }

  lemma NoneOfDocument(r: seq<Candidate>, i: nat, c: Candidate, penalty: real)
    requires i <= |r| && forall j :: 0 <= j < i ==> r[j].document != c.document
    ensures Share(r, i, c, penalty) == 1.0
  {
    assert (set j | 0 <= j < i && r[j].document == c.document) == {};
    assert (set j | 0 <= j < i && r[j].document == c.document && Family(r[j]) == Family(c)) == {};
  }

  lemma SomeOfDocument(r: seq<Candidate>, i: nat, c: Candidate, penalty: real, j: nat)
    requires j < i <= |r| && r[j].document == c.document && penalty >= 0.0
    ensures Share(r, i, c, penalty) >= 1.0 + penalty
  {
    var earlier := set k | 0 <= k < i && r[k].document == c.document;
    assert j in earlier;
    SmallerSet({j}, earlier);
    Scale(penalty, 1.0, OfDocument(r, i, c.document) as real);
    Scale(penalty / 2.0, 0.0, OfFamily(r, i, c.document, Family(c)) as real);
  }

  /** A further candidate of a document is only selected when its score exceeds those of the candidates of unused
      documents by the penalty; so at a positive penalty equal positive scores go to the unused document. */
  lemma UnusedDocumentsFirst(cs: seq<Candidate>, limit: nat, penalty: real, i: nat, j: nat, c: Candidate)
    requires penalty >= 0.0 && j < i < |Diverse(cs, limit, penalty)|
    requires multiset(Suppressed(cs))[c] > multiset(Diverse(cs, limit, penalty)[..i])[c]
    requires var r := Diverse(cs, limit, penalty);
             && r[j].document == r[i].document && r[i].score >= 0.0
             && forall k :: 0 <= k < i ==> r[k].document != c.document
    ensures var r := Diverse(cs, limit, penalty);
            && r[i].score >= (1.0 + penalty) * c.score
            && (penalty > 0.0 && c.score > 0.0 ==> r[i].score > c.score)
  {
    hide Diverse, Suppressed, Share;
    var r := Diverse(cs, limit, penalty);
    SelectedForScore(cs, limit, penalty, i, c);
    NoneOfDocument(r, i, c, penalty);
    SomeOfDocument(r, i, r[i], penalty, j);
    var share := Share(r, i, r[i], penalty);
    QuotientsFall(r[i].score, 1.0 + penalty, share);
    assert r[i].score / (1.0 + penalty) >= c.score;
    Cleared(r[i].score, 1.0 + penalty, c.score);
    if penalty > 0.0 && c.score > 0.0 { ScaleStrictly(c.score, 1.0, 1.0 + penalty); }
  }

  lemma Cleared(x: real, a: real, y: real)
    requires a > 0.0 && x / a >= y
    ensures x >= a * y
  {
    var q := x / a;
    assert q * a == x;
    Scale(a, y, q);
  }
}
