/** What a list of segments contains: its tokens labelled with the source block they come from. */
module Content {
  import opened Wrappers
  import opened Tokenization
  import opened Segments
  import opened Tables
  import opened SegmentSplitting

  /** A token and the order of the source block that holds it. */
  datatype Mark = Mark(order: int, token: Text)

  function Marked(order: int, tokens: seq<Text>): (marks: seq<Mark>)
    ensures |marks| == |tokens| && forall i :: 0 <= i < |tokens| ==> marks[i] == Mark(order, tokens[i])
  {
    seq(|tokens|, i requires 0 <= i < |tokens| => Mark(order, tokens[i]))
  }

  function Contents(segments: seq<Segment>): (marks: seq<Mark>) {
    if segments == [] then []
    else Marked(segments[0].order, Tokens(segments[0].text)) + Contents(segments[1..])
  }

  lemma {:induction false} ContentsConcat(a: seq<Segment>, b: seq<Segment>)
    ensures Contents(a + b) == Contents(a) + Contents(b)
  {
    hide Tokens;
    if a == [] {
      assert a + b == b;
    } else {
      assert (a + b)[1..] == a[1..] + b;
      ContentsConcat(a[1..], b);
    }
  }

  lemma ContentsOne(s: Segment)
    ensures Contents([s]) == Marked(s.order, Tokens(s.text))
  {
    hide Tokens;
    assert [s][1..] == [];
    assert Contents([s]) == Marked(s.order, Tokens(s.text)) + Contents([]);
  }

  /** The tokens of a list are its contents without the labels. */
  lemma {:induction false} ContentsTokens(segments: seq<Segment>)
    ensures |Contents(segments)| == Size(segments)
    ensures forall i :: 0 <= i < Size(segments) ==> Contents(segments)[i].token == SegmentTokens(segments)[i]
  {
    hide Tokens;
    if segments != [] { ContentsTokens(segments[1..]); }
  }

  /** Equal contents mean equal token sequences. */
  lemma SameContentsSameTokens(a: seq<Segment>, b: seq<Segment>)
    requires Contents(a) == Contents(b)
    ensures SegmentTokens(a) == SegmentTokens(b)
  {
    hide Contents, SegmentTokens;
    ContentsTokens(a);
    ContentsTokens(b);
  }

  lemma {:induction false} ContentsOfParts(parts: seq<Segment>, order: int)
    requires forall p <- parts :: p.order == order
    ensures Contents(parts) == Marked(order, SegmentTokens(parts))
  {
    hide Tokens;
    if parts != [] { ContentsOfParts(parts[1..], order); }
  }

  /** A table that no cut with this much room can change into several headed parts. */
  predicate WholeTable(s: Segment, room: int) {
    s.kind == Table ==> |Rows(s.text)| <= 2 || Count(s.text) <= room
  }

  lemma SplitSegmentContents(s: Segment, n: nat)
    requires n > 0 && WholeTable(s, n)
    ensures Contents(SplitSegment(s, n)) == Marked(s.order, Tokens(s.text))
  {
    hide Tokens, Rows, SplitSegment;
    SplitSegmentParts(s, n);
    SplitSegmentConserves(s, n);
    ContentsOfParts(SplitSegment(s, n), s.order);
  }

  lemma SplitSegmentWhole(s: Segment, n: nat, room: int)
    requires n > 0 && WholeTable(s, room) && (s.kind == Table ==> |Rows(s.text)| <= 2 || Count(s.text) <= n)
    ensures forall p <- SplitSegment(s, n) :: WholeTable(p, room)
  {
    hide Tokens, Rows;
    SplitSegmentParts(s, n);
    if s.kind == Table && Count(s.text) > n {
      SplitSegmentSafe(s, n, -1);
      forall p | p in SplitSegment(s, n) ensures |Rows(p.text)| <= 2 { FewRows(p.text); }
    }
  }

  lemma FewRows(t: Text)
    ensures SafeTable(t, -1) ==> |Rows(t)| <= 2
  {
    hide Tokens, Rows;
    if |Rows(t)| > 2 { assert Count(Rows(t)[0]) + Count(Rows(t)[1]) > -1; }
  }

  // ---------- lists of groups ----------

  type Group = seq<Segment>

  function Flat(groups: seq<Group>): seq<Segment> {
    if groups == [] then [] else groups[0] + Flat(groups[1..])
  }

  lemma {:induction false} FlatSnoc(groups: seq<Group>, g: Group)
    ensures Flat(groups + [g]) == Flat(groups) + g
  {
    if groups == [] {
      assert [] + [g] == [g] && [g][1..] == [];
      assert Flat([g]) == g + Flat([]);
    } else {
      assert (groups + [g])[1..] == groups[1..] + [g];
      FlatSnoc(groups[1..], g);
    }
  }

  lemma {:induction false} FlatMembers(groups: seq<Group>, s: Segment)
    ensures s in Flat(groups) <==> exists g <- groups :: s in g
  {
    if groups != [] {
      FlatMembers(groups[1..], s);
      if s in Flat(groups) && s !in groups[0] {
        var g :| g in groups[1..] && s in g;
        assert g in groups;
      }
    }
  }

  /** The source blocks that a list of segments draws on. */
  function Orders(segments: seq<Segment>): set<int> { set s <- segments :: s.order }

  // ---------- what every segment of a document keeps ----------

  /** Pages are both known or both unknown, in order, and within the document. */
  predicate PagesFit(s: Segment, pageCount: Option<int>) {
    && s.startPage.Some? == s.endPage.Some?
    && (s.startPage.Some? ==> 1 <= s.startPage.value <= s.endPage.value)
    && (s.startPage.Some? && pageCount.Some? ==> s.endPage.value <= pageCount.value)
  }

  predicate Sound(s: Segment, pageCount: Option<int>) { OffsetsFit(s) && PagesFit(s, pageCount) }

  lemma SplitSegmentSound(s: Segment, n: nat, pageCount: Option<int>)
    requires n > 0 && Sound(s, pageCount)
    ensures forall p <- SplitSegment(s, n) :: Sound(p, pageCount)
  {
    hide SplitSegment, OffsetsFit;
    SplitSegmentParts(s, n);
    SplitSegmentOffsets(s, n);
  }

  lemma SplitSegmentOrders(s: Segment, n: nat)
    requires n > 0
    ensures Orders(SplitSegment(s, n)) == {s.order}
  {
    hide SplitSegment, Tokens;
    SplitSegmentParts(s, n);
    assert SplitSegment(s, n)[0] in SplitSegment(s, n);
  }

  /** A table that may stay whole in some room may stay whole in more. */
  lemma WholeAt(s: Segment, room: int, n: nat)
    requires WholeTable(s, room) && room <= n
    ensures WholeTable(s, n) && (s.kind == Table ==> |Rows(s.text)| <= 2 || Count(s.text) <= n)
  {
    hide Rows, Tokens;
  }

  /** Replacing a segment by parts with the same contents changes nothing. */
  lemma ReplacedContents(before: seq<Segment>, s: Segment, parts: seq<Segment>, after: seq<Segment>)
    requires Contents(parts) == Contents([s])
    ensures Contents(before + parts + after) == Contents(before + [s] + after)
  {
    hide Contents;
    ContentsConcat(before + parts, after);
    ContentsConcat(before, parts);
    ContentsConcat(before + [s], after);
    ContentsConcat(before, [s]);
  }

  lemma ReplacedOrders(before: seq<Segment>, s: Segment, parts: seq<Segment>, after: seq<Segment>)
    requires parts != [] && forall p <- parts :: p.order == s.order
    ensures Orders(before + parts + after) == Orders(before + [s] + after)
  {
    OrdersConcat(before, parts);
    OrdersConcat(before + parts, after);
    OrdersConcat(before, [s]);
    OrdersConcat(before + [s], after);
    assert parts[0] in parts && s in [s];
    assert Orders(parts) == Orders([s]);
  }

  lemma OrdersConcat(a: seq<Segment>, b: seq<Segment>)
    ensures Orders(a + b) == Orders(a) + Orders(b)
  {
    forall s | s in a ensures s.order in Orders(a + b) { assert s in a + b; }
    forall s | s in b ensures s.order in Orders(a + b) { assert s in a + b; }
  }
}
