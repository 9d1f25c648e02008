/** `_group_children`: cutting the segments of a parent to the room of a child, packing and overlapping them. */
module ChildGrouping {
  import opened Wrappers
  import opened Tokenization
  import opened Segments
  import opened SegmentSplitting
  import opened Tables
  import opened Content
  import opened Headings
  import opened ChildPacking
  import opened ChildOverlap

  /** Every segment cut to at most `n` tokens. */
  function Expanded(segments: seq<Segment>, n: nat): seq<Segment>
    requires n > 0
  {
    if segments == [] then [] else SplitSegment(segments[0], n) + Expanded(segments[1..], n)
  }

  function ContentLimits(path: seq<Text>, c: Config): Limits {
    var max := ContentMax(path, c);
    var target := Max(1, Min(c.childTarget, max));
    Limits(Max(1, Min(c.childMin, target)), target, max)
  }

  /** The base groups of a parent. */
  function BasesOf(parent: Group, c: Config): seq<Group> {
    var l := ContentLimits(HeadingPath(parent), c);
    BaseGroups(Expanded(parent, l.max), l)
  }

  function ChildGroups(parent: Group, c: Config): seq<Group> {
    Overlapped(BasesOf(parent, c), c.childOverlap, ContentMax(HeadingPath(parent), c))
  }

  /** `_group_children`. */
  method GroupChildren(parent: Group, c: Config) returns (children: seq<Group>)
    ensures children == ChildGroups(parent, c)
  {
    hide Tokens, SplitSegment, HeadingPath, HeadingPrefix, BaseGroups, Overlapped;
    var path := HeadingPath(parent);
    var prefix := HeadingPrefix(path, c.childMax);
    var prefixTokens := if prefix == [] then 0 else Count(prefix + PARAGRAPH_BREAK);
    var contentMax := Max(1, c.childMax - prefixTokens);
    var contentTarget := Max(1, Min(c.childTarget, contentMax));
    var contentMin := Max(1, Min(c.childMin, contentTarget));
    var expanded: seq<Segment> := [];
    for i := 0 to |parent|
      invariant expanded + Expanded(parent[i..], contentMax) == Expanded(parent, contentMax)
    {
      assert parent[i..][1..] == parent[i + 1..];
      expanded := expanded + SplitSegment(parent[i], contentMax);
    }
    assert parent[|parent|..] == [];
    assert expanded == Expanded(parent, contentMax);
    var limits := Limits(contentMin, contentTarget, contentMax);
    var baseGroups := PackChildGroups(expanded, limits);
    children := ApplyOverlap(baseGroups, c.childOverlap, contentMax);
  }

  // ---------- cutting to size ----------

  lemma {:induction false} ExpandedOrders(segments: seq<Segment>, n: nat)
    requires n > 0
    ensures Orders(Expanded(segments, n)) == Orders(segments)
    ensures segments != [] ==> Expanded(segments, n) != []
  {
    hide SplitSegment, Orders;
    if segments != [] {
      ExpandedOrders(segments[1..], n);
      SplitSegmentParts(segments[0], n);
      SplitSegmentOrders(segments[0], n);
      OrdersConcat(SplitSegment(segments[0], n), Expanded(segments[1..], n));
      assert segments == [segments[0]] + segments[1..];
      OrdersConcat([segments[0]], segments[1..]);
      OrdersOfOne(segments[0]);
    } else {
      assert Expanded(segments, n) == segments;
    }
  }

  lemma OrdersOfOne(s: Segment)
    ensures Orders([s]) == {s.order}
  {
    assert s in [s];
  }

  lemma PartOfItself(segments: seq<Segment>)
    ensures AllFrom(segments, segments)
  {
    forall s | s in segments ensures From(s, segments) { assert PartOf(s, s); }
  }

  lemma {:induction false} ExpandedSources(segments: seq<Segment>, n: nat, source: seq<Segment>, pageCount: Option<int>)
    requires n > 0 && Kept(segments, source, pageCount)
    ensures Kept(Expanded(segments, n), source, pageCount)
  {
    hide SplitSegment, Sound, From;
    if segments != [] {
      assert segments[0] in segments && forall s <- segments[1..] :: s in segments;
      ExpandedSources(segments[1..], n, source, pageCount);
      SplitSegmentParts(segments[0], n);
      SplitSegmentSound(segments[0], n, pageCount);
      PartsFrom(SplitSegment(segments[0], n), segments[0], source);
    }
  }

  lemma {:induction false} ExpandedWithin(segments: seq<Segment>, n: nat, limit: int)
    requires n > 0 && forall s <- segments :: Safe(s, limit)
    ensures forall s <- Expanded(segments, n) :: Safe(s, limit) && Count(s.text) <= Max(n, limit)
  {
    hide SplitSegment, Safe, Tokens;
    if segments != [] {
      assert segments[0] in segments && forall s <- segments[1..] :: s in segments;
      ExpandedWithin(segments[1..], n, limit);
      SplitSegmentSafe(segments[0], n, limit);
    }
  }

  lemma {:induction false} ExpandedContents(segments: seq<Segment>, n: nat, room: int)
    requires n > 0 && room <= n && forall s <- segments :: WholeTable(s, room)
    ensures Contents(Expanded(segments, n)) == Contents(segments)
    ensures HeadingTokens(Expanded(segments, n)) == HeadingTokens(segments)
    ensures forall s <- Expanded(segments, n) :: WholeTable(s, room)
  {
    hide SplitSegment, Tokens, Contents, HeadingTokens, Rows;
    if segments == [] {
      assert Expanded(segments, n) == segments;
    } else {
      var first, rest := segments[0], segments[1..];
      assert first in segments && forall s <- rest :: s in segments;
      ExpandedContents(rest, n, room);
      SplitSegmentContents(first, n);
      SplitSegmentWhole(first, n, room);
      SplitHeadingTokens(first, n);
      ContentsConcat(SplitSegment(first, n), Expanded(rest, n));
      HeadingTokensConcat(SplitSegment(first, n), Expanded(rest, n));
      ContentsOne(first);
      assert segments == [first] + rest;
      ContentsConcat([first], rest);
      HeadingTokensConcat([first], rest);
    }
  }

  // ---------- what the children of a parent are ----------

  lemma LimitsAreValid(path: seq<Text>, c: Config)
    ensures ValidLimits(ContentLimits(path, c)) && ContentLimits(path, c).max == ContentMax(path, c)
  {}

  /** Every child fits the room that the heading prefix of its parent leaves, when every table of the parent
      can be cut to that room. */
  lemma ChildrenFit(parent: Group, c: Config)
    requires forall s <- parent :: Safe(s, ContentMax(HeadingPath(parent), c))
    ensures forall g <- ChildGroups(parent, c) :: Count(JoinSegments(g)) == Size(g) <= ContentMax(HeadingPath(parent), c)
  {
    hide Tokens, Safe, ContentMax, BaseGroups, Overlapped, HeadingPath, JoinSegments, SegmentTokens;
    var n := ContentMax(HeadingPath(parent), c);
    var l := ContentLimits(HeadingPath(parent), c);
    LimitsAreValid(HeadingPath(parent), c);
    ExpandedWithin(parent, n, n);
    BaseGroupsWithinMax(Expanded(parent, n), l);
    ChildrenWithinMax(BasesOf(parent, c), c.childOverlap, n);
  }

  /** The base groups of a parent in which no table has to be cut hold the parent's tokens in order. */
  lemma BasesConserve(parent: Group, c: Config)
    requires forall s <- parent :: WholeTable(s, ContentMax(HeadingPath(parent), c) - HeadingTokens(parent))
    ensures Contents(Flat(BasesOf(parent, c))) == Contents(parent)
    ensures forall g <- BasesOf(parent, c) :: g != [] && Size(g) <= ContentMax(HeadingPath(parent), c)
  {
    hide Tokens, WholeTable, ContentMax, ContentLimits, BaseGroups, HeadingPath, HeadingTokens, SegmentTokens, Contents, Safe;
    hide Flat, Expanded, ValidLimits;
    var n := ContentMax(HeadingPath(parent), c);
    var l := ContentLimits(HeadingPath(parent), c);
    LimitsAreValid(HeadingPath(parent), c);
    forall s | s in parent ensures Safe(s, n) { WholeIsSafe(s, n - HeadingTokens(parent), n); }
    ExpandedWithin(parent, n, n);
    ExpandedContents(parent, n, n - HeadingTokens(parent));
    BaseGroupsConserve(Expanded(parent, n), l);
    BaseGroupsWithinMax(Expanded(parent, n), l);
  }

  lemma WholeIsSafe(s: Segment, room: int, n: nat)
    requires WholeTable(s, room) && room <= n
    ensures Safe(s, n)
  {
    hide Tokens, Rows;
    if s.kind == Table && |Rows(s.text)| > 2 { SmallIsSafe(s.text, n); }
  }

  /** Overlap is exactly erasable: without the tokens they repeat, the children of a parent in which no
      table has to be cut are the token sequence of the parent. */
  lemma ChildrenEraseToParent(parent: Group, c: Config)
    requires forall s <- parent :: WholeTable(s, ContentMax(HeadingPath(parent), c) - HeadingTokens(parent))
    ensures Erased(ChildGroups(parent, c), BasesOf(parent, c), c.childOverlap, ContentMax(HeadingPath(parent), c), 0)
         == SegmentTokens(parent)
  {
    hide Tokens, WholeTable, ContentMax, BaseGroups, Overlapped, HeadingPath, SegmentTokens, Contents, Erased;
    BasesConserve(parent, c);
    OverlapIsErasable(BasesOf(parent, c), c.childOverlap, ContentMax(HeadingPath(parent), c));
    SameContentsSameTokens(Flat(BasesOf(parent, c)), parent);
  }

  /** Together the children draw on exactly the source blocks of the parent. */
  lemma ChildrenCoverOrders(parent: Group, c: Config, order: int)
    requires order in Orders(parent)
    ensures exists g <- ChildGroups(parent, c) :: order in Orders(g)
  {
    hide ContentMax, BaseGroups, Overlapped, HeadingPath, Flat;
    var n := ContentMax(HeadingPath(parent), c);
    var bases := BasesOf(parent, c);
    ExpandedOrders(parent, n);
    BaseGroupsOrders(Expanded(parent, n), ContentLimits(HeadingPath(parent), c));
    var s :| s in Flat(bases) && s.order == order;
    FlatMembers(bases, s);
    var g :| g in bases && s in g;
    var i :| 0 <= i < |bases| && bases[i] == g;
    ChildOrders(bases, c.childOverlap, n, i);
    assert order in Orders(bases[i]);
    assert ChildGroups(parent, c)[i] in ChildGroups(parent, c);
  }

  /** A parent has children, none of them empty, all made of sound parts of its segments. */
  lemma ChildrenSources(parent: Group, c: Config, pageCount: Option<int>)
    requires forall s <- parent :: Sound(s, pageCount)
    ensures forall g <- ChildGroups(parent, c) :: Kept(g, parent, pageCount)
  {
    hide ContentMax, BaseGroups, Overlapped, HeadingPath, Kept, Sound;
    var n := ContentMax(HeadingPath(parent), c);
    var bases := BasesOf(parent, c);
    var children := ChildGroups(parent, c);
    PartOfItself(parent);
    KeptItself(parent, pageCount);
    ExpandedSources(parent, n, parent, pageCount);
    BaseGroupsSources(Expanded(parent, n), ContentLimits(HeadingPath(parent), c), parent, pageCount);
    forall g | g in children ensures Kept(g, parent, pageCount) {
      var i :| 0 <= i < |children| && children[i] == g;
      ChildSources(bases, c.childOverlap, n, parent, pageCount, i);
    }
  }

  lemma KeptItself(segments: seq<Segment>, pageCount: Option<int>)
    requires AllFrom(segments, segments) && forall s <- segments :: Sound(s, pageCount)
    ensures Kept(segments, segments, pageCount)
  {}

  lemma ChildrenNonEmpty(parent: Group, c: Config)
    ensures forall g <- ChildGroups(parent, c) :: g != []
    ensures parent != [] ==> ChildGroups(parent, c) != []
  {
    hide ContentMax, Overlapped, HeadingPath, BaseGroups;
    var n := ContentMax(HeadingPath(parent), c);
    var bases := BasesOf(parent, c);
    var children := ChildGroups(parent, c);
    BaseGroupsNonEmpty(Expanded(parent, n), ContentLimits(HeadingPath(parent), c));
    forall g | g in children ensures g != [] {
      var i :| 0 <= i < |children| && children[i] == g;
      assert bases[i] in bases;
      ChildOrders(bases, c.childOverlap, n, i);
    }
    if parent != [] {
      assert parent[0].order in Orders(parent);
      ChildrenCoverOrders(parent, c, parent[0].order);
    }
  }
}
