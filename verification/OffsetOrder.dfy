/** Offsets that are in order in the blocks stay in order in the parents and in the children. */
module OffsetOrder {
  import opened Wrappers
  import opened Tokenization
  import opened Segments
  import opened SegmentSplitting
  import opened Content
  import opened Headings
  import opened Placement
  import opened ParentGrouping
  import opened ChildPacking
  import opened ChildOverlap
  import opened ChildGrouping
  import opened Hierarchy
  import opened Conservation
  import opened Validation
  import opened Correctness

  // ---------- segments in order ----------

  /** Segments that every cut keeps in order, one after the other; segments on both sides of one without
      offsets are never parts of one table. */
  predicate Aligned(segments: seq<Segment>, c: Config, headings: nat) {
    && (forall s <- segments :: OffsetsFit(s) && Placeable(s, c, headings))
    && (forall i, j :: 0 <= i < j < |segments| ==> InOrder(segments[i], segments[j], c, headings))
    && (forall i, j, k :: 0 <= i < j < k < |segments| && segments[j].startOffset.None? ==>
         Apart(segments[i], segments[k]))
  }

  /** The place in the old list of what is at place `i` after the segment at `at` became `count` parts. */
  function OldPlace(i: int, at: int, count: int): int {
    if i < at then i else if i < at + count then at else i - count + 1
  }

  lemma PartsKeepOrder(a: Segment, b: Segment, p: Segment, q: Segment, c: Config, headings: nat)
    requires InOrder(a, b, c, headings) && PartWithin(p, a, c, headings) && PartWithin(q, b, c, headings)
    requires OffsetsFit(a) && OffsetsFit(b)
    ensures InOrder(p, q, c, headings)
    ensures Apart(a, b) ==> Apart(p, q)
  {
    hide Pinned, Placeable;
  }

  /** What is at place `i` after the replacement lies within what was at its old place. */
  lemma PlaceWithin(
      before: seq<Segment>, s: Segment, parts: seq<Segment>, after: seq<Segment>, i: nat, c: Config, headings: nat)
    requires Aligned(before + [s] + after, c, headings) && PartsWithin(parts, s, c, headings)
    requires i < |before + parts + after|
    ensures var o := OldPlace(i, |before|, |parts|);
            && 0 <= o < |before + [s] + after|
            && OffsetsFit((before + [s] + after)[o])
            && PartWithin((before + parts + after)[i], (before + [s] + after)[o], c, headings)
  {
    hide Pinned, Placeable, Apart, InOrder, PartWithin, OffsetsFit;
    var was, o := before + [s] + after, OldPlace(i, |before|, |parts|);
    assert was[o] in was;
    if |before| <= i < |before| + |parts| {
      assert parts[i - |before|] in parts && was[o] == s;
    } else {
      WithinItself(was[o], c, headings);
    }
  }

  lemma PairInOrder(
      before: seq<Segment>, s: Segment, parts: seq<Segment>, after: seq<Segment>,
      i: nat, j: nat, c: Config, headings: nat)
    requires Aligned(before + [s] + after, c, headings) && PartsWithin(parts, s, c, headings)
    requires i < j < |before + parts + after|
    ensures InOrder((before + parts + after)[i], (before + parts + after)[j], c, headings)
  {
    hide Pinned, Placeable, Apart, InOrder, PartWithin, OffsetsFit;
    var was, now := before + [s] + after, before + parts + after;
    var oi, oj := OldPlace(i, |before|, |parts|), OldPlace(j, |before|, |parts|);
    PlaceWithin(before, s, parts, after, i, c, headings);
    PlaceWithin(before, s, parts, after, j, c, headings);
    if oi < oj {
      PartsKeepOrder(was[oi], was[oj], now[i], now[j], c, headings);
    } else {
      assert now[i] == parts[i - |before|] && now[j] == parts[j - |before|];
    }
  }

  lemma TripleApart(
      before: seq<Segment>, s: Segment, parts: seq<Segment>, after: seq<Segment>,
      i: nat, j: nat, k: nat, c: Config, headings: nat)
    requires Aligned(before + [s] + after, c, headings) && PartsWithin(parts, s, c, headings)
    requires i < j < k < |before + parts + after| && (before + parts + after)[j].startOffset.None?
    ensures Apart((before + parts + after)[i], (before + parts + after)[k])
  {
    hide Pinned, Placeable, Apart, InOrder, PartWithin, OffsetsFit, PartsWithin;
    var was, now := before + [s] + after, before + parts + after;
    var oi, oj, ok := OldPlace(i, |before|, |parts|), OldPlace(j, |before|, |parts|), OldPlace(k, |before|, |parts|);
    PlaceWithin(before, s, parts, after, i, c, headings);
    PlaceWithin(before, s, parts, after, j, c, headings);
    PlaceWithin(before, s, parts, after, k, c, headings);
    KnownTogether(now[i], was[oi], c, headings);
    KnownTogether(now[j], was[oj], c, headings);
    KnownTogether(now[k], was[ok], c, headings);
    if oi < oj < ok {
      assert Apart(was[oi], was[ok]);
      PartsKeepOrder(was[oi], was[ok], now[i], now[k], c, headings);
    }
  }

  /** Replacing a segment by parts within it keeps the order. */
  lemma ReplacedAligned(
      before: seq<Segment>, s: Segment, parts: seq<Segment>, after: seq<Segment>, c: Config, headings: nat)
    requires Aligned(before + [s] + after, c, headings) && PartsWithin(parts, s, c, headings)
    ensures Aligned(before + parts + after, c, headings)
  {
    var now := before + parts + after;
    assert Aligned(now, c, headings) by {
      hide Pinned, Placeable, Apart, InOrder, PartWithin, OffsetsFit, PartsWithin;
      forall x | x in now ensures OffsetsFit(x) && Placeable(x, c, headings) {
        var i :| 0 <= i < |now| && now[i] == x;
        PlaceWithin(before, s, parts, after, i, c, headings);
        WithinIsPlaceable(x, (before + [s] + after)[OldPlace(i, |before|, |parts|)], c, headings);
      }
      forall i, j | 0 <= i < j < |now| ensures InOrder(now[i], now[j], c, headings) {
        PairInOrder(before, s, parts, after, i, j, c, headings);
      }
      forall i, j, k | 0 <= i < j < k < |now| && now[j].startOffset.None? ensures Apart(now[i], now[k]) {
        TripleApart(before, s, parts, after, i, j, k, c, headings);
      }
    }
  }

  lemma WithinItself(s: Segment, c: Config, headings: nat)
    requires OffsetsFit(s) && Placeable(s, c, headings)
    ensures PartWithin(s, s, c, headings)
  {
    hide Placeable, Pinned;
  }

  lemma WithinIsPlaceable(p: Segment, s: Segment, c: Config, headings: nat)
    requires PartWithin(p, s, c, headings)
    ensures OffsetsFit(p) && Placeable(p, c, headings)
  {
    hide Placeable, Pinned, OffsetsFit;
  }

  lemma KnownTogether(p: Segment, s: Segment, c: Config, headings: nat)
    requires PartWithin(p, s, c, headings)
    ensures p.startOffset.None? <==> s.startOffset.None?
    ensures p.startOffset.None? ==> forall t :: Apart(p, t) && Apart(t, p)
  {
    hide Placeable, Pinned;
  }

  // ---------- cutting, grouping and packing keep the order ----------

  lemma RoomInParent(s: Segment, c: Config, headings: nat)
    requires ValidConfig(c)
    ensures Room(s, c, headings) <= c.childMax - headings < c.parentMax
  {
    hide PrefixTokens;
  }

  /** Cutting every segment of a stretch. */
  lemma {:induction false} ExpandedAligned(
      left: seq<Segment>, segments: seq<Segment>, right: seq<Segment>, n: nat, c: Config, headings: nat)
    requires n > 0 && Aligned(left + segments + right, c, headings)
    requires forall s <- segments :: Room(s, c, headings) <= n
    ensures Aligned(left + Expanded(segments, n) + right, c, headings)
    decreases |segments|
  {
    hide SplitSegment, Aligned, Room, PartsWithin;
    if segments == [] {
      assert Expanded(segments, n) == segments;
    } else {
      var first, rest := segments[0], segments[1..];
      var parts := SplitSegment(first, n);
      assert left + segments + right == left + [first] + (rest + right);
      MemberAligned(left + segments + right, |left|, c, headings);
      SplitKeepsPlaces(first, n, c, headings);
      ReplacedAligned(left, first, parts, rest + right, c, headings);
      assert left + parts + (rest + right) == (left + parts) + rest + right;
      ExpandedAligned(left + parts, rest, right, n, c, headings);
      assert (left + parts) + Expanded(rest, n) + right == left + Expanded(segments, n) + right;
    }
  }

  lemma MemberAligned(segments: seq<Segment>, i: nat, c: Config, headings: nat)
    requires Aligned(segments, c, headings) && i < |segments|
    ensures OffsetsFit(segments[i]) && Placeable(segments[i], c, headings)
  {
    hide Placeable, OffsetsFit, InOrder, Apart;
    assert segments[i] in segments;
  }

  /** No heading has more than `headings` tokens. */
  predicate HeadingsWithin(g: Grouping, headings: nat) {
    && (forall s <- g.queue :: s.kind == Heading ==> Count(s.text) <= headings)
    && (g.needsBody ==> Size(g.current) <= headings)
  }

  lemma ParentStepAligned(g: Grouping, c: Config, headings: nat)
    requires g.queue != [] && ValidConfig(c) && HeadingsWithin(g, headings)
    requires Aligned(ParentGrouping.AllSegments(g), c, headings)
    ensures Aligned(ParentGrouping.AllSegments(ParentGrouping.Step(g, c)), c, headings)
  {
    hide Tokens, SegmentTokens, JoinSegments, SplitSegment, Aligned, Room, PartsWithin;
    hide ParentGrouping.Before, ParentGrouping.AllSegments, ParentGrouping.Step, ParentGrouping.SplitBody;
    ParentGrouping.StepSegments(g, c);
    if ParentGrouping.SplitsBody(g, c) {
      var segment, n := g.queue[0], ParentGrouping.Available(g, c);
      JoinSegmentsTokens(g.current);
      RoomInParent(segment, c, headings);
      ParentGrouping.QueuedSegments(g);
      ParentGrouping.BodySegments(g, n);
      var left := ParentGrouping.Before(g);
      MemberAligned(ParentGrouping.AllSegments(g), |left|, c, headings);
      SplitKeepsPlaces(segment, n, c, headings);
      ReplacedAligned(left, segment, SplitSegment(segment, n), g.queue[1..], c, headings);
    }
  }

  lemma ParentStepHeadings(g: Grouping, c: Config, headings: nat)
    requires g.queue != [] && HeadingsWithin(g, headings)
    ensures HeadingsWithin(ParentGrouping.Step(g, c), headings)
  {
    hide Tokens, SegmentTokens, JoinSegments, SplitSegment;
    var segment, rest := g.queue[0], g.queue[1..];
    SegmentTokensOne(segment);
    assert g.queue == [segment] + rest && segment in g.queue;
    assert forall s <- rest :: s in g.queue;
    var available := ParentGrouping.Available(g, c);
    if segment.kind != Heading && available > 0 {
      SplitSegmentParts(segment, available);
      var parts := SplitSegment(segment, available);
      assert forall s <- parts[1..] + rest :: s in parts || s in g.queue;
    }
  }

  lemma {:induction false} ParentRunAligned(g: Grouping, c: Config, headings: nat)
    requires ValidConfig(c) && HeadingsWithin(g, headings)
    requires Aligned(ParentGrouping.AllSegments(g), c, headings)
    ensures Aligned(ParentGrouping.AllSegments(ParentGrouping.Run(g, c)), c, headings)
    decreases ParentGrouping.Weight(g), |g.queue|, if g.current == [] then 0 else 1
  {
    hide Aligned, HeadingsWithin, ParentGrouping.AllSegments;
    if g.queue == [] {
      ParentGrouping.FlushSegments(g);
    } else {
      ParentStepAligned(g, c, headings);
      ParentStepHeadings(g, c, headings);
      ParentGrouping.StepDecreases(g, c);
      ParentRunAligned(ParentGrouping.Step(g, c), c, headings);
    }
  }

  /** Grouping into parents keeps the order. */
  lemma ParentsAligned(segments: seq<Segment>, c: Config, headings: nat)
    requires ValidConfig(c) && Aligned(segments, c, headings)
    requires forall s <- segments :: s.kind == Heading ==> Count(s.text) <= headings
    ensures Aligned(Flat(ParentGroups(segments, c)), c, headings)
  {
    hide Aligned, Tokens;
    var g := Grouping([], segments, [], false);
    StartSegments(segments);
    ParentRunAligned(g, c, headings);
    RunShape(g, c);
    var parents := ParentGroups(segments, c);
    assert Flat(parents) + [] + [] == Flat(parents);
  }

  /** What is packed has the heading path that set the limit, and few enough heading tokens. */
  predicate Packable(p: Packing, path: seq<Text>, headings: nat) {
    && (forall s <- p.queue :: s.headingPath == path)
    && HeadingTokens(p.current) + HeadingTokens(p.queue) <= headings
  }

  lemma ChildStepAligned(
      left: seq<Segment>, p: Packing, right: seq<Segment>, l: Limits, path: seq<Text>, c: Config, headings: nat)
    requires p.queue != [] && l.max == ContentMax(path, c) && Packable(p, path, headings)
    requires Aligned(left + ChildPacking.AllSegments(p) + right, c, headings)
    ensures Aligned(left + ChildPacking.AllSegments(ChildPacking.Step(p, l)) + right, c, headings)
    ensures Packable(ChildPacking.Step(p, l), path, headings)
  {
    hide Tokens, SegmentTokens, JoinSegments, SplitSegment, Aligned, PartsWithin, ContentMax, Packable;
    hide ChildPacking.Before, ChildPacking.AllSegments, ChildPacking.Step, ChildPacking.CloseFull, SplitAfterHeadings, HeadingRoom;
    hide HeadingTokens, Room;
    ChildPacking.StepSegments(p, l);
    StepPackable(p, l, path, headings);
    if SplitsAfterHeadings(p, l) {
      var q := ChildPacking.CloseFull(p, l);
      var segment, n := q.queue[0], HeadingRoom(q, l);
      RoomAfterHeadings(p, l, path, c, headings);
      ChildPacking.QueuedSegments(q);
      ChildPacking.HeadingSplitSegments(q, l);
      var before, parts, rest := ChildPacking.Before(q), SplitSegment(segment, n), q.queue[1..];
      assert left + (before + [segment] + rest) + right == (left + before) + [segment] + (rest + right);
      MemberAligned((left + before) + [segment] + (rest + right), |left + before|, c, headings);
      SplitKeepsPlaces(segment, n, c, headings);
      ReplacedAligned(left + before, segment, parts, rest + right, c, headings);
      assert left + (before + parts + rest) + right == (left + before) + parts + (rest + right);
    }
  }

  lemma CloseFullPackable(p: Packing, l: Limits, path: seq<Text>, headings: nat)
    requires p.queue != [] && Packable(p, path, headings)
    ensures Packable(ChildPacking.CloseFull(p, l), path, headings)
  {
    hide Tokens, JoinSegments, HeadingTokens, AbsorbsTail;
    NoHeadingTokens();
  }

  /** A split after headings leaves at least the room. */
  lemma RoomAfterHeadings(p: Packing, l: Limits, path: seq<Text>, c: Config, headings: nat)
    requires p.queue != [] && l.max == ContentMax(path, c) && Packable(p, path, headings) && SplitsAfterHeadings(p, l)
    ensures var q := ChildPacking.CloseFull(p, l);
            q.queue != [] && Room(q.queue[0], c, headings) <= HeadingRoom(q, l)
  {
    hide Tokens, JoinSegments, SegmentTokens, SplitSegment, HeadingTokens, ContentMax, ChildPacking.CloseFull;
    CloseFullPackable(p, l, path, headings);
    ClosedQueue(p, l);
    var q := ChildPacking.CloseFull(p, l);
    HeadingTokensOfKind(q.current, true) by { assert AllHeadings(q.current); }
    JoinSegmentsTokens(q.current);
    assert q.queue[0] in q.queue;
  }

  lemma ClosedQueue(p: Packing, l: Limits)
    requires p.queue != []
    ensures ChildPacking.CloseFull(p, l).queue == p.queue
  {
    hide Tokens, JoinSegments, AbsorbsTail;
  }

  lemma PlacePackable(p: Packing, l: Limits, path: seq<Text>, headings: nat)
    requires p.queue != [] && Packable(p, path, headings)
    ensures Packable(Place(p, l), path, headings)
  {
    hide Tokens, JoinSegments, SegmentTokens, SplitSegment, HeadingTokens, AllHeadings;
    var segment, rest := p.queue[0], p.queue[1..];
    assert p.queue == [segment] + rest && segment in p.queue && forall s <- rest :: s in p.queue;
    HeadingTokensConcat([segment], rest);
    HeadingTokensConcat(p.current, [segment]);
    NoHeadingTokens();
    var n := HeadingRoom(p, l);
    var parts := SplitSegment(segment, n);
    SplitSegmentParts(segment, n);
    SplitHeadingTokens(segment, n);
    assert parts == [parts[0]] + parts[1..];
    HeadingTokensConcat([parts[0]], parts[1..]);
    HeadingTokensConcat(parts[1..], rest);
    assert forall s <- parts[1..] + rest :: s in parts || s in p.queue;
  }

  lemma StepPackable(p: Packing, l: Limits, path: seq<Text>, headings: nat)
    requires p.queue != [] && Packable(p, path, headings)
    ensures Packable(ChildPacking.Step(p, l), path, headings)
  {
    hide Tokens, JoinSegments, SplitSegment, Packable, Place, ChildPacking.CloseFull;
    CloseFullPackable(p, l, path, headings);
    ClosedQueue(p, l);
    PlacePackable(ChildPacking.CloseFull(p, l), l, path, headings);
  }

  lemma {:induction false} ChildRunAligned(
      left: seq<Segment>, p: Packing, right: seq<Segment>, l: Limits, path: seq<Text>, c: Config, headings: nat)
    requires l.max == ContentMax(path, c) && Packable(p, path, headings)
    requires Aligned(left + ChildPacking.AllSegments(p) + right, c, headings)
    ensures Aligned(left + ChildPacking.AllSegments(ChildPacking.Run(p, l)) + right, c, headings)
    decreases ChildPacking.Weight(p), |p.queue|
  {
    hide Aligned, Packable, ContentMax, ChildPacking.AllSegments, Tokens;
    ChildPacking.FlushSegments(p);
    if p.queue != [] {
      ChildStepAligned(left, p, right, l, path, c, headings);
      ChildPacking.StepDecreases(p, l);
      ChildRunAligned(left, ChildPacking.Step(p, l), right, l, path, c, headings);
    }
  }

  /** A parent whose children keep its order: one heading path, and few enough heading tokens. */
  predicate Packs(parent: Group, headings: nat) {
    OnePath(parent, HeadingPath(parent)) && HeadingTokens(parent) <= headings
  }

  lemma {:induction false} ExpandedPath(segments: seq<Segment>, n: nat, path: seq<Text>)
    requires n > 0 && forall s <- segments :: s.headingPath == path
    ensures forall s <- Expanded(segments, n) :: s.headingPath == path
    ensures HeadingTokens(Expanded(segments, n)) == HeadingTokens(segments)
  {
    hide SplitSegment, HeadingTokens, Tokens;
    if segments == [] {
      assert Expanded(segments, n) == segments;
    } else {
      var first, rest := segments[0], segments[1..];
      assert first in segments && forall s <- rest :: s in segments;
      ExpandedPath(rest, n, path);
      SplitSegmentParts(first, n);
      SplitHeadingTokens(first, n);
      HeadingTokensConcat(SplitSegment(first, n), Expanded(rest, n));
      assert segments == [first] + rest;
      HeadingTokensConcat([first], rest);
    }
  }

  /** Replacing a parent by its base groups keeps the order. */
  lemma BasesAligned(left: seq<Segment>, parent: Group, right: seq<Segment>, c: Config, headings: nat)
    requires Aligned(left + parent + right, c, headings) && Packs(parent, headings)
    ensures Aligned(left + Flat(BasesOf(parent, c)) + right, c, headings)
  {
    hide Aligned, Tokens, HeadingPath, ContentMax, HeadingTokens, BaseGroups, TotalCount, ChildPacking.Run, Flat, Expanded;
    var path := HeadingPath(parent);
    var l := ContentLimits(path, c);
    LimitsAreValid(path, c);
    forall s | s in parent ensures Room(s, c, headings) <= l.max {}
    ExpandedAligned(left, parent, right, l.max, c, headings);
    var expanded := Expanded(parent, l.max);
    ExpandedPath(parent, l.max, path);
    var p := Packing([], expanded, [], TotalCount(expanded));
    NoHeadingTokens();
    BaseGroupsSegments(expanded, l);
    ChildRunAligned(left, p, right, l, path, c, headings);
  }

  /** The base groups of the parents from `i` on, in order. */
  function AllBases(parents: seq<Group>, i: nat, c: Config): seq<Group>
    requires i <= |parents|
    decreases |parents| - i
  {
    if i == |parents| then [] else BasesOf(parents[i], c) + AllBases(parents, i + 1, c)
  }

  lemma {:induction false} AllBasesAligned(left: seq<Segment>, parents: seq<Group>, i: nat, c: Config, headings: nat)
    requires i <= |parents| && Aligned(left + Flat(parents[i..]), c, headings)
    requires forall p <- parents :: Packs(p, headings)
    ensures Aligned(left + Flat(AllBases(parents, i, c)), c, headings)
    decreases |parents| - i
  {
    hide Aligned, BasesOf, Packs;
    if i < |parents| {
      var parent, rest := parents[i], Flat(parents[i + 1..]);
      assert parents[i..][1..] == parents[i + 1..];
      assert left + Flat(parents[i..]) == left + parent + rest;
      BasesAligned(left, parent, rest, c, headings);
      var own := Flat(BasesOf(parent, c));
      AllBasesAligned(left + own, parents, i + 1, c, headings);
      FlatConcat(BasesOf(parent, c), AllBases(parents, i + 1, c));
      assert left + own + Flat(AllBases(parents, i + 1, c)) == left + (own + Flat(AllBases(parents, i + 1, c)));
    } else {
      assert parents[i..] == [];
    }
  }

  // ---------- groups of segments in order ----------

  lemma FlatLengths(groups: seq<Group>, i: nat, j: nat)
    requires i <= j <= |groups|
    ensures |Flat(groups[..i])| <= |Flat(groups[..j])|
  {
    assert groups[..j] == groups[..i] + groups[i..j];
    FlatConcat(groups[..i], groups[i..j]);
  }

  /** The place of a segment in the flat list. */
  lemma FlatPlace(groups: seq<Group>, i: nat, s: Segment) returns (at: nat)
    requires i < |groups| && s in groups[i]
    ensures |Flat(groups[..i])| <= at < |Flat(groups[..i + 1])| <= |Flat(groups)| && Flat(groups)[at] == s
  {
    hide Flat;
    var k :| 0 <= k < |groups[i]| && groups[i][k] == s;
    at := |Flat(groups[..i])| + k;
    assert groups[..i + 1] == groups[..i] + [groups[i]];
    FlatSnoc(groups[..i], groups[i]);
    assert groups == groups[..i + 1] + groups[i + 1..];
    FlatConcat(groups[..i + 1], groups[i + 1..]);
  }

  lemma GroupsInOrder(groups: seq<Group>, i: nat, a: Segment, j: nat, b: Segment, c: Config, headings: nat)
    requires Aligned(Flat(groups), c, headings) && i < j < |groups| && a in groups[i] && b in groups[j]
    ensures InOrder(a, b, c, headings)
  {
    hide Flat, InOrder, Placeable, OffsetsFit, Apart;
    var x := FlatPlace(groups, i, a);
    var y := FlatPlace(groups, j, b);
    FlatLengths(groups, i + 1, j);
  }

  lemma GroupsApart(
      groups: seq<Group>, i: nat, a: Segment, j: nat, m: Segment, k: nat, b: Segment, c: Config, headings: nat)
    requires Aligned(Flat(groups), c, headings) && i < j < k < |groups|
    requires a in groups[i] && m in groups[j] && m.startOffset.None? && b in groups[k]
    ensures Apart(a, b)
  {
    hide Flat, InOrder, Placeable, OffsetsFit, Apart;
    var x := FlatPlace(groups, i, a);
    var z := FlatPlace(groups, j, m);
    var y := FlatPlace(groups, k, b);
    FlatLengths(groups, i + 1, j);
    FlatLengths(groups, j + 1, k);
    assert Flat(groups)[z].startOffset.None?;
  }

  lemma GroupMemberFits(groups: seq<Group>, i: nat, s: Segment, c: Config, headings: nat)
    requires Aligned(Flat(groups), c, headings) && i < |groups| && s in groups[i]
    ensures OffsetsFit(s)
  {
    hide Flat, OffsetsFit, Placeable, InOrder, Apart;
    var at := FlatPlace(groups, i, s);
    MemberAligned(Flat(groups), at, c, headings);
  }

  /** The start offset of a chunk: the least of its segments' that are known. */
  function ChunkStart(g: Group): Option<int> { MinPresent(StartOffsets(g)) }

  lemma StartIsAttained(g: Group) returns (s: Segment)
    requires ChunkStart(g).Some?
    ensures s in g && s.startOffset == ChunkStart(g)
  {
    hide MinPresent;
    var i :| 0 <= i < |g| && StartOffsets(g)[i] == ChunkStart(g);
    s := g[i];
  }

  lemma StartIsLeast(g: Group, s: Segment)
    requires s in g && s.startOffset.Some?
    ensures ChunkStart(g).Some? && ChunkStart(g).value <= s.startOffset.value
  {
    hide MinPresent;
    var i :| 0 <= i < |g| && g[i] == s;
    assert StartOffsets(g)[i] in StartOffsets(g);
  }

  lemma InOrderStarts(a: Segment, b: Segment, c: Config, headings: nat)
    requires InOrder(a, b, c, headings) && OffsetsFit(a) && a.startOffset.Some? && b.startOffset.Some?
    ensures a.startOffset.value <= b.startOffset.value
  {
    hide Pinned;
  }

  /** The parents start in order. */
  lemma GroupStartsOrdered(groups: seq<Group>, i: nat, j: nat, c: Config, headings: nat)
    requires Aligned(Flat(groups), c, headings) && i < j < |groups|
    requires ChunkStart(groups[i]).Some? && ChunkStart(groups[j]).Some?
    ensures ChunkStart(groups[i]).value <= ChunkStart(groups[j]).value
  {
    hide Aligned, InOrder, OffsetsFit, ChunkStart;
    var a := StartIsAttained(groups[i]);
    var b := StartIsAttained(groups[j]);
    GroupsInOrder(groups, i, a, j, b, c, headings);
    GroupMemberFits(groups, i, a, c, headings);
    InOrderStarts(a, b, c, headings);
  }

  // ---------- children with overlap ----------

  /** The end of one group, followed by another group. */
  ghost predicate WithTail(child: Group, previous: Group, group: Group) {
    exists n: int :: child == TailSegments(previous, n) + group
  }

  /** What a child has before its own base group: nothing, or the end of the base group before it. */
  ghost predicate Window(child: Group, groups: seq<Group>, i: nat)
    requires i < |groups|
  {
    child == groups[i] || (i > 0 && WithTail(child, groups[i - 1], groups[i]))
  }

  /** The end of a segment starts within it. */
  predicate StartsWithin(t: Segment, s: Segment) {
    && t.startOffset.Some? == s.startOffset.Some?
    && (s.startOffset.Some? && s.endOffset.Some? ==>
         s.startOffset.value <= t.startOffset.value <= s.endOffset.value)
  }

  lemma {:induction false} TailStartsWithin(segments: seq<Segment>, n: int, t: Segment) returns (s: Segment)
    requires t in TailSegments(segments, n) && forall x <- segments :: OffsetsFit(x)
    ensures s in segments && StartsWithin(t, s)
    decreases |segments|
  {
    hide Tokens, Tail;
    var last, init := segments[|segments| - 1], segments[..|segments| - 1];
    assert segments == init + [last];
    if Count(last.text) <= n {
      if t == last {
        s := last;
      } else {
        s := TailStartsWithin(init, n - Count(last.text), t);
      }
    } else {
      s := last;
      TailNoLonger(last.text, n);
    }
  }

  /** A segment of a child starts within one of its own base group, or of the one before. */
  lemma WindowSource(child: Group, groups: seq<Group>, i: nat, t: Segment, c: Config, headings: nat)
      returns (k: nat, s: Segment)
    requires i < |groups| && Window(child, groups, i) && t in child && Aligned(Flat(groups), c, headings)
    ensures k < |groups| && (k == i || k + 1 == i) && s in groups[k] && StartsWithin(t, s) && OffsetsFit(s)
  {
    hide Aligned, OffsetsFit, TailSegments;
    if t in groups[i] {
      k, s := i, t;
      GroupMemberFits(groups, i, t, c, headings);
      StartsInItself(t);
    } else {
      var n: int :| child == TailSegments(groups[i - 1], n) + groups[i];
      forall x | x in groups[i - 1] ensures OffsetsFit(x) { GroupMemberFits(groups, i - 1, x, c, headings); }
      k := i - 1;
      s := TailStartsWithin(groups[k], n, t);
    }
  }

  lemma StartsInItself(s: Segment)
    requires OffsetsFit(s)
    ensures StartsWithin(s, s)
  {}

  /** What a later segment has to start after. */
  lemma {:induction false} ChildStartsBefore(
      child: Group, groups: seq<Group>, i: nat, k: nat, s: Segment, c: Config, headings: nat)
    requires Aligned(Flat(groups), c, headings) && i <= k < |groups| && Window(child, groups, i)
    requires groups[i] != [] && s in groups[k] && s.startOffset.Some? && ChunkStart(child).Some?
    ensures ChunkStart(child).value <= s.startOffset.value
  {
    hide Aligned, InOrder, OffsetsFit, ChunkStart, TailSegments;
    var t := StartIsAttained(child);
    if own :| own in groups[i] && own.startOffset.Some? {
      assert own in child;
      StartIsLeast(child, own);
      if i == k {
        assert s in child;
        StartIsLeast(child, s);
      } else {
        GroupsInOrder(groups, i, own, k, s, c, headings);
        GroupMemberFits(groups, i, own, c, headings);
        InOrderStarts(own, s, c, headings);
      }
    } else {
      var m := groups[i][0];
      assert m in groups[i];
      var j, source := WindowSource(child, groups, i, t, c, headings);
      assert i < k;
      GroupsApart(groups, j, source, i, m, k, s, c, headings);
      GroupMemberFits(groups, j, source, c, headings);
      ApartStarts(t, source, s);
    }
  }

  lemma ApartStarts(t: Segment, a: Segment, b: Segment)
    requires StartsWithin(t, a) && OffsetsFit(a) && Apart(a, b) && t.startOffset.Some? && b.startOffset.Some?
    ensures t.startOffset.value <= b.startOffset.value
  {}

  /** The children start in order, in spite of the overlap. */
  lemma WindowStartsOrdered(
      a: Group, b: Group, groups: seq<Group>, i: nat, j: nat, c: Config, headings: nat)
    requires Aligned(Flat(groups), c, headings) && i < j < |groups| && Window(a, groups, i) && Window(b, groups, j)
    requires groups[i] != [] && ChunkStart(a).Some? && ChunkStart(b).Some?
    ensures ChunkStart(a).value <= ChunkStart(b).value
  {
    hide Aligned, OffsetsFit, ChunkStart, TailSegments, Window;
    var t := StartIsAttained(b);
    var k, s := WindowSource(b, groups, j, t, c, headings);
    ChildStartsBefore(a, groups, i, k, s, c, headings);
    StartsNoEarlier(t, s);
  }

  lemma StartsNoEarlier(t: Segment, s: Segment)
    requires StartsWithin(t, s) && OffsetsFit(s) && t.startOffset.Some?
    ensures s.startOffset.Some? && s.startOffset.value <= t.startOffset.value
  {}

  // ---------- the chunks of a document ----------

  lemma ChildIsWindow(groups: seq<Group>, overlap: int, max: nat, i: nat)
    requires i < |groups|
    ensures Window(ChildAt(groups, overlap, max, i), groups, i)
  {
    hide TailSegments, Shrunk, Wanted, Tokens;
    assert [] + groups[i] == groups[i];
    if overlap > 0 && i > 0 && !TableOrCode(groups[i]) {
      var n := Shrunk(groups[i - 1], groups[i], Wanted(groups[i], overlap, max), max);
      assert ChildAt(groups, overlap, max, i) == TailSegments(groups[i - 1], n) + groups[i];
    }
  }

  lemma WindowInMore(child: Group, left: seq<Group>, groups: seq<Group>, right: seq<Group>, i: nat)
    requires i < |groups| && Window(child, groups, i)
    ensures Window(child, left + groups + right, |left| + i)
  {
    hide WithTail;
    var all, at := left + groups + right, |left| + i;
    assert all[at] == groups[i];
    if child != groups[i] { assert all[at - 1] == groups[i - 1]; }
  }

  /** Child `j` of the document is built around base group `j` of the document. */
  lemma {:induction false} ChildChunkWindow(parents: seq<Group>, i: nat, first: nat, c: Config, j: nat)
      returns (g: Group, p: nat)
    requires i <= |parents| && j < |ChildChunksFrom(parents, i, first, c)|
    ensures j < |AllBases(parents, i, c)| && Window(g, AllBases(parents, i, c), j)
    ensures ChildChunksFrom(parents, i, first, c)[j] == ChildChunk(g, first + j, p, c)
    decreases |parents| - i
  {
    hide BasesOf, MakeChunk, ContentMax, HeadingPath, Window, ChildAt, WithTail;
    var bases, rest := BasesOf(parents[i], c), AllBases(parents, i + 1, c);
    var groups := ChildGroups(parents[i], c);
    if j < |groups| {
      g, p := groups[j], i;
      ChildIsWindow(bases, c.childOverlap, ContentMax(HeadingPath(parents[i]), c), j);
      WindowInMore(g, [], bases, rest, j);
      assert [] + bases + rest == bases + rest;
    } else {
      g, p := ChildChunkWindow(parents, i + 1, first + |groups|, c, j - |groups|);
      WindowInMore(g, bases, rest, [], j - |groups|);
      assert bases + rest + [] == bases + rest;
    }
  }

  lemma {:induction false} AllBasesNonEmpty(parents: seq<Group>, i: nat, c: Config)
    requires i <= |parents|
    ensures forall g <- AllBases(parents, i, c) :: g != []
    decreases |parents| - i
  {
    hide BaseGroups, ContentMax, HeadingPath;
    if i < |parents| {
      AllBasesNonEmpty(parents, i + 1, c);
      var l := ContentLimits(HeadingPath(parents[i]), c);
      LimitsAreValid(HeadingPath(parents[i]), c);
      BaseGroupsNonEmpty(Expanded(parents[i], l.max), l);
    }
  }

  // ---------- what the blocks must offer ----------

  /** The offset ranges of the blocks that have one follow each other. */
  predicate BlocksInOrder(d: Document) {
    forall i, j :: 0 <= i < j < |d.blocks| ==> Apart(SegmentOf(d.blocks[i]), SegmentOf(d.blocks[j]))
  }

  /** Every block can be cut in order beside its heading path and a heading of the document. */
  predicate BlocksPlaceable(d: Document, c: Config, headings: nat) {
    forall b <- d.blocks ::
      Placeable(SegmentOf(b), c, headings) && (b.kind == Heading ==> Count(b.text) <= headings)
  }

  lemma BlocksAligned(d: Document, c: Config, headings: nat)
    requires BlocksSound(d, c) && BlocksInOrder(d) && BlocksPlaceable(d, c, headings)
    ensures Aligned(BlockSegments(d.blocks), c, headings)
    ensures forall s <- BlockSegments(d.blocks) :: s.kind == Heading ==> Count(s.text) <= headings
  {
    hide Tokens, Placeable, PathSafe, OffsetsFit, PagesFit, Apart, Pinned, BlockSegments;
    var segments := BlockSegments(d.blocks);
    forall s | s in segments
      ensures OffsetsFit(s) && Placeable(s, c, headings) && (s.kind == Heading ==> Count(s.text) <= headings)
    {
      BlockSegmentsMember(d.blocks, s);
      var b :| b in d.blocks && s == SegmentOf(b);
    }
  }

  lemma ParentsAreAligned(d: Document, c: Config, headings: nat)
    requires ValidConfig(c) && BlocksSound(d, c) && BlocksInOrder(d) && BlocksPlaceable(d, c, headings)
    ensures Aligned(Flat(ParentGroupsOf(d, c)), c, headings)
    ensures forall s <- Flat(ParentGroupsOf(d, c)) :: s.kind == Heading ==> Count(s.text) <= headings
  {
    hide Aligned, Tokens, Expanded, ParentGroups, BlocksSound, BlocksInOrder, BlocksPlaceable, Room;
    var segments := BlockSegments(d.blocks);
    var expanded := Expanded(segments, c.parentMax);
    BlocksAligned(d, c, headings);
    forall s | s in segments ensures Room(s, c, headings) <= c.parentMax { RoomInParent(s, c, headings); }
    assert [] + segments + [] == segments;
    ExpandedAligned([], segments, [], c.parentMax, c, headings);
    assert [] + expanded + [] == expanded;
    ExpandedHeadings(segments, c.parentMax, headings);
    ParentsAligned(expanded, c, headings);
    ParentHeadings(expanded, c, headings);
  }

  predicate SmallHeadings(segments: seq<Segment>, headings: nat) {
    forall s <- segments :: s.kind == Heading ==> Count(s.text) <= headings
  }

  lemma StepHeadings(g: Grouping, c: Config, headings: nat)
    requires g.queue != [] && SmallHeadings(ParentGrouping.AllSegments(g), headings)
    ensures SmallHeadings(ParentGrouping.AllSegments(ParentGrouping.Step(g, c)), headings)
  {
    hide Tokens, JoinSegments, SplitSegment, ParentGrouping.Step, ParentGrouping.AllSegments, ParentGrouping.SplitBody;
    ParentGrouping.StepMembers(g, c);
    if ParentGrouping.SplitsBody(g, c) {
      SplitSegmentParts(g.queue[0], ParentGrouping.Available(g, c));
    }
  }

  lemma {:induction false} RunHeadings(g: Grouping, c: Config, headings: nat)
    requires SmallHeadings(ParentGrouping.AllSegments(g), headings)
    ensures SmallHeadings(ParentGrouping.AllSegments(ParentGrouping.Run(g, c)), headings)
    decreases ParentGrouping.Weight(g), |g.queue|, if g.current == [] then 0 else 1
  {
    hide SmallHeadings, ParentGrouping.AllSegments;
    if g.queue == [] {
      ParentGrouping.FlushSegments(g);
    } else {
      StepHeadings(g, c, headings);
      ParentGrouping.StepDecreases(g, c);
      RunHeadings(ParentGrouping.Step(g, c), c, headings);
    }
  }

  /** Headings are never cut between the blocks and the parents, beyond the cut to the parent maximum. */
  lemma ParentHeadings(segments: seq<Segment>, c: Config, headings: nat)
    requires SmallHeadings(segments, headings)
    ensures SmallHeadings(Flat(ParentGroups(segments, c)), headings)
  {
    hide Tokens;
    var g := Grouping([], segments, [], false);
    StartSegments(segments);
    RunHeadings(g, c, headings);
    RunShape(g, c);
    var parents := ParentGroups(segments, c);
    assert Flat(parents) + [] + [] == Flat(parents);
  }

  lemma ParentPacks(d: Document, c: Config, headings: nat, p: Group)
    requires ValidConfig(c) && BlocksSound(d, c) && PathsSteady(d) && p in ParentGroupsOf(d, c)
    requires SmallHeadings(Flat(ParentGroupsOf(d, c)), headings)
    ensures Packs(p, headings)
  {
    hide Tokens, BlocksSound, PathsSteady, Expanded, ParentGroups, HeadingTokens, Sound, PathSafe, JoinSegments, HeadingPath, Flat;
    ParentsHold(d, c, p);
    HeadingPathOfOne(p, p[0].headingPath);
    ParentsShape(Expanded(BlockSegments(d.blocks), c.parentMax), c);
    FlatMembers(ParentGroupsOf(d, c), p[0]);
    FirstHeadingOnly(p, headings);
  }

  lemma FirstHeadingOnly(p: Group, headings: nat)
    requires p != [] && HeadingFirstOnly(p) && (p[0].kind == Heading ==> Count(p[0].text) <= headings)
    ensures HeadingTokens(p) <= headings
  {
    hide Tokens, HeadingTokens;
    assert p == [p[0]] + p[1..];
    HeadingTokensConcat([p[0]], p[1..]);
    HeadingTokensOfKind(p[1..], false);
    HeadingTokensOfKind([p[0]], p[0].kind == Heading);
    SegmentTokensOne(p[0]);
  }

  lemma ChunkStarts(g: Group, level: Level, ordinal: nat, parentOrdinal: Option<nat>, embeddingText: Option<Text>)
    ensures MakeChunk(g, level, ordinal, parentOrdinal, embeddingText).startOffset == ChunkStart(g)
  {
    hide Tokens, JoinSegments, HeadingPath, Distinct, MinPresent, MaxPresent;
  }

  /** In a document whose blocks are in order and can be cut in order, the start offsets of the parents and of the
      overlapping children do not decrease. */
  lemma OffsetsStayInOrder(d: Document, c: Config, headings: nat)
    requires ValidConfig(c) && BlocksSound(d, c) && PathsSteady(d)
    requires BlocksInOrder(d) && BlocksPlaceable(d, c, headings)
    ensures OffsetsOrdered(Construct(d, c).parents) && OffsetsOrdered(Construct(d, c).children)
  {
    hide ParentGroupsOf, BlocksSound, PathsSteady, BlocksInOrder, BlocksPlaceable, Aligned, ChunkStart, Packs, Window, MakeChunk, Construct;
    hide Flat, AllBases, ChildChunksFrom, Enriched, HeadingPath;
    var parents := ParentGroupsOf(d, c);
    var bases := AllBases(parents, 0, c);
    ParentsAreAligned(d, c, headings);
    forall p | p in parents ensures Packs(p, headings) { ParentPacks(d, c, headings, p); }
    assert parents[0..] == parents && [] + Flat(parents) == Flat(parents);
    AllBasesAligned([], parents, 0, c, headings);
    assert [] + Flat(bases) == Flat(bases);
    AllBasesNonEmpty(parents, 0, c);
    ConstructedParents(d, c);
    ConstructedChildren(d, c);
    var h := Construct(d, c);
    forall i, j | 0 <= i < j < |h.parents| && h.parents[i].startOffset.Some? && h.parents[j].startOffset.Some?
      ensures h.parents[i].startOffset.value <= h.parents[j].startOffset.value
    {
      ChunkStarts(parents[i], Parent, i, None, None);
      ChunkStarts(parents[j], Parent, j, None, None);
      GroupStartsOrdered(parents, i, j, c, headings);
    }
    forall i, j | 0 <= i < j < |h.children| && h.children[i].startOffset.Some? && h.children[j].startOffset.Some?
      ensures h.children[i].startOffset.value <= h.children[j].startOffset.value
    {
      var a, p := ChildChunkWindow(parents, 0, 0, c, i);
      var b, q := ChildChunkWindow(parents, 0, 0, c, j);
      ChunkStarts(a, Child, i, Some(p), h.children[i].embeddingText);
      ChunkStarts(b, Child, j, Some(q), h.children[j].embeddingText);
      ChildChunkIs(a, i, p, c);
      ChildChunkIs(b, j, q, c);
      assert bases[i] in bases;
      WindowStartsOrdered(a, b, bases, i, j, c, headings);
    }
  }

  lemma ChildChunkIs(g: Group, ordinal: nat, parentOrdinal: nat, c: Config)
    ensures ChildChunk(g, ordinal, parentOrdinal, c).startOffset == ChunkStart(g)
  {
    hide JoinSegments, HeadingPath, Enriched;
    ChunkStarts(g, Child, ordinal, Some(parentOrdinal), Some(Enriched(HeadingPath(g), c.childMax, JoinSegments(g))));
  }

  /** The validator accepts what is constructed from sound, non-blank blocks that are in order and can be cut in
      order. */
  lemma ConstructionIsAccepted(d: Document, c: Config, headings: nat, maxChunks: int, maxTokens: int)
    requires ValidConfig(c) && BlocksSound(d, c) && PathsSteady(d) && PrefixFits(d, c)
    requires BlocksInOrder(d) && BlocksPlaceable(d, c, headings)
    requires d.blocks != [] && forall b <- d.blocks :: !Blank(b.text)
    requires BlockTokens(d.blocks) <= maxTokens
    requires |Construct(d, c).parents| + |Construct(d, c).children| <= maxChunks
    ensures Validate(d, Construct(d, c), c, maxChunks, maxTokens) == Valid
  {
    hide Construct, Validate, BlocksSound, PathsSteady, PathsLeaveRoom, PrefixFits, BlocksInOrder, BlocksPlaceable, OffsetsOrdered, Blank, BlockTokens;
    OffsetsStayInOrder(d, c, headings);
    SteadyPathsLeaveRoom(d, c);
    ConstructionIsValid(d, c, maxChunks, maxTokens);
  }
}
