/** When a child closes: the base groups of `_pack_child_groups` told apart without following the loop. */
module ChildClosing {
  import opened Wrappers
  import opened Tokenization
  import opened Segments
  import opened SegmentSplitting
  import opened Content
  import opened Headings
  import opened ChildPacking
  import opened ChildOverlap
  import opened ChildGrouping

  /** A group takes more while it is below its target, or when all that is left is too small for a group of its own
      and still fits. */
  predicate StaysOpen(g: Group, rest: seq<Segment>, l: Limits) {
    Size(g) < l.target || (Size(rest) < l.min && Size(g) + Size(rest) <= l.max)
  }

  /** The segment at `k` was taken by an open group, within the maximum. */
  predicate Takes(g: Group, k: nat, rest: seq<Segment>, l: Limits)
    requires k < |g|
  {
    StaysOpen(g[..k], g[k..] + rest, l) && Size(g[..k + 1]) <= l.max
  }

  predicate IsFilled(g: Group, rest: seq<Segment>, l: Limits) { forall k :: 0 < k < |g| ==> Takes(g, k, rest, l) }

  predicate IsOnlyHeadings(g: Group) { forall s <- g :: s.kind == Heading }

  predicate IsClosedBy(g: Group, rest: seq<Segment>, l: Limits) {
    rest == [] || !StaysOpen(g, rest, l) || (Size(g + [rest[0]]) > l.max && !IsOnlyHeadings(g))
  }

  predicate IsWholeGroup(queue: seq<Segment>, l: Limits, g: Group, rest: seq<Segment>) {
    g != [] && queue == g + rest && IsFilled(g, rest, l) && IsClosedBy(g, rest, l)
  }

  /** Headings whose body does not fit take as much of the body as the maximum leaves room for. */
  predicate IsHeadingsWithPart(queue: seq<Segment>, l: Limits, g: Group, rest: seq<Segment>) {
    && 2 <= |g| <= |queue|
    && var headings, body, later := queue[..|g| - 1], queue[|g| - 1], queue[|g|..];
       var room := Max(1, l.max - Size(headings));
       && IsOnlyHeadings(headings) && IsFilled(headings, [body] + later, l)
       && StaysOpen(headings, [body] + later, l) && Size(headings + [body]) > l.max
       && SplitSegment(body, room) != []
       && g == headings + [SplitSegment(body, room)[0]] && rest == SplitSegment(body, room)[1..] + later
  }

  predicate IsFirstGroup(queue: seq<Segment>, l: Limits, g: Group, rest: seq<Segment>) {
    IsWholeGroup(queue, l, g, rest) || IsHeadingsWithPart(queue, l, g, rest)
  }

  /** Each group is the first one of what the groups before it have left. */
  ghost predicate IsPacking(queue: seq<Segment>, groups: seq<Group>, l: Limits)
    decreases |groups|
  {
    if groups == [] then queue == []
    else exists rest: seq<Segment> :: IsFirstGroup(queue, l, groups[0], rest) && IsPacking(rest, groups[1..], l)
  }

  /** What the loop makes of a queue. */
  function Packed(queue: seq<Segment>, l: Limits): seq<Group> { Run(Packing([], queue, [], TotalCount(queue)), l).groups }

  // ---------- the loop on one group ----------

  lemma SizesAgree(g: Group)
    ensures Count(JoinSegments(g)) == Size(g) && TotalCount(g) == Size(g)
  {
    hide Tokens, JoinSegments, SegmentTokens;
    JoinSegmentsTokens(g);
    TotalCountIsSize(g);
  }

  lemma AppendedAfter(done: seq<Group>, groups: seq<Group>, g: Group)
    ensures (done + groups) + [g] == done + (groups + [g])
  {}

  function Shifted(done: seq<Group>, p: Packing): Packing { p.(groups := done + p.groups) }

  lemma ShiftedPlace(done: seq<Group>, p: Packing, l: Limits)
    requires p.queue != []
    ensures Place(Shifted(done, p), l) == Shifted(done, Place(p, l))
  {
    hide Tokens, JoinSegments, SplitSegment, TotalCount;
    AppendedAfter(done, p.groups, p.current);
    SplitSegmentParts(p.queue[0], HeadingRoom(p, l));
    AppendedAfter(done, p.groups, p.current + [SplitSegment(p.queue[0], HeadingRoom(p, l))[0]]);
  }

  /** The loop only ever adds to the groups that are done. */
  lemma ShiftedStep(done: seq<Group>, p: Packing, l: Limits)
    requires p.queue != []
    ensures Step(Shifted(done, p), l) == Shifted(done, Step(p, l))
  {
    hide Tokens, JoinSegments, Place;
    AppendedAfter(done, p.groups, p.current);
    ShiftedPlace(done, CloseFull(p, l), l);
  }

  lemma {:induction false} ShiftedRun(done: seq<Group>, p: Packing, l: Limits)
    ensures Run(Shifted(done, p), l).groups == done + Run(p, l).groups
    decreases Weight(p), |p.queue|
  {
    hide Step, Run;
    if p.queue == [] {
      RunDone(p, l);
      RunDone(Shifted(done, p), l);
      AppendedAfter(done, p.groups, p.current);
    } else {
      RunStep(p, l);
      RunStep(Shifted(done, p), l);
      ShiftedStep(done, p, l);
      StepDecreases(p, l);
      ShiftedRun(done, Step(p, l), l);
    }
  }

  /** The loop with a group begun. */
  function Begun(groups: seq<Group>, g: Group, queue: seq<Segment>): Packing { Packing(groups, queue, g, TotalCount(queue)) }

  /** A group in the loop is full exactly when it does not stay open. */
  lemma ClosedWhenFull(g: Group, queue: seq<Segment>, l: Limits)
    requires g != [] && queue != []
    ensures CloseFull(Begun([], g, queue), l) == if StaysOpen(g, queue, l) then Begun([], g, queue) else Begun([g], [], queue)
  {
    hide Tokens, JoinSegments, SegmentTokens, TotalCount;
    SizesAgree(g);
    SizesAgree(queue);
    assert [] + [g] == [g];
  }

  lemma PlacedStep(groups: seq<Group>, g: Group, queue: seq<Segment>, l: Limits)
    requires queue != [] && (g == [] || Size(g + [queue[0]]) <= l.max)
    ensures Place(Begun(groups, g, queue), l) == Begun(groups, g + [queue[0]], queue[1..])
  {
    hide Tokens, JoinSegments, SegmentTokens, SplitSegment, TotalCount;
    SizesAgree(g + [queue[0]]);
    assert queue == [queue[0]] + queue[1..];
    TotalCountCons(queue[0], queue[1..]);
  }

  lemma StartingStep(queue: seq<Segment>, l: Limits)
    requires queue != []
    ensures Step(Begun([], [], queue), l) == Begun([], [queue[0]], queue[1..])
  {
    hide Tokens, JoinSegments, SegmentTokens, Place, TotalCount;
    PlacedStep([], [], queue, l);
    assert [] + [queue[0]] == [queue[0]];
  }

  lemma FillingStep(g: Group, k: nat, rest: seq<Segment>, l: Limits)
    requires 0 < k < |g| && Takes(g, k, rest, l)
    ensures Step(Begun([], g[..k], g[k..] + rest), l) == Begun([], g[..k + 1], g[k + 1..] + rest)
  {
    hide Tokens, JoinSegments, SegmentTokens, Place, CloseFull, TotalCount, Size;
    var queue := g[k..] + rest;
    assert queue[0] == g[k] && queue[1..] == g[k + 1..] + rest && g[..k] + [g[k]] == g[..k + 1];
    ClosedWhenFull(g[..k], queue, l);
    PlacedStep([], g[..k], queue, l);
  }

  lemma {:induction false} FillingRun(g: Group, k: nat, rest: seq<Segment>, l: Limits)
    requires 0 < k <= |g| && IsFilled(g, rest, l)
    ensures Run(Begun([], g[..k], g[k..] + rest), l) == Run(Begun([], g, rest), l)
    decreases |g| - k
  {
    hide Step, Run, TotalCount, Takes;
    if k == |g| {
      assert g[..k] == g && g[k..] + rest == rest;
    } else {
      FillingStep(g, k, rest, l);
      RunStep(Begun([], g[..k], g[k..] + rest), l);
      FillingRun(g, k + 1, rest, l);
    }
  }

  lemma ClosingStep(g: Group, rest: seq<Segment>, l: Limits)
    requires g != [] && rest != [] && IsClosedBy(g, rest, l)
    ensures Step(Begun([], g, rest), l) == Begun([g], [rest[0]], rest[1..])
  {
    hide Tokens, JoinSegments, SegmentTokens, SplitSegment, CloseFull, TotalCount;
    ClosedWhenFull(g, rest, l);
    assert [] + [rest[0]] == [rest[0]] && [] + [g] == [g];
    if StaysOpen(g, rest, l) {
      SizesAgree(g + [rest[0]]);
      assert rest == [rest[0]] + rest[1..];
      TotalCountCons(rest[0], rest[1..]);
    } else {
      PlacedStep([g], [], rest, l);
    }
  }

  /** A closed group is set aside and the next one begins with the next segment. */
  lemma ClosingRun(g: Group, rest: seq<Segment>, l: Limits)
    requires g != [] && IsClosedBy(g, rest, l)
    ensures Run(Begun([], g, rest), l).groups == [g] + Packed(rest, l)
  {
    hide Step, Run, TotalCount, IsClosedBy;
    assert [] + [g] == [g] && [g] + [] == [g];
    if rest == [] {
      RunDone(Begun([], g, rest), l);
      RunDone(Begun([], [], rest), l);
    } else {
      ClosingStep(g, rest, l);
      RunStep(Begun([], g, rest), l);
      StartingStep(rest, l);
      RunStep(Begun([], [], rest), l);
      ShiftedRun([g], Begun([], [rest[0]], rest[1..]), l);
    }
  }

  lemma WholeGroupFirst(queue: seq<Segment>, l: Limits, g: Group, rest: seq<Segment>)
    requires IsWholeGroup(queue, l, g, rest)
    ensures Packed(queue, l) == [g] + Packed(rest, l)
  {
    hide Step, Run, IsFilled, IsClosedBy, TotalCount;
    StartingStep(queue, l);
    RunStep(Begun([], [], queue), l);
    assert queue[1..] == g[1..] + rest && [queue[0]] == g[..1];
    FillingRun(g, 1, rest, l);
    ClosingRun(g, rest, l);
  }

  lemma SplittingStep(headings: Group, body: Segment, later: seq<Segment>, l: Limits)
    requires headings != [] && IsOnlyHeadings(headings) && StaysOpen(headings, [body] + later, l)
    requires Size(headings + [body]) > l.max
    ensures SplitSegment(body, Max(1, l.max - Size(headings))) != []
    ensures var parts := SplitSegment(body, Max(1, l.max - Size(headings)));
            Step(Begun([], headings, [body] + later), l) == Begun([headings + [parts[0]]], [], parts[1..] + later)
  {
    hide Tokens, JoinSegments, SegmentTokens, SplitSegment, CloseFull, TotalCount;
    var queue := [body] + later;
    assert queue[0] == body && queue[1..] == later;
    SizesAgree(headings);
    SizesAgree(headings + [body]);
    ClosedWhenFull(headings, queue, l);
    TotalCountCons(body, later);
    var room := Max(1, l.max - Size(headings));
    SplitSegmentParts(body, room);
    var parts := SplitSegment(body, room);
    TotalCountConcat(parts[1..], later);
    assert [] + [headings + [parts[0]]] == [headings + [parts[0]]];
  }

  lemma PartGroupFirst(queue: seq<Segment>, l: Limits, g: Group, rest: seq<Segment>)
    requires IsHeadingsWithPart(queue, l, g, rest)
    ensures Packed(queue, l) == [g] + Packed(rest, l)
  {
    hide Step, Run, IsFilled, TotalCount, SplitSegment, Size, StaysOpen, IsOnlyHeadings;
    var headings, body, later := queue[..|g| - 1], queue[|g| - 1], queue[|g|..];
    StartingStep(queue, l);
    RunStep(Begun([], [], queue), l);
    assert queue[1..] == headings[1..] + ([body] + later) && [queue[0]] == headings[..1];
    FillingRun(headings, 1, [body] + later, l);
    SplittingStep(headings, body, later, l);
    RunStep(Begun([], headings, [body] + later), l);
    ShiftedRun([g], Begun([], [], rest), l);
    assert [g] + [] == [g];
  }

  lemma FirstGroupFirst(queue: seq<Segment>, l: Limits, g: Group, rest: seq<Segment>)
    requires IsFirstGroup(queue, l, g, rest)
    ensures Packed(queue, l) == [g] + Packed(rest, l)
  {
    hide Packed, IsWholeGroup, IsHeadingsWithPart;
    if IsWholeGroup(queue, l, g, rest) { WholeGroupFirst(queue, l, g, rest); } else { PartGroupFirst(queue, l, g, rest); }
  }

  // ---------- there always is a first group ----------

  lemma {:induction false} FirstGroupFrom(queue: seq<Segment>, k: nat, l: Limits) returns (g: Group, rest: seq<Segment>)
    requires 0 < k <= |queue| && IsFilled(queue[..k], queue[k..], l)
    ensures IsFirstGroup(queue, l, g, rest)
    decreases |queue| - k
  {
    hide Size, SplitSegment, IsFilled, StaysOpen;
    g, rest := queue[..k], queue[k..];
    assert queue == g + rest;
    if !IsClosedBy(g, rest, l) {
      assert g + [rest[0]] == queue[..k + 1] && [queue[k]] + queue[k + 1..] == rest;
      if Size(queue[..k + 1]) <= l.max {
        OneMoreFilled(queue, k, l);
        g, rest := FirstGroupFrom(queue, k + 1, l);
      } else {
        var room := Max(1, l.max - Size(g));
        SplitSegmentParts(queue[k], room);
        var parts := SplitSegment(queue[k], room);
        g, rest := g + [parts[0]], parts[1..] + queue[k + 1..];
      }
    }
  }

  lemma OneMoreFilled(queue: seq<Segment>, k: nat, l: Limits)
    requires 0 < k < |queue| && IsFilled(queue[..k], queue[k..], l)
    requires StaysOpen(queue[..k], queue[k..], l) && Size(queue[..k + 1]) <= l.max
    ensures IsFilled(queue[..k + 1], queue[k + 1..], l)
  {
    hide Size, StaysOpen;
    var g, later := queue[..k + 1], queue[k + 1..];
    forall i | 0 < i < |g| ensures Takes(g, i, later, l) {
      assert g[i..] + later == queue[i..] && g[..i] == queue[..i] && g[..i + 1] == queue[..i + 1];
      if i < k {
        assert Takes(queue[..k], i, queue[k..], l);
        assert queue[..k][i..] + queue[k..] == queue[i..] && queue[..k][..i] == queue[..i];
        assert queue[..k][..i + 1] == queue[..i + 1];
      }
    }
  }

  lemma FirstGroup(queue: seq<Segment>, l: Limits) returns (g: Group, rest: seq<Segment>)
    requires queue != []
    ensures IsFirstGroup(queue, l, g, rest) && Packed(queue, l) == [g] + Packed(rest, l)
  {
    hide Packed, IsFirstGroup;
    g, rest := FirstGroupFrom(queue, 1, l);
    FirstGroupFirst(queue, l, g, rest);
  }

  lemma NothingPacked(l: Limits)
    ensures Packed([], l) == []
  {}

  // ---------- the groups, exactly ----------

  lemma {:induction false} PackingIsPacked(queue: seq<Segment>, groups: seq<Group>, l: Limits)
    requires IsPacking(queue, groups, l)
    ensures groups == Packed(queue, l)
    decreases |groups|
  {
    hide Packed, IsFirstGroup;
    NothingPacked(l);
    if groups != [] {
      var rest :| IsFirstGroup(queue, l, groups[0], rest) && IsPacking(rest, groups[1..], l);
      FirstGroupFirst(queue, l, groups[0], rest);
      PackingIsPacked(rest, groups[1..], l);
    }
  }

  lemma {:induction false} PackedIsPacking(queue: seq<Segment>, l: Limits)
    ensures IsPacking(queue, Packed(queue, l), l)
    decreases |Packed(queue, l)|
  {
    hide Packed, IsFirstGroup;
    NothingPacked(l);
    if queue != [] {
      var g, rest := FirstGroup(queue, l);
      PackedIsPacking(rest, l);
      var groups := Packed(queue, l);
      assert groups[0] == g && groups[1..] == Packed(rest, l);
    }
  }

  /** A last group below the minimum has joined the one before it if both fit together; all other groups stay. */
  predicate IsTailJoined(groups: seq<Group>, bases: seq<Group>, l: Limits) {
    var n := |groups|;
    if n >= 2 && Size(groups[n - 1]) < l.min && Size(groups[n - 2] + groups[n - 1]) <= l.max
    then |bases| == n - 1 && bases[n - 2] == groups[n - 2] + groups[n - 1] && bases[..n - 2] == groups[..n - 2]
    else bases == groups
  }

  lemma TailIsJoined(segments: seq<Segment>, l: Limits)
    ensures IsTailJoined(Packed(segments, l), BaseGroups(segments, l), l)
  {
    hide Run, Tokens, JoinSegments, Size, TotalCount;
    var packed := Packed(segments, l);
    var n := |packed|;
    if n >= 2 {
      SizesAgree(packed[n - 1]);
      SizesAgree(packed[n - 2] + packed[n - 1]);
    }
  }

  lemma OneTail(groups: seq<Group>, a: seq<Group>, b: seq<Group>, l: Limits)
    requires IsTailJoined(groups, a, l) && IsTailJoined(groups, b, l)
    ensures a == b
  {
    hide Size;
    var n := |groups|;
    if a != groups && b != groups {
      assert a == a[..n - 2] + [a[n - 2]] && b == b[..n - 2] + [b[n - 2]];
    }
  }

  /** The base groups are the one packing in which every group is filled while it is open and within the maximum, and
      closed no earlier than it has to be, with a small last group joined to its neighbour. */
  lemma BaseGroupsExactly(segments: seq<Segment>, bases: seq<Group>, l: Limits)
    ensures bases == BaseGroups(segments, l) <==>
              exists groups: seq<Group> :: IsPacking(segments, groups, l) && IsTailJoined(groups, bases, l)
  {
    hide Packed, BaseGroups, IsPacking, IsTailJoined;
    PackedIsPacking(segments, l);
    TailIsJoined(segments, l);
    if groups: seq<Group> :| IsPacking(segments, groups, l) && IsTailJoined(groups, bases, l) {
      PackingIsPacked(segments, groups, l);
      OneTail(groups, bases, BaseGroups(segments, l), l);
    }
  }

  lemma {:induction false} GroupAt(segments: seq<Segment>, l: Limits, i: nat) returns (queue: seq<Segment>, rest: seq<Segment>)
    requires i < |Packed(segments, l)|
    ensures IsFirstGroup(queue, l, Packed(segments, l)[i], rest)
    ensures Packed(rest, l) == Packed(segments, l)[i + 1..]
    decreases i
  {
    hide Packed, IsFirstGroup;
    NothingPacked(l);
    var g, later := FirstGroup(segments, l);
    if i == 0 {
      queue, rest := segments, later;
    } else {
      queue, rest := GroupAt(later, l, i - 1);
      assert Packed(later, l)[i..] == Packed(segments, l)[i + 1..];
    }
  }

  lemma NextStartsGroup(queue: seq<Segment>, l: Limits)
    requires queue != []
    ensures Packed(queue, l) != [] && Packed(queue, l)[0] != [] && Packed(queue, l)[0][0] == queue[0]
  {
    hide Packed, SplitSegment, Size, IsFilled, StaysOpen;
    var g, rest := FirstGroup(queue, l);
    if !IsWholeGroup(queue, l, g, rest) {
      assert g[..|g| - 1] == queue[..|g| - 1] && queue[..|g| - 1][0] == queue[0];
    }
  }

  /** No early closing: a base group ends where its target is reached, where the next segment does not fit, or where it
      is headings with the first part of a body that is cut to fit. */
  lemma BasesCloseLate(segments: seq<Segment>, l: Limits, i: nat)
    requires i + 1 < |BaseGroups(segments, l)|
    ensures var g, next := BaseGroups(segments, l)[i], BaseGroups(segments, l)[i + 1];
            && g != [] && next != []
            && (|| Size(g) >= l.target
                || Size(g + [next[0]]) > l.max
                || (|g| >= 2 && forall s <- g[..|g| - 1] :: s.kind == Heading))
  {
    hide Packed, SplitSegment, Size, IsFilled;
    var packed := Packed(segments, l);
    TailOnly(segments, l);
    NothingPacked(l);
    var queue, rest := GroupAt(segments, l, i);
    NextStartsGroup(rest, l);
    var g := packed[i];
    if !IsWholeGroup(queue, l, g, rest) {
      assert g[..|g| - 1] == queue[..|g| - 1];
    }
  }

  /** Joining a small last group changes no other group, and not where the last two start. */
  lemma TailOnly(segments: seq<Segment>, l: Limits)
    ensures var packed, bases := Packed(segments, l), BaseGroups(segments, l);
            && |bases| <= |packed|
            && (forall i :: 0 <= i < |bases| - 1 ==> bases[i] == packed[i])
            && (forall i :: 0 <= i < |bases| && packed[i] != [] ==> bases[i] != [] && bases[i][0] == packed[i][0])
  {
    hide Run, JoinSegments, Tokens;
  }

  /** The children of a parent: its segments cut to the room that the heading prefix leaves, and packed with the target
      and the minimum of the configuration as far as that room allows them; then each child repeats the configured
      overlap as far as it fits. */
  lemma ChildrenOfParent(parent: Group, c: Config, i: nat)
    requires ValidConfig(c)
    ensures var room := if PrefixTokens(HeadingPath(parent), c.childMax) < c.childMax
                        then c.childMax - PrefixTokens(HeadingPath(parent), c.childMax) else 1;
            var target := if c.childTarget <= room then c.childTarget else room;
            var least := if c.childMin <= target then c.childMin else target;
            && (exists groups: seq<Group> ::
                  IsPacking(Expanded(parent, room), groups, Limits(least, target, room))
                  && IsTailJoined(groups, BasesOf(parent, c), Limits(least, target, room)))
            && |ChildGroups(parent, c)| == |BasesOf(parent, c)|
            && (i < |BasesOf(parent, c)| ==>
                 var k := Size(ChildGroups(parent, c)[i]) - Size(BasesOf(parent, c)[i]);
                 if c.childOverlap == 0 || i == 0 || (forall s <- BasesOf(parent, c)[i] :: s.kind == Table || s.kind == Code) then k == 0
                 else && 0 <= k <= c.childOverlap && k <= Size(BasesOf(parent, c)[i - 1])
                      && (k > 0 ==> Size(ChildGroups(parent, c)[i]) <= room)
                      && (k == c.childOverlap || k == Size(BasesOf(parent, c)[i - 1]) || Size(ChildGroups(parent, c)[i]) >= room))
  {
    hide IsPacking, IsTailJoined, PrefixTokens, HeadingPath, BaseGroups, Expanded, Size, Overlapped;
    var bases := BasesOf(parent, c);
    var l := ContentLimits(HeadingPath(parent), c);
    BaseGroupsExactly(Expanded(parent, l.max), bases, l);
    if i < |bases| { OverlapExactly(bases, c.childOverlap, l.max, i); }
  }
}
