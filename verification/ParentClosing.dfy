/** When a parent closes: the parents of `_group_parents` told apart without following the loop. */
module ParentClosing {
  import opened Tokenization
  import opened Segments
  import opened SegmentSplitting
  import opened Splitting
  import opened Tables
  import opened Content
  import opened Headings
  import opened ParentGrouping

  /** A heading that still waits for its body. */
  predicate IsLoneHeading(p: Group) { |p| == 1 && p[0].kind == Heading }

  /** The parent has room for more below its target. */
  predicate IsBelowTarget(p: Group, c: Config) { IsLoneHeading(p) || Size(p) < c.parentTarget }

  /** The segment at `k` was taken from below the target, within the maximum, and is no heading. */
  predicate Takes(p: Group, k: nat, c: Config)
    requires k < |p|
  {
    p[k].kind != Heading && IsBelowTarget(p[..k], c) && Size(p[..k + 1]) <= c.parentMax
  }

  /** All but the first of the first `n` segments were taken. */
  predicate IsFilled(p: Group, n: nat, c: Config)
    requires n <= |p|
  {
    forall k :: 0 < k < n ==> Takes(p, k, c)
  }

  /** Nothing more can go into the parent: the segments end, a heading follows, the target is reached, or what follows
      does not fit; then a lone heading leaves no room at all. */
  predicate IsClosedBy(p: Group, rest: seq<Segment>, c: Config) {
    || rest == []
    || rest[0].kind == Heading
    || !IsBelowTarget(p, c)
    || (Size(p + [rest[0]]) > c.parentMax && (IsLoneHeading(p) ==> Size(p) >= c.parentMax))
  }

  predicate IsWholeParent(queue: seq<Segment>, c: Config, p: Group, rest: seq<Segment>) {
    p != [] && queue == p + rest && IsFilled(p, |p|, c) && IsClosedBy(p, rest, c)
  }

  /** A heading whose body does not fit takes as much of the body as the maximum leaves room for. */
  predicate IsHeadingWithPart(queue: seq<Segment>, c: Config, p: Group, rest: seq<Segment>) {
    && |queue| >= 2 && queue[0].kind == Heading && queue[1].kind != Heading
    && Size([queue[0]]) < c.parentMax < Size([queue[0], queue[1]])
    && var parts := SplitSegment(queue[1], c.parentMax - Size([queue[0]]));
       parts != [] && p == [queue[0], parts[0]] && rest == parts[1..] + queue[2..]
  }

  predicate IsFirstParent(queue: seq<Segment>, c: Config, p: Group, rest: seq<Segment>) {
    IsWholeParent(queue, c, p, rest) || IsHeadingWithPart(queue, c, p, rest)
  }

  /** Each parent is the first one of what the parents before it have left. */
  ghost predicate IsGrouping(queue: seq<Segment>, parents: seq<Group>, c: Config)
    decreases |parents|
  {
    if parents == [] then queue == []
    else exists rest: seq<Segment> :: IsFirstParent(queue, c, parents[0], rest) && IsGrouping(rest, parents[1..], c)
  }

  // ---------- the loop on one parent ----------

  lemma SizesAgree(p: Group)
    ensures Count(JoinSegments(p)) == Size(p)
  {
    hide Tokens, JoinSegments, SegmentTokens;
    JoinSegmentsTokens(p);
  }

  lemma AppendedAfter(done: seq<Group>, parents: seq<Group>, p: Group)
    ensures (done + parents) + [p] == done + (parents + [p])
  {}

  /** The loop only ever adds to the parents that are done. */
  lemma ShiftedStep(done: seq<Group>, g: Grouping, c: Config)
    requires g.queue != []
    ensures Step(g.(parents := done + g.parents), c) == Step(g, c).(parents := done + Step(g, c).parents)
  {
    hide Tokens, JoinSegments, SplitSegment;
    AppendedAfter(done, g.parents, g.current);
    var room := c.parentMax - Count(JoinSegments(g.current));
    if room > 0 {
      SplitSegmentParts(g.queue[0], room);
      AppendedAfter(done, g.parents, g.current + [SplitSegment(g.queue[0], room)[0]]);
    }
  }

  lemma {:induction false} ShiftedRun(done: seq<Group>, g: Grouping, c: Config)
    ensures Run(g.(parents := done + g.parents), c).parents == done + Run(g, c).parents
    decreases Weight(g), |g.queue|, if g.current == [] then 0 else 1
  {
    hide Step, Run;
    var h := g.(parents := done + g.parents);
    if g.queue == [] {
      RunDone(g, c);
      RunDone(h, c);
      AppendedAfter(done, g.parents, g.current);
    } else {
      RunStep(g, c);
      RunStep(h, c);
      ShiftedStep(done, g, c);
      StepDecreases(g, c);
      ShiftedRun(done, Step(g, c), c);
    }
  }

  /** A segment that the parent has room for joins it. */
  lemma FillingStep(p: Group, k: nat, rest: seq<Segment>, c: Config)
    requires 0 < k < |p| && IsFilled(p, |p|, c)
    ensures Step(Grouping([], p[k..] + rest, p[..k], IsLoneHeading(p[..k])), c)
         == Grouping([], p[k + 1..] + rest, p[..k + 1], IsLoneHeading(p[..k + 1]))
  {
    hide Tokens, JoinSegments, SplitSegment, SegmentTokens, Size;
    assert Takes(p, k, c);
    SizesAgree(p[..k]);
    SizesAgree(p[..k + 1]);
    assert p[..k] + [p[k]] == p[..k + 1];
    assert (p[k..] + rest)[0] == p[k] && (p[k..] + rest)[1..] == p[k + 1..] + rest;
  }

  lemma {:induction false} FillingRun(p: Group, k: nat, rest: seq<Segment>, c: Config)
    requires 0 < k <= |p| && IsFilled(p, |p|, c)
    ensures Run(Grouping([], p[k..] + rest, p[..k], IsLoneHeading(p[..k])), c) == Run(Grouping([], rest, p, IsLoneHeading(p)), c)
    decreases |p| - k
  {
    hide Step, Run, IsFilled;
    if k == |p| {
      assert p[..k] == p && p[k..] + rest == rest;
    } else {
      FillingStep(p, k, rest, c);
      RunStep(Grouping([], p[k..] + rest, p[..k], IsLoneHeading(p[..k])), c);
      FillingRun(p, k + 1, rest, c);
    }
  }

  lemma StartingStep(queue: seq<Segment>, c: Config)
    requires queue != []
    ensures Step(Grouping([], queue, [], false), c) == Grouping([], queue[1..], [queue[0]], queue[0].kind == Heading)
  {
    hide Tokens, JoinSegments, SplitSegment;
    assert [] + [queue[0]] == [queue[0]];
  }

  /** A closed parent is flushed before the next segment is placed. */
  lemma ClosingRun(p: Group, rest: seq<Segment>, c: Config)
    requires p != [] && IsClosedBy(p, rest, c)
    ensures Run(Grouping([], rest, p, IsLoneHeading(p)), c) == Run(Grouping([p], rest, [], false), c)
  {
    hide Tokens, JoinSegments, SplitSegment, SegmentTokens, Run;
    var g, h := Grouping([], rest, p, IsLoneHeading(p)), Grouping([p], rest, [], false);
    assert [] + [p] == [p];
    if rest == [] {
      RunDone(g, c);
      RunDone(h, c);
    } else {
      SizesAgree(p);
      SizesAgree(p + [rest[0]]);
      RunStep(g, c);
      RunStep(h, c);
    }
  }

  lemma WholeParentFirst(queue: seq<Segment>, c: Config, p: Group, rest: seq<Segment>)
    requires IsWholeParent(queue, c, p, rest)
    ensures ParentGroups(queue, c) == [p] + ParentGroups(rest, c)
  {
    hide Step, Run, IsFilled, IsClosedBy;
    StartingStep(queue, c);
    RunStep(Grouping([], queue, [], false), c);
    assert queue[1..] == p[1..] + rest && [queue[0]] == p[..1];
    FillingRun(p, 1, rest, c);
    ClosingRun(p, rest, c);
    ShiftedRun([p], Grouping([], rest, [], false), c);
    assert [p] + [] == [p];
  }

  lemma SplittingStep(queue: seq<Segment>, c: Config, p: Group, rest: seq<Segment>)
    requires IsHeadingWithPart(queue, c, p, rest)
    ensures Step(Grouping([], queue[1..], [queue[0]], true), c) == Grouping([p], rest, [], false)
  {
    hide Tokens, JoinSegments, SplitSegment, SegmentTokens;
    SizesAgree([queue[0]]);
    SizesAgree([queue[0], queue[1]]);
    assert [queue[0]] + [queue[1]] == [queue[0], queue[1]];
    assert queue[1..][0] == queue[1] && queue[1..][1..] == queue[2..];
    var parts := SplitSegment(queue[1], c.parentMax - Size([queue[0]]));
    assert [queue[0]] + [parts[0]] == [queue[0], parts[0]] && [] + [p] == [p];
  }

  lemma PartParentFirst(queue: seq<Segment>, c: Config, p: Group, rest: seq<Segment>)
    requires IsHeadingWithPart(queue, c, p, rest)
    ensures ParentGroups(queue, c) == [p] + ParentGroups(rest, c)
  {
    hide Step, Run, SplitSegment;
    StartingStep(queue, c);
    RunStep(Grouping([], queue, [], false), c);
    RunStep(Grouping([], queue[1..], [queue[0]], true), c);
    SplittingStep(queue, c, p, rest);
    ShiftedRun([p], Grouping([], rest, [], false), c);
    assert [p] + [] == [p];
  }

  lemma FirstParentFirst(queue: seq<Segment>, c: Config, p: Group, rest: seq<Segment>)
    requires IsFirstParent(queue, c, p, rest)
    ensures ParentGroups(queue, c) == [p] + ParentGroups(rest, c)
  {
    hide ParentGroups, IsWholeParent, IsHeadingWithPart;
    if IsWholeParent(queue, c, p, rest) { WholeParentFirst(queue, c, p, rest); } else { PartParentFirst(queue, c, p, rest); }
  }

  // ---------- there always is a first parent ----------

  lemma {:induction false} FirstParentFrom(queue: seq<Segment>, k: nat, c: Config) returns (p: Group, rest: seq<Segment>)
    requires 0 < k <= |queue| && IsFilled(queue, k, c)
    ensures IsFirstParent(queue, c, p, rest)
    decreases |queue| - k
  {
    hide Size, SplitSegment;
    p, rest := queue[..k], queue[k..];
    FilledFront(queue, k, c);
    assert queue == p + rest;
    if !IsClosedBy(p, rest, c) {
      assert p + [rest[0]] == queue[..k + 1];
      if Size(queue[..k + 1]) <= c.parentMax {
        p, rest := FirstParentFrom(queue, k + 1, c);
      } else {
        p, rest := PartOfBody(queue, c);
      }
    }
  }

  lemma FilledFront(queue: seq<Segment>, k: nat, c: Config)
    requires k <= |queue| && IsFilled(queue, k, c)
    ensures IsFilled(queue[..k], k, c)
  {
    hide Size, IsBelowTarget;
    var p := queue[..k];
    forall i | 0 < i < k ensures Takes(p, i, c) {
      assert Takes(queue, i, c);
      assert p[..i] == queue[..i] && p[..i + 1] == queue[..i + 1];
    }
  }

  lemma PartOfBody(queue: seq<Segment>, c: Config) returns (p: Group, rest: seq<Segment>)
    requires |queue| >= 2 && queue[0].kind == Heading && queue[1].kind != Heading
    requires Size(queue[..1]) < c.parentMax < Size(queue[..2])
    ensures IsHeadingWithPart(queue, c, p, rest)
  {
    hide Size, SplitSegment;
    assert queue[..1] == [queue[0]] && queue[..2] == [queue[0], queue[1]];
    var room := c.parentMax - Size([queue[0]]);
    SplitSegmentParts(queue[1], room);
    var parts := SplitSegment(queue[1], room);
    p, rest := [queue[0], parts[0]], parts[1..] + queue[2..];
  }

  lemma FirstParent(queue: seq<Segment>, c: Config) returns (p: Group, rest: seq<Segment>)
    requires queue != []
    ensures IsFirstParent(queue, c, p, rest) && ParentGroups(queue, c) == [p] + ParentGroups(rest, c)
  {
    hide ParentGroups, IsFirstParent;
    p, rest := FirstParentFrom(queue, 1, c);
    FirstParentFirst(queue, c, p, rest);
  }

  lemma NoParents(c: Config)
    ensures ParentGroups([], c) == []
  {}

  // ---------- the parents, exactly ----------

  lemma {:induction false} GroupingIsParents(queue: seq<Segment>, parents: seq<Group>, c: Config)
    requires IsGrouping(queue, parents, c)
    ensures parents == ParentGroups(queue, c)
    decreases |parents|
  {
    hide ParentGroups, IsFirstParent;
    NoParents(c);
    if parents != [] {
      var rest :| IsFirstParent(queue, c, parents[0], rest) && IsGrouping(rest, parents[1..], c);
      FirstParentFirst(queue, c, parents[0], rest);
      GroupingIsParents(rest, parents[1..], c);
    }
  }

  lemma {:induction false} ParentsAreGrouping(queue: seq<Segment>, c: Config)
    ensures IsGrouping(queue, ParentGroups(queue, c), c)
    decreases |ParentGroups(queue, c)|
  {
    hide ParentGroups, IsFirstParent;
    NoParents(c);
    if queue != [] {
      var p, rest := FirstParent(queue, c);
      ParentsAreGrouping(rest, c);
      var parents := ParentGroups(queue, c);
      assert parents[0] == p && parents[1..] == ParentGroups(rest, c);
    }
  }

  /** The parents are the one grouping in which every parent is filled from below its target and within the maximum,
      and closed no earlier than it has to be. */
  lemma ParentsExactly(segments: seq<Segment>, parents: seq<Group>, c: Config)
    ensures parents == ParentGroups(segments, c) <==> IsGrouping(segments, parents, c)
  {
    hide ParentGroups, IsGrouping;
    ParentsAreGrouping(segments, c);
    if IsGrouping(segments, parents, c) { GroupingIsParents(segments, parents, c); }
  }

  /** The queue that the parent at this place was taken from. */
  lemma {:induction false} ParentAt(segments: seq<Segment>, c: Config, i: nat) returns (queue: seq<Segment>, rest: seq<Segment>)
    requires i < |ParentGroups(segments, c)|
    ensures IsFirstParent(queue, c, ParentGroups(segments, c)[i], rest)
    ensures ParentGroups(rest, c) == ParentGroups(segments, c)[i + 1..]
    decreases i
  {
    hide ParentGroups, IsFirstParent;
    NoParents(c);
    var p, later := FirstParent(segments, c);
    if i == 0 {
      queue, rest := segments, later;
    } else {
      queue, rest := ParentAt(later, c, i - 1);
      assert ParentGroups(later, c)[i..] == ParentGroups(segments, c)[i + 1..];
    }
  }

  /** No overfilling: a parent that still took a segment was below its target, or a lone heading. */
  lemma ParentsAreFilledFromBelow(segments: seq<Segment>, c: Config, i: nat, k: nat)
    requires i < |ParentGroups(segments, c)| && 0 < k < |ParentGroups(segments, c)[i]|
    requires !(k == 1 && ParentGroups(segments, c)[i][0].kind == Heading)
    ensures Size(ParentGroups(segments, c)[i][..k]) < c.parentTarget
  {
    hide ParentGroups, SplitSegment, Size;
    var p := ParentGroups(segments, c)[i];
    var queue, rest := ParentAt(segments, c, i);
    assert IsWholeParent(queue, c, p, rest);
    assert Takes(p, k, c) && p[..k][0] == p[0];
  }

  /** The segment that comes next, if it is not a heading, starts the next parent. */
  lemma NextStartsParent(queue: seq<Segment>, c: Config)
    requires queue != []
    ensures ParentGroups(queue, c) != [] && ParentGroups(queue, c)[0] != [] && ParentGroups(queue, c)[0][0] == queue[0]
  {
    hide ParentGroups, SplitSegment, Size;
    var p, rest := FirstParent(queue, c);
  }

  lemma CutMakesParts(s: Segment, n: nat)
    requires n > 0 && Count(s.text) > n
    ensures |SplitSegment(s, n)| > 1
  {
    hide Tokens, SentenceSplit, TableSplit, HardSplit;
    HardSplitConserves(s, n);
  }

  /** The body does not fit after the heading; its first part is in the parent and `next` is its second part. */
  predicate IsBodyOf(body: Segment, p: Group, next: Segment, c: Config)
    requires |p| == 2
  {
    var room := c.parentMax - Size(p[..1]);
    && 0 < room < Count(body.text)
    && |SplitSegment(body, room)| > 1 && SplitSegment(body, room)[0] == p[1] && SplitSegment(body, room)[1] == next
  }

  /** No early closing: a parent ends where the next one starts with a heading, where its target is reached, where the
      next segment does not fit, or where it is a heading with the first part of a body that is cut to fit. */
  lemma ParentsCloseLate(segments: seq<Segment>, c: Config, i: nat)
    requires i + 1 < |ParentGroups(segments, c)|
    ensures var p, q := ParentGroups(segments, c)[i], ParentGroups(segments, c)[i + 1];
            && p != [] && q != []
            && (|| q[0].kind == Heading
                || (Size(p) >= c.parentTarget && !(|p| == 1 && p[0].kind == Heading))
                || Size(p + [q[0]]) > c.parentMax
                || (|p| == 2 && p[0].kind == Heading && Size(p[..1]) < c.parentMax
                    && exists body: Segment :: IsBodyOf(body, p, q[0], c)))
  {
    hide ParentGroups, SplitSegment, Size, IsFilled;
    NoParents(c);
    var p := ParentGroups(segments, c)[i];
    var queue, rest := ParentAt(segments, c, i);
    NextStartsParent(rest, c);
    if !IsWholeParent(queue, c, p, rest) {
      assert IsHeadingWithPart(queue, c, p, rest);
      HeadIsCut(queue, c, p, rest);
      assert p[..1] == [queue[0]];
    }
  }

  lemma HeadIsCut(queue: seq<Segment>, c: Config, p: Group, rest: seq<Segment>)
    requires IsHeadingWithPart(queue, c, p, rest)
    ensures rest != [] && |p| == 2 && IsBodyOf(queue[1], p, rest[0], c)
  {
    hide Tokens, SplitSegment, SegmentTokens;
    SegmentTokensOne(queue[1]);
    SegmentTokensSnoc([queue[0]], queue[1]);
    assert [queue[0]] + [queue[1]] == [queue[0], queue[1]];
    assert p[..1] == [queue[0]];
    CutMakesParts(queue[1], c.parentMax - Size([queue[0]]));
  }
}
