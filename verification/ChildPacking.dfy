/** `_pack_child_groups`: packing the segments of one parent into base groups of bounded size. */
module ChildPacking {
  import opened Wrappers
  import opened Tokenization
  import opened Segments
  import opened SegmentSplitting
  import opened Content

  datatype Limits = Limits(min: nat, target: nat, max: nat)

  predicate ValidLimits(l: Limits) { 1 <= l.min <= l.target <= l.max }

  /** The local state of the loop. */
  datatype Packing = Packing(groups: seq<Group>, queue: seq<Segment>, current: Group, unprocessed: int)

  function TotalCount(segments: seq<Segment>): nat {
    if segments == [] then 0 else Count(segments[0].text) + TotalCount(segments[1..])
  }

  lemma {:induction false} TotalCountIsSize(segments: seq<Segment>)
    ensures TotalCount(segments) == Size(segments)
  {
    hide Tokens;
    if segments != [] { TotalCountIsSize(segments[1..]); }
  }

  predicate AllHeadings(g: Group) { forall s <- g :: s.kind == Heading }

  function Flush(p: Packing): Packing {
    p.(groups := if p.current == [] then p.groups else p.groups + [p.current], current := [])
  }

  /** Whether what is left would be too small for a group of its own and still fits the current one. */
  predicate AbsorbsTail(p: Packing, l: Limits)
    requires p.queue != []
  {
    && p.unprocessed < l.min
    && Count(JoinSegments(p.current)) + p.unprocessed <= l.max
  }

  /** The first decision of a turn: close a group that has reached the target. */
  function CloseFull(p: Packing, l: Limits): Packing
    requires p.queue != []
  {
    if p.current != [] && Count(JoinSegments(p.current)) >= l.target && !AbsorbsTail(p, l) then Flush(p)
    else p
  }

  function HeadingRoom(p: Packing, l: Limits): (n: nat)
    ensures n > 0
  {
    Max(1, l.max - Count(JoinSegments(p.current)))
  }

  /** A segment that does not fit after headings alone leaves its first part with them. */
  function SplitAfterHeadings(p: Packing, l: Limits): Packing
    requires p.queue != []
  {
    SplitSegmentParts(p.queue[0], HeadingRoom(p, l));
    var parts := SplitSegment(p.queue[0], HeadingRoom(p, l));
    Packing(p.groups + [p.current + [parts[0]]], parts[1..] + p.queue[1..], [],
            p.unprocessed - Count(p.queue[0].text) + TotalCount(parts[1..]))
  }

  function Place(p: Packing, l: Limits): Packing
    requires p.queue != []
  {
    var segment, rest := p.queue[0], p.queue[1..];
    var unprocessed := p.unprocessed - Count(segment.text);
    if p.current != [] && Count(JoinSegments(p.current + [segment])) > l.max then
      if AllHeadings(p.current) then SplitAfterHeadings(p, l)
      else Packing(p.groups + [p.current], rest, [segment], unprocessed)
    else Packing(p.groups, rest, p.current + [segment], unprocessed)
  }

  /** One turn of the loop. */
  function Step(p: Packing, l: Limits): Packing
    requires p.queue != []
  {
    Place(CloseFull(p, l), l)
  }

  // ---------- termination ----------

  function HeadingWeight(segments: seq<Segment>): nat {
    if segments == [] then 0
    else (if segments[0].kind == Heading then 2 * Max(1, Count(segments[0].text)) else 0) + HeadingWeight(segments[1..])
  }

  lemma {:induction false} HeadingWeightConcat(a: seq<Segment>, b: seq<Segment>)
    ensures HeadingWeight(a + b) == HeadingWeight(a) + HeadingWeight(b)
  {
    hide Tokens;
    if a == [] {
      assert a + b == b;
    } else {
      assert (a + b)[1..] == a[1..] + b;
      HeadingWeightConcat(a[1..], b);
    }
  }

  lemma {:induction false} HeadingWeightBound(segments: seq<Segment>)
    requires forall s <- segments :: s.kind == Heading ==> Count(s.text) > 0
    ensures HeadingWeight(segments) <= 2 * Size(segments)
  {
    hide Tokens;
    if segments != [] { HeadingWeightBound(segments[1..]); }
  }

  lemma {:induction false} NoHeadingWeight(segments: seq<Segment>)
    requires forall s <- segments :: s.kind != Heading
    ensures HeadingWeight(segments) == 0
  {
    if segments != [] { NoHeadingWeight(segments[1..]); }
  }

  function Weight(p: Packing): nat {
    HeadingWeight(p.queue) + if p.current != [] && AllHeadings(p.current) then 1 else 0
  }

  /** The parts that go back to the queue weigh less than the segment they were cut from. */
  lemma RemainderWeight(s: Segment, n: nat)
    requires n > 0
    ensures SplitSegment(s, n) != []
    ensures HeadingWeight(SplitSegment(s, n)[1..]) <= HeadingWeight([s])
    ensures s.kind == Heading ==> HeadingWeight(SplitSegment(s, n)[1..]) + 2 <= HeadingWeight([s])
  {
    hide Tokens, SplitSegment, SegmentTokens;
    var parts := SplitSegment(s, n);
    SplitSegmentParts(s, n);
    assert [s][1..] == [];
    if s.kind != Heading {
      NoHeadingWeight(parts[1..]);
    } else if Count(s.text) == 0 {
      SplitOfNothing(s, n);
    } else {
      SplitSegmentConserves(s, n);
      assert parts == [parts[0]] + parts[1..];
      SegmentTokensCons(parts[0], parts[1..]);
      HeadingWeightBound(parts[1..]);
    }
  }

  lemma SplitOfNothing(s: Segment, n: nat)
    requires Count(s.text) == 0
    requires n > 0
    ensures SplitSegment(s, n) == [s]
  {}

  /** The measure that every turn decreases, although table parts bring their headers back. */
  lemma StepDecreases(p: Packing, l: Limits)
    requires p.queue != []
    ensures || Weight(Step(p, l)) < Weight(p)
            || (Weight(Step(p, l)) == Weight(p) && |Step(p, l).queue| < |p.queue|)
  {
    hide Tokens, JoinSegments, SplitSegment;
    var q := CloseFull(p, l);
    var segment, rest := q.queue[0], q.queue[1..];
    assert q.queue == [segment] + rest && [segment][1..] == [];
    HeadingWeightConcat([segment], rest);
    assert HeadingWeight([]) == 0;
    RemainderWeight(segment, HeadingRoom(q, l));
    HeadingWeightConcat(SplitSegment(segment, HeadingRoom(q, l))[1..], rest);
    if q.current != [] && !AllHeadings(q.current) {
      var s :| s in q.current && s.kind != Heading;
      assert s in q.current + [segment];
    }
    if segment.kind != Heading {
      assert segment in [segment] && segment in q.current + [segment];
    }
  }

  /** The whole loop and the final flush. */
  function Run(p: Packing, l: Limits): Packing
    decreases Weight(p), |p.queue|
  {
    if p.queue == [] then Flush(p)
    else
      StepDecreases(p, l);
      Run(Step(p, l), l)
  }

  lemma RunStep(p: Packing, l: Limits)
    requires p.queue != []
    ensures Run(p, l) == Run(Step(p, l), l)
  {
    hide Step;
  }

  lemma RunDone(p: Packing, l: Limits)
    requires p.queue == []
    ensures Run(p, l) == Flush(p)
  {}

  /** The last step: a last group that is too small joins the one before it when both fit. */
  function MergeTail(groups: seq<Group>, l: Limits): seq<Group> {
    var n := |groups|;
    if n >= 2 && Count(JoinSegments(groups[n - 1])) < l.min
       && Count(JoinSegments(groups[n - 2] + groups[n - 1])) <= l.max
    then groups[..n - 2] + [groups[n - 2] + groups[n - 1]]
    else groups
  }

  function BaseGroups(segments: seq<Segment>, l: Limits): seq<Group> {
    MergeTail(Run(Packing([], segments, [], TotalCount(segments)), l).groups, l)
  }

  /** `_pack_child_groups`. */
  method PackChildGroups(segments: seq<Segment>, l: Limits) returns (groups: seq<Group>)
    ensures groups == BaseGroups(segments, l)
  {
    hide Tokens, JoinSegments, SplitSegment, Weight, Run;
    var queue := segments;
    groups := [];
    var current: Group := [];
    var unprocessed: int := TotalCount(segments);
    while queue != []
      invariant Run(Packing(groups, queue, current, unprocessed), l)
             == Run(Packing([], segments, [], TotalCount(segments)), l)
      decreases Weight(Packing(groups, queue, current, unprocessed)), |queue|
    {
      ghost var p := Packing(groups, queue, current, unprocessed);
      StepDecreases(p, l);
      RunStep(p, l);
      var segment := queue[0];
      queue := queue[1..];
      var segmentTokens := Count(segment.text);
      unprocessed := unprocessed - segmentTokens;
      var currentTokens := Count(JoinSegments(current));
      var remainingTokens := segmentTokens + unprocessed;
      if current != [] && currentTokens >= l.target {
        var canAbsorbSmallTail := remainingTokens < l.min && currentTokens + remainingTokens <= l.max;
        if !canAbsorbSmallTail {
          groups := groups + [current];
          current := [];
        }
      }
      if current != [] && Count(JoinSegments(current + [segment])) > l.max {
        if AllHeadings(current) {
          var available := l.max - currentTokens;
          SplitSegmentParts(segment, Max(1, available));
          var parts := SplitSegment(segment, Max(1, available));
          current := current + [parts[0]];
          queue := parts[1..] + queue;
          unprocessed := unprocessed + TotalCount(parts[1..]);
          groups := groups + [current];
          current := [];
        } else {
          groups := groups + [current];
          current := [segment];
        }
      } else {
        current := current + [segment];
      }
      assert Packing(groups, queue, current, unprocessed) == Step(p, l);
    }
    RunDone(Packing(groups, queue, current, unprocessed), l);
    if current != [] {
      groups := groups + [current];
    }
    if |groups| >= 2 {
      var n := |groups|;
      var lastTokens := Count(JoinSegments(groups[n - 1]));
      var merged := groups[n - 2] + groups[n - 1];
      if lastTokens < l.min && Count(JoinSegments(merged)) <= l.max {
        groups := groups[n - 2 := merged][..n - 1];
      }
    }
  }

  // ---------- size ----------

  /** Groups, current group and queued segments are within the maximum, and the counter of
      unprocessed tokens is the size of the queue. */
  predicate WithinMax(p: Packing, l: Limits) {
    && p.unprocessed == TotalCount(p.queue)
    && (forall g <- p.groups :: g != [] && Size(g) <= l.max)
    && Size(p.current) <= l.max
    && (forall s <- p.queue :: Count(s.text) <= l.max)
  }

  lemma TotalCountConcat(a: seq<Segment>, b: seq<Segment>)
    ensures TotalCount(a + b) == TotalCount(a) + TotalCount(b)
  {
    hide SegmentTokens;
    TotalCountIsSize(a + b);
    TotalCountIsSize(a);
    TotalCountIsSize(b);
    SegmentTokensConcat(a, b);
  }

  lemma TotalCountCons(s: Segment, rest: seq<Segment>)
    ensures TotalCount([s] + rest) == Count(s.text) + TotalCount(rest)
  {
    assert ([s] + rest)[1..] == rest;
  }

  lemma CloseFullKeepsSizes(p: Packing, l: Limits)
    requires p.queue != [] && WithinMax(p, l) && ValidLimits(l)
    ensures WithinMax(CloseFull(p, l), l)
    ensures var q := CloseFull(p, l);
            q.current != [] && Size(q.current) + Count(q.queue[0].text) > l.max ==> Size(q.current) < l.target
  {
    hide Tokens, JoinSegments, SegmentTokens;
    JoinSegmentsTokens(p.current);
    assert p.queue == [p.queue[0]] + p.queue[1..];
    TotalCountCons(p.queue[0], p.queue[1..]);
    assert Size([]) == 0 by { NothingIsSmall(); }
  }

  /** At a heading split there is always room for at least one token. */
  lemma PlaceKeepsSizes(p: Packing, l: Limits)
    requires p.queue != [] && WithinMax(p, l) && ValidLimits(l)
    requires p.current != [] && Size(p.current) + Count(p.queue[0].text) > l.max ==> Size(p.current) < l.target
    ensures WithinMax(Place(p, l), l)
  {
    hide Tokens, JoinSegments, SegmentTokens, SplitSegment, TotalCount;
    var segment, rest := p.queue[0], p.queue[1..];
    assert p.queue == [segment] + rest;
    assert segment in p.queue && forall s <- rest :: s in p.queue;
    TotalCountCons(segment, rest);
    JoinSegmentsTokens(p.current);
    JoinSegmentsTokens(p.current + [segment]);
    SegmentTokensSnoc(p.current, segment);
    SegmentTokensOne(segment);
    NothingIsSmall();
    assert [] + [segment] == [segment];
    if Size(p.current) < l.target {
      var room := l.max - Size(p.current);
      assert HeadingRoom(p, l) == room;
      SplitSegmentParts(segment, room);
      SplitSegmentNoLarger(segment, room);
      var parts := SplitSegment(segment, room);
      SegmentTokensSnoc(p.current, parts[0]);
      TotalCountConcat(parts[1..], rest);
    }
  }

  lemma {:induction false} RunSizes(p: Packing, l: Limits)
    requires WithinMax(p, l) && ValidLimits(l)
    ensures WithinMax(Run(p, l), l)
    decreases Weight(p), |p.queue|
  {
    hide Tokens, SegmentTokens, TotalCount;
    if p.queue == [] {
      NothingIsSmall();
    } else {
      CloseFullKeepsSizes(p, l);
      PlaceKeepsSizes(CloseFull(p, l), l);
      StepDecreases(p, l);
      RunSizes(Step(p, l), l);
    }
  }

  /** When no segment is over the maximum, no base group is. */
  lemma BaseGroupsWithinMax(segments: seq<Segment>, l: Limits)
    requires ValidLimits(l) && forall s <- segments :: Count(s.text) <= l.max
    ensures forall g <- BaseGroups(segments, l) :: g != [] && Size(g) <= l.max
  {
    hide Tokens, SegmentTokens, JoinSegments;
    NothingIsSmall();
    var p := Packing([], segments, [], TotalCount(segments));
    RunSizes(p, l);
    var groups := Run(p, l).groups;
    var n := |groups|;
    if n >= 2 {
      JoinSegmentsTokens(groups[n - 2] + groups[n - 1]);
      assert groups[n - 2] in groups;
    }
  }

  // ---------- content ----------

  function AllSegments(p: Packing): seq<Segment> { Flat(p.groups) + p.current + p.queue }

  function HeadingTokens(segments: seq<Segment>): nat {
    if segments == [] then 0
    else (if segments[0].kind == Heading then Count(segments[0].text) else 0) + HeadingTokens(segments[1..])
  }

  lemma {:induction false} HeadingTokensConcat(a: seq<Segment>, b: seq<Segment>)
    ensures HeadingTokens(a + b) == HeadingTokens(a) + HeadingTokens(b)
  {
    hide Tokens;
    if a == [] {
      assert a + b == b;
    } else {
      assert (a + b)[1..] == a[1..] + b;
      HeadingTokensConcat(a[1..], b);
    }
  }

  lemma {:induction false} HeadingTokensOfKind(segments: seq<Segment>, heading: bool)
    requires forall s <- segments :: (s.kind == Heading) == heading
    ensures HeadingTokens(segments) == if heading then Size(segments) else 0
  {
    hide Tokens;
    if segments != [] { HeadingTokensOfKind(segments[1..], heading); }
  }

  /** No table has to be cut, even after all the headings that are still around. */
  predicate TablesWhole(p: Packing, l: Limits, headings: nat) {
    && (forall s <- p.queue :: WholeTable(s, l.max - headings))
    && HeadingTokens(p.current) + HeadingTokens(p.queue) <= headings
  }

  lemma FlushSegments(p: Packing)
    ensures AllSegments(Flush(p)) == AllSegments(p)
  {
    hide Flat;
    FlatSnoc(p.groups, p.current);
    assert Flat(Flush(p).groups) == Flat(p.groups) + p.current;
    assert Flat(p.groups) + p.current + [] == Flat(p.groups) + p.current;
  }

  function Before(p: Packing): seq<Segment> { Flat(p.groups) + p.current }

  lemma QueuedSegments(p: Packing)
    requires p.queue != []
    ensures AllSegments(p) == Before(p) + [p.queue[0]] + p.queue[1..]
  {
    hide Flat;
    assert p.queue == [p.queue[0]] + p.queue[1..];
  }

  /** The turn splits a segment that does not fit after headings alone. */
  predicate SplitsAfterHeadings(p: Packing, l: Limits)
    requires p.queue != []
  {
    Step(p, l) == SplitAfterHeadings(CloseFull(p, l), l)
  }

  lemma HeadingSplitSegments(p: Packing, l: Limits)
    requires p.queue != []
    ensures AllSegments(SplitAfterHeadings(p, l)) == Before(p) + SplitSegment(p.queue[0], HeadingRoom(p, l)) + p.queue[1..]
  {
    hide Flat, SplitSegment, HeadingRoom, Tokens, TotalCount;
    SplitSegmentParts(p.queue[0], HeadingRoom(p, l));
    var parts, rest := SplitSegment(p.queue[0], HeadingRoom(p, l)), p.queue[1..];
    FlatSnoc(p.groups, p.current + [parts[0]]);
    assert parts == [parts[0]] + parts[1..];
    assert Flat(p.groups) + (p.current + [parts[0]]) + [] + (parts[1..] + rest) == Before(p) + parts + rest;
  }

  /** A turn that does not split leaves the segments of groups, current group and queue as they are. */
  lemma StepSegments(p: Packing, l: Limits)
    requires p.queue != []
    ensures AllSegments(CloseFull(p, l)) == AllSegments(p) && CloseFull(p, l).queue == p.queue
    ensures SplitsAfterHeadings(p, l) || AllSegments(Step(p, l)) == AllSegments(p)
  {
    hide Flat, JoinSegments, Tokens, SplitSegment, SplitAfterHeadings, AbsorbsTail, AllHeadings;
    FlushSegments(p);
    PlacedSegments(CloseFull(p, l), l);
  }

  lemma PlacedSegments(p: Packing, l: Limits)
    requires p.queue != []
    ensures Place(p, l) == SplitAfterHeadings(p, l) || AllSegments(Place(p, l)) == AllSegments(p)
  {
    hide Flat, JoinSegments, Tokens, SplitSegment, SplitAfterHeadings, AllHeadings;
    var segment, rest := p.queue[0], p.queue[1..];
    assert p.queue == [segment] + rest;
    FlatSnoc(p.groups, p.current);
    assert Flat(p.groups) + (p.current + [segment]) + rest == AllSegments(p);
    assert Flat(p.groups) + p.current + [segment] + rest == AllSegments(p);
  }

  lemma SplitHeadingTokens(s: Segment, n: nat)
    requires n > 0
    ensures HeadingTokens(SplitSegment(s, n)) == HeadingTokens([s])
  {
    hide Tokens, SplitSegment, SegmentTokens;
    SplitSegmentParts(s, n);
    HeadingTokensOfKind(SplitSegment(s, n), s.kind == Heading);
    HeadingTokensOfKind([s], s.kind == Heading);
    if s.kind == Heading {
      SplitSegmentConserves(s, n);
      SegmentTokensOne(s);
    }
  }

  lemma PlaceKeepsContents(p: Packing, l: Limits, headings: nat)
    requires p.queue != [] && TablesWhole(p, l, headings)
    requires p.current != [] && Count(JoinSegments(p.current + [p.queue[0]])) > l.max ==> Size(p.current) < l.max
    ensures TablesWhole(Place(p, l), l, headings)
    ensures Contents(AllSegments(Place(p, l))) == Contents(AllSegments(p))
  {
    hide Tokens, JoinSegments, SegmentTokens, SplitSegment, HeadingTokens, Contents, WholeTable, AllSegments;
    var segment, rest := p.queue[0], p.queue[1..];
    assert p.queue == [segment] + rest;
    assert segment in p.queue && forall s <- rest :: s in p.queue;
    JoinSegmentsTokens(p.current);
    HeadingTokensConcat([segment], rest);
    HeadingTokensConcat(p.current, [segment]);
    assert HeadingTokens([]) == 0 by { NoHeadingTokens(); }
    PlacedSegments(p, l);
    if p.current != [] && Count(JoinSegments(p.current + [segment])) > l.max && AllHeadings(p.current) {
      HeadingTokensOfKind(p.current, true);
      HeadingSplitContents(p, l, segment, rest, l.max - headings);
    }
  }

  lemma NoHeadingTokens()
    ensures HeadingTokens([]) == 0
  {}

  lemma HeadingSplitContents(p: Packing, l: Limits, segment: Segment, rest: seq<Segment>, room: int)
    requires p.queue == [segment] + rest && room <= l.max - Size(p.current)
    requires Size(p.current) < l.max && WholeTable(segment, room)
    ensures var parts := SplitSegment(segment, HeadingRoom(p, l));
            && parts != []
            && (forall s <- parts :: WholeTable(s, room))
            && HeadingTokens(parts[1..] + rest) <= HeadingTokens(p.queue)
            && Contents(AllSegments(SplitAfterHeadings(p, l))) == Contents(AllSegments(p))
  {
    hide Tokens, JoinSegments, SegmentTokens, SplitSegment, HeadingTokens, Contents, Before, AllSegments, SplitAfterHeadings;
    hide WholeTable;
    JoinSegmentsTokens(p.current);
    var n := HeadingRoom(p, l);
    var parts := SplitSegment(segment, n);
    SplitSegmentParts(segment, n);
    WholeAt(segment, room, n);
    SplitSegmentContents(segment, n);
    SplitSegmentWhole(segment, n, room);
    SplitHeadingTokens(segment, n);
    assert parts == [parts[0]] + parts[1..];
    HeadingTokensConcat([parts[0]], parts[1..]);
    HeadingTokensConcat(parts[1..], rest);
    HeadingTokensConcat([segment], rest);
    assert p.queue[1..] == rest;
    QueuedSegments(p);
    HeadingSplitSegments(p, l);
    ContentsOne(segment);
    ReplacedContents(Before(p), segment, parts, rest);
  }

  lemma {:induction false} RunContents(p: Packing, l: Limits, headings: nat)
    requires WithinMax(p, l) && ValidLimits(l) && TablesWhole(p, l, headings)
    ensures Contents(AllSegments(Run(p, l))) == Contents(AllSegments(p))
    decreases Weight(p), |p.queue|
  {
    hide Contents, Tokens, SegmentTokens, TotalCount, HeadingTokens, WholeTable, JoinSegments;
    FlushSegments(p);
    if p.queue != [] {
      var q := CloseFull(p, l);
      CloseFullKeepsSizes(p, l);
      NoHeadingTokens();
      JoinSegmentsTokens(q.current + [q.queue[0]]);
      SegmentTokensSnoc(q.current, q.queue[0]);
      PlaceKeepsSizes(q, l);
      PlaceKeepsContents(q, l, headings);
      StepDecreases(p, l);
      RunContents(Step(p, l), l, headings);
    }
  }

  lemma {:induction false} FlatConcat(a: seq<Group>, b: seq<Group>)
    ensures Flat(a + b) == Flat(a) + Flat(b)
  {
    if a == [] {
      assert a + b == b;
    } else {
      assert (a + b)[1..] == a[1..] + b;
      FlatConcat(a[1..], b);
    }
  }

  lemma MergeTailKeepsSegments(groups: seq<Group>, l: Limits)
    ensures Flat(MergeTail(groups, l)) == Flat(groups)
  {
    hide JoinSegments, Flat;
    var n := |groups|;
    if n >= 2 {
      var a, b := groups[n - 2], groups[n - 1];
      FlatSnoc(groups[..n - 2], a + b);
      FlatSnoc(groups[..n - 2], a);
      assert groups[..n - 2] + [a] == groups[..n - 1];
      FlatSnoc(groups[..n - 1], b);
      assert groups[..n - 1] + [b] == groups;
      assert Flat(groups[..n - 2]) + a + b == Flat(groups[..n - 2]) + (a + b);
    }
  }

  lemma {:induction false} RunEmpties(p: Packing, l: Limits)
    ensures Run(p, l).queue == [] && Run(p, l).current == []
    decreases Weight(p), |p.queue|
  {
    hide Tokens;
    if p.queue != [] {
      StepDecreases(p, l);
      RunEmpties(Step(p, l), l);
    }
  }

  lemma BaseGroupsSegments(segments: seq<Segment>, l: Limits)
    ensures Flat(BaseGroups(segments, l)) == AllSegments(Run(Packing([], segments, [], TotalCount(segments)), l))
    ensures AllSegments(Packing([], segments, [], TotalCount(segments))) == segments
  {
    hide Flat;
    var p := Packing([], segments, [], TotalCount(segments));
    RunEmpties(p, l);
    MergeTailKeepsSegments(Run(p, l).groups, l);
    assert Flat([]) == [] by { FlatNone(); }
    assert Flat(Run(p, l).groups) + [] + [] == Flat(Run(p, l).groups);
  }

  lemma FlatNone()
    ensures Flat([]) == []
  {}

  /** When no table has to be cut, the base groups in order hold exactly the tokens of the segments. */
  lemma BaseGroupsConserve(segments: seq<Segment>, l: Limits)
    requires ValidLimits(l) && forall s <- segments :: Count(s.text) <= l.max
    requires forall s <- segments :: WholeTable(s, l.max - HeadingTokens(segments))
    ensures Contents(Flat(BaseGroups(segments, l))) == Contents(segments)
  {
    hide Tokens, SegmentTokens, Contents, WholeTable;
    var p := Packing([], segments, [], TotalCount(segments));
    NothingIsSmall();
    NoHeadingTokens();
    RunContents(p, l, HeadingTokens(segments));
    BaseGroupsSegments(segments, l);
  }

  // ---------- provenance ----------

  /** Every segment of `segments` is a part of some segment of `source`. */
  predicate AllFrom(segments: seq<Segment>, source: seq<Segment>) {
    forall s <- segments :: From(s, source)
  }

  predicate From(s: Segment, source: seq<Segment>) { exists t <- source :: PartOf(s, t) }

  lemma PartsFrom(parts: seq<Segment>, s: Segment, source: seq<Segment>)
    requires From(s, source) && forall p <- parts :: PartOf(p, s)
    ensures AllFrom(parts, source)
  {
    var t :| t in source && PartOf(s, t);
    forall p | p in parts ensures From(p, source) { assert PartOf(p, t); }
  }

  predicate Kept(segments: seq<Segment>, source: seq<Segment>, pageCount: Option<int>) {
    && AllFrom(segments, source)
    && (forall s <- segments :: Sound(s, pageCount))
  }

  /** Each turn keeps the set of source blocks. */
  lemma StepKeepsOrders(p: Packing, l: Limits)
    requires p.queue != []
    ensures Orders(AllSegments(Step(p, l))) == Orders(AllSegments(p))
  {
    hide Tokens, JoinSegments, SplitSegment, Before, AllSegments, Orders, Step, SplitAfterHeadings, CloseFull, HeadingRoom;
    StepSegments(p, l);
    var q := CloseFull(p, l);
    if SplitsAfterHeadings(p, l) {
      QueuedSegments(q);
      HeadingSplitSegments(q, l);
      SplitSegmentParts(q.queue[0], HeadingRoom(q, l));
      ReplacedOrders(Before(q), q.queue[0], SplitSegment(q.queue[0], HeadingRoom(q, l)), q.queue[1..]);
    }
  }

  lemma {:induction false} RunOrders(p: Packing, l: Limits)
    ensures Orders(AllSegments(Run(p, l))) == Orders(AllSegments(p))
    decreases Weight(p), |p.queue|
  {
    hide Tokens, Orders;
    FlushSegments(p);
    if p.queue != [] {
      StepKeepsOrders(p, l);
      StepDecreases(p, l);
      RunOrders(Step(p, l), l);
    }
  }

  /** Base groups draw on the same source blocks as the segments. */
  lemma BaseGroupsOrders(segments: seq<Segment>, l: Limits)
    ensures Orders(Flat(BaseGroups(segments, l))) == Orders(segments)
  {
    hide Orders;
    BaseGroupsSegments(segments, l);
    RunOrders(Packing([], segments, [], TotalCount(segments)), l);
  }

  /** Each turn keeps every segment sound and a part of the source. */
  lemma StepKeepsSources(p: Packing, l: Limits, source: seq<Segment>, pageCount: Option<int>)
    requires p.queue != [] && Kept(AllSegments(p), source, pageCount)
    ensures Kept(AllSegments(Step(p, l)), source, pageCount)
  {
    hide Tokens, JoinSegments, SplitSegment, Before, AllSegments, Sound, From, Step, SplitAfterHeadings, CloseFull, HeadingRoom;
    StepSegments(p, l);
    var q := CloseFull(p, l);
    if SplitsAfterHeadings(p, l) {
      var segment, n := q.queue[0], HeadingRoom(q, l);
      var parts := SplitSegment(segment, n);
      QueuedSegments(q);
      HeadingSplitSegments(q, l);
      assert segment in AllSegments(q);
      SplitSegmentParts(segment, n);
      SplitSegmentSound(segment, n, pageCount);
      PartsFrom(parts, segment, source);
      assert forall s <- AllSegments(Step(p, l)) :: s in parts || s in AllSegments(q);
    }
  }

  lemma {:induction false} RunSources(p: Packing, l: Limits, source: seq<Segment>, pageCount: Option<int>)
    requires Kept(AllSegments(p), source, pageCount)
    ensures Kept(AllSegments(Run(p, l)), source, pageCount)
    decreases Weight(p), |p.queue|
  {
    hide Tokens, Kept;
    FlushSegments(p);
    if p.queue != [] {
      StepKeepsSources(p, l, source, pageCount);
      StepDecreases(p, l);
      RunSources(Step(p, l), l, source, pageCount);
    }
  }

  /** Base groups are made of sound parts of the given segments. */
  lemma BaseGroupsSources(segments: seq<Segment>, l: Limits, source: seq<Segment>, pageCount: Option<int>)
    requires Kept(segments, source, pageCount)
    ensures Kept(Flat(BaseGroups(segments, l)), source, pageCount)
  {
    hide Kept;
    BaseGroupsSegments(segments, l);
    RunSources(Packing([], segments, [], TotalCount(segments)), l, source, pageCount);
  }

  lemma {:induction false} RunNonEmpty(p: Packing, l: Limits)
    requires forall g <- p.groups :: g != []
    ensures forall g <- Run(p, l).groups :: g != []
    decreases Weight(p), |p.queue|
  {
    hide Tokens, JoinSegments, SplitSegment;
    if p.queue != [] {
      StepDecreases(p, l);
      RunNonEmpty(Step(p, l), l);
    }
  }

  /** No base group is empty. */
  lemma BaseGroupsNonEmpty(segments: seq<Segment>, l: Limits)
    ensures forall g <- BaseGroups(segments, l) :: g != []
  {
    hide Tokens, JoinSegments;
    RunNonEmpty(Packing([], segments, [], TotalCount(segments)), l);
    var groups := Run(Packing([], segments, [], TotalCount(segments)), l).groups;
    var n := |groups|;
    if n >= 2 {
      assert groups[n - 2] in groups;
      assert groups[n - 2] + groups[n - 1] != [];
      assert forall g <- groups[..n - 2] :: g in groups;
      assert forall g <- MergeTail(groups, l) :: g in groups || g == groups[n - 2] + groups[n - 1];
    }
  }
}
