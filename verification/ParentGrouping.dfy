/** `_group_parents`: filling parents from a queue of segments that a heading may push back onto. */
module ParentGrouping {
  import opened Wrappers
  import opened Tokenization
  import opened Segments
  import opened SegmentSplitting
  import opened Content
  import opened Headings

  /** The local state of the loop. */
  datatype Grouping = Grouping(
    parents: seq<Group>, queue: seq<Segment>, current: Group, needsBody: bool)

  function Flush(g: Grouping): Grouping {
    g.(parents := if g.current == [] then g.parents else g.parents + [g.current],
       current := [],
       needsBody := false)
  }

  function HeadingCount(segments: seq<Segment>): nat {
    if segments == [] then 0
    else (if segments[0].kind == Heading then 1 else 0) + HeadingCount(segments[1..])
  }

  lemma {:induction false} HeadingCountConcat(a: seq<Segment>, b: seq<Segment>)
    ensures HeadingCount(a + b) == HeadingCount(a) + HeadingCount(b)
  {
    if a == [] {
      assert a + b == b;
    } else {
      assert (a + b)[1..] == a[1..] + b;
      HeadingCountConcat(a[1..], b);
    }
  }

  lemma {:induction false} NoHeadings(segments: seq<Segment>)
    requires forall s <- segments :: s.kind != Heading
    ensures HeadingCount(segments) == 0
  {
    if segments != [] { NoHeadings(segments[1..]); }
  }

  /** A heading with a body that does not fit takes the first part of the body; the rest waits. */
  function SplitBody(g: Grouping, available: nat): Grouping
    requires g.queue != [] && available > 0
  {
    SplitSegmentParts(g.queue[0], available);
    var parts := SplitSegment(g.queue[0], available);
    Flush(g.(current := g.current + [parts[0]], queue := parts[1..] + g.queue[1..]))
  }

  /** One turn of the loop. */
  function Step(g: Grouping, c: Config): Grouping
    requires g.queue != []
  {
    var segment, rest := g.queue[0], g.queue[1..];
    var tokens := Count(JoinSegments(g.current));
    if segment.kind == Heading then
      Flush(g).(queue := rest, current := [segment], needsBody := true)
    else if g.current != [] && !g.needsBody && tokens >= c.parentTarget then Flush(g)
    else if g.current != [] && Count(JoinSegments(g.current + [segment])) > c.parentMax then
      if g.needsBody && c.parentMax - tokens > 0 then SplitBody(g, c.parentMax - tokens)
      else Flush(g)
    else g.(queue := rest, current := g.current + [segment], needsBody := false)
  }

  /** Pushing a remainder back never keeps the loop going: the measure that every turn decreases. */
  lemma StepDecreases(g: Grouping, c: Config)
    requires g.queue != []
    ensures var g' := Step(g, c);
            var before, after := Weight(g), Weight(g');
            || after < before
            || (after == before && |g'.queue| < |g.queue|)
            || (after == before && |g'.queue| == |g.queue| && g'.current == [] && g.current != [])
  {
    hide Tokens, JoinSegments, SplitSegment;
    var segment, rest := g.queue[0], g.queue[1..];
    var tokens := Count(JoinSegments(g.current));
    if segment.kind != Heading && c.parentMax - tokens > 0 {
      var parts := SplitSegment(segment, c.parentMax - tokens);
      SplitSegmentParts(segment, c.parentMax - tokens);
      HeadingCountConcat(parts[1..], rest);
      NoHeadings(parts[1..]);
    }
  }

  function Weight(g: Grouping): nat { 2 * HeadingCount(g.queue) + if g.needsBody then 1 else 0 }

  /** The whole loop and the final flush. */
  function Run(g: Grouping, c: Config): Grouping
    decreases Weight(g), |g.queue|, if g.current == [] then 0 else 1
  {
    if g.queue == [] then Flush(g)
    else
      StepDecreases(g, c);
      Run(Step(g, c), c)
  }

  lemma RunStep(g: Grouping, c: Config)
    requires g.queue != []
    ensures Run(g, c) == Run(Step(g, c), c)
  {
    hide Step;
  }

  lemma RunDone(g: Grouping, c: Config)
    requires g.queue == []
    ensures Run(g, c) == Flush(g)
  {}

  function ParentGroups(segments: seq<Segment>, c: Config): seq<Group> {
    Run(Grouping([], segments, [], false), c).parents
  }

  /** `_group_parents`. */
  method GroupParents(segments: seq<Segment>, c: Config) returns (parents: seq<Group>)
    ensures parents == ParentGroups(segments, c)
  {
    hide Tokens, JoinSegments, SplitSegment, HeadingCount;
    var queue := segments;
    parents := [];
    var current: Group := [];
    var needsBody := false;
    while queue != []
      invariant Run(Grouping(parents, queue, current, needsBody), c) == Run(Grouping([], segments, [], false), c)
      decreases Weight(Grouping(parents, queue, current, needsBody)), |queue|, if current == [] then 0 else 1
    {
      ghost var g := Grouping(parents, queue, current, needsBody);
      StepDecreases(g, c);
      var segment := queue[0];
      queue := queue[1..];
      if segment.kind == Heading {
        if current != [] { parents := parents + [current]; }
        current := [segment];
        needsBody := true;
        assert Grouping(parents, queue, current, needsBody) == Step(g, c);
        continue;
      }
      var currentTokens := Count(JoinSegments(current));
      if current != [] && !needsBody && currentTokens >= c.parentTarget {
        parents, current, needsBody := parents + [current], [], false;
        queue := [segment] + queue;
        assert queue == g.queue;
        assert Grouping(parents, queue, current, needsBody) == Step(g, c);
        continue;
      }
      if current != [] && Count(JoinSegments(current + [segment])) > c.parentMax {
        if needsBody {
          var available := c.parentMax - currentTokens;
          if available <= 0 {
            parents, current, needsBody := parents + [current], [], false;
            queue := [segment] + queue;
            assert queue == g.queue;
          } else {
            SplitSegmentParts(segment, available);
            var parts := SplitSegment(segment, available);
            current := current + [parts[0]];
            queue := parts[1..] + queue;
            parents, current, needsBody := parents + [current], [], false;
          }
        } else {
          parents, current, needsBody := parents + [current], [], false;
          queue := [segment] + queue;
          assert queue == g.queue;
        }
        assert Grouping(parents, queue, current, needsBody) == Step(g, c);
        continue;
      }
      current := current + [segment];
      needsBody := false;
      assert Grouping(parents, queue, current, needsBody) == Step(g, c);
    }
    if current != [] {
      parents := parents + [current];
    }
  }

  // ---------- shape: no parent is empty, a heading only comes first ----------

  predicate HeadingFirstOnly(g: Group) {
    forall i :: 1 <= i < |g| ==> g[i].kind != Heading
  }

  predicate WellShaped(g: Grouping) {
    && (forall p <- g.parents :: p != [] && HeadingFirstOnly(p))
    && HeadingFirstOnly(g.current)
    && (g.needsBody ==> |g.current| == 1)
  }

  lemma StepKeepsShape(g: Grouping, c: Config)
    requires g.queue != [] && WellShaped(g)
    ensures WellShaped(Step(g, c))
  {
    hide Tokens, JoinSegments, SplitSegment;
    var tokens := Count(JoinSegments(g.current));
    if g.queue[0].kind != Heading && c.parentMax - tokens > 0 {
      SplitSegmentParts(g.queue[0], c.parentMax - tokens);
    }
  }

  // ---------- size: every parent within the maximum ----------

  predicate WithinMax(g: Grouping, parentMax: nat) {
    && (forall p <- g.parents :: Size(p) <= parentMax)
    && Size(g.current) <= parentMax
    && (forall s <- g.queue :: Count(s.text) <= parentMax)
  }

  lemma StepKeepsSizes(g: Grouping, c: Config)
    requires g.queue != [] && WithinMax(g, c.parentMax)
    ensures WithinMax(Step(g, c), c.parentMax)
  {
    hide Tokens, SegmentTokens, JoinSegments, SplitSegment;
    var segment := g.queue[0];
    JoinSegmentsTokens(g.current);
    JoinSegmentsTokens(g.current + [segment]);
    SegmentTokensOne(segment);
    SegmentTokensSnoc(g.current, segment);
    NothingIsSmall();
    assert [] + [segment] == [segment];
    var available := c.parentMax - Size(g.current);
    if available > 0 {
      SplitSegmentParts(segment, available);
      SplitSegmentNoLarger(segment, available);
      SegmentTokensSnoc(g.current, SplitSegment(segment, available)[0]);
    }
  }

  // ---------- content: nothing lost, nothing moved ----------

  function AllSegments(g: Grouping): seq<Segment> { Flat(g.parents) + g.current + g.queue }

  /** No table has to be cut, even after the longest heading. */
  predicate TablesWhole(g: Grouping, parentMax: int, longestHeading: nat) {
    && (forall s <- g.queue :: WholeTable(s, parentMax - longestHeading))
    && (forall s <- g.queue :: s.kind == Heading ==> Count(s.text) <= longestHeading)
    && (g.needsBody ==> Size(g.current) <= longestHeading)
  }

  lemma FlushSegments(g: Grouping)
    ensures AllSegments(Flush(g)) == AllSegments(g)
  {
    hide Flat;
    FlatSnoc(g.parents, g.current);
    assert Flat(Flush(g).parents) == Flat(g.parents) + g.current;
    assert Flat(g.parents) + g.current + [] == Flat(g.parents) + g.current;
  }

  function Before(g: Grouping): seq<Segment> { Flat(g.parents) + g.current }

  lemma QueuedSegments(g: Grouping)
    requires g.queue != []
    ensures AllSegments(g) == Before(g) + [g.queue[0]] + g.queue[1..]
  {
    hide Flat;
    assert g.queue == [g.queue[0]] + g.queue[1..];
  }

  function Available(g: Grouping, c: Config): int { c.parentMax - Count(JoinSegments(g.current)) }

  /** The turn splits the body of a heading. */
  predicate SplitsBody(g: Grouping, c: Config)
    requires g.queue != []
  {
    && g.queue[0].kind != Heading && g.needsBody && Available(g, c) > 0
    && Step(g, c) == SplitBody(g, Available(g, c))
  }

  lemma BodySegments(g: Grouping, available: nat)
    requires g.queue != [] && available > 0
    ensures AllSegments(SplitBody(g, available)) == Before(g) + SplitSegment(g.queue[0], available) + g.queue[1..]
  {
    hide Flat, SplitSegment;
    SplitSegmentParts(g.queue[0], available);
    var parts, rest := SplitSegment(g.queue[0], available), g.queue[1..];
    FlushSegments(g.(current := g.current + [parts[0]], queue := parts[1..] + rest));
    assert parts == [parts[0]] + parts[1..];
    assert Flat(g.parents) + (g.current + [parts[0]]) + (parts[1..] + rest) == Before(g) + parts + rest;
  }

  /** A turn that does not split a body leaves the segments of parents, current parent and queue as they are. */
  lemma StepSegments(g: Grouping, c: Config)
    requires g.queue != []
    ensures SplitsBody(g, c) || AllSegments(Step(g, c)) == AllSegments(g)
  {
    hide Flat, JoinSegments, Tokens, SplitSegment, SplitBody;
    FlushSegments(g);
    var segment, rest := g.queue[0], g.queue[1..];
    assert g.queue == [segment] + rest;
    if segment.kind == Heading {
      assert Flat(Flush(g).parents) + [segment] + rest == Flat(Flush(g).parents) + [] + g.queue;
    } else {
      assert Flat(g.parents) + (g.current + [segment]) + rest == AllSegments(g);
    }
  }

  lemma StepKeepsTables(g: Grouping, c: Config, longestHeading: nat)
    requires g.queue != [] && TablesWhole(g, c.parentMax, longestHeading)
    ensures TablesWhole(Step(g, c), c.parentMax, longestHeading)
  {
    hide Tokens, SegmentTokens, JoinSegments, SplitSegment, WholeTable;
    var segment, rest := g.queue[0], g.queue[1..];
    JoinSegmentsTokens(g.current);
    SegmentTokensOne(segment);
    assert g.queue == [segment] + rest && segment in g.queue;
    assert forall s <- rest :: s in g.queue;
    var available := c.parentMax - Size(g.current);
    if segment.kind != Heading && g.needsBody && available > 0 {
      SplitSegmentParts(segment, available);
      WholeAt(segment, c.parentMax - longestHeading, available);
      SplitSegmentWhole(segment, available, c.parentMax - longestHeading);
      var parts := SplitSegment(segment, available);
      assert forall s <- parts[1..] + rest :: s in parts || s in g.queue;
    }
  }

  /** Each turn keeps the labelled token sequence of parents, current parent and queue together. */
  lemma StepKeepsContents(g: Grouping, c: Config, longestHeading: nat)
    requires g.queue != [] && TablesWhole(g, c.parentMax, longestHeading)
    ensures Contents(AllSegments(Step(g, c))) == Contents(AllSegments(g))
  {
    hide Tokens, SegmentTokens, JoinSegments, SplitSegment, Contents, WholeTable, Before, AllSegments, Step, SplitBody;
    StepSegments(g, c);
    JoinSegmentsTokens(g.current);
    if SplitsBody(g, c) {
      assert g.queue[0] in g.queue;
      BodyContents(g, Available(g, c), c.parentMax - longestHeading);
    }
  }

  lemma BodyContents(g: Grouping, available: nat, room: int)
    requires g.queue != [] && available > 0 && room <= available && WholeTable(g.queue[0], room)
    ensures Contents(AllSegments(SplitBody(g, available))) == Contents(AllSegments(g))
  {
    hide Tokens, SplitSegment, SplitBody, Contents, Before, AllSegments, WholeTable;
    var segment, rest := g.queue[0], g.queue[1..];
    WholeAt(segment, room, available);
    SplitSegmentContents(segment, available);
    QueuedSegments(g);
    BodySegments(g, available);
    ContentsOne(segment);
    ReplacedContents(Before(g), segment, SplitSegment(segment, available), rest);
  }

  // ---------- provenance: source blocks, pages, offsets ----------

  predicate AllSound(segments: seq<Segment>, pageCount: Option<int>) {
    forall s <- segments :: Sound(s, pageCount)
  }

  predicate AllPathSafe(segments: seq<Segment>, c: Config) { forall s <- segments :: PathSafe(s, c) }

  /** Each turn keeps the set of source blocks. */
  lemma StepKeepsOrders(g: Grouping, c: Config)
    requires g.queue != []
    ensures Orders(AllSegments(Step(g, c))) == Orders(AllSegments(g))
  {
    hide Tokens, JoinSegments, SplitSegment, Before, AllSegments, Orders, Step, SplitBody;
    StepSegments(g, c);
    if SplitsBody(g, c) {
      QueuedSegments(g);
      BodySegments(g, Available(g, c));
      SplitSegmentParts(g.queue[0], Available(g, c));
      ReplacedOrders(Before(g), g.queue[0], SplitSegment(g.queue[0], Available(g, c)), g.queue[1..]);
    }
  }

  /** Each turn keeps the soundness of every segment, and tables that are safe to cut stay so. */
  lemma StepKeepsSources(g: Grouping, c: Config, pageCount: Option<int>)
    requires g.queue != []
    requires AllSound(AllSegments(g), pageCount)
    ensures AllSound(AllSegments(Step(g, c)), pageCount)
    ensures AllPathSafe(AllSegments(g), c) ==> AllPathSafe(AllSegments(Step(g, c)), c)
  {
    hide Tokens, JoinSegments, SplitSegment, Sound, PathSafe, Before, AllSegments, Step, SplitBody;
    StepSegments(g, c);
    if SplitsBody(g, c) {
      var n, segment := Available(g, c), g.queue[0];
      StepMembers(g, c);
      SplitSegmentSound(segment, n, pageCount);
      if AllPathSafe(AllSegments(g), c) { SplitSegmentPathSafe(segment, n, c); }
    }
  }

  /** A turn brings in no segments but the parts of the one it splits. */
  lemma StepMembers(g: Grouping, c: Config)
    requires g.queue != []
    ensures g.queue[0] in AllSegments(g)
    ensures forall s <- AllSegments(Step(g, c)) ::
              s in AllSegments(g) || (SplitsBody(g, c) && s in SplitSegment(g.queue[0], Available(g, c)))
  {
    hide Tokens, JoinSegments, SplitSegment, Before, AllSegments, Step, SplitBody;
    StepSegments(g, c);
    QueuedSegments(g);
    if SplitsBody(g, c) { BodySegments(g, Available(g, c)); }
  }

  // ---------- heading paths ----------

  /** Between headings the heading path does not change. */
  predicate PathsChain(segments: seq<Segment>) {
    forall i :: 1 <= i < |segments| && segments[i].kind != Heading ==>
      segments[i].headingPath == segments[i - 1].headingPath
  }

  predicate SamePath(g: Group) { forall i :: 0 <= i < |g| ==> g[i].headingPath == g[0].headingPath }

  predicate PathsHold(g: Grouping) {
    && (forall p <- g.parents :: SamePath(p))
    && SamePath(g.current)
    && PathsChain(g.current + g.queue)
  }

  lemma PathsOfQueue(current: Group, queue: seq<Segment>)
    requires PathsChain(current + queue)
    ensures PathsChain(queue)
  {
    var all, k := current + queue, |current|;
    forall i | 1 <= i < |queue| && queue[i].kind != Heading ensures queue[i].headingPath == queue[i - 1].headingPath {
      assert queue[i] == all[k + i] && queue[i - 1] == all[k + i - 1];
    }
  }

  lemma FlushPaths(g: Grouping)
    requires PathsHold(g)
    ensures PathsHold(Flush(g))
  {
    hide PathsChain, SamePath;
    PathsOfQueue(g.current, g.queue);
    assert [] + g.queue == g.queue;
    NoPath();
  }

  lemma NoPath()
    ensures SamePath([])
  {}

  lemma StepKeepsPaths(g: Grouping, c: Config)
    requires g.queue != [] && PathsHold(g)
    ensures PathsHold(Step(g, c))
  {
    hide Tokens, JoinSegments, SplitSegment;
    var segment, rest := g.queue[0], g.queue[1..];
    var all := g.current + g.queue;
    FlushPaths(g);
    assert all == (g.current + [segment]) + rest;
    assert all[|g.current|] == segment;
    var available := c.parentMax - Count(JoinSegments(g.current));
    if segment.kind == Heading {
      assert [segment] + rest == [] + g.queue;
    } else {
      if g.current != [] {
        assert all[|g.current| - 1] == g.current[|g.current| - 1];
        assert segment.headingPath == g.current[0].headingPath;
      }
      assert SamePath(g.current + [segment]);
      if g.current != [] && available > 0 {
        SplitPaths(g, segment, rest, available);
        var parts := SplitSegment(segment, available);
        FlushPaths(g.(current := g.current + [parts[0]], queue := parts[1..] + rest));
      }
    }
  }

  lemma SplitPaths(g: Grouping, segment: Segment, rest: seq<Segment>, available: nat)
    requires PathsHold(g) && g.queue == [segment] + rest && available > 0 && segment.kind != Heading
    requires SamePath(g.current + [segment])
    ensures SplitSegment(segment, available) != []
    ensures var parts := SplitSegment(segment, available);
            PathsHold(g.(current := g.current + [parts[0]], queue := parts[1..] + rest))
  {
    hide Tokens, SplitSegment;
    var parts := SplitSegment(segment, available);
    SplitSegmentParts(segment, available);
    var k := |g.current|;
    var before := g.current + g.queue;
    var after := g.current + parts + rest;
    assert (g.current + [parts[0]]) + (parts[1..] + rest) == after;
    assert forall i :: 0 <= i < |parts| ==> parts[i] in parts;
    assert forall i :: 0 <= i <= k ==> (g.current + [segment])[i] == before[i];
    assert forall i :: k < i < |before| ==> before[i] == rest[i - k - 1];
    forall i | 1 <= i < |after| && after[i].kind != Heading
      ensures after[i].headingPath == after[i - 1].headingPath
    {
      if i >= k + |parts| {
        var j := i - |parts| + 1;
        assert after[i] == before[j];
        if i > k + |parts| {
          assert after[i - 1] == before[j - 1];
        } else {
          assert before[j - 1] == segment && after[i - 1] == parts[|parts| - 1];
        }
      } else if i < k {
        assert after[i] == before[i] && after[i - 1] == before[i - 1];
      } else if i == k {
        assert after[i - 1] == (g.current + [segment])[k - 1];
        assert (g.current + [segment])[k] == segment;
      } else {
        assert after[i] == parts[i - k] && after[i - 1] == parts[i - k - 1];
      }
    }
    forall i | 0 <= i < k + 1 ensures (g.current + [parts[0]])[i].headingPath == (g.current + [parts[0]])[0].headingPath {
      assert (g.current + [segment])[i].headingPath == (g.current + [segment])[0].headingPath;
    }
  }

  // ---------- the whole run ----------

  lemma {:induction false} RunShape(g: Grouping, c: Config)
    requires WellShaped(g)
    ensures WellShaped(Run(g, c)) && Run(g, c).queue == [] && Run(g, c).current == []
    decreases Weight(g), |g.queue|, if g.current == [] then 0 else 1
  {
    if g.queue != [] {
      StepKeepsShape(g, c);
      StepDecreases(g, c);
      RunShape(Step(g, c), c);
    }
  }

  lemma {:induction false} RunSizes(g: Grouping, c: Config)
    requires WithinMax(g, c.parentMax)
    ensures WithinMax(Run(g, c), c.parentMax)
    decreases Weight(g), |g.queue|, if g.current == [] then 0 else 1
  {
    if g.queue == [] {
      NothingIsSmall();
    } else {
      StepKeepsSizes(g, c);
      StepDecreases(g, c);
      RunSizes(Step(g, c), c);
    }
  }

  lemma {:induction false} RunContents(g: Grouping, c: Config, longestHeading: nat)
    requires TablesWhole(g, c.parentMax, longestHeading)
    ensures Contents(AllSegments(Run(g, c))) == Contents(AllSegments(g))
    decreases Weight(g), |g.queue|, if g.current == [] then 0 else 1
  {
    hide Contents, TablesWhole;
    if g.queue == [] {
      FlushSegments(g);
    } else {
      StepKeepsTables(g, c, longestHeading);
      StepKeepsContents(g, c, longestHeading);
      StepDecreases(g, c);
      RunContents(Step(g, c), c, longestHeading);
    }
  }

  lemma {:induction false} RunSources(g: Grouping, c: Config, pageCount: Option<int>)
    requires AllSound(AllSegments(g), pageCount)
    ensures AllSound(AllSegments(Run(g, c)), pageCount)
    ensures AllPathSafe(AllSegments(g), c) ==> AllPathSafe(AllSegments(Run(g, c)), c)
    decreases Weight(g), |g.queue|, if g.current == [] then 0 else 1
  {
    hide AllSound, AllPathSafe;
    if g.queue == [] {
      FlushSegments(g);
    } else {
      StepKeepsSources(g, c, pageCount);
      StepDecreases(g, c);
      RunSources(Step(g, c), c, pageCount);
    }
  }

  lemma {:induction false} RunPaths(g: Grouping, c: Config)
    requires PathsHold(g)
    ensures PathsHold(Run(g, c))
    decreases Weight(g), |g.queue|, if g.current == [] then 0 else 1
  {
    if g.queue == [] {
      FlushPaths(g);
    } else {
      StepKeepsPaths(g, c);
      StepDecreases(g, c);
      RunPaths(Step(g, c), c);
    }
  }

  /** Parents are not empty, and only the first segment of a parent can be a heading. */
  lemma ParentsShape(segments: seq<Segment>, c: Config)
    ensures forall p <- ParentGroups(segments, c) :: p != [] && HeadingFirstOnly(p)
    ensures segments != [] ==> ParentGroups(segments, c) != []
  {
    var g := Grouping([], segments, [], false);
    RunShape(g, c);
    if segments != [] {
      StartSegments(segments);
      ParentsKeepOrders(segments, c);
      assert segments[0].order in Orders(segments);
      assert Orders([]) == {};
    }
  }

  lemma StartSegments(segments: seq<Segment>)
    ensures Flat([]) + [] + segments == segments
  {}

  /** Every source block of the input is a source block of some parent, and the other way round. */
  lemma {:induction false} ParentsKeepOrders(segments: seq<Segment>, c: Config)
    ensures Orders(Flat(ParentGroups(segments, c))) == Orders(segments)
  {
    var g := Grouping([], segments, [], false);
    RunShape(g, c);
    RunOrders(g, c);
    StartSegments(segments);
    var parents := ParentGroups(segments, c);
    assert Flat(parents) + [] + [] == Flat(parents);
  }

  lemma {:induction false} RunOrders(g: Grouping, c: Config)
    ensures Orders(AllSegments(Run(g, c))) == Orders(AllSegments(g))
    decreases Weight(g), |g.queue|, if g.current == [] then 0 else 1
  {
    hide Orders;
    if g.queue == [] {
      FlushSegments(g);
    } else {
      StepKeepsOrders(g, c);
      StepDecreases(g, c);
      RunOrders(Step(g, c), c);
    }
  }

  /** When no segment is over the maximum, no parent is. */
  lemma ParentsWithinMax(segments: seq<Segment>, c: Config)
    requires forall s <- segments :: Count(s.text) <= c.parentMax
    ensures forall p <- ParentGroups(segments, c) :: Count(JoinSegments(p)) == Size(p) <= c.parentMax
  {
    NothingIsSmall();
    RunSizes(Grouping([], segments, [], false), c);
    forall p | p in ParentGroups(segments, c) ensures Count(JoinSegments(p)) == Size(p) { JoinSegmentsTokens(p); }
  }

  /** When no table has to be cut, the parents in order hold exactly the tokens of the input in order,
      each still labelled with its source block. */
  lemma ParentsConserve(segments: seq<Segment>, c: Config, longestHeading: nat)
    requires forall s <- segments :: WholeTable(s, c.parentMax - longestHeading)
    requires forall s <- segments :: s.kind == Heading ==> Count(s.text) <= longestHeading
    ensures Contents(Flat(ParentGroups(segments, c))) == Contents(segments)
  {
    hide WholeTable, Contents;
    var g := Grouping([], segments, [], false);
    RunContents(g, c, longestHeading);
    RunShape(g, c);
    StartSegments(segments);
    var parents := ParentGroups(segments, c);
    assert Flat(parents) + [] + [] == Flat(parents);
  }

  /** Parents are made of sound parts of the input, and tables stay safe to cut. */
  lemma ParentsSources(segments: seq<Segment>, c: Config, pageCount: Option<int>)
    requires AllSound(segments, pageCount)
    ensures AllSound(Flat(ParentGroups(segments, c)), pageCount)
    ensures AllPathSafe(segments, c) ==> AllPathSafe(Flat(ParentGroups(segments, c)), c)
  {
    hide AllSound, AllPathSafe;
    var g := Grouping([], segments, [], false);
    StartSegments(segments);
    RunSources(g, c, pageCount);
    RunShape(g, c);
    var parents := ParentGroups(segments, c);
    assert Flat(parents) + [] + [] == Flat(parents);
  }

  /** A heading path that only changes at headings is the same all through a parent. */
  lemma ParentsHaveSamePath(segments: seq<Segment>, c: Config)
    requires PathsChain(segments)
    ensures forall p <- ParentGroups(segments, c) :: SamePath(p)
  {
    assert [] + segments == segments;
    RunPaths(Grouping([], segments, [], false), c);
  }
}
