/** The constructed hierarchy passes the independent validator. */
module Correctness {
  import opened Wrappers
  import opened Tokenization
  import opened Segments
  import opened SegmentSplitting
  import opened Content
  import opened Headings
  import opened ParentGrouping
  import opened ChildPacking
  import opened ChildGrouping
  import opened Hierarchy
  import opened Validation

  // ---------- what a document must offer ----------

  /** Offsets and pages of the blocks make sense. */
  predicate SourcesSound(d: Document) {
    forall b <- d.blocks :: Sound(SegmentOf(b), d.pageCount)
  }

  /** Normalized blocks: offsets and pages make sense, and any table fits beside its heading prefix row by row. */
  predicate BlocksSound(d: Document, c: Config) {
    forall b <- d.blocks :: Sound(SegmentOf(b), d.pageCount) && PathSafe(SegmentOf(b), c)
  }

  /** The heading path only changes at a heading. */
  predicate PathsSteady(d: Document) { PathsChain(BlockSegments(d.blocks)) }

  /** No segment of a parent has a longer prefix than the path that the parent takes, and its tables fit beside that. */
  predicate LeavesRoom(p: Group, c: Config) {
    forall s <- p ::
      && PrefixTokens(s.headingPath, c.childMax) <= PrefixTokens(HeadingPath(p), c.childMax)
      && Safe(s, ContentMax(HeadingPath(p), c))
  }

  /** Every parent takes the path with the longest prefix. */
  predicate PathsLeaveRoom(d: Document, c: Config)
    requires c.parentMax > 0
  {
    forall p <- ParentGroupsOf(d, c) :: LeavesRoom(p, c)
  }

  /** The one configuration in which a heading prefix and one token of content do not fit together. */
  predicate PrefixFits(d: Document, c: Config) {
    c.childMax >= 2 || forall b <- d.blocks :: PrefixTokens(b.headingPath, c.childMax) == 0
  }

  // ---------- the parents ----------

  lemma BlockSegmentsMember(blocks: seq<Block>, s: Segment)
    ensures s in BlockSegments(blocks) <==> exists b <- blocks :: s == SegmentOf(b)
  {
    if s in BlockSegments(blocks) {
      var i :| 0 <= i < |blocks| && BlockSegments(blocks)[i] == s;
      assert blocks[i] in blocks;
    }
    if b :| b in blocks && s == SegmentOf(b) {
      var i :| 0 <= i < |blocks| && blocks[i] == b;
      assert BlockSegments(blocks)[i] == s;
    }
  }

  lemma {:induction false} ExpandedPathSafe(segments: seq<Segment>, c: Config)
    requires ValidConfig(c) && forall s <- segments :: PathSafe(s, c)
    ensures forall s <- Expanded(segments, c.parentMax) :: PathSafe(s, c) && Count(s.text) <= c.parentMax
  {
    hide PathSafe, SplitSegment, Tokens, PrefixTokens;
    if segments != [] {
      assert segments[0] in segments && forall s <- segments[1..] :: s in segments;
      ExpandedPathSafe(segments[1..], c);
      SplitSegmentPathSafe(segments[0], c.parentMax, c);
    }
  }

  lemma ChainConcat(a: seq<Segment>, b: seq<Segment>)
    requires PathsChain(a) && PathsChain(b)
    requires a != [] && b != [] && b[0].kind != Heading ==> b[0].headingPath == a[|a| - 1].headingPath
    ensures PathsChain(a + b)
  {
    var ab := a + b;
    forall i | 1 <= i < |ab| && ab[i].kind != Heading ensures ab[i].headingPath == ab[i - 1].headingPath {
      if i > |a| { assert ab[i] == b[i - |a|] && ab[i - 1] == b[i - |a| - 1]; }
    }
  }

  lemma {:induction false} ExpandedChain(segments: seq<Segment>, n: nat)
    requires n > 0 && PathsChain(segments)
    ensures PathsChain(Expanded(segments, n))
    ensures segments != [] ==> Expanded(segments, n) != [] && PartOf(Expanded(segments, n)[0], segments[0])
  {
    hide SplitSegment;
    if segments != [] {
      var parts, rest := SplitSegment(segments[0], n), segments[1..];
      SplitSegmentParts(segments[0], n);
      assert forall i :: 0 <= i < |parts| ==> parts[i] in parts;
      assert forall i :: 0 <= i < |rest| ==> rest[i] == segments[i + 1];
      assert PathsChain(rest) by {
        forall i | 1 <= i < |rest| && rest[i].kind != Heading ensures rest[i].headingPath == rest[i - 1].headingPath {
          assert segments[i + 1].headingPath == segments[i].headingPath;
        }
      }
      ExpandedChain(rest, n);
      ChainConcat(parts, Expanded(rest, n));
    }
  }

  /** Every parent has segments, and they are sound. */
  lemma ParentsSound(d: Document, c: Config, p: Group)
    requires ValidConfig(c) && SourcesSound(d) && p in ParentGroupsOf(d, c)
    ensures p != [] && forall s <- p :: Sound(s, d.pageCount)
  {
    hide Sound, Tokens, JoinSegments, Expanded, ParentGroups, Flat, AllPathSafe;
    var segments := BlockSegments(d.blocks);
    var expanded := Expanded(segments, c.parentMax);
    forall s | s in segments ensures Sound(s, d.pageCount) { BlockSegmentsMember(d.blocks, s); }
    PartOfItself(segments);
    KeptItself(segments, d.pageCount);
    ExpandedSources(segments, c.parentMax, segments, d.pageCount);
    ParentsSources(expanded, c, d.pageCount);
    ParentsShape(expanded, c);
    forall s | s in p ensures s in Flat(ParentGroupsOf(d, c)) { FlatMembers(ParentGroupsOf(d, c), s); }
  }

  /** Every parent: its segments are sound, its tables safe, its size bounded, its heading path constant. */
  lemma ParentsHold(d: Document, c: Config, p: Group)
    requires ValidConfig(c) && BlocksSound(d, c) && p in ParentGroupsOf(d, c)
    ensures p != [] && (forall s <- p :: Sound(s, d.pageCount) && PathSafe(s, c))
    ensures Count(JoinSegments(p)) <= c.parentMax
    ensures PathsSteady(d) ==> OnePath(p, p[0].headingPath)
  {
    hide Sound, PathSafe, Tokens, JoinSegments, Expanded, ParentGroups, PathsChain, Flat;
    var segments := BlockSegments(d.blocks);
    var expanded := Expanded(segments, c.parentMax);
    forall s | s in segments ensures Sound(s, d.pageCount) && PathSafe(s, c) { BlockSegmentsMember(d.blocks, s); }
    PartOfItself(segments);
    KeptItself(segments, d.pageCount);
    ExpandedSources(segments, c.parentMax, segments, d.pageCount);
    ExpandedPathSafe(segments, c);
    ParentsSources(expanded, c, d.pageCount);
    ParentsShape(expanded, c);
    ParentsWithinMax(expanded, c);
    forall s | s in p ensures s in Flat(ParentGroupsOf(d, c)) { FlatMembers(ParentGroupsOf(d, c), s); }
    if PathsSteady(d) {
      ExpandedChain(segments, c.parentMax);
      ParentsHaveSamePath(expanded, c);
    }
  }

  // ---------- the children ----------

  /** A heading path that only changes at a heading leaves room: all segments of a parent have it. */
  lemma SteadyPathsLeaveRoom(d: Document, c: Config)
    requires ValidConfig(c) && BlocksSound(d, c) && PathsSteady(d)
    ensures PathsLeaveRoom(d, c)
  {
    hide ParentGroupsOf, PathsSteady, BlocksSound, Sound, Safe, PrefixTokens, JoinSegments, Tokens, HeadingPath;
    forall p: Group | p in ParentGroupsOf(d, c) ensures LeavesRoom(p, c) {
      ParentsHold(d, c, p);
      HeadingPathOfOne(p, p[0].headingPath);
      forall s | s in p ensures Safe(s, ContentMax(HeadingPath(p), c)) { assert PathSafe(s, c); }
    }
  }

  /** The path of a group is the path of one of its segments. */
  lemma {:induction false} HeadingPathMember(g: Group)
    requires g != []
    ensures exists s <- g :: s.headingPath == HeadingPath(g)
  {
    assert g[0] in g;
    if HeadingPath(g) != g[0].headingPath {
      var rest := g[1..];
      assert rest != [] && HeadingPath(g) == HeadingPath(rest);
      HeadingPathMember(rest);
      var s :| s in rest && s.headingPath == HeadingPath(rest);
      assert s in g;
    }
  }

  /** Every child: a part of its parent, within the room its parent leaves, embeddable. */
  lemma ChildHolds(d: Document, c: Config, p: Group, g: Group)
    requires ValidConfig(c) && BlocksSound(d, c) && PathsLeaveRoom(d, c) && PrefixFits(d, c)
    requires p in ParentGroupsOf(d, c) && g in ChildGroups(p, c)
    ensures p != [] && g != [] && Kept(g, p, d.pageCount)
    ensures Count(JoinSegments(g)) <= c.childMax
    ensures Count(Enriched(HeadingPath(g), c.childMax, JoinSegments(g))) <= c.childMax
  {
    hide Sound, Tokens, JoinSegments, ParentGroupsOf, ChildGroups, BlocksSound, Enriched, PrefixTokens, HeadingPath, Safe;
    hide PrefixFits;
    ParentsHold(d, c, p);
    assert LeavesRoom(p, c);
    ChildrenFit(p, c);
    ChildrenSources(p, c, d.pageCount);
    ChildrenNonEmpty(p, c);
    HeadingPathMember(g);
    var s :| s in g && s.headingPath == HeadingPath(g);
    assert From(s, p);
    var t :| t in p && PartOf(s, t);
    SegmentPrefixFits(d, c, p, t);
    LeavesEnoughExactly(HeadingPath(p), HeadingPath(g), c);
    PrefixLeavesRoom(HeadingPath(p), c);
  }

  lemma PrefixLeavesRoom(path: seq<Text>, c: Config)
    requires ValidConfig(c)
    ensures ContentMax(path, c) <= c.childMax
  {}

  lemma SegmentPrefixFits(d: Document, c: Config, p: Group, s: Segment)
    requires ValidConfig(c) && PrefixFits(d, c) && p in ParentGroupsOf(d, c) && s in p
    ensures c.childMax >= 2 || PrefixTokens(s.headingPath, c.childMax) == 0
  {
    hide Tokens, ParentGroupsOf, PrefixTokens;
    if c.childMax < 2 {
      ParentSegmentFromBlock(d, c, p, s);
      var b :| b in d.blocks && PartOf(s, SegmentOf(b));
      SamePathAsPart(s, SegmentOf(b));
    }
  }

  /** Every segment of a parent is a part of a block. */
  lemma ParentSegmentFromBlock(d: Document, c: Config, p: Group, s: Segment)
    requires ValidConfig(c) && p in ParentGroupsOf(d, c) && s in p
    ensures exists b <- d.blocks :: PartOf(s, SegmentOf(b))
  {
    hide Tokens, Expanded, PartOf, Flat;
    var segments := BlockSegments(d.blocks);
    var expanded := Expanded(segments, c.parentMax);
    PartOfItself(segments);
    ExpandedFrom(segments, c.parentMax, segments);
    ParentsFrom(expanded, c, segments);
    FlatMembers(ParentGroupsOf(d, c), s);
    assert From(s, segments);
    var t :| t in segments && PartOf(s, t);
    BlockSegmentsMember(d.blocks, t);
  }

  lemma SamePathAsPart(s: Segment, t: Segment)
    requires PartOf(s, t)
    ensures s.headingPath == t.headingPath
  {}

  lemma {:induction false} ExpandedFrom(segments: seq<Segment>, n: nat, source: seq<Segment>)
    requires n > 0 && AllFrom(segments, source)
    ensures AllFrom(Expanded(segments, n), source)
  {
    hide SplitSegment, From;
    if segments != [] {
      assert segments[0] in segments && forall s <- segments[1..] :: s in segments;
      ExpandedFrom(segments[1..], n, source);
      SplitSegmentParts(segments[0], n);
      PartsFrom(SplitSegment(segments[0], n), segments[0], source);
    }
  }

  lemma ParentsFrom(segments: seq<Segment>, c: Config, source: seq<Segment>)
    requires AllFrom(segments, source)
    ensures AllFrom(Flat(ParentGroups(segments, c)), source)
  {
    hide AllFrom;
    var g := Grouping([], segments, [], false);
    StartSegments(segments);
    RunFrom(g, c, source);
    RunShape(g, c);
    var parents := ParentGroups(segments, c);
    assert Flat(parents) + [] + [] == Flat(parents);
  }

  lemma {:induction false} RunFrom(g: Grouping, c: Config, source: seq<Segment>)
    requires AllFrom(ParentGrouping.AllSegments(g), source)
    ensures AllFrom(ParentGrouping.AllSegments(ParentGrouping.Run(g, c)), source)
    decreases ParentGrouping.Weight(g), |g.queue|, if g.current == [] then 0 else 1
  {
    hide AllFrom;
    if g.queue == [] {
      ParentGrouping.FlushSegments(g);
    } else {
      StepFrom(g, c, source);
      ParentGrouping.StepDecreases(g, c);
      RunFrom(ParentGrouping.Step(g, c), c, source);
    }
  }

  lemma StepFrom(g: Grouping, c: Config, source: seq<Segment>)
    requires g.queue != [] && AllFrom(ParentGrouping.AllSegments(g), source)
    ensures AllFrom(ParentGrouping.AllSegments(ParentGrouping.Step(g, c)), source)
  {
    hide Tokens, JoinSegments, SplitSegment, From;
    ParentGrouping.StepMembers(g, c);
    if ParentGrouping.SplitsBody(g, c) {
      var n, segment := ParentGrouping.Available(g, c), g.queue[0];
      SplitSegmentParts(segment, n);
      PartsFrom(SplitSegment(segment, n), segment, source);
    }
  }

  // ---------- the checks ----------

  lemma PageRangeHolds(g: Group, pageCount: Option<int>)
    requires forall s <- g :: PagesFit(s, pageCount)
    ensures var lo, hi := MinPresent(StartPages(g)), MaxPresent(EndPages(g));
            && (lo.Some? ==> lo.value > 0) && (hi.Some? ==> hi.value > 0)
            && (lo.Some? && hi.Some? ==> lo.value <= hi.value)
            && (pageCount.Some? && hi.Some? ==> hi.value <= pageCount.value)
  {
    hide MinPresent, MaxPresent;
    var lo, hi := MinPresent(StartPages(g)), MaxPresent(EndPages(g));
    if lo.Some? {
      var i :| 0 <= i < |g| && StartPages(g)[i] == lo;
      assert g[i] in g && EndPages(g)[i] in EndPages(g);
    }
    if hi.Some? {
      var i :| 0 <= i < |g| && EndPages(g)[i] == hi;
      assert g[i] in g;
    }
  }

  lemma OffsetRangeHolds(g: Group)
    requires forall s <- g :: OffsetsFit(s)
    ensures var lo, hi := MinPresent(StartOffsets(g)), MaxPresent(EndOffsets(g));
            && (lo.Some? ==> lo.value >= 0) && (hi.Some? ==> hi.value >= 0)
            && (lo.Some? && hi.Some? ==> lo.value <= hi.value)
  {
    hide MinPresent, MaxPresent;
    var lo, hi := MinPresent(StartOffsets(g)), MaxPresent(EndOffsets(g));
    if lo.Some? {
      var i :| 0 <= i < |g| && StartOffsets(g)[i] == lo;
      assert g[i] in g && EndOffsets(g)[i] in EndOffsets(g);
    }
    if hi.Some? {
      var i :| 0 <= i < |g| && EndOffsets(g)[i] == hi;
      assert g[i] in g;
    }
  }

  lemma GroupRangeHolds(
      g: Group, level: Level, ordinal: nat, parentOrdinal: Option<nat>, embeddingText: Option<Text>, pageCount: Option<int>)
    requires forall s <- g :: Sound(s, pageCount)
    ensures RangeHolds(MakeChunk(g, level, ordinal, parentOrdinal, embeddingText), pageCount)
  {
    hide Tokens, JoinSegments, HeadingPath, Distinct, MinPresent, MaxPresent, PagesFit, OffsetsFit;
    PageRangeHolds(g, pageCount);
    OffsetRangeHolds(g);
  }

  lemma ChildLinkHolds(g: Group, p: Group, pageCount: Option<int>)
    requires Kept(g, p, pageCount)
    ensures forall order <- OrderList(g) :: order in OrderList(p)
    ensures MinPresent(StartPages(g)).Some? && MinPresent(StartPages(p)).Some?
            ==> MinPresent(StartPages(p)).value <= MinPresent(StartPages(g)).value
    ensures MaxPresent(EndPages(g)).Some? && MaxPresent(EndPages(p)).Some?
            ==> MaxPresent(EndPages(g)).value <= MaxPresent(EndPages(p)).value
  {
    hide Sound;
    forall i | 0 <= i < |g|
      ensures g[i].startPage in StartPages(p) && g[i].endPage in EndPages(p) && g[i].order in OrderList(p)
    {
      assert g[i] in g;
      assert From(g[i], p);
      var t :| t in p && PartOf(g[i], t);
      var k :| 0 <= k < |p| && p[k] == t;
      assert StartPages(p)[k] == g[i].startPage && EndPages(p)[k] == g[i].endPage && OrderList(p)[k] == g[i].order;
    }
    if MinPresent(StartPages(g)).Some? {
      var i :| 0 <= i < |g| && StartPages(g)[i] == MinPresent(StartPages(g));
    }
    if MaxPresent(EndPages(g)).Some? {
      var i :| 0 <= i < |g| && EndPages(g)[i] == MaxPresent(EndPages(g));
    }
  }

  /** The group behind child `j`, and the parent it belongs to. */
  lemma ChildOrigin(d: Document, c: Config, child: Chunk) returns (p: nat, k: nat)
    requires ValidConfig(c) && child in Construct(d, c).children
    ensures p < |ParentGroupsOf(d, c)| && ParentGroupsOf(d, c)[p] in ParentGroupsOf(d, c)
    ensures k < |ChildGroups(ParentGroupsOf(d, c)[p], c)|
    ensures ChildGroups(ParentGroupsOf(d, c)[p], c)[k] in ChildGroups(ParentGroupsOf(d, c)[p], c)
    ensures child == ChildChunk(ChildGroups(ParentGroupsOf(d, c)[p], c)[k], child.ordinal, p, c)
  {
    hide ParentGroupsOf, ChildGroups, MakeChunk, ChildChunk, Construct;
    var parents := ParentGroupsOf(d, c);
    var j :| 0 <= j < |Construct(d, c).children| && Construct(d, c).children[j] == child;
    ConstructedChildren(d, c);
    p, k := ChildChunkAt(parents, 0, 0, c, j);
    OrdinalOf(ChildGroups(parents[p], c)[k], j, p, c);
  }

  lemma ConstructedChildren(d: Document, c: Config)
    requires ValidConfig(c)
    ensures Construct(d, c).children == ChildChunksFrom(ParentGroupsOf(d, c), 0, 0, c)
  {}

  lemma OrdinalOf(g: Group, ordinal: nat, parentOrdinal: nat, c: Config)
    ensures ChildChunk(g, ordinal, parentOrdinal, c).ordinal == ordinal
    ensures ChildChunk(g, ordinal, parentOrdinal, c).level == Child
    ensures ChildChunk(g, ordinal, parentOrdinal, c).parentOrdinal == Some(parentOrdinal)
  {}

  /** Parents and children are numbered consecutively, with no assumption on the document. */
  lemma OrdinalsAreConsecutive(d: Document, c: Config)
    requires ValidConfig(c)
    ensures OrdinalsHold(Construct(d, c).parents, Parent) && OrdinalsHold(Construct(d, c).children, Child)
  {
    hide ParentGroupsOf, ChildGroups, Tokens, JoinSegments;
    var children := Construct(d, c).children;
    forall j | 0 <= j < |children| ensures children[j].ordinal == j && children[j].level == Child {
      var p, k := ChildChunkAt(ParentGroupsOf(d, c), 0, 0, c, j);
      OrdinalOf(ChildGroups(ParentGroupsOf(d, c)[p], c)[k], j, p, c);
    }
  }

  /** Every child is a part of its parent. */
  lemma ChildSound(d: Document, c: Config, p: Group, g: Group)
    requires ValidConfig(c) && SourcesSound(d) && p in ParentGroupsOf(d, c) && g in ChildGroups(p, c)
    ensures Kept(g, p, d.pageCount)
  {
    hide Sound, ParentGroupsOf, ChildGroups, SourcesSound;
    ParentsSound(d, c, p);
    ChildrenSources(p, c, d.pageCount);
  }

  /** The ranges of every chunk pass, whatever the headings and the tables are. */
  lemma RangesAreValid(d: Document, c: Config)
    requires ValidConfig(c) && SourcesSound(d)
    ensures RangesHold(Construct(d, c).parents, d.pageCount) && RangesHold(Construct(d, c).children, d.pageCount)
  {
    hide ParentGroupsOf, ChildGroups, MakeChunk, RangeHolds, SourcesSound, Tokens, JoinSegments, Sound, Enriched;
    var parents := ParentGroupsOf(d, c);
    forall chunk | chunk in Construct(d, c).parents ensures RangeHolds(chunk, d.pageCount) {
      var i :| 0 <= i < |parents| && chunk == ParentChunk(parents[i], i);
      ParentsSound(d, c, parents[i]);
      GroupRangeHolds(parents[i], Parent, i, None, None, d.pageCount);
    }
    forall chunk | chunk in Construct(d, c).children ensures RangeHolds(chunk, d.pageCount) {
      var p, k := ChildOrigin(d, c, chunk);
      var g := ChildGroups(parents[p], c)[k];
      ChildSound(d, c, parents[p], g);
      GroupRangeHolds(g, Child, chunk.ordinal, Some(p), chunk.embeddingText, d.pageCount);
      EmbeddingOf(g, chunk.ordinal, p, c);
    }
  }

  lemma EmbeddingOf(g: Group, ordinal: nat, parentOrdinal: nat, c: Config)
    ensures ChildChunk(g, ordinal, parentOrdinal, c).embeddingText
         == Some(Enriched(HeadingPath(g), c.childMax, JoinSegments(g)))
    ensures ChildChunk(g, ordinal, parentOrdinal, c).text == JoinSegments(g)
    ensures ChildChunk(g, ordinal, parentOrdinal, c).tokenCount == Count(JoinSegments(g))
    ensures ChildChunk(g, ordinal, parentOrdinal, c).startPage == MinPresent(StartPages(g))
    ensures ChildChunk(g, ordinal, parentOrdinal, c).endPage == MaxPresent(EndPages(g))
    ensures forall order :: order in ChildChunk(g, ordinal, parentOrdinal, c).orders <==> order in OrderList(g)
  {
    hide Tokens, JoinSegments, Enriched, HeadingPath, MinPresent, MaxPresent;
  }

  /** Every parent, every child and every embedded text respects its token maximum. */
  lemma SizesAreBounded(d: Document, c: Config)
    requires ValidConfig(c) && BlocksSound(d, c) && PathsLeaveRoom(d, c) && PrefixFits(d, c)
    ensures forall parent <- Construct(d, c).parents :: parent.tokenCount == Count(parent.text) <= c.parentMax
    ensures forall child <- Construct(d, c).children ::
              && child.tokenCount == Count(child.text) <= c.childMax
              && child.embeddingText.Some? && Count(child.embeddingText.value) <= c.childMax
  {
    hide ParentGroupsOf, ChildGroups, BlocksSound, PathsLeaveRoom, PrefixFits, Tokens, JoinSegments, Sound, Enriched, HeadingPath;
    var parents := ParentGroupsOf(d, c);
    forall chunk | chunk in Construct(d, c).parents ensures chunk.tokenCount == Count(chunk.text) <= c.parentMax {
      var i :| 0 <= i < |parents| && chunk == ParentChunk(parents[i], i);
      ParentsHold(d, c, parents[i]);
    }
    forall chunk | chunk in Construct(d, c).children
      ensures chunk.tokenCount == Count(chunk.text) <= c.childMax
      ensures chunk.embeddingText.Some? && Count(chunk.embeddingText.value) <= c.childMax
    {
      var p, k := ChildOrigin(d, c, chunk);
      var g := ChildGroups(parents[p], c)[k];
      ChildHolds(d, c, parents[p], g);
      EmbeddingOf(g, chunk.ordinal, p, c);
    }
  }

  lemma BoundedSizesHold(h: ChunkHierarchy, c: Config)
    requires forall parent <- h.parents :: parent.tokenCount == Count(parent.text) <= c.parentMax
    requires forall child <- h.children ::
               && child.tokenCount == Count(child.text) <= c.childMax
               && child.embeddingText.Some? && Count(child.embeddingText.value) <= c.childMax
    ensures SizesHold(h, c)
  {
    hide Tokens;
  }

  /** Every parent has a child and every child stays within the blocks and pages of its parent, whatever the
      headings and the tables are. */
  lemma LinksAreValid(d: Document, c: Config)
    requires ValidConfig(c) && SourcesSound(d)
    ensures LinksHold(Construct(d, c))
  {
    hide ParentGroupsOf, ChildGroups, SourcesSound, Tokens, JoinSegments, Sound, Enriched, HeadingPath, MinPresent, MaxPresent;
    var h := Construct(d, c);
    var parents := ParentGroupsOf(d, c);
    forall parent | parent in h.parents ensures exists child <- h.children :: child.parentOrdinal == Some(parent.ordinal) {
      var i :| 0 <= i < |parents| && parent == ParentChunk(parents[i], i);
      ParentsSound(d, c, parents[i]);
      ChildrenNonEmpty(parents[i], c);
      var j := ChildChunkOf(parents, 0, 0, c, i, 0);
      OrdinalOf(ChildGroups(parents[i], c)[0], j, i, c);
      assert h.children[j] in h.children;
    }
    forall child | child in h.children ensures LinkHolds(child, h.parents) {
      var p, k := ChildOrigin(d, c, child);
      var g := ChildGroups(parents[p], c)[k];
      ChildSound(d, c, parents[p], g);
      EmbeddingOf(g, child.ordinal, p, c);
      OrdinalOf(g, child.ordinal, p, c);
      ChildLinkHolds(g, parents[p], d.pageCount);
      assert h.parents[p] == ParentChunk(parents[p], p);
      ParentFields(parents[p], p);
    }
  }

  lemma ParentFields(g: Group, ordinal: nat)
    ensures ParentChunk(g, ordinal).startPage == MinPresent(StartPages(g))
    ensures ParentChunk(g, ordinal).endPage == MaxPresent(EndPages(g))
    ensures forall order :: order in ParentChunk(g, ordinal).orders <==> order in OrderList(g)
  {
    hide Tokens, JoinSegments, HeadingPath, MinPresent, MaxPresent;
  }

  // ---------- coverage ----------

  function AllOrders(d: Document): set<int> { set b <- d.blocks :: b.order }

  lemma BlockOrders(d: Document)
    ensures Orders(BlockSegments(d.blocks)) == AllOrders(d)
  {
    forall b | b in d.blocks ensures b.order in Orders(BlockSegments(d.blocks)) {
      BlockSegmentsMember(d.blocks, SegmentOf(b));
      assert SegmentOf(b) in BlockSegments(d.blocks);
    }
    forall s | s in BlockSegments(d.blocks) ensures s.order in AllOrders(d) { BlockSegmentsMember(d.blocks, s); }
  }

  lemma ParentsDrawOnBlocks(d: Document, c: Config)
    requires ValidConfig(c)
    ensures Orders(Flat(ParentGroupsOf(d, c))) == AllOrders(d)
  {
    hide ParentGroups, Expanded, Flat, Orders, AllOrders;
    BlockOrders(d);
    ExpandedOrders(BlockSegments(d.blocks), c.parentMax);
    ParentsKeepOrders(Expanded(BlockSegments(d.blocks), c.parentMax), c);
  }

  lemma ParentWithOrder(d: Document, c: Config, order: int) returns (p: nat)
    requires ValidConfig(c) && order in AllOrders(d)
    ensures p < |ParentGroupsOf(d, c)| && order in Orders(ParentGroupsOf(d, c)[p])
  {
    hide ParentGroupsOf, Flat, AllOrders;
    var parents := ParentGroupsOf(d, c);
    ParentsDrawOnBlocks(d, c);
    var s :| s in Flat(parents) && s.order == order;
    FlatMembers(parents, s);
    var g :| g in parents && s in g;
    p :| 0 <= p < |parents| && parents[p] == g;
  }

  lemma ParentOrderFromBlocks(d: Document, c: Config, p: nat, order: int)
    requires ValidConfig(c) && p < |ParentGroupsOf(d, c)| && order in OrderList(ParentGroupsOf(d, c)[p])
    ensures order in AllOrders(d)
  {
    hide ParentGroupsOf, Flat, AllOrders;
    var parents := ParentGroupsOf(d, c);
    ParentsDrawOnBlocks(d, c);
    var i :| 0 <= i < |parents[p]| && OrderList(parents[p])[i] == order;
    var s := parents[p][i];
    FlatMembers(parents, s);
    assert parents[p] in parents && s in parents[p];
    assert s in Flat(parents);
  }

  /** The parents draw on every block, blank or not; so do the children. */
  lemma ChunksCoverAllBlocks(d: Document, c: Config)
    requires ValidConfig(c)
    ensures ChunkOrders(Construct(d, c).parents) == AllOrders(d)
    ensures AllOrders(d) <= ChunkOrders(Construct(d, c).children)
  {
    hide ParentGroupsOf, ChildGroups, AllOrders, ChildChunksFrom, MakeChunk, Tokens;
    var h := Construct(d, c);
    var parents := ParentGroupsOf(d, c);
    forall order | order in AllOrders(d)
      ensures order in ChunkOrders(h.parents) && order in ChunkOrders(h.children)
    {
      var p := ParentWithOrder(d, c, order);
      ChildWithOrder(d, c, p, order);
      var s: Segment :| s in parents[p] && s.order == order;
      GroupOrder(parents[p], s);
      ParentFields(parents[p], p);
      assert h.parents[p] == ParentChunk(parents[p], p) && h.parents[p] in h.parents;
    }
    forall order | order in ChunkOrders(h.parents) ensures order in AllOrders(d) {
      var chunk :| chunk in h.parents && order in chunk.orders;
      var p :| 0 <= p < |parents| && chunk == ParentChunk(parents[p], p);
      ParentFields(parents[p], p);
      ParentOrderFromBlocks(d, c, p, order);
    }
  }

  lemma GroupOrder(g: Group, s: Segment)
    requires s in g
    ensures s.order in OrderList(g)
  {
    var i :| 0 <= i < |g| && g[i] == s;
    assert OrderList(g)[i] == s.order;
  }

  lemma ChildWithOrder(d: Document, c: Config, p: nat, order: int)
    requires ValidConfig(c) && p < |ParentGroupsOf(d, c)| && order in Orders(ParentGroupsOf(d, c)[p])
    ensures order in ChunkOrders(Construct(d, c).children)
  {
    hide ParentGroupsOf, ChildGroups, Orders, ChunkOrders, Construct, ChildChunk, ChildChunksFrom;
    var parents := ParentGroupsOf(d, c);
    ChildrenCoverOrders(parents[p], c, order);
    var groups := ChildGroups(parents[p], c);
    var g :| g in groups && order in Orders(g);
    var k :| 0 <= k < |groups| && groups[k] == g;
    var j := ChildChunkOf(parents, 0, 0, c, p, k);
    ChildHasOrder(g, j, p, c, order);
    ConstructedChildren(d, c);
    OrderOfChunk(Construct(d, c).children, j, order);
  }

  lemma ChildHasOrder(g: Group, ordinal: nat, parentOrdinal: nat, c: Config, order: int)
    requires order in Orders(g)
    ensures order in ChildChunk(g, ordinal, parentOrdinal, c).orders
  {
    hide ChildChunk, OrderList;
    var s :| s in g && s.order == order;
    GroupOrder(g, s);
    EmbeddingOf(g, ordinal, parentOrdinal, c);
  }

  lemma OrderOfChunk(chunks: seq<Chunk>, j: nat, order: int)
    requires j < |chunks| && order in chunks[j].orders
    ensures order in ChunkOrders(chunks)
  {
    assert chunks[j] in chunks;
  }

  /** Coverage holds if and only if every blank block shares its order with a block that is not blank. */
  lemma CoverageExactly(d: Document, c: Config)
    requires ValidConfig(c)
    ensures CoverageHolds(d, Construct(d, c)) <==>
            forall b <- d.blocks :: Blank(b.text) ==> exists b' <- d.blocks :: !Blank(b'.text) && b'.order == b.order
  {
    hide Construct, ChunkOrders, Blank;
    ChunksCoverAllBlocks(d, c);
    if forall b <- d.blocks :: Blank(b.text) ==> exists b' <- d.blocks :: !Blank(b'.text) && b'.order == b.order {
      forall b | b in d.blocks ensures b.order in SourceOrders(d) {}
    }
    if CoverageHolds(d, Construct(d, c)) {
      forall b | b in d.blocks && Blank(b.text)
        ensures exists b' <- d.blocks :: !Blank(b'.text) && b'.order == b.order
      {
        assert b.order in AllOrders(d);
        assert b.order in SourceOrders(d);
      }
    }
  }

  // ---------- the theorem ----------

  /** On every document of sound, non-blank blocks whose parents take the path with the longest prefix, as they do when
      the heading path is steady, the validator finds nothing but possibly start offsets out of order. */
  lemma ConstructionIsValid(d: Document, c: Config, maxChunks: int, maxTokens: int)
    requires ValidConfig(c) && BlocksSound(d, c) && PathsLeaveRoom(d, c) && PrefixFits(d, c)
    requires d.blocks != [] && forall b <- d.blocks :: !Blank(b.text)
    requires BlockTokens(d.blocks) <= maxTokens
    requires |Construct(d, c).parents| + |Construct(d, c).children| <= maxChunks
    ensures var h := Construct(d, c);
            Validate(d, h, c, maxChunks, maxTokens) ==
              if !OffsetsOrdered(h.parents) then Rejected(ParentOffsetOrder)
              else if !OffsetsOrdered(h.children) then Rejected(ChildOffsetOrder)
              else Valid
  {
    hide Tokens, Construct, BlocksSound, PathsLeaveRoom, PrefixFits, OrdinalsHold, RangesHold, SizesHold, LinksHold, OffsetsOrdered, ChunkOrders, Blank;
    OrdinalsAreConsecutive(d, c);
    assert SourcesSound(d) by { SoundBlocks(d, c); }
    RangesAreValid(d, c);
    SizesAreBounded(d, c);
    BoundedSizesHold(Construct(d, c), c);
    LinksAreValid(d, c);
    CoverageExactly(d, c);
    ChunksCoverAllBlocks(d, c);
    assert d.blocks[0].order in AllOrders(d);
    assert ChunkOrders([]) == {} by { NoChunksNoOrders(); }
  }

  lemma SoundBlocks(d: Document, c: Config)
    requires BlocksSound(d, c)
    ensures SourcesSound(d)
  {
    hide Sound, PathSafe;
  }

  lemma NoChunksNoOrders()
    ensures ChunkOrders([]) == {}
  {}

  // ---------- the fields of the chunks ----------

  /** Nothing is known, or the least of what is known. */
  predicate IsLeast(values: seq<Option<int>>, m: Option<int>) {
    match m
    case None => forall v <- values :: v.None?
    case Some(x) => m in values && forall v <- values :: v.Some? ==> x <= v.value
  }

  /** Nothing is known, or the greatest of what is known. */
  predicate IsGreatest(values: seq<Option<int>>, m: Option<int>) {
    match m
    case None => forall v <- values :: v.None?
    case Some(x) => m in values && forall v <- values :: v.Some? ==> v.value <= x
  }

  /** The chunk is made of these segments. */
  ghost predicate IsMadeOf(chunk: Chunk, g: Group) {
    && chunk.text == JoinSegments(g) && chunk.tokenCount == Size(g) && chunk.headingPath == HeadingPath(g)
    && IsLeast(StartPages(g), chunk.startPage) && IsGreatest(EndPages(g), chunk.endPage)
    && IsLeast(StartOffsets(g), chunk.startOffset) && IsGreatest(EndOffsets(g), chunk.endOffset)
    && (forall order :: order in chunk.orders <==> order in OrderList(g))
    && forall i, j :: 0 <= i < j < |chunk.orders| ==> chunk.orders[i] != chunk.orders[j]
  }

  lemma MadeChunk(g: Group, level: Level, ordinal: nat, parentOrdinal: Option<nat>, embeddingText: Option<Text>)
    ensures IsMadeOf(MakeChunk(g, level, ordinal, parentOrdinal, embeddingText), g)
  {
    hide Tokens, JoinSegments, SegmentTokens, HeadingPath, MinPresent, MaxPresent, Distinct;
    JoinSegmentsTokens(g);
  }

  /** The chunk of a parent has the text, the heading path, the first and last page and offset, and the source blocks of
      its segments, and nothing is embedded for it. */
  lemma ParentFieldsExactly(d: Document, c: Config, i: nat)
    requires ValidConfig(c) && i < |ParentGroupsOf(d, c)|
    ensures |Construct(d, c).parents| == |ParentGroupsOf(d, c)|
    ensures IsMadeOf(Construct(d, c).parents[i], ParentGroupsOf(d, c)[i])
    ensures Construct(d, c).parents[i].embeddingText.None? && Construct(d, c).parents[i].parentOrdinal.None?
  {
    hide ParentGroupsOf, ChildChunksFrom, IsMadeOf, JoinSegments, HeadingPath, Tokens;
    MadeChunk(ParentGroupsOf(d, c)[i], Parent, i, None, None);
  }

  /** So has the chunk of a child; its text is embedded below its own heading path. */
  lemma ChildFieldsExactly(d: Document, c: Config, child: Chunk) returns (p: nat, k: nat)
    requires ValidConfig(c) && child in Construct(d, c).children
    ensures p < |ParentGroupsOf(d, c)| && k < |ChildGroups(ParentGroupsOf(d, c)[p], c)|
    ensures child.parentOrdinal == Some(p) && IsMadeOf(child, ChildGroups(ParentGroupsOf(d, c)[p], c)[k])
    ensures child.embeddingText == Some(Enriched(child.headingPath, c.childMax, child.text))
  {
    hide ParentGroupsOf, ChildGroups, Construct, IsMadeOf, JoinSegments, HeadingPath, Tokens, Enriched;
    p, k := ChildOrigin(d, c, child);
    var g := ChildGroups(ParentGroupsOf(d, c)[p], c)[k];
    MadeChunk(g, Child, child.ordinal, Some(p), Some(Enriched(HeadingPath(g), c.childMax, JoinSegments(g))));
  }
}
