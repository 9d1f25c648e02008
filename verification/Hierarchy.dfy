/** `construct_hierarchy`: from normalized blocks to parent and child chunks. */
module Hierarchy {
  import opened Wrappers
  import opened Tokenization
  import opened Segments
  import opened SegmentSplitting
  import opened Content
  import opened Headings
  import opened ParentGrouping
  import opened ChildGrouping

  datatype Block = Block(
    text: Text, kind: BlockKind, order: int,
    startPage: Option<int>, endPage: Option<int>, headingPath: seq<Text>,
    startOffset: Option<int>, endOffset: Option<int>)

  datatype Document = Document(blocks: seq<Block>, pageCount: Option<int>)

  /** `_metadata_int`: a negative offset counts as unknown. */
  function NonNegative(offset: Option<int>): Option<int> {
    if offset.Some? && offset.value >= 0 then offset else None
  }

  function SegmentOf(b: Block): Segment {
    Segment(b.text, b.kind, b.order, b.startPage, b.endPage,
            NonNegative(b.startOffset), NonNegative(b.endOffset), b.headingPath)
  }

  function BlockSegments(blocks: seq<Block>): (segments: seq<Segment>)
    ensures |segments| == |blocks|
    ensures forall i :: 0 <= i < |blocks| ==> segments[i] == SegmentOf(blocks[i])
  {
    if blocks == [] then [] else [SegmentOf(blocks[0])] + BlockSegments(blocks[1..])
  }

  datatype Level = Parent | Child

  datatype Chunk = Chunk(
    text: Text, embeddingText: Option<Text>, level: Level, ordinal: nat, parentOrdinal: Option<nat>,
    startPage: Option<int>, endPage: Option<int>, startOffset: Option<int>, endOffset: Option<int>,
    headingPath: seq<Text>, tokenCount: nat, orders: seq<int>)

  datatype ChunkHierarchy = ChunkHierarchy(parents: seq<Chunk>, children: seq<Chunk>)

  // ---------- aggregates over segments ----------

  function MinPresent(values: seq<Option<int>>): (m: Option<int>)
    ensures m.Some? ==> m in values
    ensures forall v <- values :: v.Some? ==> m.Some? && m.value <= v.value
  {
    if values == [] then None
    else
      var m := MinPresent(values[1..]);
      if values[0].None? then m
      else if m.None? || values[0].value <= m.value then values[0] else m
  }

  function MaxPresent(values: seq<Option<int>>): (m: Option<int>)
    ensures m.Some? ==> m in values
    ensures forall v <- values :: v.Some? ==> m.Some? && m.value >= v.value
  {
    if values == [] then None
    else
      var m := MaxPresent(values[1..]);
      if values[0].None? then m
      else if m.None? || values[0].value >= m.value then values[0] else m
  }

  /** The distinct elements in order of first occurrence. */
  function Distinct(xs: seq<int>): (r: seq<int>)
    ensures forall x :: x in r <==> x in xs
    ensures forall i, j :: 0 <= i < j < |r| ==> r[i] != r[j]
    decreases |xs|
  {
    if xs == [] then []
    else
      var init, last := xs[..|xs| - 1], xs[|xs| - 1];
      assert xs == init + [last];
      if last in init then Distinct(init) else Distinct(init) + [last]
  }

  function StartPages(g: Group): (r: seq<Option<int>>)
    ensures |r| == |g| && forall i :: 0 <= i < |g| ==> r[i] == g[i].startPage
  {
    seq(|g|, i requires 0 <= i < |g| => g[i].startPage)
  }

  function EndPages(g: Group): (r: seq<Option<int>>)
    ensures |r| == |g| && forall i :: 0 <= i < |g| ==> r[i] == g[i].endPage
  {
    seq(|g|, i requires 0 <= i < |g| => g[i].endPage)
  }

  function StartOffsets(g: Group): (r: seq<Option<int>>)
    ensures |r| == |g| && forall i :: 0 <= i < |g| ==> r[i] == g[i].startOffset
  {
    seq(|g|, i requires 0 <= i < |g| => g[i].startOffset)
  }

  function EndOffsets(g: Group): (r: seq<Option<int>>)
    ensures |r| == |g| && forall i :: 0 <= i < |g| ==> r[i] == g[i].endOffset
  {
    seq(|g|, i requires 0 <= i < |g| => g[i].endOffset)
  }

  function OrderList(g: Group): (r: seq<int>)
    ensures |r| == |g| && forall i :: 0 <= i < |g| ==> r[i] == g[i].order
  {
    seq(|g|, i requires 0 <= i < |g| => g[i].order)
  }

  /** `_constructed_chunk`. */
  function MakeChunk(
      g: Group, level: Level, ordinal: nat, parentOrdinal: Option<nat>, embeddingText: Option<Text>): Chunk {
    Chunk(
      JoinSegments(g), embeddingText, level, ordinal, parentOrdinal,
      MinPresent(StartPages(g)), MaxPresent(EndPages(g)),
      MinPresent(StartOffsets(g)), MaxPresent(EndOffsets(g)),
      HeadingPath(g), Count(JoinSegments(g)), Distinct(OrderList(g)))
  }

  // ---------- the construction ----------

  function ParentGroupsOf(d: Document, c: Config): seq<Group>
    requires c.parentMax > 0
  {
    ParentGroups(Expanded(BlockSegments(d.blocks), c.parentMax), c)
  }

  function ParentChunk(g: Group, ordinal: nat): Chunk { MakeChunk(g, Parent, ordinal, None, None) }

  function ChildChunk(g: Group, ordinal: nat, parentOrdinal: nat, c: Config): Chunk {
    MakeChunk(g, Child, ordinal, Some(parentOrdinal), Some(Enriched(HeadingPath(g), c.childMax, JoinSegments(g))))
  }

  function ParentChunks(groups: seq<Group>): (r: seq<Chunk>)
    ensures |r| == |groups|
  {
    seq(|groups|, i requires 0 <= i < |groups| => ParentChunk(groups[i], i))
  }

  /** The chunks of the children of parent `parentOrdinal`, numbered from `first` on. */
  function ChunksOf(groups: seq<Group>, parentOrdinal: nat, first: nat, c: Config): (r: seq<Chunk>)
    ensures |r| == |groups|
  {
    seq(|groups|, i requires 0 <= i < |groups| => ChildChunk(groups[i], first + i, parentOrdinal, c))
  }

  /** The children of the parents from `i` on, numbered from `first` on. */
  function ChildChunksFrom(parents: seq<Group>, i: nat, first: nat, c: Config): seq<Chunk>
    requires i <= |parents|
    decreases |parents| - i
  {
    if i == |parents| then []
    else
      var groups := ChildGroups(parents[i], c);
      ChunksOf(groups, i, first, c) + ChildChunksFrom(parents, i + 1, first + |groups|, c)
  }

  function Construct(d: Document, c: Config): ChunkHierarchy
    requires c.parentMax > 0
  {
    var parents := ParentGroupsOf(d, c);
    ChunkHierarchy(ParentChunks(parents), ChildChunksFrom(parents, 0, 0, c))
  }

  /** `_segments_for_blocks`. */
  method SegmentsForBlocks(blocks: seq<Block>, maxTokens: nat) returns (segments: seq<Segment>)
    requires maxTokens > 0
    ensures segments == Expanded(BlockSegments(blocks), maxTokens)
  {
    hide Tokens, SplitSegment;
    segments := [];
    ghost var sources := BlockSegments(blocks);
    for i := 0 to |blocks|
      invariant segments + Expanded(sources[i..], maxTokens) == Expanded(sources, maxTokens)
    {
      assert sources[i..][1..] == sources[i + 1..];
      segments := segments + SplitSegment(SegmentOf(blocks[i]), maxTokens);
    }
    assert sources[|blocks|..] == [];
  }

  /** `construct_hierarchy`. */
  method ConstructHierarchy(d: Document, c: Config) returns (h: ChunkHierarchy)
    requires ValidConfig(c)
    ensures h == Construct(d, c)
  {
    hide Tokens, Expanded, ChildGroups, ParentGroups, MakeChunk;
    var segments := SegmentsForBlocks(d.blocks, c.parentMax);
    var drafts := GroupParents(segments, c);
    var parents: seq<Chunk> := [];
    var children: seq<Chunk> := [];
    for parentOrdinal := 0 to |drafts|
      invariant parents == ParentChunks(drafts)[..parentOrdinal]
      invariant children + ChildChunksFrom(drafts, parentOrdinal, |children|, c) == ChildChunksFrom(drafts, 0, 0, c)
    {
      parents := parents + [ParentChunk(drafts[parentOrdinal], parentOrdinal)];
      var groups := GroupChildren(drafts[parentOrdinal], c);
      ghost var before := children;
      for k := 0 to |groups|
        invariant |children| == |before| + k
        invariant children == before + ChunksOf(groups, parentOrdinal, |before|, c)[..k]
      {
        children := children + [ChildChunk(groups[k], |children|, parentOrdinal, c)];
      }
      assert children == before + ChunksOf(groups, parentOrdinal, |before|, c);
    }
    h := ChunkHierarchy(parents, children);
  }

  // ---------- finding the group behind a chunk ----------

  lemma {:induction false} ChildChunkAt(parents: seq<Group>, i: nat, first: nat, c: Config, j: nat)
      returns (p: nat, k: nat)
    requires i <= |parents| && j < |ChildChunksFrom(parents, i, first, c)|
    ensures i <= p < |parents| && k < |ChildGroups(parents[p], c)|
    ensures ChildChunksFrom(parents, i, first, c)[j] == ChildChunk(ChildGroups(parents[p], c)[k], first + j, p, c)
    decreases |parents| - i
  {
    hide ChildGroups, MakeChunk;
    var groups := ChildGroups(parents[i], c);
    if j < |groups| {
      p, k := i, j;
    } else {
      p, k := ChildChunkAt(parents, i + 1, first + |groups|, c, j - |groups|);
    }
  }

  lemma {:induction false} ChildChunkOf(parents: seq<Group>, i: nat, first: nat, c: Config, p: nat, k: nat)
      returns (j: nat)
    requires i <= p < |parents| && k < |ChildGroups(parents[p], c)|
    ensures j < |ChildChunksFrom(parents, i, first, c)|
    ensures ChildChunksFrom(parents, i, first, c)[j] == ChildChunk(ChildGroups(parents[p], c)[k], first + j, p, c)
    decreases |parents| - i
  {
    hide ChildGroups, MakeChunk;
    var groups := ChildGroups(parents[i], c);
    if i == p {
      j := k;
    } else {
      j := ChildChunkOf(parents, i + 1, first + |groups|, c, p, k);
      j := j + |groups|;
    }
  }
}
