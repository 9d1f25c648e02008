/** `validate_hierarchy`: the independent check of a constructed hierarchy. */
module Validation {
  import opened Wrappers
  import opened Tokenization
  import opened Headings
  import opened Hierarchy

  datatype Problem =
    | TokenLimit | NoChildren | ChunkLimit
    | ParentOrdering | ChildOrdering | ParentRanges | ChildRanges
    | ParentOffsetOrder | ChildOffsetOrder | Sizes | ParentLinks | Coverage

  datatype Verdict = Valid | Rejected(problem: Problem)

  function BlockTokens(blocks: seq<Block>): nat {
    if blocks == [] then 0 else Count(blocks[0].text) + BlockTokens(blocks[1..])
  }

  predicate OrdinalsHold(chunks: seq<Chunk>, level: Level) {
    forall i :: 0 <= i < |chunks| ==> chunks[i].ordinal == i && chunks[i].level == level
  }

  predicate RangeHolds(chunk: Chunk, pageCount: Option<int>) {
    && (chunk.startPage.Some? ==> chunk.startPage.value > 0)
    && (chunk.endPage.Some? ==> chunk.endPage.value > 0)
    && (chunk.startPage.Some? && chunk.endPage.Some? ==> chunk.startPage.value <= chunk.endPage.value)
    && (pageCount.Some? && chunk.endPage.Some? ==> chunk.endPage.value <= pageCount.value)
    && (chunk.startOffset.Some? ==> chunk.startOffset.value >= 0)
    && (chunk.endOffset.Some? ==> chunk.endOffset.value >= 0)
    && (chunk.startOffset.Some? && chunk.endOffset.Some? ==> chunk.startOffset.value <= chunk.endOffset.value)
  }

  predicate RangesHold(chunks: seq<Chunk>, pageCount: Option<int>) {
    forall chunk <- chunks :: RangeHolds(chunk, pageCount)
  }

  /** The known start offsets do not decrease. */
  predicate OffsetsOrdered(chunks: seq<Chunk>) {
    forall i, j :: 0 <= i < j < |chunks| && chunks[i].startOffset.Some? && chunks[j].startOffset.Some? ==>
      chunks[i].startOffset.value <= chunks[j].startOffset.value
  }

  predicate ParentSizeHolds(parent: Chunk, c: Config) {
    parent.tokenCount == Count(parent.text) && parent.tokenCount <= c.parentMax
  }

  /** The text that is embedded; an empty embedding text counts as none. */
  function EmbeddedText(child: Chunk): Text {
    if child.embeddingText.Some? && child.embeddingText.value != [] then child.embeddingText.value else child.text
  }

  predicate ChildSizeHolds(child: Chunk, c: Config) {
    && child.tokenCount == Count(child.text) && child.tokenCount <= c.childMax
    && Count(EmbeddedText(child)) <= c.childMax
  }

  predicate SizesHold(h: ChunkHierarchy, c: Config) {
    && (forall parent <- h.parents :: ParentSizeHolds(parent, c))
    && (forall child <- h.children :: ChildSizeHolds(child, c))
  }

  predicate LinkHolds(child: Chunk, parents: seq<Chunk>) {
    && child.parentOrdinal.Some? && child.parentOrdinal.value < |parents|
    && var parent := parents[child.parentOrdinal.value];
       && (forall order <- child.orders :: order in parent.orders)
       && (parent.startPage.Some? && child.startPage.Some? ==> parent.startPage.value <= child.startPage.value)
       && (parent.endPage.Some? && child.endPage.Some? ==> child.endPage.value <= parent.endPage.value)
  }

  predicate LinksHold(h: ChunkHierarchy) {
    && (forall parent <- h.parents :: exists child <- h.children :: child.parentOrdinal == Some(parent.ordinal))
    && (forall child <- h.children :: LinkHolds(child, h.parents))
  }

  function SourceOrders(d: Document): set<int> { set b <- d.blocks | !Blank(b.text) :: b.order }

  function ChunkOrders(chunks: seq<Chunk>): set<int> { set chunk <- chunks, order <- chunk.orders :: order }

  predicate CoverageHolds(d: Document, h: ChunkHierarchy) {
    SourceOrders(d) == ChunkOrders(h.parents) && SourceOrders(d) <= ChunkOrders(h.children)
  }

  function Validate(d: Document, h: ChunkHierarchy, c: Config, maxChunks: int, maxTokens: int): Verdict {
    if BlockTokens(d.blocks) > maxTokens then Rejected(TokenLimit)
    else if h.parents == [] || h.children == [] then Rejected(NoChildren)
    else if |h.parents| + |h.children| > maxChunks then Rejected(ChunkLimit)
    else if !OrdinalsHold(h.parents, Parent) then Rejected(ParentOrdering)
    else if !OrdinalsHold(h.children, Child) then Rejected(ChildOrdering)
    else if !RangesHold(h.parents, d.pageCount) then Rejected(ParentRanges)
    else if !RangesHold(h.children, d.pageCount) then Rejected(ChildRanges)
    else if !OffsetsOrdered(h.parents) then Rejected(ParentOffsetOrder)
    else if !OffsetsOrdered(h.children) then Rejected(ChildOffsetOrder)
    else if !SizesHold(h, c) then Rejected(Sizes)
    else if !LinksHold(h) then Rejected(ParentLinks)
    else if !CoverageHolds(d, h) then Rejected(Coverage)
    else Valid
  }
}
