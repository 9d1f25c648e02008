/** What each verdict of the validator means, spelled out over the fields of the chunks. */
module Verdicts {
  import opened Wrappers
  import opened Tokenization
  import opened Segments
  import opened Headings
  import opened Hierarchy
  import opened Validation

  /** Both ends are at least `least`, as far as they are known, and not reversed. */
  predicate IsRange(start: Option<int>, end: Option<int>, least: int) {
    match (start, end)
    case (None, None) => true
    case (Some(a), None) => a >= least
    case (None, Some(b)) => b >= least
    case (Some(a), Some(b)) => least <= a <= b
  }

  predicate HasRanges(chunk: Chunk, pageCount: Option<int>) {
    && IsRange(chunk.startPage, chunk.endPage, 1)
    && IsRange(chunk.startOffset, chunk.endOffset, 0)
    && !(pageCount.Some? && chunk.endPage.Some? && chunk.endPage.value > pageCount.value)
  }

  /** No later chunk starts before an earlier one. */
  predicate StartsInOrder(chunks: seq<Chunk>) {
    !exists i, j :: 0 <= i < j < |chunks| && StartsBefore(chunks[j], chunks[i])
  }

  predicate StartsBefore(a: Chunk, b: Chunk) {
    a.startOffset.Some? && b.startOffset.Some? && a.startOffset.value < b.startOffset.value
  }

  predicate IsWithin(child: Chunk, parent: Chunk) {
    && (forall order <- child.orders :: order in parent.orders)
    && !(child.startPage.Some? && parent.startPage.Some? && child.startPage.value < parent.startPage.value)
    && !(child.endPage.Some? && parent.endPage.Some? && child.endPage.value > parent.endPage.value)
  }

  /** The source block is in some chunk. */
  predicate IsDrawnOn(order: int, chunks: seq<Chunk>) { exists chunk <- chunks :: order in chunk.orders }

  predicate IsSource(order: int, d: Document) { exists b <- d.blocks :: b.order == order && Count(b.text) > 0 }

  predicate CountsUp(chunks: seq<Chunk>, level: Level) {
    forall i :: 0 <= i < |chunks| ==> chunks[i].ordinal == i && chunks[i].level == level
  }

  predicate AllHaveRanges(chunks: seq<Chunk>, pageCount: Option<int>) { forall chunk <- chunks :: HasRanges(chunk, pageCount) }

  predicate HasSizes(h: ChunkHierarchy, c: Config) {
    && (forall parent <- h.parents :: parent.tokenCount == Count(parent.text) <= c.parentMax)
    && (forall child <- h.children :: child.tokenCount == Count(child.text) <= c.childMax)
    && (forall child <- h.children ::
          child.embeddingText.Some? && |child.embeddingText.value| > 0 ==> Count(child.embeddingText.value) <= c.childMax)
  }

  predicate HasLinks(h: ChunkHierarchy) {
    && (forall parent <- h.parents :: exists child <- h.children :: child.parentOrdinal == Some(parent.ordinal))
    && (forall child <- h.children ::
          && child.parentOrdinal.Some? && child.parentOrdinal.value < |h.parents|
          && IsWithin(child, h.parents[child.parentOrdinal.value]))
  }

  ghost predicate IsCovered(d: Document, h: ChunkHierarchy) {
    && (forall order :: IsSource(order, d) <==> IsDrawnOn(order, h.parents))
    && (forall order :: IsSource(order, d) ==> IsDrawnOn(order, h.children))
  }

  /** The hierarchy passes the check that this problem stands for. */
  ghost predicate Passes(p: Problem, d: Document, h: ChunkHierarchy, c: Config, maxChunks: int, maxTokens: int) {
    match p
    case TokenLimit => Size(BlockSegments(d.blocks)) <= maxTokens
    case NoChildren => |h.parents| > 0 && |h.children| > 0
    case ChunkLimit => |h.parents| + |h.children| <= maxChunks
    case ParentOrdering => CountsUp(h.parents, Parent)
    case ChildOrdering => CountsUp(h.children, Child)
    case ParentRanges => AllHaveRanges(h.parents, d.pageCount)
    case ChildRanges => AllHaveRanges(h.children, d.pageCount)
    case ParentOffsetOrder => StartsInOrder(h.parents)
    case ChildOffsetOrder => StartsInOrder(h.children)
    case Sizes => HasSizes(h, c)
    case ParentLinks => HasLinks(h)
    case Coverage => IsCovered(d, h)
  }

  /** The place of a check in the source. */
  function Place(p: Problem): nat {
    match p
    case TokenLimit => 0
    case NoChildren => 1
    case ChunkLimit => 2
    case ParentOrdering => 3
    case ChildOrdering => 4
    case ParentRanges => 5
    case ChildRanges => 6
    case ParentOffsetOrder => 7
    case ChildOffsetOrder => 8
    case Sizes => 9
    case ParentLinks => 10
    case Coverage => 11
  }

  ghost predicate PassesBefore(n: nat, d: Document, h: ChunkHierarchy, c: Config, maxChunks: int, maxTokens: int) {
    forall p: Problem :: Place(p) < n ==> Passes(p, d, h, c, maxChunks, maxTokens)
  }

  // ---------- one check after the other ----------

  lemma {:induction false} TokensOfBlocks(blocks: seq<Block>)
    ensures BlockTokens(blocks) == Size(BlockSegments(blocks))
  {
    hide Tokens;
    if blocks == [] {
      assert BlockSegments(blocks) == [];
    } else {
      TokensOfBlocks(blocks[1..]);
      SegmentTokensCons(SegmentOf(blocks[0]), BlockSegments(blocks[1..]));
      assert BlockSegments(blocks) == [SegmentOf(blocks[0])] + BlockSegments(blocks[1..]);
    }
  }

  lemma RangesAre(chunks: seq<Chunk>, pageCount: Option<int>)
    ensures RangesHold(chunks, pageCount) <==> AllHaveRanges(chunks, pageCount)
  {
    forall chunk | chunk in chunks ensures RangeHolds(chunk, pageCount) == HasRanges(chunk, pageCount) {}
  }

  lemma StartsAre(chunks: seq<Chunk>)
    ensures OffsetsOrdered(chunks) <==> StartsInOrder(chunks)
  {}

  lemma SizesAre(h: ChunkHierarchy, c: Config)
    ensures SizesHold(h, c) <==> HasSizes(h, c)
  {
    hide Tokens;
  }

  lemma LinksAre(h: ChunkHierarchy)
    ensures LinksHold(h) <==> HasLinks(h)
  {
    forall child | child in h.children
      ensures LinkHolds(child, h.parents) <==>
                && child.parentOrdinal.Some? && child.parentOrdinal.value < |h.parents|
                && IsWithin(child, h.parents[child.parentOrdinal.value])
    {}
  }

  lemma SourcesAre(d: Document, order: int)
    ensures order in SourceOrders(d) <==> IsSource(order, d)
  {
    hide Tokens, Blank;
    forall b | b in d.blocks ensures Blank(b.text) <==> Count(b.text) == 0 { BlankIsTokenless(b.text); }
  }

  lemma OrdersAre(chunks: seq<Chunk>, order: int)
    ensures order in ChunkOrders(chunks) <==> IsDrawnOn(order, chunks)
  {}

  lemma CoverageIs(d: Document, h: ChunkHierarchy)
    ensures CoverageHolds(d, h) <==> IsCovered(d, h)
  {
    hide SourceOrders, IsSource, ChunkOrders, IsDrawnOn;
    var source, parents, children := SourceOrders(d), ChunkOrders(h.parents), ChunkOrders(h.children);
    forall order: int ensures order in source <==> IsSource(order, d) { SourcesAre(d, order); }
    forall order: int ensures order in parents <==> IsDrawnOn(order, h.parents) { OrdersAre(h.parents, order); }
    forall order: int ensures order in children <==> IsDrawnOn(order, h.children) { OrdersAre(h.children, order); }
    if IsCovered(d, h) {
      forall order | order in source ensures order in parents && order in children {}
      forall order | order in parents ensures order in source {}
      assert source == parents;
    }
  }

  // ---------- the verdict ----------

  function ProblemAt(n: nat): (p: Problem)
    requires n < 12
    ensures Place(p) == n
  {
    [TokenLimit, NoChildren, ChunkLimit, ParentOrdering, ChildOrdering, ParentRanges, ChildRanges,
     ParentOffsetOrder, ChildOffsetOrder, Sizes, ParentLinks, Coverage][n]
  }

  lemma OnePlaceEach(p: Problem)
    ensures Place(p) < 12 && ProblemAt(Place(p)) == p
  {}

  lemma PassesUpTo(n: nat, d: Document, h: ChunkHierarchy, c: Config, maxChunks: int, maxTokens: int)
    requires n < 12
    ensures PassesBefore(n + 1, d, h, c, maxChunks, maxTokens) <==>
              PassesBefore(n, d, h, c, maxChunks, maxTokens) && Passes(ProblemAt(n), d, h, c, maxChunks, maxTokens)
  {
    hide Passes, Place, ProblemAt;
    var last := ProblemAt(n);
    forall p: Problem ensures Place(p) < n + 1 ==> Place(p) < n || p == last { OnePlaceEach(p); }
  }

  lemma NothingBefore(d: Document, h: ChunkHierarchy, c: Config, maxChunks: int, maxTokens: int)
    ensures PassesBefore(0, d, h, c, maxChunks, maxTokens)
  {}

  lemma ChecksAre(d: Document, h: ChunkHierarchy, c: Config, maxChunks: int, maxTokens: int)
    ensures Passes(TokenLimit, d, h, c, maxChunks, maxTokens) <==> BlockTokens(d.blocks) <= maxTokens
    ensures Passes(NoChildren, d, h, c, maxChunks, maxTokens) <==> h.parents != [] && h.children != []
    ensures Passes(ChunkLimit, d, h, c, maxChunks, maxTokens) <==> |h.parents| + |h.children| <= maxChunks
    ensures Passes(ParentOrdering, d, h, c, maxChunks, maxTokens) <==> OrdinalsHold(h.parents, Parent)
    ensures Passes(ChildOrdering, d, h, c, maxChunks, maxTokens) <==> OrdinalsHold(h.children, Child)
    ensures Passes(ParentRanges, d, h, c, maxChunks, maxTokens) <==> RangesHold(h.parents, d.pageCount)
    ensures Passes(ChildRanges, d, h, c, maxChunks, maxTokens) <==> RangesHold(h.children, d.pageCount)
    ensures Passes(ParentOffsetOrder, d, h, c, maxChunks, maxTokens) <==> OffsetsOrdered(h.parents)
    ensures Passes(ChildOffsetOrder, d, h, c, maxChunks, maxTokens) <==> OffsetsOrdered(h.children)
    ensures Passes(Sizes, d, h, c, maxChunks, maxTokens) <==> SizesHold(h, c)
    ensures Passes(ParentLinks, d, h, c, maxChunks, maxTokens) <==> LinksHold(h)
    ensures Passes(Coverage, d, h, c, maxChunks, maxTokens) <==> CoverageHolds(d, h)
  {
    hide BlockTokens, RangesHold, AllHaveRanges, OffsetsOrdered, StartsInOrder, SizesHold, HasSizes, LinksHold, HasLinks;
    hide CoverageHolds, IsCovered, Size, BlockSegments;
    TokensOfBlocks(d.blocks);
    RangesAre(h.parents, d.pageCount);
    RangesAre(h.children, d.pageCount);
    StartsAre(h.parents);
    StartsAre(h.children);
    SizesAre(h, c);
    LinksAre(h);
    CoverageIs(d, h);
  }

  /** A hierarchy is valid if and only if it passes every check; it is rejected for a problem if and only if that is the
      first check, in the order of the source, that it does not pass. */
  lemma VerdictExactly(d: Document, h: ChunkHierarchy, c: Config, maxChunks: int, maxTokens: int, p: Problem)
    ensures Validate(d, h, c, maxChunks, maxTokens) == Valid <==> PassesBefore(12, d, h, c, maxChunks, maxTokens)
    ensures Validate(d, h, c, maxChunks, maxTokens) == Rejected(p) <==>
              !Passes(p, d, h, c, maxChunks, maxTokens) && PassesBefore(Place(p), d, h, c, maxChunks, maxTokens)
  {
    hide BlockTokens, OrdinalsHold, RangesHold, OffsetsOrdered, SizesHold, LinksHold, CoverageHolds, Passes, PassesBefore;
    ChecksAre(d, h, c, maxChunks, maxTokens);
    NothingBefore(d, h, c, maxChunks, maxTokens);
    PassesUpTo(0, d, h, c, maxChunks, maxTokens);
    PassesUpTo(1, d, h, c, maxChunks, maxTokens);
    PassesUpTo(2, d, h, c, maxChunks, maxTokens);
    PassesUpTo(3, d, h, c, maxChunks, maxTokens);
    PassesUpTo(4, d, h, c, maxChunks, maxTokens);
    PassesUpTo(5, d, h, c, maxChunks, maxTokens);
    PassesUpTo(6, d, h, c, maxChunks, maxTokens);
    PassesUpTo(7, d, h, c, maxChunks, maxTokens);
    PassesUpTo(8, d, h, c, maxChunks, maxTokens);
    PassesUpTo(9, d, h, c, maxChunks, maxTokens);
    PassesUpTo(10, d, h, c, maxChunks, maxTokens);
    PassesUpTo(11, d, h, c, maxChunks, maxTokens);
  }
}
