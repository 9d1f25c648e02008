/** From the blocks of a document to the texts of its parent chunks: no token is lost, added or moved. */
module Conservation {
  import opened Tokenization
  import opened Segments
  import opened SegmentSplitting
  import opened Content
  import opened Headings
  import opened ParentGrouping
  import opened ChildPacking
  import opened ChildGrouping
  import opened Hierarchy

  function ChunkTexts(chunks: seq<Chunk>): (texts: seq<Text>)
    ensures |texts| == |chunks| && forall i :: 0 <= i < |chunks| ==> texts[i] == chunks[i].text
  {
    seq(|chunks|, i requires 0 <= i < |chunks| => chunks[i].text)
  }

  function BlockTexts(blocks: seq<Block>): (texts: seq<Text>)
    ensures |texts| == |blocks| && forall i :: 0 <= i < |blocks| ==> texts[i] == blocks[i].text
  {
    seq(|blocks|, i requires 0 <= i < |blocks| => blocks[i].text)
  }

  /** No table of the document has to be cut, even after its longest heading. */
  predicate TablesFit(d: Document, c: Config, longestHeading: nat) {
    forall b <- d.blocks ::
      && WholeTable(SegmentOf(b), c.parentMax - longestHeading)
      && (b.kind == Heading ==> Count(b.text) <= longestHeading)
  }

  lemma {:induction false} ExpandedHeadings(segments: seq<Segment>, n: nat, longestHeading: nat)
    requires n > 0 && forall s <- segments :: s.kind == Heading ==> Count(s.text) <= longestHeading
    ensures forall s <- Expanded(segments, n) :: s.kind == Heading ==> Count(s.text) <= longestHeading
  {
    hide Tokens;
    if segments != [] {
      assert segments[0] in segments && forall s <- segments[1..] :: s in segments;
      ExpandedHeadings(segments[1..], n, longestHeading);
      SplitHeading(segments[0], n, longestHeading);
      hide SplitSegment;
    }
  }

  lemma SplitHeading(s: Segment, n: nat, longestHeading: nat)
    requires n > 0 && (s.kind == Heading ==> Count(s.text) <= longestHeading)
    ensures forall p <- SplitSegment(s, n) :: p.kind == Heading ==> Count(p.text) <= longestHeading
  {
    hide Tokens;
    SplitSegmentParts(s, n);
    SplitSegmentNoLarger(s, n);
    if s.kind == Heading && Count(s.text) <= n { assert SplitSegment(s, n) == [s]; }
  }

  lemma {:induction false} BlockTokensInOrder(blocks: seq<Block>)
    ensures SegmentTokens(BlockSegments(blocks)) == AllTokens(BlockTexts(blocks))
  {
    hide Tokens, AllTokens;
    NoPieces();
    if blocks != [] {
      BlockTokensInOrder(blocks[1..]);
      assert BlockTexts(blocks) == [blocks[0].text] + BlockTexts(blocks[1..]);
      SplitFromCons(blocks[0].text, BlockTexts(blocks[1..]));
    }
  }

  lemma {:induction false} ParentTokensInOrder(groups: seq<Group>, first: nat, chunks: seq<Chunk>)
    requires |chunks| == |groups| && forall i :: 0 <= i < |groups| ==> chunks[i] == ParentChunk(groups[i], first + i)
    ensures AllTokens(ChunkTexts(chunks)) == SegmentTokens(Flat(groups))
  {
    hide Tokens, JoinSegments, SegmentTokens, MakeChunk;
    if groups == [] {
      NoPieces();
      NoSegments();
    } else {
      var rest := chunks[1..];
      assert forall i :: 0 <= i < |rest| ==> rest[i] == chunks[i + 1];
      ParentTokensInOrder(groups[1..], first + 1, rest);
      assert ChunkTexts(chunks) == [chunks[0].text] + ChunkTexts(rest);
      SplitFromCons(chunks[0].text, ChunkTexts(rest));
      ParentText(groups[0], first);
      SegmentTokensConcat(groups[0], Flat(groups[1..]));
    }
  }

  lemma NoSegments()
    ensures SegmentTokens([]) == [] && Flat([]) == []
  {}

  lemma ParentText(g: Group, ordinal: nat)
    ensures Tokens(ParentChunk(g, ordinal).text) == SegmentTokens(g)
  {
    hide Tokens, JoinSegments, SegmentTokens;
    JoinSegmentsTokens(g);
  }

  lemma FittingSegments(d: Document, c: Config, longestHeading: nat)
    requires TablesFit(d, c, longestHeading)
    ensures forall s <- BlockSegments(d.blocks) ::
              WholeTable(s, c.parentMax - longestHeading) && (s.kind == Heading ==> Count(s.text) <= longestHeading)
  {
    hide Tokens, WholeTable, BlockSegments;
    var blocks := BlockSegments(d.blocks);
    forall s | s in blocks
      ensures WholeTable(s, c.parentMax - longestHeading) && (s.kind == Heading ==> Count(s.text) <= longestHeading)
    {
      var i :| 0 <= i < |blocks| && blocks[i] == s;
      assert d.blocks[i] in d.blocks && s == SegmentOf(d.blocks[i]);
    }
  }

  lemma GroupsConserve(d: Document, c: Config, longestHeading: nat)
    requires ValidConfig(c) && TablesFit(d, c, longestHeading)
    ensures SegmentTokens(Flat(ParentGroupsOf(d, c))) == SegmentTokens(BlockSegments(d.blocks))
  {
    hide Tokens, WholeTable, Contents, ParentGroups, Flat, SegmentTokens, Expanded, BlockSegments, TablesFit, HeadingTokens;
    var blocks := BlockSegments(d.blocks);
    var segments := Expanded(blocks, c.parentMax);
    FittingSegments(d, c, longestHeading);
    ExpandedContents(blocks, c.parentMax, c.parentMax - longestHeading);
    ExpandedHeadings(blocks, c.parentMax, longestHeading);
    ParentsConserve(segments, c, longestHeading);
    SameContentsSameTokens(Flat(ParentGroups(segments, c)), blocks);
  }

  lemma ConstructedParents(d: Document, c: Config)
    requires ValidConfig(c)
    ensures Construct(d, c).parents == ParentChunks(ParentGroupsOf(d, c))
  {
    hide ParentGroupsOf, ParentChunks;
  }

  /** When no table has to be cut, the texts of the parents carry exactly the tokens of the blocks, in order. */
  lemma DocumentIsConserved(d: Document, c: Config, longestHeading: nat)
    requires ValidConfig(c) && TablesFit(d, c, longestHeading)
    ensures AllTokens(ChunkTexts(Construct(d, c).parents)) == AllTokens(BlockTexts(d.blocks))
  {
    hide Tokens, Flat, SegmentTokens, ParentChunk, ParentGroupsOf, BlockSegments, TablesFit, Construct, AllTokens;
    GroupsConserve(d, c, longestHeading);
    BlockTokensInOrder(d.blocks);
    ConstructedParents(d, c);
    ParentTokensInOrder(ParentGroupsOf(d, c), 0, Construct(d, c).parents);
  }
}
