/** Inputs on which the chunking does less than its design suggests; each shows that a condition of a theorem is needed.
    Documents in order whose chunks are not: why `OffsetOrder` asks for evenly spaced sentences, and for tables that
    are only cut between rows. A document with a child that is too long: why `Correctness` asks for parents that take
    the path with the longest prefix. */
module ChunkingShortfalls {
  import opened Wrappers
  import opened Tokenization
  import opened Segments
  import opened Splitting
  import opened Tables
  import opened SegmentSplitting
  import opened Content
  import opened Headings
  import opened Placement
  import opened ParentGrouping
  import opened ParentClosing
  import opened ChildPacking
  import opened ChildOverlap
  import opened ChildGrouping
  import opened Hierarchy
  import opened Validation
  import opened Correctness
  import opened OffsetOrder

  // ---------- what both documents need ----------

  /** Without heading paths the whole maximum is for content. */
  lemma NoPrefix(c: Config)
    ensures PrefixTokens([], c.childMax) == 0 && (c.childMax >= 1 ==> ContentMax([], c) == c.childMax)
  {}

  function Sized(segments: seq<Segment>): nat { Count(JoinSegments(segments)) }

  lemma SizedSnoc(segments: seq<Segment>, s: Segment)
    ensures Sized(segments + [s]) == Sized(segments) + Count(s.text)
    ensures Sized([]) == 0
  {
    hide Tokens, JoinSegments, SegmentTokens;
    JoinSegmentsTokens(segments + [s]);
    JoinSegmentsTokens(segments);
    JoinSegmentsTokens([]);
    SegmentTokensSnoc(segments, s);
    NothingIsSmall();
  }

  // ---------- sentence marks without a space between them ----------

  const MARK: Character := Other(46)
  const MARKS: Text := [MARK, MARK, MARK, MARK, MARK, MARK]
  const WORD: Text := [Word(118)]

  const SPACED_MARKS: Text :=
    [MARK, Space(32), MARK, Space(32), MARK, Space(32), MARK, Space(32), MARK]

  const MARKS_CONFIG := Config(1, 1, 5, 0, 7, 7)

  const MARKS_BLOCK := Block(MARKS, Paragraph, 0, None, None, [], Some(0), Some(6))
  const WORD_BLOCK := Block(WORD, Paragraph, 1, None, None, [], Some(8), Some(9))

  /** Six sentence marks, and a word two characters further on. */
  const MARKS_DOCUMENT := Document([MARKS_BLOCK, WORD_BLOCK], None)

  function Repeated(n: nat): (r: seq<Text>)
    ensures |r| == n && forall i :: 0 <= i < n ==> r[i] == [MARK]
  {
    if n == 0 then [] else [[MARK]] + Repeated(n - 1)
  }

  lemma {:induction false} MarksSentences(at: nat)
    requires at <= 6
    ensures SentencesFrom(MARKS, at) == Repeated(6 - at)
    decreases 6 - at
  {
    hide Strip;
    if at < 6 {
      MarksSentences(at + 1);
      SentencesStep(MARKS, at);
      assert SentenceEnd(MARKS, at) == at + 1;
      OneToken(MARK);
      assert MARKS[at..at + 1] == [MARK];
    }
  }

  lemma {:induction false} RepeatedTokens(n: nat)
    ensures |AllTokens(Repeated(n))| == n
  {
    hide Tokens;
    if n > 0 {
      RepeatedTokens(n - 1);
      OneToken(MARK);
      SplitFromCons([MARK], Repeated(n - 1));
    }
  }

  lemma RepeatedSnoc(n: nat)
    ensures Repeated(n) + [[MARK]] == Repeated(n + 1)
    ensures Repeated(n + 1) == [[MARK]] + Repeated(n)
  {}

  lemma MarksCount()
    ensures Count(MARKS) == 6 && !Blank(MARKS)
  {
    hide Tokens, Strip;
    MarksSentences(0);
    SentencesFromTokens(MARKS, 0);
    RepeatedTokens(6);
    BlankIsTokenless(MARKS);
  }

  /** Five marks make one piece; the sixth is left. */
  lemma {:induction false} MarksPieces(k: nat)
    requires k <= 5
    ensures SentencePieces(Repeated(6 - k), 5, Repeated(k)) == [Sentence(Repeated(5)), [MARK]]
    decreases 5 - k
  {
    hide Tokens, JoinTexts, SentencePieces, AllTokens;
    OneToken(MARK);
    RepeatedSnoc(5 - k);
    RepeatedSnoc(k);
    PiecesStep([MARK], Repeated(5 - k), 5, Repeated(k));
    RepeatedTokens(k + 1);
    FlushedTokens(Repeated(k + 1));
    if k < 5 {
      MarksPieces(k + 1);
    } else {
      NoSentencePieces(5, [[MARK]]);
      OneMark();
      assert [Sentence(Repeated(5))] + [[MARK]] == [Sentence(Repeated(5)), [MARK]];
    }
  }

  lemma OneMark()
    ensures Flushed([[MARK]]) == [[MARK]]
  {}

  lemma FiveMarks()
    ensures Sentence(Repeated(5)) == SPACED_MARKS
  {
    RepeatedSnoc(4);
    RepeatedSnoc(3);
    RepeatedSnoc(2);
    RepeatedSnoc(1);
    RepeatedSnoc(0);
    assert Repeated(1)[1..] == [];
    assert forall k: nat :: Repeated(k + 1)[1..] == Repeated(k);
    var one := Sentence(Repeated(1));
    assert one == [MARK];
    var two := Sentence(Repeated(2));
    assert two == [MARK] + SINGLE_SPACE + one;
    var three := Sentence(Repeated(3));
    assert three == [MARK] + SINGLE_SPACE + two;
    var four := Sentence(Repeated(4));
    assert four == [MARK] + SINGLE_SPACE + three;
    assert Sentence(Repeated(5)) == [MARK] + SINGLE_SPACE + four;
  }

  const MARKS_SEGMENT := SegmentOf(MARKS_BLOCK)
  const WORD_SEGMENT := SegmentOf(WORD_BLOCK)
  const FIRST_PIECE := MARKS_SEGMENT.(text := SPACED_MARKS, startOffset := Some(0), endOffset := Some(9))
  const LAST_PIECE := MARKS_SEGMENT.(text := [MARK], startOffset := Some(9), endOffset := Some(10))

  lemma MarksSplit()
    ensures SentenceSplit(MARKS_SEGMENT, 5) == LocatedPieces(MARKS_SEGMENT, [SPACED_MARKS, [MARK]], 0)
    ensures Count(SPACED_MARKS) == 5
  {
    hide Tokens, SentencesFrom, SentencePieces, JoinTexts, LocatedPieces, AllTokens;
    MarksSentences(0);
    MarksPieces(0);
    FiveMarks();
    RepeatedTokens(5);
    FlushedTokens(Repeated(5));
  }

  /** Neither piece occurs in the text, so the second starts where the longer first one ends. */
  lemma MarksParts()
    ensures SplitSegment(MARKS_SEGMENT, 5) == [FIRST_PIECE, LAST_PIECE]
    ensures Count(FIRST_PIECE.text) == 5 && Count(LAST_PIECE.text) == 1
  {
    hide Tokens, SentenceSplit, LocatedPieces;
    MarksCount();
    MarksSplit();
    OneToken(MARK);
    LocatedStep(MARKS_SEGMENT, SPACED_MARKS, [[MARK]], 0);
    LocatedStep(MARKS_SEGMENT, [MARK], [], 9);
    assert [SPACED_MARKS] + [[MARK]] == [SPACED_MARKS, [MARK]] && [[MARK]] + [] == [[MARK]];
    NothingLocated(MARKS_SEGMENT, 10);
  }

  lemma NothingLocated(s: Segment, cursor: nat)
    ensures LocatedPieces(s, [], cursor) == []
  {}

  lemma ExpandedTwo(a: Segment, b: Segment, n: nat)
    requires n > 0
    ensures Expanded([a, b], n) == SplitSegment(a, n) + SplitSegment(b, n)
  {
    hide SplitSegment;
    assert [a, b][1..] == [b] && [b][1..] == [];
    assert Expanded([b], n) == SplitSegment(b, n) + Expanded([], n);
  }

  lemma UncutSegment(s: Segment, n: nat)
    requires n > 0 && Count(s.text) <= n
    ensures SplitSegment(s, n) == [s]
  {}

  lemma MarksParents()
    ensures ParentGroupsOf(MARKS_DOCUMENT, MARKS_CONFIG) == [[MARKS_SEGMENT, WORD_SEGMENT]]
  {
    hide Tokens, JoinSegments, SplitSegment, ParentGrouping.Run;
    var a, b, c := MARKS_SEGMENT, WORD_SEGMENT, MARKS_CONFIG;
    MarksCount();
    OneToken(WORD[0]);
    UncutSegment(a, 7);
    UncutSegment(b, 7);
    ExpandedTwo(a, b, 7);
    assert BlockSegments(MARKS_DOCUMENT.blocks) == [a, b];
    SizedSnoc([], a);
    SizedSnoc([a], b);
    assert [] + [a] == [a] && [a] + [b] == [a, b] && [a, b][1..] == [b] && [b][1..] == [];
    var g0, g1, g2 := Grouping([], [a, b], [], false), Grouping([], [b], [a], false), Grouping([], [], [a, b], false);
    ParentGrouping.RunStep(g0, c);
    assert ParentGrouping.Step(g0, c) == g1;
    ParentGrouping.RunStep(g1, c);
    assert ParentGrouping.Step(g1, c) == g2;
    ParentGrouping.RunDone(g2, c);
  }

  lemma PackFull(groups: seq<Group>, current: Segment, next: Segment, rest: seq<Segment>, l: Limits)
    requires l.min == l.target == 1 && Count(current.text) >= 1 && Count(next.text) >= 1 && Count(next.text) <= l.max
    ensures ChildPacking.Step(Packing(groups, [next] + rest, [current], TotalCount([next] + rest)), l)
         == Packing(groups + [[current]], rest, [next], TotalCount(rest))
  {
    hide Tokens, JoinSegments, SplitSegment, TotalCount;
    TotalCountCons(next, rest);
    SizedSnoc([], current);
    assert [] + [current] == [current] && [] + [next] == [next] && ([next] + rest)[1..] == rest;
  }

  lemma PackFirst(next: Segment, rest: seq<Segment>, l: Limits)
    ensures ChildPacking.Step(Packing([], [next] + rest, [], TotalCount([next] + rest)), l)
         == Packing([], rest, [next], TotalCount(rest))
  {
    hide Tokens, JoinSegments, SplitSegment, TotalCount;
    TotalCountCons(next, rest);
    assert [] + [next] == [next] && ([next] + rest)[1..] == rest;
  }

  /** With a target of one token every segment is a group of its own. */
  lemma ThreeGroups(a: Segment, b: Segment, d: Segment, l: Limits)
    requires l.min == l.target == 1 && 1 <= Count(a.text) && 1 <= Count(b.text) <= l.max && 1 <= Count(d.text) <= l.max
    ensures BaseGroups([a, b, d], l) == [[a], [b], [d]]
  {
    hide Tokens, JoinSegments, ChildPacking.Step, ChildPacking.Run, TotalCount;
    var c0, c1, c2 := [b, d], [d], [];
    assert [a, b, d] == [a] + c0 && c0 == [b] + c1 && c1 == [d] + c2;
    NoCount();
    PackFirst(a, c0, l);
    PackFull([], a, b, c1, l);
    PackFull([[a]], b, d, c2, l);
    ChildPacking.RunStep(Packing([], [a, b, d], [], TotalCount([a, b, d])), l);
    ChildPacking.RunStep(Packing([], c0, [a], TotalCount(c0)), l);
    assert [] + [[a]] == [[a]] && [[a]] + [[b]] == [[a], [b]] && [[a], [b]] + [[d]] == [[a], [b], [d]];
    ChildPacking.RunStep(Packing([[a]], c1, [b], TotalCount(c1)), l);
    ChildPacking.RunDone(Packing([[a], [b]], c2, [d], TotalCount(c2)), l);
    SizedSnoc([], d);
    assert [] + [d] == [d];
  }

  lemma NoCount()
    ensures TotalCount([]) == 0
  {}

  lemma ChildrenOf(parent: Group, expanded: seq<Segment>, bases: seq<Group>, c: Config)
    requires c.childMax >= 1 && c.childOverlap == 0 && parent != [] && OnePath(parent, [])
    requires Expanded(parent, c.childMax) == expanded && BaseGroups(expanded, ContentLimits([], c)) == bases
    ensures ChildGroups(parent, c) == bases
  {
    hide Expanded, BaseGroups, TailSegments, ContentMax;
    NoPrefix(c);
    HeadingPathOfOne(parent, []);
  }

  lemma MarksChildren()
    ensures ChildGroups([MARKS_SEGMENT, WORD_SEGMENT], MARKS_CONFIG) == [[FIRST_PIECE], [LAST_PIECE], [WORD_SEGMENT]]
  {
    hide Tokens, SplitSegment, BaseGroups, ContentMax, ChildGroups, Expanded;
    var a, b, c := MARKS_SEGMENT, WORD_SEGMENT, MARKS_CONFIG;
    NoPrefix(c);
    MarksParts();
    OneToken(WORD[0]);
    UncutSegment(b, 5);
    ExpandedTwo(a, b, 5);
    assert [FIRST_PIECE, LAST_PIECE] + [b] == [FIRST_PIECE, LAST_PIECE, b];
    ThreeGroups(FIRST_PIECE, LAST_PIECE, b, Limits(1, 1, 5));
    assert ContentLimits([], c) == Limits(1, 1, 5);
    ChildrenOf([a, b], [FIRST_PIECE, LAST_PIECE, b], [[FIRST_PIECE], [LAST_PIECE], [b]], c);
  }

  lemma OneParentChildren(parent: Group, c: Config)
    ensures ChildChunksFrom([parent], 0, 0, c) == ChunksOf(ChildGroups(parent, c), 0, 0, c)
  {
    hide ChildGroups, ChildChunk;
    assert ChildChunksFrom([parent], 1, |ChildGroups(parent, c)|, c) == [];
    assert ChunksOf(ChildGroups(parent, c), 0, 0, c) + [] == ChunksOf(ChildGroups(parent, c), 0, 0, c);
  }

  lemma StartOfOne(s: Segment)
    ensures ChunkStart([s]) == s.startOffset
  {
    assert StartOffsets([s])[0] == s.startOffset && StartOffsets([s])[1..] == [];
    assert MinPresent([]) == None;
  }

  lemma MarksConstruction()
    ensures var h := Construct(MARKS_DOCUMENT, MARKS_CONFIG);
            && |h.parents| == 1 && |h.children| == 3
            && h.children[1].startOffset == Some(9) && h.children[2].startOffset == Some(8)
  {
    hide ParentGroupsOf, ChildGroups, ChunkStart, ChildChunk;
    var c := MARKS_CONFIG;
    var parent := [MARKS_SEGMENT, WORD_SEGMENT];
    MarksParents();
    MarksChildren();
    OneParentChildren(parent, c);
    ChildChunkIs([LAST_PIECE], 1, 0, c);
    ChildChunkIs([WORD_SEGMENT], 2, 0, c);
    StartOfOne(LAST_PIECE);
    StartOfOne(WORD_SEGMENT);
  }

  lemma UntitledIsSound(d: Document, c: Config)
    requires ValidConfig(c) && forall b <- d.blocks :: Sound(SegmentOf(b), d.pageCount) && b.headingPath == []
    requires forall b <- d.blocks :: b.kind == Table ==> SafeTable(b.text, c.childMax)
    ensures BlocksSound(d, c) && PathsSteady(d) && PrefixFits(d, c)
  {
    hide Sound, Tokens, PrefixTokens, SafeTable, ContentMax;
    NoPrefix(c);
  }

  lemma TwoBlocks(a: Block, b: Block)
    ensures BlockTokens([a, b]) == Count(a.text) + Count(b.text)
  {
    hide Tokens;
    assert [a, b][1..] == [b] && [b][1..] == [];
    assert BlockTokens([b]) == Count(b.text) + BlockTokens([]);
  }

  /** Evenly spaced sentences are needed: sentences that the text does not separate by a space are rejoined with one,
      the pieces outgrow the block, and the next block starts before the last of them. */
  lemma RejoinedSentencesRunBack(maxChunks: int, maxTokens: int)
    requires maxChunks >= 4 && maxTokens >= 7
    ensures ValidConfig(MARKS_CONFIG) && BlocksSound(MARKS_DOCUMENT, MARKS_CONFIG) && BlocksInOrder(MARKS_DOCUMENT)
    ensures Validate(MARKS_DOCUMENT, Construct(MARKS_DOCUMENT, MARKS_CONFIG), MARKS_CONFIG, maxChunks, maxTokens)
         == Rejected(ChildOffsetOrder)
  {
    hide BlocksSound, PathsSteady, PathsLeaveRoom, PrefixFits, Construct, Validate, Blank, BlockTokens;
    var d, c := MARKS_DOCUMENT, MARKS_CONFIG;
    MarksConstruction();
    MarksAreSound();
    SteadyPathsLeaveRoom(d, c);
    ConstructionIsValid(d, c, maxChunks, maxTokens);
    assert OffsetsOrdered(Construct(d, c).parents);
    assert !OffsetsOrdered(Construct(d, c).children);
  }

  lemma MarksAreSound()
    ensures var d, c := MARKS_DOCUMENT, MARKS_CONFIG;
            && BlocksSound(d, c) && PathsSteady(d) && PrefixFits(d, c) && BlockTokens(d.blocks) == 7
            && forall b <- d.blocks :: !Blank(b.text)
  {
    hide Tokens, Strip, BlocksSound, PathsSteady, PrefixFits, BlockTokens;
    UntitledIsSound(MARKS_DOCUMENT, MARKS_CONFIG);
    TwoBlocks(MARKS_BLOCK, WORD_BLOCK);
    MarksCount();
    OneToken(WORD[0]);
  }

  // ---------- a table whose first piece is cut inside ----------

  const TITLE: Text := [Word(104)]
  const TABLE: Text := [Word(97), Space(10), Word(98), Space(10), Word(99)]
  const FIRST_ROWS: Text := [Word(97), Space(10), Word(98)]
  const LAST_ROWS: Text := [Word(97), Space(10), Word(99)]

  const TABLE_CONFIG := Config(1, 2, 2, 0, 3, 3)

  const TITLE_BLOCK := Block(TITLE, Heading, 0, None, None, [], Some(0), Some(1))
  const TABLE_BLOCK := Block(TABLE, Table, 1, None, None, [], Some(3), Some(8))

  /** A heading and a table of a header and two rows. */
  const TABLE_DOCUMENT := Document([TITLE_BLOCK, TABLE_BLOCK], None)

  const TITLE_SEGMENT := SegmentOf(TITLE_BLOCK)
  const TABLE_SEGMENT := SegmentOf(TABLE_BLOCK)
  const FIRST_ROWS_SEGMENT := TABLE_SEGMENT.(text := FIRST_ROWS)
  const LAST_ROWS_SEGMENT := TABLE_SEGMENT.(text := LAST_ROWS)

  lemma TableRows()
    ensures Rows(TABLE) == [[Word(97)], [Word(98)], [Word(99)]]
  {
    hide Strip, AddRow;
    OneToken(Word(97));
    OneToken(Word(98));
    OneToken(Word(99));
    RowsStep(TABLE, 0, 5);
    RowsStep(TABLE, 2, 5);
    RowsStep(TABLE, 4, 5);
    assert LineEnd(TABLE, 0, 5) == 1 && TABLE[0..1] == [Word(97)];
    assert LineEnd(TABLE, 2, 5) == 3 && TABLE[2..3] == [Word(98)];
    assert LineEnd(TABLE, 4, 5) == 5 && TABLE[4..5] == [Word(99)];
    AddedRow(Word(97), RowsIn(TABLE, 2, 5));
    AddedRow(Word(98), RowsIn(TABLE, 4, 5));
    AddedRow(Word(99), []);
  }

  lemma AddedRow(c: Character, rows: seq<Text>)
    requires !c.Space?
    ensures AddRow([c], rows) == [[c]] + rows
  {
    OneToken(c);
  }

  lemma TwoRows(a: Character, b: Character)
    requires !a.Space? && !b.Space?
    ensures TableText([a], [[b]]) == [a, Space(10), b] && Count([a, Space(10), b]) == 2
  {
    hide Tokens, AllTokens;
    assert [[a]] + [[b]] == [[a], [b]] && [[a], [b]][1..] == [[b]];
    assert JoinTexts(NEWLINE, [[b]]) == [b];
    assert JoinTexts(NEWLINE, [[a], [b]]) == [a] + NEWLINE + [b];
    TableTextTokens([a], [[b]]);
    AllTokensOne([b]);
    OneToken(a);
    OneToken(b);
  }

  lemma TableCounts()
    ensures Count(TITLE) == 1 && Count(TABLE) == 3 && Count(FIRST_ROWS) == 2 && Count(LAST_ROWS) == 2
    ensures !Blank(TITLE) && !Blank(TABLE) && SafeTable(TABLE, 2) && SplitsByRows(TABLE, 2)
  {
    hide Tokens, Strip, RowsIn, AllTokens;
    OneToken(TITLE[0]);
    OneToken(Word(97));
    OneToken(Word(98));
    OneToken(Word(99));
    TwoRows(Word(97), Word(98));
    TwoRows(Word(97), Word(99));
    TableRows();
    RowsHoldAllTokens(TABLE);
    SplitFromCons([Word(97)], [[Word(98)], [Word(99)]]);
    SplitFromCons([Word(98)], [[Word(99)]]);
    AllTokensOne([Word(99)]);
    assert [[Word(97)], [Word(98)], [Word(99)]] == [[Word(97)]] + [[Word(98)], [Word(99)]];
    assert [[Word(98)], [Word(99)]] == [[Word(98)]] + [[Word(99)]];
    BlankIsTokenless(TABLE);
  }

  lemma TablePieces2()
    ensures SplitsByRows(TABLE, 2) && RowSplitTexts(TABLE, 2) == [FIRST_ROWS, LAST_ROWS]
  {
    hide Tokens, RowsIn, TableText, AllTokens, TablePieces;
    var a, b, c := [Word(97)], [Word(98)], [Word(99)];
    TableRows();
    TableCounts();
    assert Rows(TABLE)[1..] == [b, c];
    TwoRows(Word(97), Word(98));
    TwoRows(Word(97), Word(99));
    assert [b, c] == [b] + [c] && [c] == [c] + [] && [] + [b] == [b];
    TablePiecesStep(a, b, [c], 2, []);
    TablePiecesStep(a, c, [], 2, [b]);
    TableTextTokens(a, [b] + [c]);
    AllTokensSnoc([b], c);
    AllTokensOne(b);
    OneToken(Word(97));
    OneToken(Word(98));
    OneToken(Word(99));
    LastPiece(a, 2, [c]);
  }

  lemma TableParts()
    ensures SplitSegment(TABLE_SEGMENT, 2) == [FIRST_ROWS_SEGMENT, LAST_ROWS_SEGMENT]
  {
    hide Tokens, Rows, RowSplitTexts;
    TableCounts();
    TablePieces2();
  }

  /** The cut inside the first piece moves on from the start of the table. */
  lemma FirstRowsParts() returns (x: Segment, y: Segment)
    ensures SplitSegment(FIRST_ROWS_SEGMENT, 1) == [x, y] && Count(x.text) == Count(y.text) == 1
    ensures x.headingPath == y.headingPath == []
    ensures y.startOffset.Some? && y.startOffset.value > 3
  {
    hide Tokens, RowsIn, HardSplit, StartOf, EndOf, AllTokens;
    var s := FIRST_ROWS_SEGMENT;
    TableCounts();
    OneToken(Word(97));
    OneToken(Word(98));
    assert [Word(97)] + NEWLINE + [Word(98)] == FIRST_ROWS;
    FirstRowsAreTwo();
    HardSplitConserves(s, 1);
    CeilDivStep(2, 1);
    CeilDivStep(1, 1);
    CeilDivStep(0, 1);
    HardSplitOffsets(s, 1, 1);
    StartIsLater(FIRST_ROWS);
    x, y := HardSplit(s, 1)[0], HardSplit(s, 1)[1];
    assert x in HardSplit(s, 1) && y in HardSplit(s, 1);
    TableSplitIs(s, 1);
  }

  lemma FirstRowsAreTwo()
    ensures !SplitsByRows(FIRST_ROWS, 1)
  {
    hide Strip, RowsIn, LineEnd;
    TableRows();
    assert TABLE[0..3] == FIRST_ROWS;
    OneToken(Word(97));
    OneToken(Word(98));
    assert IsLine([Word(97)]) && IsLine([Word(98)]);
    TableTextHeaderFirst([Word(97)], [[Word(98)]]);
    TwoRows(Word(97), Word(98));
  }

  lemma StartIsLater(t: Text)
    requires Count(t) == 2
    ensures StartOf(t, 1) > 0
  {
    SpansIncrease(t, 0, |t|, 0, 1);
    SpanBounds(t, 0, |t|, 0);
  }

  lemma TableParents()
    ensures ParentGroupsOf(TABLE_DOCUMENT, TABLE_CONFIG) == [[TITLE_SEGMENT, FIRST_ROWS_SEGMENT], [LAST_ROWS_SEGMENT]]
  {
    hide Tokens, JoinSegments, SplitSegment, ParentGrouping.Run, Rows;
    var a, b, c := TITLE_SEGMENT, TABLE_SEGMENT, TABLE_CONFIG;
    var x, y := FIRST_ROWS_SEGMENT, LAST_ROWS_SEGMENT;
    TableCounts();
    TableParts();
    UncutSegment(a, 3);
    UncutSegment(b, 3);
    ExpandedTwo(a, b, 3);
    assert BlockSegments(TABLE_DOCUMENT.blocks) == [a, b];
    SizedSnoc([], a);
    SizedSnoc([a], b);
    assert [] + [a] == [a] && [a] + [b] == [a, b] && [a] + [x] == [a, x] && [] + [y] == [y];
    assert [a, b][1..] == [b] && [b][1..] == [] && [x, y][1..] + [] == [y] && [y][1..] == [];
    var g0, g1 := Grouping([], [a, b], [], false), Grouping([], [b], [a], true);
    var g2, g3 := Grouping([[a, x]], [y], [], false), Grouping([[a, x]], [], [y], false);
    ParentGrouping.RunStep(g0, c);
    assert ParentGrouping.Step(g0, c) == g1;
    ParentGrouping.RunStep(g1, c);
    BodyTurn(g1, c, x, y);
    ParentGrouping.RunStep(g2, c);
    assert ParentGrouping.Step(g2, c) == g3;
    ParentGrouping.RunDone(g3, c);
    assert [[a, x]] + [[y]] == [[a, x], [y]];
  }

  lemma BodyTurn(g: Grouping, c: Config, x: Segment, y: Segment)
    requires |g.queue| == 1 && |g.current| == 1 && g.parents == [] && g.needsBody && g.queue[0].kind != Heading
    requires Count(g.current[0].text) == 1 && Count(g.queue[0].text) == 3 && c.parentMax == 3
    requires SplitSegment(g.queue[0], 2) == [x, y]
    ensures ParentGrouping.Step(g, c) == Grouping([g.current + [x]], [y], [], false)
  {
    hide Tokens, JoinSegments, SplitSegment;
    SizedSnoc([], g.current[0]);
    SizedSnoc(g.current, g.queue[0]);
    assert [] + [g.current[0]] == g.current;
    assert [x, y][1..] + g.queue[1..] == [y] && [] + [g.current + [x]] == [g.current + [x]];
  }

  lemma HeadingTurn(a: Segment, b: Segment, x: Segment, y: Segment, l: Limits)
    requires a.kind == Heading && Count(a.text) == 1 && Count(b.text) == 2 && l == Limits(1, 2, 2)
    requires SplitSegment(b, 1) == [x, y] && Count(y.text) == 1
    ensures ChildPacking.Step(Packing([], [b], [a], 2), l) == Packing([[a, x]], [y], [], 1)
  {
    hide Tokens, JoinSegments, SplitSegment, TotalCount;
    NoCount();
    assert [b] == [b] + [] && [y] == [y] + [];
    TotalCountCons(y, []);
    SizedSnoc([], a);
    SizedSnoc([a], b);
    assert [] + [a] == [a] && [x, y][1..] + [b][1..] == [y] && [] + [[a, x]] == [[a, x]] && [a] + [x] == [a, x];
    assert [x, y][1..] == [y];
  }

  /** A table piece that does not fit after its heading is cut by tokens. */
  lemma HeadedGroups(a: Segment, b: Segment, x: Segment, y: Segment, l: Limits)
    requires a.kind == Heading && Count(a.text) == 1 && Count(b.text) == 2 && l == Limits(1, 2, 2)
    requires SplitSegment(b, 1) == [x, y] && Count(y.text) == 1
    ensures BaseGroups([a, b], l) == [[a, x], [y]]
  {
    hide Tokens, JoinSegments, SplitSegment, ChildPacking.Step, ChildPacking.Run, TotalCount;
    assert [a, b] == [a] + [b] && [b] == [b] + [] && [y] == [y] + [] && [] + [y] == [y];
    NoCount();
    TotalCountCons(b, []);
    TotalCountCons(y, []);
    TotalCountCons(a, [b]);
    PackFirst(a, [b], l);
    ChildPacking.RunStep(Packing([], [a, b], [], 3), l);
    HeadingTurn(a, b, x, y, l);
    ChildPacking.RunStep(Packing([], [b], [a], 2), l);
    PackNext([[a, x]], y, l);
    ChildPacking.RunStep(Packing([[a, x]], [y], [], 1), l);
    ChildPacking.RunDone(Packing([[a, x]], [], [y], 0), l);
    SizedSnoc([], y);
    assert [[a, x]] + [[y]] == [[a, x], [y]];
  }

  lemma PackNext(groups: seq<Group>, next: Segment, l: Limits)
    requires Count(next.text) == 1
    ensures ChildPacking.Step(Packing(groups, [next], [], 1), l) == Packing(groups, [], [next], 0)
  {
    hide Tokens, JoinSegments, SplitSegment;
    assert [] + [next] == [next] && [next][1..] == [];
  }

  lemma OneGroup(a: Segment, l: Limits)
    requires Count(a.text) <= l.max
    ensures BaseGroups([a], l) == [[a]]
  {
    hide Tokens, JoinSegments, SplitSegment, ChildPacking.Step, ChildPacking.Run, TotalCount;
    assert [a] == [a] + [] && [] + [[a]] == [[a]];
    NoCount();
    TotalCountCons(a, []);
    PackFirst(a, [], l);
    ChildPacking.RunStep(Packing([], [a], [], TotalCount([a])), l);
    ChildPacking.RunDone(Packing([], [], [a], 0), l);
  }

  lemma TableChildren() returns (x: Segment, y: Segment)
    ensures ChildGroups([TITLE_SEGMENT, FIRST_ROWS_SEGMENT], TABLE_CONFIG) == [[TITLE_SEGMENT, x], [y]]
    ensures ChildGroups([LAST_ROWS_SEGMENT], TABLE_CONFIG) == [[LAST_ROWS_SEGMENT]]
    ensures y.startOffset.Some? && y.startOffset.value > 3
  {
    hide Tokens, SplitSegment, BaseGroups, ContentMax, ChildGroups, Expanded;
    var a, b, e, c := TITLE_SEGMENT, FIRST_ROWS_SEGMENT, LAST_ROWS_SEGMENT, TABLE_CONFIG;
    NoPrefix(c);
    TableCounts();
    x, y := FirstRowsParts();
    UncutSegment(a, 2);
    UncutSegment(b, 2);
    UncutSegment(e, 2);
    ExpandedTwo(a, b, 2);
    ExpandedOne(e, 2);
    assert [a] + [b] == [a, b];
    assert ContentLimits([], c) == Limits(1, 2, 2);
    HeadedGroups(a, b, x, y, Limits(1, 2, 2));
    OneGroup(e, Limits(1, 2, 2));
    ChildrenOf([a, b], [a, b], [[a, x], [y]], c);
    ChildrenOf([e], [e], [[e]], c);
  }

  lemma ExpandedOne(s: Segment, n: nat)
    requires n > 0
    ensures Expanded([s], n) == SplitSegment(s, n)
  {
    hide SplitSegment;
    assert [s][1..] == [] && Expanded([], n) == [];
  }

  lemma TwoParentsChildren(p: Group, q: Group, c: Config)
    ensures var n := |ChildGroups(p, c)|;
            ChildChunksFrom([p, q], 0, 0, c) == ChunksOf(ChildGroups(p, c), 0, 0, c) + ChunksOf(ChildGroups(q, c), 1, n, c)
  {
    hide ChildGroups, ChildChunk;
    var n, m := |ChildGroups(p, c)|, |ChildGroups(q, c)|;
    assert ChildChunksFrom([p, q], 2, n + m, c) == [];
    assert ChildChunksFrom([p, q], 1, n, c) == ChunksOf(ChildGroups(q, c), 1, n, c) + [];
  }

  lemma TableConstruction()
    ensures var h := Construct(TABLE_DOCUMENT, TABLE_CONFIG);
            && |h.parents| == 2 && |h.children| == 3
            && h.parents[0].startOffset == Some(0) && h.parents[1].startOffset == Some(3)
            && h.children[1].startOffset.Some? && h.children[1].startOffset.value > 3
            && h.children[2].startOffset == Some(3)
  {
    hide ParentGroupsOf, ChildGroups, ChildChunk, JoinSegments, HeadingPath, Distinct, MaxPresent;
    var c := TABLE_CONFIG;
    var p, q := [TITLE_SEGMENT, FIRST_ROWS_SEGMENT], [LAST_ROWS_SEGMENT];
    TableParents();
    var x, y := TableChildren();
    TwoParentsChildren(p, q, c);
    ChildChunkIs([y], 1, 0, c);
    ChildChunkIs([LAST_ROWS_SEGMENT], 2, 1, c);
    ChunkStarts(p, Parent, 0, None, None);
    ChunkStarts(q, Parent, 1, None, None);
    StartOfOne(y);
    StartOfOne(LAST_ROWS_SEGMENT);
    StartOfTwo(TITLE_SEGMENT, FIRST_ROWS_SEGMENT);
  }

  lemma StartOfTwo(a: Segment, b: Segment)
    requires a.startOffset.Some? && b.startOffset.Some? && a.startOffset.value <= b.startOffset.value
    ensures ChunkStart([a, b]) == a.startOffset
  {
    hide MinPresent;
    var g := [a, b];
    StartIsLeast(g, a);
    var s := StartIsAttained(g);
  }

  /** Room after the heading is needed: a table keeps its start in every piece, and a piece that is cut inside,
      because it does not fit after its heading, runs ahead of the pieces that follow. */
  lemma TablePiecesRunBack(maxChunks: int, maxTokens: int)
    requires maxChunks >= 5 && maxTokens >= 4
    ensures ValidConfig(TABLE_CONFIG) && BlocksSound(TABLE_DOCUMENT, TABLE_CONFIG) && BlocksInOrder(TABLE_DOCUMENT)
    ensures Validate(TABLE_DOCUMENT, Construct(TABLE_DOCUMENT, TABLE_CONFIG), TABLE_CONFIG, maxChunks, maxTokens)
         == Rejected(ChildOffsetOrder)
  {
    hide BlocksSound, PathsSteady, PathsLeaveRoom, PrefixFits, Construct, Validate, Blank, BlockTokens;
    var d, c := TABLE_DOCUMENT, TABLE_CONFIG;
    TableConstruction();
    TableIsSound();
    SteadyPathsLeaveRoom(d, c);
    ConstructionIsValid(d, c, maxChunks, maxTokens);
    assert OffsetsOrdered(Construct(d, c).parents);
    assert !OffsetsOrdered(Construct(d, c).children);
  }

  lemma TableIsSound()
    ensures var d, c := TABLE_DOCUMENT, TABLE_CONFIG;
            && BlocksSound(d, c) && PathsSteady(d) && PrefixFits(d, c) && BlockTokens(d.blocks) == 4
            && forall b <- d.blocks :: !Blank(b.text)
  {
    hide Tokens, Strip, Rows, SafeTable, BlocksSound, PathsSteady, PrefixFits, BlockTokens;
    TableCounts();
    assert forall b <- TABLE_DOCUMENT.blocks :: b == TITLE_BLOCK || b == TABLE_BLOCK;
    UntitledIsSound(TABLE_DOCUMENT, TABLE_CONFIG);
    TwoBlocks(TITLE_BLOCK, TABLE_BLOCK);
  }

  // ---------- a heading path with few tokens but many parts ----------

  /** Three tokens in two parts, and four tokens in one. */
  const DEEP_PATH: seq<Text> := [[MARK], [MARK]]
  const LONG_PATH: seq<Text> := [[MARK, MARK, MARK, MARK]]
  const TWO_MARKS: Text := [MARK, MARK]

  const PATHS_CONFIG := Config(1, 1, 5, 0, 6, 6)

  const DEEP_BLOCK := Block(WORD, Paragraph, 0, None, None, DEEP_PATH, None, None)
  const LONG_BLOCK := Block(TWO_MARKS, Paragraph, 1, None, None, LONG_PATH, None, None)
  const DEEP_SEGMENT := SegmentOf(DEEP_BLOCK)
  const LONG_SEGMENT := SegmentOf(LONG_BLOCK)

  /** Two paragraphs of one parent under different heading paths. */
  const PATHS_DOCUMENT := Document([DEEP_BLOCK, LONG_BLOCK], None)

  lemma AnotherMark(t: Text)
    ensures Count(t + [MARK]) == Count(t) + 1
  {
    hide Tokens;
    TokensConcat(t, [MARK]);
    OneToken(MARK);
  }

  lemma PathTextCounts()
    ensures Count(WORD) == 1 && Count(TWO_MARKS) == 2 && Count(LONG_PATH[0]) == 4
    ensures !Blank(WORD) && !Blank(TWO_MARKS)
  {
    hide Tokens, Strip;
    OneToken(WORD[0]);
    OneToken(MARK);
    AnotherMark([MARK]);
    AnotherMark(TWO_MARKS);
    AnotherMark(TWO_MARKS + [MARK]);
    assert [MARK] + [MARK] == TWO_MARKS && TWO_MARKS + [MARK] + [MARK] == LONG_PATH[0];
    BlankIsTokenless(TWO_MARKS);
  }

  lemma PathPrefixes()
    ensures HeadingPrefix(LONG_PATH, 5) == LONG_PATH[0]
    ensures PrefixTokens(DEEP_PATH, 5) == 3 && PrefixTokens(LONG_PATH, 5) == 4
  {
    hide Tokens, Strip;
    PathTextCounts();
    OneToken(MARK);
    OneToken(Other(62));
    var right := [Other(62)] + [Space(32)] + [MARK];
    TokensJoin([Other(62)], [Space(32)], [MARK]);
    TokensJoin([MARK], [Space(32)], right);
    assert DEEP_PATH[1..] == [[MARK]] && LONG_PATH[1..] == [] && [[MARK]][1..] == [];
    assert JoinTexts(PATH_SEPARATOR, [[MARK]]) == [MARK];
    assert JoinTexts(PATH_SEPARATOR, DEEP_PATH) == [MARK] + [Space(32)] + right;
    PrefixTokensAre(DEEP_PATH, 5);
    PrefixTokensAre(LONG_PATH, 5);
  }

  lemma PathsParents()
    ensures ParentGroupsOf(PATHS_DOCUMENT, PATHS_CONFIG) == [[DEEP_SEGMENT, LONG_SEGMENT]]
  {
    hide Tokens, JoinSegments, SplitSegment, ParentGrouping.Run;
    var a, b, c := DEEP_SEGMENT, LONG_SEGMENT, PATHS_CONFIG;
    PathTextCounts();
    UncutSegment(a, 6);
    UncutSegment(b, 6);
    ExpandedTwo(a, b, 6);
    assert BlockSegments(PATHS_DOCUMENT.blocks) == [a, b];
    SizedSnoc([], a);
    SizedSnoc([a], b);
    assert [] + [a] == [a] && [a] + [b] == [a, b] && [a, b][1..] == [b] && [b][1..] == [];
    var g0, g1, g2 := Grouping([], [a, b], [], false), Grouping([], [b], [a], false), Grouping([], [], [a, b], false);
    ParentGrouping.RunStep(g0, c);
    assert ParentGrouping.Step(g0, c) == g1;
    ParentGrouping.RunStep(g1, c);
    assert ParentGrouping.Step(g1, c) == g2;
    ParentGrouping.RunDone(g2, c);
  }

  /** With a target of one token both segments are groups of their own. */
  lemma TwoGroups(a: Segment, b: Segment, l: Limits)
    requires l.min == l.target == 1 && 1 <= Count(a.text) && 1 <= Count(b.text) <= l.max
    ensures BaseGroups([a, b], l) == [[a], [b]]
  {
    hide Tokens, JoinSegments, ChildPacking.Step, ChildPacking.Run, TotalCount;
    assert [a, b] == [a] + [b] && [b] == [b] + [] && [] + [[a]] == [[a]] && [[a]] + [[b]] == [[a], [b]];
    NoCount();
    PackFirst(a, [b], l);
    PackFull([], a, b, [], l);
    ChildPacking.RunStep(Packing([], [a, b], [], TotalCount([a, b])), l);
    ChildPacking.RunStep(Packing([], [b], [a], TotalCount([b])), l);
    ChildPacking.RunDone(Packing([[a]], [], [b], TotalCount([])), l);
    SizedSnoc([], b);
    assert [] + [b] == [b];
  }

  /** The parent takes the path with more parts, which leaves room for two tokens. */
  lemma PathsChildren()
    ensures ChildGroups([DEEP_SEGMENT, LONG_SEGMENT], PATHS_CONFIG) == [[DEEP_SEGMENT], [LONG_SEGMENT]]
  {
    hide Tokens, SplitSegment, BaseGroups, PrefixTokens, TailSegments, Expanded;
    var a, b, c := DEEP_SEGMENT, LONG_SEGMENT, PATHS_CONFIG;
    PathTextCounts();
    PathPrefixes();
    HeadingPathOfOne([b], LONG_PATH);
    assert [a, b][1..] == [b] && HeadingPath([a, b]) == DEEP_PATH;
    UncutSegment(a, 2);
    UncutSegment(b, 2);
    ExpandedTwo(a, b, 2);
    assert [a] + [b] == [a, b];
    TwoGroups(a, b, Limits(1, 1, 2));
  }

  lemma PathsConstruction()
    ensures var h := Construct(PATHS_DOCUMENT, PATHS_CONFIG);
            && |h.parents| == 1 && |h.children| == 2 && OffsetsOrdered(h.parents) && OffsetsOrdered(h.children)
            && h.children[1] == ChildChunk([LONG_SEGMENT], 1, 0, PATHS_CONFIG)
  {
    hide ParentGroupsOf, ChildGroups, ChunkStart, ChildChunk;
    var c := PATHS_CONFIG;
    PathsParents();
    PathsChildren();
    OneParentChildren([DEEP_SEGMENT, LONG_SEGMENT], c);
    ChildChunkIs([DEEP_SEGMENT], 0, 0, c);
    ChildChunkIs([LONG_SEGMENT], 1, 0, c);
    StartOfOne(DEEP_SEGMENT);
    StartOfOne(LONG_SEGMENT);
  }

  /** The child takes the path of its own segment: four tokens of prefix and two of content. */
  lemma LongPathOverflows()
    ensures !ChildSizeHolds(ChildChunk([LONG_SEGMENT], 1, 0, PATHS_CONFIG), PATHS_CONFIG)
  {
    hide Tokens, JoinSegments, HeadingPrefix, ChildChunk;
    var g, c := [LONG_SEGMENT], PATHS_CONFIG;
    PathTextCounts();
    PathPrefixes();
    HeadingPathOfOne(g, LONG_PATH);
    SizedSnoc([], LONG_SEGMENT);
    assert [] + g == g;
    EmbeddingOf(g, 1, 0, c);
    TokensJoin(LONG_PATH[0], PARAGRAPH_BREAK, JoinSegments(g));
  }

  lemma PathsAreSound()
    ensures var d, c := PATHS_DOCUMENT, PATHS_CONFIG;
            SourcesSound(d) && BlocksSound(d, c) && PrefixFits(d, c) && BlockTokens(d.blocks) == 3
  {
    hide Tokens, Strip, PrefixTokens, BlockTokens;
    TwoBlocks(DEEP_BLOCK, LONG_BLOCK);
    PathTextCounts();
  }

  /** A parent that takes the path with the longest prefix is needed: a parent takes the path with the most parts,
      and leaves too little room for a child under a path with fewer parts and more tokens. */
  lemma ShorterPathOverflows(maxChunks: int, maxTokens: int)
    requires maxChunks >= 3 && maxTokens >= 3
    ensures ValidConfig(PATHS_CONFIG) && BlocksSound(PATHS_DOCUMENT, PATHS_CONFIG) && PrefixFits(PATHS_DOCUMENT, PATHS_CONFIG)
    ensures Validate(PATHS_DOCUMENT, Construct(PATHS_DOCUMENT, PATHS_CONFIG), PATHS_CONFIG, maxChunks, maxTokens)
         == Rejected(Sizes)
  {
    hide BlocksSound, SourcesSound, PrefixFits, Construct, BlockTokens, ChildSizeHolds, ChildChunk;
    hide OrdinalsHold, RangesHold, OffsetsOrdered;
    var d, c := PATHS_DOCUMENT, PATHS_CONFIG;
    PathsAreSound();
    PathsConstruction();
    LongPathOverflows();
    OrdinalsAreConsecutive(d, c);
    RangesAreValid(d, c);
    assert Construct(d, c).children[1] in Construct(d, c).children;
  }

  // ---------- a parent that is too long ----------

  const HEADER: Text := [Word(97)]
  const SHORT_ROW: Text := Headings.Marked(4)
  const WIDE_ROW: Text := Headings.Marked(9)

  const WIDE_CONFIG := Config(1, 1, 7, 0, 8, 8)

  const WIDE_BLOCK := Block(TableText(HEADER, [SHORT_ROW, WIDE_ROW]), Table, 0, None, None, [], None, None)
  const WIDE_SEGMENT := SegmentOf(WIDE_BLOCK)
  const SHORT_PIECE := WIDE_SEGMENT.(text := TableText(HEADER, [SHORT_ROW]))
  const WIDE_PIECE := WIDE_SEGMENT.(text := TableText(HEADER, [WIDE_ROW]))

  /** One table with a header of one token and rows of four and of nine. */
  const WIDE_DOCUMENT := Document([WIDE_BLOCK], None)

  lemma {:induction false} MarkedOnly(n: nat)
    ensures forall k :: 0 <= k < |Headings.Marked(n)| ==> Headings.Marked(n)[k] == MARK
  {
    if n > 0 { MarkedOnly(n - 1); }
  }

  lemma MarkedIsLine(n: nat)
    requires n > 0
    ensures IsLine(Headings.Marked(n)) && Count(Headings.Marked(n)) == n
  {
    hide Tokens, Headings.Marked, Blank;
    MarkedOnly(n);
    MarkedCount(n);
    BlankIsTokenless(Headings.Marked(n));
  }

  lemma WideCounts()
    ensures Rows(WIDE_BLOCK.text) == [HEADER, SHORT_ROW, WIDE_ROW] && Count(HEADER) == 1
    ensures Count(WIDE_BLOCK.text) == 14 && Count(SHORT_PIECE.text) == 5 && Count(WIDE_PIECE.text) == 10
  {
    hide Tokens, Strip, RowsIn, AllTokens, JoinTexts, Headings.Marked;
    OneToken(HEADER[0]);
    MarkedIsLine(4);
    MarkedIsLine(9);
    assert [HEADER] + [SHORT_ROW, WIDE_ROW] == [HEADER, SHORT_ROW, WIDE_ROW];
    RowsOfJoin([HEADER, SHORT_ROW, WIDE_ROW]);
    TableTextTokens(HEADER, [SHORT_ROW, WIDE_ROW]);
    TableTextTokens(HEADER, [SHORT_ROW]);
    TableTextTokens(HEADER, [WIDE_ROW]);
    AllTokensOne(SHORT_ROW);
    AllTokensOne(WIDE_ROW);
    SplitFromCons(SHORT_ROW, [WIDE_ROW]);
    assert [SHORT_ROW] + [WIDE_ROW] == [SHORT_ROW, WIDE_ROW];
  }

  /** The wide row follows a row that fits, so it is not measured. */
  lemma WideParts()
    ensures SplitSegment(WIDE_SEGMENT, 8) == [SHORT_PIECE, WIDE_PIECE]
  {
    hide Tokens, RowsIn, TableText, AllTokens, TablePieces, Headings.Marked;
    WideCounts();
    assert [HEADER, SHORT_ROW, WIDE_ROW][1..] == [SHORT_ROW] + [WIDE_ROW] && [WIDE_ROW] + [] == [WIDE_ROW];
    assert [] + [SHORT_ROW] == [SHORT_ROW] && [SHORT_ROW] + [WIDE_ROW] == [SHORT_ROW, WIDE_ROW];
    TablePiecesStep(HEADER, SHORT_ROW, [WIDE_ROW], 8, []);
    TablePiecesStep(HEADER, WIDE_ROW, [], 8, [SHORT_ROW]);
    LastPiece(HEADER, 8, [WIDE_ROW]);
    var texts := [SHORT_PIECE.text, WIDE_PIECE.text];
    assert RowSplitTexts(WIDE_BLOCK.text, 8) == texts;
    assert Retexted(WIDE_SEGMENT, texts) == [SHORT_PIECE, WIDE_PIECE];
  }

  lemma WideParents()
    ensures ParentGroupsOf(WIDE_DOCUMENT, WIDE_CONFIG) == [[SHORT_PIECE], [WIDE_PIECE]]
  {
    hide Tokens, SplitSegment, SegmentTokens, ParentGroups, TableText, Headings.Marked;
    var a, b, c := SHORT_PIECE, WIDE_PIECE, WIDE_CONFIG;
    assert BlockSegments(WIDE_DOCUMENT.blocks) == [WIDE_SEGMENT];
    ExpandedOne(WIDE_SEGMENT, 8);
    WideParts();
    WideCounts();
    SegmentTokensOne(a);
    SegmentTokensSnoc([a], b);
    assert [a] + [b] == [a, b] && [b] + [] == [b];
    assert [[a], [b]][1..] == [[b]] && [[b]][1..] == [];
    assert IsGrouping([], [], c);
    assert IsFirstParent([b], c, [b], []);
    assert IsGrouping([b], [[b]], c);
    assert IsFirstParent([a, b], c, [a], [b]);
    GroupingIsParents([a, b], [[a], [b]], c);
  }

  /** Without offsets in the blocks there are none in the chunks. */
  lemma NoOffsetsInOrder(d: Document, c: Config)
    requires ValidConfig(c) && SourcesSound(d) && forall b <- d.blocks :: b.startOffset.None?
    ensures OffsetsOrdered(Construct(d, c).parents) && OffsetsOrdered(Construct(d, c).children)
  {
    hide ParentGroupsOf, ChildGroups, SourcesSound, ChunkStart, ChildChunk;
    var parents := ParentGroupsOf(d, c);
    forall chunk | chunk in Construct(d, c).parents ensures chunk.startOffset.None? {
      var i :| 0 <= i < |parents| && chunk == ParentChunk(parents[i], i);
      ParentsSound(d, c, parents[i]);
      ParentStartsNowhere(d, c, parents[i]);
      ChunkStarts(parents[i], Parent, i, None, None);
      StartsNowhere(parents[i]);
    }
    forall chunk | chunk in Construct(d, c).children ensures chunk.startOffset.None? {
      var p, k := ChildOrigin(d, c, chunk);
      var g := ChildGroups(parents[p], c)[k];
      ChildSound(d, c, parents[p], g);
      ParentStartsNowhere(d, c, parents[p]);
      ChildChunkIs(g, chunk.ordinal, p, c);
      StartsNowhere(g);
    }
  }

  lemma StartsNowhere(g: Group)
    requires forall s <- g :: s.startOffset.None?
    ensures ChunkStart(g).None?
  {
    if ChunkStart(g).Some? {
      var i :| 0 <= i < |g| && StartOffsets(g)[i] == ChunkStart(g);
      assert g[i] in g;
    }
  }

  lemma ParentStartsNowhere(d: Document, c: Config, p: Group)
    requires ValidConfig(c) && p in ParentGroupsOf(d, c) && forall b <- d.blocks :: b.startOffset.None?
    ensures forall s <- p :: s.startOffset.None?
  {
    hide ParentGroupsOf;
    forall s | s in p ensures s.startOffset.None? {
      ParentSegmentFromBlock(d, c, p, s);
      var b :| b in d.blocks && PartOf(s, SegmentOf(b));
    }
  }

  lemma WideIsSound()
    ensures SourcesSound(WIDE_DOCUMENT) && BlockTokens(WIDE_DOCUMENT.blocks) == 14
  {
    hide Tokens, TableText, Headings.Marked;
    WideCounts();
    assert WIDE_DOCUMENT.blocks[1..] == [];
  }

  /** Tables that fit row by row are needed: a parent above the maximum is made of a row that is not measured. */
  lemma WideRowOverflows(maxChunks: int, maxTokens: int)
    requires maxChunks >= |Construct(WIDE_DOCUMENT, WIDE_CONFIG).parents| + |Construct(WIDE_DOCUMENT, WIDE_CONFIG).children|
    requires maxTokens >= 14
    ensures ValidConfig(WIDE_CONFIG) && SourcesSound(WIDE_DOCUMENT)
    ensures var h := Construct(WIDE_DOCUMENT, WIDE_CONFIG);
            && |h.parents| == 2 && Count(h.parents[1].text) == 10
            && Validate(WIDE_DOCUMENT, h, WIDE_CONFIG, maxChunks, maxTokens) == Rejected(Sizes)
  {
    hide BlockTokens, OrdinalsHold, RangesHold, OffsetsOrdered, SourcesSound, Tokens, JoinSegments, TableText, Headings.Marked;
    hide ChildGroups, ParentGroupsOf;
    var d, c := WIDE_DOCUMENT, WIDE_CONFIG;
    WideParents();
    WideCounts();
    WideIsSound();
    OrdinalsAreConsecutive(d, c);
    RangesAreValid(d, c);
    NoOffsetsInOrder(d, c);
    LinksAreValid(d, c);
    SizedSnoc([], WIDE_PIECE);
    assert [] + [WIDE_PIECE] == [WIDE_PIECE];
    var parents := Construct(d, c).parents;
    assert parents[1] == ParentChunk([WIDE_PIECE], 1) && parents[1] in parents;
    assert exists child <- Construct(d, c).children :: child.parentOrdinal == Some(parents[1].ordinal);
  }

  // ---------- a row that is not measured ----------

  const LONG_ROW: Text := [Word(99), Other(46)]
  const LONG_TABLE: Text := [Word(97), Space(10), Word(98), Space(10), Word(99), Other(46)]

  lemma LongTableRows()
    ensures Rows(LONG_TABLE) == [[Word(97)], [Word(98)], LONG_ROW] && Count(LONG_ROW) == 2
  {
    hide Strip, AddRow, Tokens;
    OneToken(Word(97));
    OneToken(Word(98));
    OneToken(Word(99));
    OneToken(Other(46));
    TokensConcat([Word(99)], [Other(46)]);
    assert [Word(99)] + [Other(46)] == LONG_ROW;
    BlankIsTokenless(LONG_ROW);
    RowsStep(LONG_TABLE, 0, 6);
    RowsStep(LONG_TABLE, 2, 6);
    RowsStep(LONG_TABLE, 4, 6);
    assert LineEnd(LONG_TABLE, 0, 6) == 1 && LONG_TABLE[0..1] == [Word(97)];
    assert LineEnd(LONG_TABLE, 2, 6) == 3 && LONG_TABLE[2..3] == [Word(98)];
    assert LineEnd(LONG_TABLE, 4, 6) == 6 && LONG_TABLE[4..6] == LONG_ROW;
    AddedRow(Word(97), RowsIn(LONG_TABLE, 2, 6));
    AddedRow(Word(98), RowsIn(LONG_TABLE, 4, 6));
    AddedLine(LONG_ROW, []);
  }

  lemma AddedLine(line: Text, rows: seq<Text>)
    requires !Blank(line)
    ensures AddRow(line, rows) == [line] + rows
  {}

  /** A row that follows one that fits is not measured again: at a maximum of two tokens a piece has three. */
  lemma LaterRowIsNotMeasured()
    ensures SplitsByRows(LONG_TABLE, 2) && !AllFit(RowSplitTexts(LONG_TABLE, 2), 2)
  {
    hide Tokens, Strip, Rows, RowSplitTexts;
    LongTableRows();
    OneToken(Word(97));
    OneToken(Word(98));
    RowSplitFitsExactly(LONG_TABLE, 2);
    var header, rows := [Word(97)], [[Word(98)], LONG_ROW];
    assert Rows(LONG_TABLE)[1..] == rows;
    assert Overlong(header, rows[1], 2) && !Overlong(header, rows[0], 2);
  }

  // ---------- a block that is not covered ----------

  /** A blank block beside a block with text. */
  const BLANK_DOCUMENT := Document([WORD_BLOCK, WORD_BLOCK.(text := [], order := 2)], None)

  /** A blank block is chunked but does not count as a source, so the coverage check fails in every configuration. */
  lemma BlankBlockIsNotCovered(c: Config)
    requires ValidConfig(c)
    ensures !CoverageHolds(BLANK_DOCUMENT, Construct(BLANK_DOCUMENT, c))
  {
    hide Construct, Tokens, Strip;
    CoverageExactly(BLANK_DOCUMENT, c);
    OneToken(WORD[0]);
    NothingIsBlank();
    assert BLANK_DOCUMENT.blocks[1] in BLANK_DOCUMENT.blocks;
  }

  lemma NothingIsBlank()
    ensures Blank([])
  {}
}
