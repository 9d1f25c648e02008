/** `_split_segment`: which cut is used, and what every cut guarantees. */
module SegmentSplitting {
  import opened Wrappers
  import opened Tokenization
  import opened Segments
  import opened Splitting
  import opened Tables

  /** The parts of a segment that must not exceed `maxTokens` tokens each. */
  function SplitSegment(s: Segment, maxTokens: nat): seq<Segment>
    requires maxTokens > 0
  {
    if Count(s.text) <= maxTokens then [s]
    else if s.kind == Table && |TableSplit(s, maxTokens)| > 1 then TableSplit(s, maxTokens)
    else if s.kind in {Paragraph, ListBlock, ListItem} && |SentenceSplit(s, maxTokens)| > 1 then
      SentenceSplit(s, maxTokens)
    else HardSplit(s, maxTokens)
  }

  /** A row-wise cut always makes more than one part. */
  lemma RowSplitMakesParts(t: Text, n: nat)
    requires SplitsByRows(t, n) && Count(t) > n
    ensures |RowSplitTexts(t, n)| > 1
  {
    hide Tokens, Rows, RowSplitTexts, SplitsByRows, AllTokens, TableText;
    var longest := Count(t);
    var pieces := RowSplitTexts(t, n);
    RowsWithinTotal(t);
    RowSplitConserves(t, n, longest);
    HeaderTokensFirst(t, n);
  }

  lemma HeaderTokensFirst(t: Text, n: nat)
    requires SplitsByRows(t, n)
    ensures forall p <- RowSplitTexts(t, n) :: Count(Rows(t)[0]) <= Count(p)
  {
    hide Tokens, Rows, RowSplitTexts;
    RowsWithinTotal(t);
    RowSplitConserves(t, n, Count(t));
    forall p | p in RowSplitTexts(t, n) ensures Count(Rows(t)[0]) <= Count(p) {
      RowsWithinTotal(p);
    }
  }

  /** The header and any one other row are no more than the whole text. */
  lemma RowsWithinTotal(t: Text)
    ensures forall i :: 0 <= i < |Rows(t)| ==> Count(Rows(t)[i]) <= Count(t)
    ensures forall i :: 1 <= i < |Rows(t)| ==> Count(Rows(t)[0]) + Count(Rows(t)[i]) <= Count(t)
  {
    hide Tokens, RowsIn;
    RowsHoldAllTokens(t);
    forall i | 0 <= i < |Rows(t)|
      ensures Count(Rows(t)[i]) <= Count(t)
      ensures i >= 1 ==> Count(Rows(t)[0]) + Count(Rows(t)[i]) <= Count(t)
    {
      if i >= 1 {
        assert Rows(t)[i] == Rows(t)[1..][i - 1];
        AllTokensMember(Rows(t)[1..], Rows(t)[i]);
      }
    }
  }

  // ---------- tables that can be cut without overflow ----------

  /** A table of two rows is cut by tokens; in a larger one the header and any row must fit. */
  predicate SafeTable(t: Text, limit: int) {
    |Rows(t)| <= 2 || forall i :: 1 <= i < |Rows(t)| ==> Count(Rows(t)[0]) + Count(Rows(t)[i]) <= limit
  }

  predicate Safe(s: Segment, limit: int) { s.kind == Table ==> SafeTable(s.text, limit) }

  lemma SmallIsSafe(t: Text, limit: nat)
    requires Count(t) <= limit
    ensures SafeTable(t, limit)
  {
    hide Tokens, Rows;
    RowsWithinTotal(t);
  }

  lemma HardPieceSlice(s: Segment, n: nat, p: Segment) returns (a: nat, b: nat)
    requires n > 0 && p in HardSplit(s, n)
    ensures a <= b <= |s.text| && s.text[a..b] == p.text
  {
    hide Tokens, Rows, SplitFrom;
    LocatedPiecesParts(s, Split(s.text, n), 0);
    assert p.text in Split(s.text, n);
    PieceIsSlice(s.text, n, 0, p.text);
    a, b :| a <= b <= |s.text| && s.text[a..b] == p.text;
  }

  /** Parts of a safe table are safe, whatever the limit of the cut. */
  lemma HardPartsSafe(s: Segment, n: nat, limit: int)
    requires n > 0 && SafeTable(s.text, limit) && !SplitsByRows(s.text, n)
    ensures forall p <- HardSplit(s, n) :: SafeTable(p.text, limit)
  {
    hide Tokens, Rows, HardSplit;
    HardSplitConserves(s, n);
    forall p | p in HardSplit(s, n) ensures SafeTable(p.text, limit) {
      if |Rows(s.text)| <= 2 {
        var a, b := HardPieceSlice(s, n, p);
        SliceHasFewerRows(s.text, a, b);
      } else {
        assert Count(Rows(s.text)[0]) + Count(Rows(s.text)[1]) <= limit;
        SmallIsSafe(p.text, limit);
      }
    }
  }

  lemma RowPartsSafe(t: Text, n: nat, limit: int)
    requires SplitsByRows(t, n) && SafeTable(t, limit)
    ensures forall p <- RowSplitTexts(t, n) :: SafeTable(p, limit) && Count(p) <= Max(n, limit)
  {
    hide Tokens, Rows, RowSplitTexts;
    var header := Rows(t)[0];
    assert Count(header) + Count(Rows(t)[1]) <= limit;
    RowSplitConserves(t, n, limit - Count(header));
  }

  // ---------- what a cut guarantees ----------

  /** A cut makes parts of the same block, the first within the limit, none of them empty. */
  lemma SplitSegmentParts(s: Segment, n: nat)
    requires n > 0
    ensures SplitSegment(s, n) != []
    ensures forall p <- SplitSegment(s, n) :: PartOf(p, s) && (Count(s.text) > 0 ==> Count(p.text) > 0)
    ensures Count(SplitSegment(s, n)[0].text) <= n
    ensures s.kind != Table ==> forall p <- SplitSegment(s, n) :: Count(p.text) <= n
  {
    hide Tokens, SentenceSplit, HardSplit, RowSplitTexts, Rows;
    HardSplitConserves(s, n);
    SentenceSplitConserves(s, n);
    if Count(s.text) > n && s.kind == Table && SplitsByRows(s.text, n) {
      RowSplitMakesParts(s.text, n);
      RowsWithinTotal(s.text);
      RowSplitConserves(s.text, n, Count(s.text));
      forall p | p in RowSplitTexts(s.text, n) ensures Count(p) > 0 { RowPieceHasTokens(s.text, p); }
    }
  }

  lemma RowPieceHasTokens(t: Text, p: Text)
    requires |Rows(t)| > 0 && HeaderFirst(Rows(t)[0], p)
    ensures Count(p) > 0
  {
    hide Tokens, RowsIn, Blank;
    RowsAreLines(t, 0, |t|);
    assert Rows(t)[0] in Rows(t);
    assert IsLine(Rows(t)[0]);
    BlankIsTokenless(Rows(t)[0]);
    RowsWithinTotal(p);
  }

  /** Outside row-wise cuts no token is lost, added or moved. */
  lemma SplitSegmentConserves(s: Segment, n: nat)
    requires n > 0
    requires s.kind == Table ==> |Rows(s.text)| <= 2 || Count(s.text) <= n
    ensures SegmentTokens(SplitSegment(s, n)) == Tokens(s.text)
  {
    hide Tokens, SentenceSplit, HardSplit, RowSplitTexts, Rows;
    HardSplitConserves(s, n);
    SentenceSplitConserves(s, n);
    SegmentTokensOne(s);
  }

  /** Safe segments are cut into safe parts within the limit, as far as the limit allows a header and a row. */
  lemma SplitSegmentSafe(s: Segment, n: nat, limit: int)
    requires n > 0 && Safe(s, limit)
    ensures forall p <- SplitSegment(s, n) :: Safe(p, limit) && Count(p.text) <= Max(n, limit)
  {
    hide Tokens, SentenceSplit, HardSplit, RowSplitTexts, SplitsByRows, SafeTable, Rows;
    HardSplitConserves(s, n);
    SentenceSplitConserves(s, n);
    if s.kind == Table && Count(s.text) > n {
      if SplitsByRows(s.text, n) {
        RowSplitMakesParts(s.text, n);
        RowPartsSafe(s.text, n, limit);
      } else {
        HardPartsSafe(s, n, limit);
      }
    }
  }

  /** No part is larger than both the limit and the segment itself. */
  lemma SplitSegmentNoLarger(s: Segment, n: nat)
    requires n > 0
    ensures forall p <- SplitSegment(s, n) :: Count(p.text) <= Max(n, Count(s.text))
  {
    SmallIsSafe(s.text, Count(s.text));
    SplitSegmentSafe(s, n, Count(s.text));
  }

  /** Parts keep offsets that span at least their text. */
  lemma SplitSegmentOffsets(s: Segment, n: nat)
    requires n > 0 && OffsetsFit(s)
    ensures forall p <- SplitSegment(s, n) :: OffsetsFit(p)
  {
    hide Tokens, TableSplit, HardSplit, SentenceSplit, LocatedPieces, SentencePieces, OffsetsFit;
    LocatedOffsets(s, Split(s.text, n));
    LocatedOffsets(s, SentencePieces(Sentences(s.text), n, []));
    HardSplitIs(s, n);
    SentenceSplitIs(s, n);
    if s.kind == Table && Count(s.text) > n { TableOffsets(s, n); }
  }

  lemma HardSplitIs(s: Segment, n: nat)
    requires n > 0
    ensures HardSplit(s, n) == LocatedPieces(s, Split(s.text, n), 0)
  {}

  lemma SentenceSplitIs(s: Segment, n: nat)
    requires n > 0
    ensures SentenceSplit(s, n) == HardSplit(s, n)
            || SentenceSplit(s, n) == LocatedPieces(s, SentencePieces(Sentences(s.text), n, []), 0)
  {
    hide LocatedPieces, HardSplit, SentencePieces, Sentences;
  }

  lemma LocatedOffsets(s: Segment, pieces: seq<Text>)
    requires OffsetsFit(s)
    ensures forall p <- LocatedPieces(s, pieces, 0) :: OffsetsFit(p)
  {
    hide Tokens, LocatedPieces;
    LocatedPiecesParts(s, pieces, 0);
    var parts := LocatedPieces(s, pieces, 0);
    forall p | p in parts ensures OffsetsFit(p) {
      var i :| 0 <= i < |parts| && parts[i] == p;
      assert parts[i].text == pieces[i];
    }
  }

  lemma TableOffsets(s: Segment, n: nat)
    requires n > 0 && OffsetsFit(s) && Count(s.text) > n
    ensures forall p <- TableSplit(s, n) :: OffsetsFit(p)
  {
    hide Tokens, RowSplitTexts, Rows, RowPiece, HardSplit;
    if SplitsByRows(s.text, n) {
      RowsWithinTotal(s.text);
      RowSplitConserves(s.text, n, Count(s.text));
      forall p | p in RowSplitTexts(s.text, n) ensures |p| <= |s.text| {
        RowPieceLength(Rows(s.text)[0], p, Count(s.text), |s.text|);
      }
      RetextedOffsets(s, RowSplitTexts(s.text, n));
    } else {
      LocatedOffsets(s, Split(s.text, n));
      HardSplitIs(s, n);
    }
  }

  lemma RetextedOffsets(s: Segment, texts: seq<Text>)
    requires OffsetsFit(s) && forall t <- texts :: |t| <= |s.text|
    ensures forall p <- Retexted(s, texts) :: OffsetsFit(p)
  {
    hide Retexted;
    var parts := Retexted(s, texts);
    forall p | p in parts ensures OffsetsFit(p) {
      var i :| 0 <= i < |parts| && parts[i] == p;
      assert texts[i] in texts;
    }
  }

  lemma RowPieceLength(header: Text, piece: Text, longest: nat, length: nat)
    requires RowPiece(header, piece, longest, length)
    ensures |piece| <= length
  {}
}
