/** Cutting an oversized segment by tokens or by sentences, and placing the parts. */
module Splitting {
  import opened Wrappers
  import opened Tokenization
  import opened Segments

  // ---------- offsets of pieces ----------

  /** `str.find(piece, at)`, with -1 for "not found". */
  function FindFrom(t: Text, piece: Text, at: nat): (r: int)
    ensures r >= 0 ==> at <= r && r + |piece| <= |t| && t[r..r + |piece|] == piece
    ensures r < 0 ==> r == -1
    decreases |t| - at
  {
    if at + |piece| > |t| then -1
    else if t[at..at + |piece|] == piece then at
    else if at == |t| then -1
    else FindFrom(t, piece, at + 1)
  }

  function Shift(base: Option<int>, amount: int): Option<int> {
    if base.Some? then Some(base.value + amount) else None
  }

  function PieceStart(source: Segment, piece: Text, cursor: nat): (r: nat)
    ensures r >= cursor
  {
    if FindFrom(source.text, piece, cursor) < 0 then cursor else FindFrom(source.text, piece, cursor)
  }

  function LocatedPiece(source: Segment, piece: Text, at: nat): Segment {
    source.(text := piece,
            startOffset := Shift(source.startOffset, at),
            endOffset := Shift(source.startOffset, at + |piece|))
  }

  /** `_segments_for_text_pieces` from a given cursor on. */
  function LocatedPieces(source: Segment, pieces: seq<Text>, cursor: nat): (parts: seq<Segment>)
    ensures |parts| == |pieces|
  {
    if pieces == [] then []
    else
      var at := PieceStart(source, pieces[0], cursor);
      [LocatedPiece(source, pieces[0], at)] + LocatedPieces(source, pieces[1..], at + |pieces[0]|)
  }

  /** Pieces keep the texts, stay parts of the source, and never run backwards. */
  lemma {:induction false} LocatedPiecesParts(source: Segment, pieces: seq<Text>, cursor: nat)
    ensures var parts := LocatedPieces(source, pieces, cursor);
            && (forall i :: 0 <= i < |parts| ==>
                 && parts[i].text == pieces[i] && PartOf(parts[i], source)
                 && parts[i].endOffset.Some? == source.startOffset.Some?)
            && (source.startOffset.Some? ==>
                 && (forall i :: 0 <= i < |parts| ==>
                      && source.startOffset.value + cursor <= parts[i].startOffset.value
                      && parts[i].endOffset.value == parts[i].startOffset.value + |pieces[i]|)
                 && (forall i :: 0 <= i < |parts| - 1 ==>
                      parts[i].endOffset.value <= parts[i + 1].startOffset.value))
            && SegmentTokens(parts) == AllTokens(pieces)
  {
    hide Tokens, FindFrom, PieceStart;
    if pieces != [] {
      var at := PieceStart(source, pieces[0], cursor);
      LocatedPiecesParts(source, pieces[1..], at + |pieces[0]|);
      var parts := LocatedPieces(source, pieces, cursor);
      var rest := LocatedPieces(source, pieces[1..], at + |pieces[0]|);
      assert parts[0] == LocatedPiece(source, pieces[0], at) && parts[1..] == rest;
      assert forall i :: 1 <= i < |parts| ==> parts[i] == rest[i - 1] && pieces[i] == pieces[1..][i - 1];
    }
  }

  // ---------- the hard split ----------

  function HardSplit(s: Segment, maxTokens: nat): seq<Segment>
    requires maxTokens > 0
  {
    LocatedPieces(s, Split(s.text, maxTokens), 0)
  }

  lemma {:induction false} FindsFirst(t: Text, piece: Text, at: nat, there: nat)
    requires at <= there && there + |piece| <= |t| && piece != []
    requires t[there..there + |piece|] == piece
    requires forall k :: at <= k < there ==> t[k] != piece[0]
    ensures FindFrom(t, piece, at) == there
    decreases there - at
  {
    if at < there {
      assert t[at..at + |piece|][0] == t[at];
      FindsFirst(t, piece, at + 1, there);
    }
  }

  lemma {:induction false} GapIsSpace(t: Text, lo: nat, hi: nat, i: nat, k: nat)
    requires lo <= hi <= |t| && i < |SpansIn(t, lo, hi)|
    requires (if i == 0 then lo else SpansIn(t, lo, hi)[i - 1].end) <= k < SpansIn(t, lo, hi)[i].start
    ensures k < |t| && t[k].Space?
    decreases hi - lo
  {
    SpanBounds(t, lo, hi, i);
    if t[lo].Space? {
      if i == 0 && k == lo { return; }
      if i > 0 { SpanBounds(t, lo, hi, i - 1); }
      GapIsSpace(t, lo + 1, hi, i, k);
    } else if i > 0 {
      GapIsSpace(t, TokenEnd(t, lo, hi), hi, i - 1, k);
    }
  }

  /** Where the search for the piece that starts with token `i` begins. */
  function CursorBefore(t: Text, i: nat): nat
    requires i <= Count(t)
  {
    if i == 0 then 0 else EndOf(t, i - 1)
  }

  /** A hard-split piece is found exactly where its tokens are, never at an earlier look-alike. */
  lemma FindsPiece(t: Text, i: nat, j: nat)
    requires i < j <= Count(t)
    ensures FindFrom(t, Piece(t, i, j), CursorBefore(t, i)) == StartOf(t, i)
    ensures StartOf(t, i) + |Piece(t, i, j)| == EndOf(t, j - 1)
  {
    PieceTokens(t, i, j);
    var s := StartOf(t, i);
    SpanBounds(t, 0, |t|, i);
    if i > 0 { SpansIncrease(t, 0, |t|, i - 1, i); }
    forall k | CursorBefore(t, i) <= k < s ensures t[k] != Piece(t, i, j)[0] {
      GapIsSpace(t, 0, |t|, i, k);
      assert Piece(t, i, j)[0] == t[s];
    }
    FindsFirst(t, Piece(t, i, j), CursorBefore(t, i), s);
  }

  lemma {:induction false} HardSplitOffsetsFrom(s: Segment, n: nat, i: nat, k: nat)
    requires n > 0 && i <= Count(s.text) && s.startOffset.Some?
    requires k < |SplitFrom(s.text, n, i)|
    ensures i + k * n < Count(s.text)
    ensures var part := LocatedPieces(s, SplitFrom(s.text, n, i), CursorBefore(s.text, i))[k];
            && part.startOffset == Some(s.startOffset.value + StartOf(s.text, i + k * n))
            && part.endOffset == Some(s.startOffset.value + EndOf(s.text, Min(i + k * n + n, Count(s.text)) - 1))
    decreases k
  {
    hide Tokens, Spans, Piece, StartOf, EndOf, FindFrom, SplitFrom, LocatedPieces;
    var t := s.text;
    SplitStep(t, n, i);
    var j := Min(i + n, Count(t));
    FindsPiece(t, i, j);
    var first, rest := Piece(t, i, j), SplitFrom(t, n, i + n);
    LocatedStep(s, first, rest, CursorBefore(t, i));
    if k > 0 {
      SplitStep(t, n, i + n);
      HardSplitOffsetsFrom(s, n, i + n, k - 1);
      assert i + n + (k - 1) * n == i + k * n;
    }
  }

  lemma LocatedStep(s: Segment, first: Text, rest: seq<Text>, cursor: nat)
    ensures var at := PieceStart(s, first, cursor);
            LocatedPieces(s, [first] + rest, cursor) == [LocatedPiece(s, first, at)] + LocatedPieces(s, rest, at + |first|)
  {
    hide FindFrom, PieceStart, LocatedPiece;
    assert ([first] + rest)[1..] == rest;
  }

  /** The offsets of hard-split parts are exactly those of their first and last token. */
  lemma HardSplitOffsets(s: Segment, n: nat, k: nat)
    requires n > 0 && s.startOffset.Some? && k < |HardSplit(s, n)|
    ensures k * n < Count(s.text)
    ensures HardSplit(s, n)[k].startOffset == Some(s.startOffset.value + StartOf(s.text, k * n))
    ensures HardSplit(s, n)[k].endOffset == Some(s.startOffset.value + EndOf(s.text, Min(k * n + n, Count(s.text)) - 1))
  {
    hide Tokens, Spans, Piece, StartOf, EndOf, FindFrom, LocatedPieces, SplitFrom;
    HardSplitOffsetsFrom(s, n, 0, k);
  }

  /** A hard split loses no token and no piece is empty or over the limit. */
  lemma HardSplitConserves(s: Segment, n: nat)
    requires n > 0
    ensures SegmentTokens(HardSplit(s, n)) == Tokens(s.text)
    ensures forall p <- HardSplit(s, n) :: PartOf(p, s) && 1 <= Count(p.text) <= n
    ensures |HardSplit(s, n)| == CeilDiv(Count(s.text), n)
  {
    SplitPieces(s.text, n);
    LocatedPiecesParts(s, Split(s.text, n), 0);
  }

  // ---------- sentences ----------

  /** The characters after which the sentence-boundary expression cuts: . ! ? and their full-width forms. */
  predicate IsTerminal(c: Character) {
    c.Other? && c.code in {46, 33, 63, 0x3002, 0xFF01, 0xFF1F}
  }

  function SentenceEnd(t: Text, at: nat): (e: nat)
    requires at < |t|
    ensures at < e <= |t| && (e == |t| || IsTerminal(t[e - 1]))
    decreases |t| - at
  {
    if IsTerminal(t[at]) || at + 1 == |t| then at + 1 else SentenceEnd(t, at + 1)
  }

  /** The non-blank sentences of `t` from position `at` on, stripped. */
  function SentencesFrom(t: Text, at: nat): seq<Text>
    requires at <= |t|
    decreases |t| - at
  {
    if at == |t| then []
    else
      var e := SentenceEnd(t, at);
      (if Blank(t[at..e]) then [] else [Strip(t[at..e])]) + SentencesFrom(t, e)
  }

  function Sentences(t: Text): seq<Text> { SentencesFrom(t, 0) }

  lemma {:induction false} SentencesFromTokens(t: Text, at: nat)
    requires at <= |t|
    ensures AllTokens(SentencesFrom(t, at)) == TokensIn(t, at, |t|)
    ensures forall s <- SentencesFrom(t, at) :: Count(s) > 0
    decreases |t| - at
  {
    if at < |t| {
      var e := SentenceEnd(t, at);
      SentencesFromTokens(t, e);
      StretchSplits(t, at, e, |t|);
      SliceIsStretch(t, at, e);
      StripTokens(t[at..e]);
      BlankIsTokenless(t[at..e]);
      if !Blank(t[at..e]) {
        SplitFromCons(Strip(t[at..e]), SentencesFrom(t, e));
      } else {
        assert SentencesFrom(t, at) == SentencesFrom(t, e);
      }
    }
  }

  function Sentence(current: seq<Text>): Text { JoinTexts(SINGLE_SPACE, current) }

  function Flushed(current: seq<Text>): seq<Text> {
    if current == [] then [] else [Sentence(current)]
  }

  /** The pieces still to come, with `current` collected and `sentences` ahead. */
  function SentencePieces(sentences: seq<Text>, maxTokens: nat, current: seq<Text>): seq<Text>
    requires maxTokens > 0
    decreases |sentences|
  {
    if sentences == [] then Flushed(current)
    else if Count(sentences[0]) > maxTokens then
      Flushed(current) + Split(sentences[0], maxTokens) + SentencePieces(sentences[1..], maxTokens, [])
    else if current != [] && Count(Sentence(current + [sentences[0]])) > maxTokens then
      [Sentence(current)] + SentencePieces(sentences[1..], maxTokens, [sentences[0]])
    else SentencePieces(sentences[1..], maxTokens, current + [sentences[0]])
  }

  function SentenceSplit(s: Segment, maxTokens: nat): seq<Segment>
    requires maxTokens > 0
  {
    if |Sentences(s.text)| <= 1 then HardSplit(s, maxTokens)
    else LocatedPieces(s, SentencePieces(Sentences(s.text), maxTokens, []), 0)
  }

  lemma FlushedTokens(current: seq<Text>)
    ensures AllTokens(Flushed(current)) == AllTokens(current)
    ensures current != [] ==> Tokens(Sentence(current)) == AllTokens(current)
  {
    JoinTextsTokens(SINGLE_SPACE, current);
    AllTokensOne(Sentence(current));
  }

  /** `pieces` carry exactly `tokens`, each holding between 1 and `n` of them. */
  predicate Covers(pieces: seq<Text>, tokens: seq<Text>, n: nat) {
    AllTokens(pieces) == tokens && forall p <- pieces :: 1 <= Count(p) <= n
  }

  lemma CoversConcat(a: seq<Text>, aTokens: seq<Text>, b: seq<Text>, bTokens: seq<Text>, n: nat)
    requires Covers(a, aTokens, n) && Covers(b, bTokens, n)
    ensures Covers(a + b, aTokens + bTokens, n)
  {
    AllTokensConcat(a, b);
  }

  lemma FlushedCovers(current: seq<Text>, n: nat)
    requires |AllTokens(current)| <= n && (current != [] ==> AllTokens(current) != [])
    ensures Covers(Flushed(current), AllTokens(current), n)
  {
    FlushedTokens(current);
  }

  lemma {:induction false} SentencePiecesConserve(sentences: seq<Text>, n: nat, current: seq<Text>)
    requires n > 0 && |AllTokens(current)| <= n && (current != [] ==> AllTokens(current) != [])
    requires forall s <- sentences :: Count(s) > 0
    ensures Covers(SentencePieces(sentences, n, current), AllTokens(current) + AllTokens(sentences), n)
    decreases |sentences|
  {
    FlushedCovers(current, n);
    if sentences == [] {
      assert AllTokens(current) + AllTokens([]) == AllTokens(current);
    } else {
      var s, rest := sentences[0], sentences[1..];
      var before, after := AllTokens(current), AllTokens(rest);
      FlushedTokens(current + [s]);
      AllTokensSnoc(current, s);
      assert before + AllTokens(sentences) == (before + Tokens(s)) + after;
      if Count(s) > n {
        SplitPieces(s, n);
        CoversConcat(Flushed(current), before, Split(s, n), Tokens(s), n);
        SentencePiecesConserve(rest, n, []);
        assert AllTokens([]) + after == after;
        CoversConcat(Flushed(current) + Split(s, n), before + Tokens(s), SentencePieces(rest, n, []), after, n);
      } else if current != [] && Count(Sentence(current + [s])) > n {
        AllTokensOne(s);
        SentencePiecesConserve(rest, n, [s]);
        CoversConcat(Flushed(current), before, SentencePieces(rest, n, [s]), Tokens(s) + after, n);
        assert before + (Tokens(s) + after) == (before + Tokens(s)) + after;
      } else {
        SentencePiecesConserve(rest, n, current + [s]);
      }
    }
  }

  /** A sentence split loses no token and no piece is empty or over the limit. */
  lemma SentenceSplitConserves(s: Segment, n: nat)
    requires n > 0
    ensures SegmentTokens(SentenceSplit(s, n)) == Tokens(s.text)
    ensures forall p <- SentenceSplit(s, n) :: PartOf(p, s) && 1 <= Count(p.text) <= n
  {
    HardSplitConserves(s, n);
    SentencesFromTokens(s.text, 0);
    SentencePiecesConserve(Sentences(s.text), n, []);
    LocatedPiecesParts(s, SentencePieces(Sentences(s.text), n, []), 0);
  }

  // ---------- the loops of the source ----------

  /** `_segments_for_text_pieces`. */
  method SegmentsForTextPieces(source: Segment, pieces: seq<Text>) returns (parts: seq<Segment>)
    ensures parts == LocatedPieces(source, pieces, 0)
  {
    parts := [];
    var cursor := 0;
    for i := 0 to |pieces|
      invariant cursor >= 0
      invariant parts + LocatedPieces(source, pieces[i..], cursor) == LocatedPieces(source, pieces, 0)
    {
      var relativeStart := FindFrom(source.text, pieces[i], cursor);
      if relativeStart < 0 {
        relativeStart := cursor;
      }
      var relativeEnd := relativeStart + |pieces[i]|;
      assert pieces[i..][1..] == pieces[i + 1..];
      parts := parts + [source.(text := pieces[i],
                                startOffset := Shift(source.startOffset, relativeStart),
                                endOffset := Shift(source.startOffset, relativeEnd))];
      cursor := relativeEnd;
    }
  }

  /** `_split_sentences`. */
  method SplitSentences(s: Segment, maxTokens: nat) returns (parts: seq<Segment>)
    requires maxTokens > 0
    ensures parts == SentenceSplit(s, maxTokens)
  {
    hide Tokens, Sentences, Split, JoinTexts;
    var sentences := Sentences(s.text);
    if |sentences| <= 1 {
      return HardSplit(s, maxTokens);
    }
    var pieces: seq<Text> := [];
    var current: seq<Text> := [];
    for i := 0 to |sentences|
      invariant pieces + SentencePieces(sentences[i..], maxTokens, current) == SentencePieces(sentences, maxTokens, [])
    {
      var sentence := sentences[i];
      ghost var rest := sentences[i + 1..];
      assert sentences[i..] == [sentence] + rest && ([sentence] + rest)[1..] == rest;
      if Count(sentence) > maxTokens {
        ghost var before := pieces;
        if current != [] {
          pieces := pieces + [Sentence(current)];
        }
        assert pieces == before + Flushed(current);
        ghost var ahead := SentencePieces(rest, maxTokens, []);
        assert SentencePieces([sentence] + rest, maxTokens, current) == Flushed(current) + Split(sentence, maxTokens) + ahead;
        current := [];
        pieces := pieces + Split(sentence, maxTokens);
      } else {
        var proposed := Sentence(current + [sentence]);
        if current != [] && Count(proposed) > maxTokens {
          ghost var ahead := SentencePieces(rest, maxTokens, [sentence]);
          assert SentencePieces([sentence] + rest, maxTokens, current) == [Sentence(current)] + ahead;
          pieces := pieces + [Sentence(current)];
          current := [sentence];
        } else {
          current := current + [sentence];
        }
      }
    }
    assert sentences[|sentences|..] == [];
    ghost var before := pieces;
    if current != [] {
      pieces := pieces + [Sentence(current)];
    }
    assert pieces == before + Flushed(current);
    parts := SegmentsForTextPieces(s, pieces);
  }
}
