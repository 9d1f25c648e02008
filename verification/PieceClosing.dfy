/** Where sentences and table rows are cut apart: the pieces of both splits told apart without following their loops. */
module PieceClosing {
  import opened Wrappers
  import opened Tokenization
  import opened Segments
  import opened Splitting
  import opened Tables
  import opened SegmentSplitting

  // ---------- sentences ----------

  /** The marks that end a sentence: full stop, exclamation and question mark, and their full-width forms. */
  predicate IsMark(c: Character) {
    c.Other? && (c.code == 46 || c.code == 33 || c.code == 63 || c.code == 0x3002 || c.code == 0xFF01 || c.code == 0xFF1F)
  }

  lemma {:induction false} FirstMark(t: Text, at: nat)
    requires at < |t|
    ensures forall k :: at <= k < SentenceEnd(t, at) - 1 ==> !IsMark(t[k])
    ensures SentenceEnd(t, at) == |t| || IsMark(t[SentenceEnd(t, at) - 1])
    decreases |t| - at
  {
    if !IsTerminal(t[at]) && at + 1 < |t| { FirstMark(t, at + 1); }
  }

  lemma {:induction false} StripIsSlice(t: Text) returns (a: nat, b: nat)
    ensures a <= b <= |t| && Strip(t) == t[a..b]
  {
    a := LeftOf(t);
    b := a + |RStrip(LStrip(t))|;
    assert RStrip(LStrip(t)) <= LStrip(t);
  }

  lemma {:induction false} LeftOf(t: Text) returns (a: nat)
    ensures a <= |t| && LStrip(t) == t[a..]
  {
    if t != [] && t[0].Space? {
      a := LeftOf(t[1..]);
      a := a + 1;
      assert t[1..][a - 1..] == t[a..];
    } else {
      a := 0;
    }
  }

  /** No sentence goes on after a mark. */
  lemma {:induction false} SentencesEndAtMarks(t: Text, at: nat)
    requires at <= |t|
    ensures forall s <- SentencesFrom(t, at) :: s != [] && forall k :: 0 <= k < |s| - 1 ==> !IsMark(s[k])
    decreases |t| - at
  {
    hide Strip;
    if at < |t| {
      var e := SentenceEnd(t, at);
      FirstMark(t, at);
      SentencesEndAtMarks(t, e);
      var a, b := StripIsSlice(t[at..e]);
      var s := Strip(t[at..e]);
      forall k | 0 <= k < |s| - 1 ensures !IsMark(s[k]) { assert s[k] == t[at + a + k]; }
    }
  }

  function SizeOf(texts: seq<Text>): nat { |AllTokens(texts)| }

  /** The first `k` sentences make one piece: they fit, and the next one does not fit with them. */
  predicate IsOnePiece(sentences: seq<Text>, n: nat, k: nat, piece: Text) {
    && 0 < k <= |sentences| && piece == JoinTexts([Space(32)], sentences[..k]) && SizeOf(sentences[..k]) <= n
    && (forall i :: 0 <= i < k ==> Count(sentences[i]) <= n)
    && (k == |sentences| || Count(sentences[k]) > n || SizeOf(sentences[..k + 1]) > n)
  }

  /** The pieces are whole sentences, as many as fit, but for a sentence that is too long itself, which is cut by tokens. */
  ghost predicate IsSentenceCut(sentences: seq<Text>, n: nat, pieces: seq<Text>)
    requires n > 0
    decreases |sentences|
  {
    if sentences == [] then pieces == []
    else if Count(sentences[0]) > n then
      && |Split(sentences[0], n)| <= |pieces| && pieces[..|Split(sentences[0], n)|] == Split(sentences[0], n)
      && IsSentenceCut(sentences[1..], n, pieces[|Split(sentences[0], n)|..])
    else
      && pieces != []
      && exists k: nat :: IsOnePiece(sentences, n, k, pieces[0]) && IsSentenceCut(sentences[k..], n, pieces[1..])
  }

  lemma SizeOfMore(sentences: seq<Text>, k: nat)
    requires k < |sentences|
    ensures SizeOf(sentences[..k + 1]) == SizeOf(sentences[..k]) + Count(sentences[k])
  {
    hide Tokens, AllTokens;
    assert sentences[..k + 1] == sentences[..k] + [sentences[k]];
    AllTokensSnoc(sentences[..k], sentences[k]);
  }

  lemma CollectedSize(current: seq<Text>)
    requires current != []
    ensures Count(Sentence(current)) == SizeOf(current)
  {
    hide Tokens;
    FlushedTokens(current);
  }

  /** The loop with `k` sentences collected. */
  lemma {:induction false} Collecting(sentences: seq<Text>, n: nat, k: nat, j: nat)
    requires n > 0 && 0 < j <= k <= |sentences| && SizeOf(sentences[..k]) <= n
    requires forall i :: 0 <= i < k ==> Count(sentences[i]) <= n
    ensures SentencePieces(sentences[j..], n, sentences[..j]) == SentencePieces(sentences[k..], n, sentences[..k])
    decreases k - j
  {
    hide Tokens, JoinTexts, AllTokens;
    if j < k {
      FrontIsSmaller(sentences, j + 1, k);
      CollectedSize(sentences[..j] + [sentences[j]]);
      assert sentences[..j] + [sentences[j]] == sentences[..j + 1] && sentences[j..][1..] == sentences[j + 1..];
      Collecting(sentences, n, k, j + 1);
    }
  }

  lemma FrontIsSmaller(sentences: seq<Text>, j: nat, k: nat)
    requires j <= k <= |sentences|
    ensures SizeOf(sentences[..j]) <= SizeOf(sentences[..k])
  {
    hide Tokens;
    assert sentences[..k] == sentences[..j] + sentences[j..k];
    AllTokensConcat(sentences[..j], sentences[j..k]);
  }

  lemma FirstCollected(sentences: seq<Text>, n: nat)
    requires n > 0 && sentences != [] && Count(sentences[0]) <= n
    ensures SentencePieces(sentences, n, []) == SentencePieces(sentences[1..], n, sentences[..1])
  {
    hide Tokens, JoinTexts;
    assert [] + [sentences[0]] == sentences[..1];
  }

  lemma PieceClosed(sentences: seq<Text>, n: nat, k: nat, piece: Text)
    requires n > 0 && IsOnePiece(sentences, n, k, piece)
    ensures SentencePieces(sentences[k..], n, sentences[..k]) == [piece] + SentencePieces(sentences[k..], n, [])
  {
    hide Tokens, JoinTexts, AllTokens;
    assert Flushed(sentences[..k]) == [piece];
    var rest := sentences[k..];
    if rest != [] {
      assert rest[0] == sentences[k];
      assert sentences[..k] + [rest[0]] == sentences[..k + 1];
      CollectedSize(sentences[..k + 1]);
      assert [] + [rest[0]] == [rest[0]];
      if Count(rest[0]) > n {
        assert Flushed([]) == [];
        var later := SentencePieces(rest[1..], n, []);
        assert [piece] + Split(rest[0], n) + later == [piece] + ([] + Split(rest[0], n) + later);
      }
    }
  }

  lemma OnePieceFirst(sentences: seq<Text>, n: nat, k: nat, piece: Text)
    requires n > 0 && IsOnePiece(sentences, n, k, piece)
    ensures SentencePieces(sentences, n, []) == [piece] + SentencePieces(sentences[k..], n, [])
  {
    hide Tokens, JoinTexts, AllTokens, SentencePieces;
    FirstCollected(sentences, n);
    Collecting(sentences, n, k, 1);
    PieceClosed(sentences, n, k, piece);
  }

  lemma {:induction false} OnePieceFrom(sentences: seq<Text>, n: nat, j: nat) returns (k: nat)
    requires n > 0 && 0 < j <= |sentences| && SizeOf(sentences[..j]) <= n
    requires forall i :: 0 <= i < j ==> Count(sentences[i]) <= n
    ensures k <= |sentences| && IsOnePiece(sentences, n, k, JoinTexts([Space(32)], sentences[..k]))
    decreases |sentences| - j
  {
    hide Tokens, JoinTexts, AllTokens;
    k := j;
    if j < |sentences| && Count(sentences[j]) <= n && SizeOf(sentences[..j + 1]) <= n {
      k := OnePieceFrom(sentences, n, j + 1);
    }
  }

  lemma OverlongFirst(sentences: seq<Text>, n: nat)
    requires n > 0 && sentences != [] && Count(sentences[0]) > n
    ensures SentencePieces(sentences, n, []) == Split(sentences[0], n) + SentencePieces(sentences[1..], n, [])
  {
    hide Tokens, JoinTexts;
    assert Flushed([]) + Split(sentences[0], n) == Split(sentences[0], n);
  }

  lemma {:induction false} CutIsPieces(sentences: seq<Text>, n: nat, pieces: seq<Text>)
    requires n > 0 && IsSentenceCut(sentences, n, pieces)
    ensures pieces == SentencePieces(sentences, n, [])
    decreases |sentences|
  {
    hide Tokens, JoinTexts, AllTokens, SentencePieces, Split;
    NoSentencesNoPieces(n);
    if sentences != [] {
      if Count(sentences[0]) > n {
        OverlongFirst(sentences, n);
        CutIsPieces(sentences[1..], n, pieces[|Split(sentences[0], n)|..]);
      } else {
        var k: nat :| IsOnePiece(sentences, n, k, pieces[0]) && IsSentenceCut(sentences[k..], n, pieces[1..]);
        OnePieceFirst(sentences, n, k, pieces[0]);
        CutIsPieces(sentences[k..], n, pieces[1..]);
      }
    }
  }

  lemma NoSentencesNoPieces(n: nat)
    requires n > 0
    ensures SentencePieces([], n, []) == []
  {}

  lemma {:induction false} PiecesAreCut(sentences: seq<Text>, n: nat)
    requires n > 0
    ensures IsSentenceCut(sentences, n, SentencePieces(sentences, n, []))
    decreases |sentences|
  {
    hide Tokens, JoinTexts, AllTokens, SentencePieces, Split;
    NoSentencesNoPieces(n);
    if sentences != [] {
      if Count(sentences[0]) > n {
        OverlongFirst(sentences, n);
        PiecesAreCut(sentences[1..], n);
      } else {
        SizeOfMore(sentences, 0);
        assert SizeOf(sentences[..0]) == 0 by { NoTexts(); }
        var k := OnePieceFrom(sentences, n, 1);
        OnePieceFirst(sentences, n, k, JoinTexts([Space(32)], sentences[..k]));
        PiecesAreCut(sentences[k..], n);
      }
    }
  }

  lemma NoTexts()
    ensures SizeOf([]) == 0
  {}

  /** The pieces of the sentence loop are the one way to take as many whole sentences at a time as fit. */
  lemma SentencePiecesExactly(sentences: seq<Text>, n: nat, pieces: seq<Text>)
    requires n > 0
    ensures pieces == SentencePieces(sentences, n, []) <==> IsSentenceCut(sentences, n, pieces)
  {
    hide SentencePieces, IsSentenceCut;
    PiecesAreCut(sentences, n);
    if IsSentenceCut(sentences, n, pieces) { CutIsPieces(sentences, n, pieces); }
  }

  // ---------- rows ----------

  /** The first `k` rows make one piece under the header: each but the first was measured with those before it and fits;
      the next one does not.  The first is measured only when nothing was collected before it. */
  predicate IsOneTable(header: Text, rows: seq<Text>, n: nat, isMeasured: bool, k: nat, piece: Text) {
    && 0 < k <= |rows| && piece == JoinTexts([Space(10)], [header] + rows[..k])
    && (isMeasured ==> Count(header) + Count(rows[0]) <= n)
    && (k > 1 ==> Count(header) + SizeOf(rows[..k]) <= n)
    && (k < |rows| ==> Count(header) + SizeOf(rows[..k + 1]) > n)
  }

  /** The parts of a row that does not fit under the header, each under the header. */
  predicate AreHeaded(header: Text, parts: seq<Text>, pieces: seq<Text>) {
    |pieces| == |parts| && forall i :: 0 <= i < |parts| ==> pieces[i] == header + [Space(10)] + parts[i]
  }

  /** The pieces are rows under the header, as many as fit; a row that does not fit is cut by tokens when nothing was
      collected before it, and is not measured otherwise. */
  ghost predicate IsTableCut(header: Text, rows: seq<Text>, n: nat, isMeasured: bool, pieces: seq<Text>)
    decreases |rows|
  {
    if rows == [] then pieces == []
    else if isMeasured && Count(header) + Count(rows[0]) > n then
      var parts := Split(rows[0], Max(1, n - Count(header)));
      && |parts| <= |pieces| && AreHeaded(header, parts, pieces[..|parts|])
      && IsTableCut(header, rows[1..], n, true, pieces[|parts|..])
    else
      && pieces != []
      && exists k: nat :: IsOneTable(header, rows, n, isMeasured, k, pieces[0]) && IsTableCut(header, rows[k..], n, false, pieces[1..])
  }

  /** What the loop still makes of the rows; an unmeasured first row has been collected already. */
  function TableRest(header: Text, rows: seq<Text>, n: nat, isMeasured: bool): seq<Text> {
    if rows == [] then [] else if isMeasured then TablePieces(header, rows, n, []) else TablePieces(header, rows[1..], n, [rows[0]])
  }

  lemma TableSize(header: Text, rows: seq<Text>)
    ensures Count(TableText(header, rows)) == Count(header) + SizeOf(rows)
    ensures SizeOf([]) == 0
  {
    hide Tokens;
    TableTextTokens(header, rows);
  }

  lemma {:induction false} CollectingRows(header: Text, rows: seq<Text>, n: nat, k: nat, j: nat)
    requires 0 < j <= k <= |rows| && (k > 1 ==> Count(header) + SizeOf(rows[..k]) <= n)
    ensures TablePieces(header, rows[j..], n, rows[..j]) == TablePieces(header, rows[k..], n, rows[..k])
    decreases k - j
  {
    hide Tokens, TableText, AllTokens, TablePieces;
    if j < k {
      FrontIsSmaller(rows, j + 1, k);
      TableSize(header, rows[..j + 1]);
      assert rows[..j] + [rows[j]] == rows[..j + 1] && rows[j..] == [rows[j]] + rows[j + 1..];
      TablePiecesStep(header, rows[j], rows[j + 1..], n, rows[..j]);
      CollectingRows(header, rows, n, k, j + 1);
    }
  }

  lemma TableClosed(header: Text, rows: seq<Text>, n: nat, isMeasured: bool, k: nat, piece: Text)
    requires IsOneTable(header, rows, n, isMeasured, k, piece)
    ensures TablePieces(header, rows[k..], n, rows[..k]) == [piece] + TableRest(header, rows[k..], n, false)
  {
    hide Tokens, AllTokens, JoinTexts, TablePieces;
    assert piece == TableText(header, rows[..k]);
    hide TableText;
    if k < |rows| {
      TableSize(header, rows[..k + 1]);
      assert rows[..k] + [rows[k]] == rows[..k + 1] && rows[k..] == [rows[k]] + rows[k + 1..];
      TablePiecesStep(header, rows[k], rows[k + 1..], n, rows[..k]);
      assert rows[k..][0] == rows[k] && rows[k..][1..] == rows[k + 1..];
    } else {
      LastTable(header, rows[..k], n);
      assert rows[k..] == [];
    }
  }

  lemma LastTable(header: Text, current: seq<Text>, n: nat)
    ensures TablePieces(header, [], n, current) == if current == [] then [] else [TableText(header, current)]
  {}

  lemma OneTableFirst(header: Text, rows: seq<Text>, n: nat, isMeasured: bool, k: nat, piece: Text)
    requires IsOneTable(header, rows, n, isMeasured, k, piece)
    ensures TableRest(header, rows, n, isMeasured) == [piece] + TableRest(header, rows[k..], n, false)
  {
    hide Tokens, JoinTexts, AllTokens, TablePieces, TableText;
    assert [rows[0]] == rows[..1];
    if isMeasured {
      SizeOfMore(rows, 0);
      NoTexts();
      assert rows[..0] == [];
      TableSize(header, rows[..1]);
      assert [] + [rows[0]] == rows[..1] && rows == [rows[0]] + rows[1..];
      TablePiecesStep(header, rows[0], rows[1..], n, []);
    }
    CollectingRows(header, rows, n, k, 1);
    TableClosed(header, rows, n, isMeasured, k, piece);
  }

  lemma {:induction false} UnderHeaderIs(header: Text, parts: seq<Text>)
    ensures AreHeaded(header, parts, UnderHeader(header, parts))
  {
    if parts != [] {
      UnderHeaderIs(header, parts[1..]);
      HeadedRow(header, parts[0]);
      var pieces := UnderHeader(header, parts);
      forall i | 0 <= i < |parts| ensures pieces[i] == header + [Space(10)] + parts[i] {
        if i > 0 { assert pieces[i] == UnderHeader(header, parts[1..])[i - 1] && parts[i] == parts[1..][i - 1]; }
      }
    }
  }

  lemma HeadedRow(header: Text, part: Text)
    ensures TableText(header, [part]) == header + [Space(10)] + part
  {
    assert [header] + [part] == [header, part] && [header, part][1..] == [part];
    assert JoinTexts(NEWLINE, [part]) == part;
  }

  lemma OverlongRowFirst(header: Text, rows: seq<Text>, n: nat)
    requires rows != [] && Count(header) + Count(rows[0]) > n
    ensures var parts := Split(rows[0], Max(1, n - Count(header)));
            TableRest(header, rows, n, true) == UnderHeader(header, parts) + TableRest(header, rows[1..], n, true)
  {
    hide Tokens, JoinTexts, AllTokens, TablePieces, TableText, UnderHeader, Split;
    SizeOfMore(rows, 0);
    NoTexts();
    assert rows[..0] == [];
    TableSize(header, rows[..1]);
    assert [] + [rows[0]] == rows[..1] && rows == [rows[0]] + rows[1..];
    TablePiecesStep(header, rows[0], rows[1..], n, []);
    LastTable(header, [], n);
  }

  lemma {:induction false} OneTableFrom(header: Text, rows: seq<Text>, n: nat, isMeasured: bool, j: nat) returns (k: nat)
    requires 0 < j <= |rows| && (isMeasured ==> Count(header) + Count(rows[0]) <= n)
    requires j > 1 ==> Count(header) + SizeOf(rows[..j]) <= n
    ensures k <= |rows| && IsOneTable(header, rows, n, isMeasured, k, JoinTexts([Space(10)], [header] + rows[..k]))
    decreases |rows| - j
  {
    hide Tokens, JoinTexts, AllTokens;
    k := j;
    if j < |rows| && Count(header) + SizeOf(rows[..j + 1]) <= n { k := OneTableFrom(header, rows, n, isMeasured, j + 1); }
  }

  lemma SameHeaded(header: Text, parts: seq<Text>, a: seq<Text>, b: seq<Text>)
    requires AreHeaded(header, parts, a) && AreHeaded(header, parts, b)
    ensures a == b
  {}

  lemma {:induction false} CutIsTables(header: Text, rows: seq<Text>, n: nat, isMeasured: bool, pieces: seq<Text>)
    requires IsTableCut(header, rows, n, isMeasured, pieces)
    ensures pieces == TableRest(header, rows, n, isMeasured)
    decreases |rows|
  {
    hide Tokens, JoinTexts, AllTokens, TableRest, Split, UnderHeader, AreHeaded;
    NothingLeft(header, n, isMeasured);
    if rows != [] {
      if isMeasured && Count(header) + Count(rows[0]) > n {
        var parts := Split(rows[0], Max(1, n - Count(header)));
        OverlongRowFirst(header, rows, n);
        UnderHeaderIs(header, parts);
        SameHeaded(header, parts, UnderHeader(header, parts), pieces[..|parts|]);
        CutIsTables(header, rows[1..], n, true, pieces[|parts|..]);
        assert pieces == pieces[..|parts|] + pieces[|parts|..];
      } else {
        var k: nat :| IsOneTable(header, rows, n, isMeasured, k, pieces[0]) && IsTableCut(header, rows[k..], n, false, pieces[1..]);
        OneTableFirst(header, rows, n, isMeasured, k, pieces[0]);
        CutIsTables(header, rows[k..], n, false, pieces[1..]);
      }
    }
  }

  lemma NothingLeft(header: Text, n: nat, isMeasured: bool)
    ensures TableRest(header, [], n, isMeasured) == []
  {}

  lemma HeadedLength(header: Text, parts: seq<Text>, pieces: seq<Text>)
    requires AreHeaded(header, parts, pieces)
    ensures |pieces| == |parts|
  {}

  lemma {:induction false} TablesAreCut(header: Text, rows: seq<Text>, n: nat, isMeasured: bool)
    ensures IsTableCut(header, rows, n, isMeasured, TableRest(header, rows, n, isMeasured))
    decreases |rows|
  {
    hide Tokens, JoinTexts, AllTokens, TableRest, Split, UnderHeader, AreHeaded;
    NothingLeft(header, n, isMeasured);
    if rows != [] {
      if isMeasured && Count(header) + Count(rows[0]) > n {
        var parts := Split(rows[0], Max(1, n - Count(header)));
        OverlongRowFirst(header, rows, n);
        UnderHeaderIs(header, parts);
        HeadedLength(header, parts, UnderHeader(header, parts));
        TablesAreCut(header, rows[1..], n, true);
        var pieces := TableRest(header, rows, n, isMeasured);
        assert pieces[..|parts|] == UnderHeader(header, parts) && pieces[|parts|..] == TableRest(header, rows[1..], n, true);
      } else {
        var k := OneTableFrom(header, rows, n, isMeasured, 1);
        OneTableFirst(header, rows, n, isMeasured, k, JoinTexts([Space(10)], [header] + rows[..k]));
        TablesAreCut(header, rows[k..], n, false);
      }
    }
  }

  /** The pieces of the row loop are the one way to take as many rows at a time as fit under the header. */
  lemma TablePiecesExactly(t: Text, n: nat, pieces: seq<Text>)
    requires |Rows(t)| > 2 && Count(Rows(t)[0]) < n
    ensures pieces == RowSplitTexts(t, n) <==> IsTableCut(Rows(t)[0], Rows(t)[1..], n, true, pieces)
  {
    hide TablePieces, IsTableCut, Rows, Tokens;
    var header, rows := Rows(t)[0], Rows(t)[1..];
    assert RowSplitTexts(t, n) == TableRest(header, rows, n, true);
    TablesAreCut(header, rows, n, true);
    if IsTableCut(header, rows, n, true, pieces) { CutIsTables(header, rows, n, true, pieces); }
  }

  /** No row holds a line feed, a carriage return or another line break. */
  lemma RowsAreSingleLines(t: Text, r: Text, k: nat)
    requires r in Rows(t) && k < |r|
    ensures r[k].Space? ==>
              r[k].code !in {10, 11, 12, 13, 28, 29, 30, 0x85, 0x2028, 0x2029}
  {
    hide RowsIn, Blank;
    RowsAreLines(t, 0, |t|);
    assert IsLine(r);
  }

  // ---------- which cut is used ----------

  /** How a segment above the maximum is cut: a table of more than two rows by rows, when its header leaves room; a
      paragraph, list or list item of several sentences between sentences; anything else by tokens. */
  lemma CutByKind(s: Segment, n: nat)
    requires n > 0
    ensures Count(s.text) <= n ==> SplitSegment(s, n) == [s]
    ensures Count(s.text) > n ==>
              var byRows := s.kind == Table && |Rows(s.text)| > 2 && Count(Rows(s.text)[0]) < n;
              var bySentences := (s.kind == Paragraph || s.kind == ListBlock || s.kind == ListItem) && |Sentences(s.text)| > 1;
              SplitSegment(s, n) ==
                if byRows then Retexted(s, RowSplitTexts(s.text, n))
                else LocatedPieces(s, if bySentences then SentencePieces(Sentences(s.text), n, []) else Split(s.text, n), 0)
  {
    hide Tokens, RowSplitTexts, SentencePieces, LocatedPieces, Rows, Sentences, Split, Retexted, CeilDiv;
    if Count(s.text) > n {
      HardSplitIs(s, n);
      HardSplitConserves(s, n);
      SentenceSplitConserves(s, n);
      SeveralParts(s, SentenceSplit(s, n), n);
      if SplitsByRows(s.text, n) { RowSplitMakesParts(s.text, n); }
    }
  }

  lemma {:induction false} SeveralParts(s: Segment, parts: seq<Segment>, n: nat)
    requires Count(s.text) > n && SegmentTokens(parts) == Tokens(s.text) && forall p <- parts :: Count(p.text) <= n
    ensures |parts| > 1
  {
    hide Tokens;
    NothingIsSmall();
    if parts != [] {
      SegmentTokensOne(parts[0]);
      assert parts == [parts[0]] || |parts| > 1;
    }
  }
}
