/** Cutting a table by rows: every piece repeats the header row. */
module Tables {
  import opened Wrappers
  import opened Tokenization
  import opened Segments
  import opened Splitting

  // ---------- rows ----------

  /** The characters at which `str.splitlines` breaks; all of them are white space. */
  predicate IsLineBreak(c: Character) {
    c.Space? && c.code in {10, 11, 12, 13, 28, 29, 30, 0x85, 0x2028, 0x2029}
  }

  function LineEnd(t: Text, at: nat, hi: nat): (e: nat)
    requires at <= hi <= |t|
    ensures at <= e <= hi && (e == hi || IsLineBreak(t[e]))
    ensures forall k :: at <= k < e ==> !IsLineBreak(t[k])
    decreases hi - at
  {
    if at == hi || IsLineBreak(t[at]) then at else LineEnd(t, at + 1, hi)
  }

  /** The lines of a stretch of text that are not blank. */
  function RowsIn(t: Text, lo: nat, hi: nat): seq<Text>
    requires lo <= hi <= |t|
    decreases hi - lo
  {
    var e := LineEnd(t, lo, hi);
    AddRow(t[lo..e], if e == hi then [] else RowsIn(t, e + 1, hi))
  }

  function AddRow(line: Text, rows: seq<Text>): seq<Text> { if Blank(line) then rows else [line] + rows }


  lemma RowsStep(t: Text, lo: nat, hi: nat)
    requires lo <= hi <= |t|
    ensures var e := LineEnd(t, lo, hi);
            RowsIn(t, lo, hi) == AddRow(t[lo..e], if e == hi then [] else RowsIn(t, e + 1, hi))
  {
    hide Blank, LineEnd, AddRow, IsLineBreak;
  }

  function Rows(t: Text): seq<Text> { RowsIn(t, 0, |t|) }

  predicate IsLine(t: Text) {
    !Blank(t) && forall k :: 0 <= k < |t| ==> !IsLineBreak(t[k])
  }

  lemma {:induction false} RowsAreLines(t: Text, lo: nat, hi: nat)
    requires lo <= hi <= |t|
    ensures forall r <- RowsIn(t, lo, hi) :: IsLine(r)
    decreases hi - lo
  {
    hide Blank, IsLineBreak;
    var e := LineEnd(t, lo, hi);
    var line := t[lo..e];
    forall k | 0 <= k < |line| ensures !IsLineBreak(line[k]) { assert line[k] == t[lo + k]; }
    if e < hi { RowsAreLines(t, e + 1, hi); }
  }

  lemma SkipSpace(t: Text, at: nat, hi: nat)
    requires at <= hi <= |t| && (at == hi || t[at].Space?)
    ensures TokensIn(t, at, hi) == if at == hi then [] else TokensIn(t, at + 1, hi)
  {}

  /** The rows carry every token of the text. */
  lemma {:induction false} RowsTokens(t: Text, lo: nat, hi: nat)
    requires lo <= hi <= |t|
    ensures AllTokens(RowsIn(t, lo, hi)) == TokensIn(t, lo, hi)
    decreases hi - lo
  {
    hide Tokens, TokensIn, AllTokens, AddRow;
    var e := LineEnd(t, lo, hi);
    var rest := if e == hi then [] else RowsIn(t, e + 1, hi);
    NoPieces();
    SkipSpace(t, e, hi);
    StretchSplits(t, lo, e, hi);
    SliceIsStretch(t, lo, e);
    if e < hi { RowsTokens(t, e + 1, hi); }
    AddedTokens(t[lo..e], rest);
  }

  lemma AddedTokens(line: Text, rows: seq<Text>)
    ensures AllTokens(AddRow(line, rows)) == Tokens(line) + AllTokens(rows)
  {
    hide Blank, Tokens;
    BlankIsTokenless(line);
    SplitFromCons(line, rows);
  }

  lemma RowsHoldAllTokens(t: Text)
    ensures AllTokens(Rows(t)) == Tokens(t)
  {
    RowsTokens(t, 0, |t|);
  }

  /** The length of texts joined by one-character gaps. */
  function JoinedLength(texts: seq<Text>): nat {
    if texts == [] then 0 else |texts[0]| + 1 + JoinedLength(texts[1..])
  }

  lemma {:induction false} JoinedLengthIs(texts: seq<Text>)
    ensures texts != [] ==> |JoinTexts(NEWLINE, texts)| + 1 == JoinedLength(texts)
  {
    if |texts| > 1 { JoinedLengthIs(texts[1..]); }
  }

  lemma {:induction false} JoinedLengthConcat(a: seq<Text>, b: seq<Text>)
    ensures JoinedLength(a + b) == JoinedLength(a) + JoinedLength(b)
  {
    if a == [] {
      assert a + b == b;
    } else {
      assert (a + b)[1..] == a[1..] + b;
      JoinedLengthConcat(a[1..], b);
    }
  }

  lemma JoinedLengthCons(first: Text, rest: seq<Text>)
    ensures JoinedLength([first] + rest) == |first| + 1 + JoinedLength(rest)
  {
    assert ([first] + rest)[1..] == rest;
  }

  lemma {:induction false} RowsLength(t: Text, lo: nat, hi: nat)
    requires lo <= hi <= |t|
    ensures JoinedLength(RowsIn(t, lo, hi)) <= hi - lo + 1
    decreases hi - lo
  {
    hide JoinedLength, LineEnd, AddRow;
    var e := LineEnd(t, lo, hi);
    var rest := if e == hi then [] else RowsIn(t, e + 1, hi);
    AddedLength(t[lo..e], rest);
    NoLength();
    if e < hi { RowsLength(t, e + 1, hi); }
  }

  lemma AddedLength(line: Text, rows: seq<Text>)
    ensures JoinedLength(AddRow(line, rows)) <= |line| + 1 + JoinedLength(rows)
  {
    hide Blank;
    JoinedLengthCons(line, rows);
  }

  lemma NoLength()
    ensures JoinedLength([]) == 0
  {}

  // ---------- rows of slices and of joined lines ----------

  lemma {:induction false} LineEndCopy(t: Text, at: nat, hi: nat, u: Text, d: nat)
    requires Copied(t, at, hi, u, d)
    ensures LineEnd(u, at - d, hi - d) == LineEnd(t, at, hi) - d
    decreases hi - at
  {
    if at < hi {
      assert u[at - d] == t[at];
      if !IsLineBreak(t[at]) { LineEndCopy(t, at + 1, hi, u, d); }
    }
  }

  lemma {:induction false} CopyRows(t: Text, lo: nat, hi: nat, u: Text, d: nat)
    requires Copied(t, lo, hi, u, d)
    ensures RowsIn(u, lo - d, hi - d) == RowsIn(t, lo, hi)
    decreases hi - lo
  {
    hide LineEnd, AddRow, RowsIn, IsLineBreak;
    LineEndCopy(t, lo, hi, u, d);
    var e, f := LineEnd(t, lo, hi), LineEnd(u, lo - d, hi - d);
    CopiedLine(t, lo, e, hi, u, d);
    RowsStep(t, lo, hi);
    RowsStep(u, lo - d, hi - d);
    assert f == e - d;
    if e < hi { CopyRows(t, e + 1, hi, u, d); }
  }

  lemma CopiedLine(t: Text, lo: nat, e: nat, hi: nat, u: Text, d: nat)
    requires Copied(t, lo, hi, u, d) && lo <= e <= hi
    ensures u[lo - d..e - d] == t[lo..e] && (e < hi ==> Copied(t, e + 1, hi, u, d))
  {}

  lemma {:induction false} LineEndIs(t: Text, at: nat, e: nat, hi: nat)
    requires at <= e <= hi <= |t| && (forall k :: at <= k < e ==> !IsLineBreak(t[k]))
    requires e == hi || IsLineBreak(t[e])
    ensures LineEnd(t, at, hi) == e
    decreases e - at
  {
    if at < e { LineEndIs(t, at + 1, e, hi); }
  }

  /** Splitting joined lines gives the lines back. */
  lemma {:induction false} RowsOfJoin(lines: seq<Text>)
    requires lines != [] && forall l <- lines :: IsLine(l)
    ensures Rows(JoinTexts(NEWLINE, lines)) == lines
  {
    hide Blank, LineEnd, RowsIn, AddRow, IsLineBreak, JoinTexts;
    var t, first := JoinTexts(NEWLINE, lines), lines[0];
    assert IsLine(first);
    RowsStep(t, 0, |t|);
    AddedLine(lines);
    if |lines| == 1 {
      OneLine(lines);
      LineEndIs(t, 0, |t|, |t|);
      assert t[0..|t|] == first;
    } else {
      var n, rest := |first|, JoinTexts(NEWLINE, lines[1..]);
      FirstLine(lines);
      LineEndIs(t, 0, n, |t|);
      RowsOfJoin(lines[1..]);
      CopyRows(t, n + 1, |t|, rest, n + 1);
    }
  }

  lemma AddedLine(lines: seq<Text>)
    requires lines != [] && IsLine(lines[0])
    ensures AddRow(lines[0], lines[1..]) == lines
  {
    hide Blank;
  }

  lemma OneLine(lines: seq<Text>)
    requires |lines| == 1
    ensures JoinTexts(NEWLINE, lines) == lines[0] && lines[1..] == []
  {}

  lemma FirstLine(lines: seq<Text>)
    requires |lines| > 1 && IsLine(lines[0])
    ensures var t, n := JoinTexts(NEWLINE, lines), |lines[0]|;
            var rest := JoinTexts(NEWLINE, lines[1..]);
            && n < |t| && t[0..n] == lines[0] && IsLineBreak(t[n]) && (forall k :: 0 <= k < n ==> !IsLineBreak(t[k]))
            && |t| == n + 1 + |rest| && Copied(t, n + 1, |t|, rest, n + 1)
  {
    hide Blank;
    var t, first := JoinTexts(NEWLINE, lines), lines[0];
    var n := |first|;
    assert t == first + (NEWLINE + JoinTexts(NEWLINE, lines[1..]));
    forall k | 0 <= k < n ensures !IsLineBreak(t[k]) { assert t[k] == first[k]; }
  }

  lemma {:induction false} FewerRowsFromLater(t: Text, lo: nat, mid: nat, hi: nat)
    requires lo <= mid <= hi <= |t|
    ensures |RowsIn(t, mid, hi)| <= |RowsIn(t, lo, hi)|
    decreases hi - lo
  {
    hide IsLineBreak, Blank;
    var e := LineEnd(t, lo, hi);
    if mid <= e {
      LineEndIs(t, mid, e, hi);
      BlankSlice(t, lo, mid, e, e);
    } else {
      FewerRowsFromLater(t, e + 1, mid, hi);
    }
  }

  lemma {:induction false} FewerRowsUpTo(t: Text, lo: nat, mid: nat, hi: nat)
    requires lo <= mid <= hi <= |t|
    ensures |RowsIn(t, lo, mid)| <= |RowsIn(t, lo, hi)|
    decreases mid - lo
  {
    hide IsLineBreak, Blank;
    var e := LineEnd(t, lo, hi);
    if mid <= e {
      LineEndIs(t, lo, mid, mid);
      BlankSlice(t, lo, lo, mid, e);
    } else {
      LineEndIs(t, lo, e, mid);
      FewerRowsUpTo(t, e + 1, mid, hi);
    }
  }

  lemma {:induction false} SubStretchCount(t: Text, lo: nat, a: nat, b: nat, hi: nat)
    requires lo <= a <= b <= hi <= |t| && TokensIn(t, lo, hi) == []
    ensures TokensIn(t, a, b) == []
    decreases hi - lo
  {
    if lo < a {
      SubStretchCount(t, lo + 1, a, b, hi);
    } else if a < b {
      SubStretchCount(t, lo + 1, a + 1, b, hi);
    }
  }

  lemma BlankSlice(t: Text, lo: nat, a: nat, b: nat, hi: nat)
    requires lo <= a <= b <= hi <= |t|
    ensures Blank(t[lo..hi]) ==> Blank(t[a..b])
  {
    hide Blank, Tokens;
    BlankIsTokenless(t[lo..hi]);
    BlankIsTokenless(t[a..b]);
    SliceIsStretch(t, lo, hi);
    SliceIsStretch(t, a, b);
    if Blank(t[lo..hi]) { SubStretchCount(t, lo, a, b, hi); }
  }

  /** A slice of a text has no more rows than the text. */
  lemma SliceHasFewerRows(t: Text, a: nat, b: nat)
    requires a <= b <= |t|
    ensures |Rows(t[a..b])| <= |Rows(t)|
  {
    hide RowsIn;
    CopyRows(t, a, b, t[a..b], a);
    FewerRowsFromLater(t, 0, a, |t|);
    FewerRowsUpTo(t, a, b, |t|);
  }

  // ---------- the row-wise split ----------

  function TableText(header: Text, rows: seq<Text>): Text { JoinTexts(NEWLINE, [header] + rows) }

  lemma TableTextTokens(header: Text, rows: seq<Text>)
    ensures Tokens(TableText(header, rows)) == Tokens(header) + AllTokens(rows)
    ensures Count(TableText(header, rows)) == Count(header) + |AllTokens(rows)|
  {
    JoinTextsTokens(NEWLINE, [header] + rows);
    SplitFromCons(header, rows);
  }

  /** The parts of one overlong row, each under the header. */
  function UnderHeader(header: Text, parts: seq<Text>): seq<Text> {
    if parts == [] then [] else [TableText(header, [parts[0]])] + UnderHeader(header, parts[1..])
  }

  /** The number of tokens that the source leaves to the parts of a row that does not fit. */
  function RowRoom(header: Text, maxTokens: nat): nat { Max(1, maxTokens - Count(header)) }

  /** The pieces still to come, with the rows `current` collected under the header and `rows` ahead. */
  function TablePieces(header: Text, rows: seq<Text>, maxTokens: nat, current: seq<Text>): seq<Text>
    decreases |rows|
  {
    if rows == [] then
      if current == [] then [] else [TableText(header, current)]
    else if Count(TableText(header, current + [rows[0]])) > maxTokens then
      if current != [] then
        [TableText(header, current)] + TablePieces(header, rows[1..], maxTokens, [rows[0]])
      else
        UnderHeader(header, Split(rows[0], RowRoom(header, maxTokens)))
        + TablePieces(header, rows[1..], maxTokens, [])
    else TablePieces(header, rows[1..], maxTokens, current + [rows[0]])
  }

  /** Tables with fewer than three rows, or whose header leaves no room, are cut by tokens. */
  predicate SplitsByRows(t: Text, maxTokens: nat) {
    |Rows(t)| > 2 && Count(Rows(t)[0]) < maxTokens
  }

  function RowSplitTexts(t: Text, maxTokens: nat): seq<Text>
    requires SplitsByRows(t, maxTokens)
  {
    TablePieces(Rows(t)[0], Rows(t)[1..], maxTokens, [])
  }

  function Retexted(s: Segment, texts: seq<Text>): (parts: seq<Segment>)
    ensures |parts| == |texts|
    ensures forall i :: 0 <= i < |texts| ==> parts[i] == s.(text := texts[i])
  {
    if texts == [] then [] else [s.(text := texts[0])] + Retexted(s, texts[1..])
  }

  function TableSplit(s: Segment, maxTokens: nat): seq<Segment>
    requires maxTokens > 0
  {
    if SplitsByRows(s.text, maxTokens) then Retexted(s, RowSplitTexts(s.text, maxTokens))
    else HardSplit(s, maxTokens)
  }

  // ---------- what the pieces of a row-wise split hold ----------

  /** The tokens of the pieces without the first `skip` tokens of each. */
  function Bodies(pieces: seq<Text>, skip: nat): seq<Text> {
    if pieces == [] then []
    else (if skip <= Count(pieces[0]) then Tokens(pieces[0])[skip..] else []) + Bodies(pieces[1..], skip)
  }

  lemma {:induction false} BodiesConcat(a: seq<Text>, b: seq<Text>, skip: nat)
    ensures Bodies(a + b, skip) == Bodies(a, skip) + Bodies(b, skip)
  {
    if a == [] {
      assert a + b == b;
    } else {
      assert (a + b)[1..] == a[1..] + b;
      BodiesConcat(a[1..], b, skip);
    }
  }

  lemma BodiesOne(header: Text, rows: seq<Text>)
    ensures Bodies([TableText(header, rows)], Count(header)) == AllTokens(rows)
  {
    hide Tokens, TableText;
    TableTextTokens(header, rows);
    assert [TableText(header, rows)][1..] == [];
    assert Bodies([], Count(header)) == [];
  }

  lemma {:induction false} BodiesUnderHeader(header: Text, parts: seq<Text>)
    ensures Bodies(UnderHeader(header, parts), Count(header)) == AllTokens(parts)
  {
    hide Tokens, TableText;
    if parts != [] {
      BodiesUnderHeader(header, parts[1..]);
      BodiesOne(header, [parts[0]]);
      AllTokensOne(parts[0]);
      BodiesConcat([TableText(header, [parts[0]])], UnderHeader(header, parts[1..]), Count(header));
    }
  }

  /** What one row adds to the pieces. */
  lemma TablePiecesStep(header: Text, row: Text, rest: seq<Text>, n: nat, current: seq<Text>)
    ensures TablePieces(header, [row] + rest, n, current)
         == if Count(TableText(header, current + [row])) <= n then TablePieces(header, rest, n, current + [row])
            else if current != [] then [TableText(header, current)] + TablePieces(header, rest, n, [row])
            else UnderHeader(header, Split(row, RowRoom(header, n))) + TablePieces(header, rest, n, [])
  {
    hide Tokens, TableText, Split, UnderHeader, RowRoom;
    assert ([row] + rest)[1..] == rest;
  }

  /** Repeated headers aside, a row-wise split keeps every token of every row in order. */
  lemma {:induction false} TablePiecesKeepRows(header: Text, rows: seq<Text>, n: nat, current: seq<Text>)
    ensures Bodies(TablePieces(header, rows, n, current), Count(header)) == AllTokens(current) + AllTokens(rows)
    decreases |rows|
  {
    var h := Count(header);
    BodiesOne(header, current);
    if rows == [] {
      assert AllTokens(current) + AllTokens([]) == AllTokens(current);
    } else {
      hide Tokens, TableText, Split, TablePieces, Bodies, AllTokens, UnderHeader;
      var row, rest := rows[0], rows[1..];
      assert rows == [row] + rest;
      TablePiecesStep(header, row, rest, n, current);
      AllTokensSnoc(current, row);
      SplitFromCons(row, rest);
      assert AllTokens(current) + AllTokens(rows) == (AllTokens(current) + Tokens(row)) + AllTokens(rest);
      if Count(TableText(header, current + [row])) <= n {
        TablePiecesKeepRows(header, rest, n, current + [row]);
      } else if current != [] {
        TablePiecesKeepRows(header, rest, n, [row]);
        AllTokensOne(row);
        BodiesConcat([TableText(header, current)], TablePieces(header, rest, n, [row]), h);
      } else {
        NoPieces();
        TablePiecesKeepRows(header, rest, n, []);
        assert AllTokens([]) + AllTokens(rest) == AllTokens(rest);
        RowPartsKeepTokens(header, row, rest, n);
        assert AllTokens(current) + Tokens(row) == Tokens(row);
      }
    }
  }

  lemma RowPartsKeepTokens(header: Text, row: Text, rest: seq<Text>, n: nat)
    requires Bodies(TablePieces(header, rest, n, []), Count(header)) == AllTokens(rest)
    ensures Bodies(UnderHeader(header, Split(row, RowRoom(header, n))) + TablePieces(header, rest, n, []), Count(header))
         == Tokens(row) + AllTokens(rest)
  {
    hide Tokens, TableText, Split, TablePieces, Bodies, AllTokens, UnderHeader;
    var parts := Split(row, RowRoom(header, n));
    SplitPieces(row, RowRoom(header, n));
    BodiesUnderHeader(header, parts);
    BodiesConcat(UnderHeader(header, parts), TablePieces(header, rest, n, []), Count(header));
  }

  /** A piece is the header row with at least one line under it, all single lines. */
  predicate HeaderFirst(header: Text, piece: Text) {
    && header + NEWLINE <= piece
    && |Rows(piece)| >= 2 && Rows(piece)[0] == header
  }

  lemma TableTextHeaderFirst(header: Text, rows: seq<Text>)
    requires IsLine(header) && rows != [] && forall r <- rows :: IsLine(r)
    ensures HeaderFirst(header, TableText(header, rows)) && Rows(TableText(header, rows)) == [header] + rows
  {
    hide IsLine;
    RowsOfJoin([header] + rows);
    assert ([header] + rows)[1..] == rows;
  }

  lemma PiecesOfLine(line: Text, n: nat)
    requires IsLine(line) && n > 0
    ensures forall p <- Split(line, n) :: IsLine(p) && |p| <= |line|
  {
    SplitPieces(line, n);
    forall p | p in Split(line, n) ensures IsLine(p) && |p| <= |line| {
      PieceIsSlice(line, n, 0, p);
      BlankIsTokenless(p);
    }
  }

  lemma {:induction false} PieceIsSlice(t: Text, n: nat, i: nat, p: Text)
    requires n > 0 && p in SplitFrom(t, n, i)
    ensures exists a: nat, b: nat :: a <= b <= |t| && t[a..b] == p
    decreases Count(t) - i
  {
    hide Tokens, Spans;
    var j := Min(i + n, Count(t));
    if p == Piece(t, i, j) {
      PieceTokens(t, i, j);
    } else {
      PieceIsSlice(t, n, i + n, p);
    }
  }

  /** A piece of a row-wise split: the header first, its other rows no longer than some row of the table. */
  predicate RowPiece(header: Text, piece: Text, longest: nat, length: nat) {
    && HeaderFirst(header, piece)
    && (forall i :: 1 <= i < |Rows(piece)| ==> Count(Rows(piece)[i]) <= longest)
    && |piece| <= length
  }

  lemma TableTextIsRowPiece(header: Text, rows: seq<Text>, longest: nat, length: nat)
    requires IsLine(header) && rows != [] && (forall r <- rows :: IsLine(r) && Count(r) <= longest)
    requires JoinedLength([header] + rows) <= length + 1
    ensures RowPiece(header, TableText(header, rows), longest, length)
  {
    hide IsLine, Tokens, Rows, JoinTexts;
    TableTextHeaderFirst(header, rows);
    JoinedLengthIs([header] + rows);
  }

  lemma {:induction false} UnderHeaderPieces(header: Text, parts: seq<Text>, longest: nat, length: nat)
    requires IsLine(header) && (forall p <- parts :: IsLine(p) && Count(p) <= longest && |header| + |p| + 1 <= length)
    ensures forall p <- UnderHeader(header, parts) :: RowPiece(header, p, longest, length)
  {
    hide IsLine, Tokens, TableText, RowPiece;
    if parts != [] {
      UnderHeaderPieces(header, parts[1..], longest, length);
      var first := [parts[0]];
      JoinedLengthConcat([header], first);
      LengthOfOne(header);
      LengthOfOne(parts[0]);
      TableTextIsRowPiece(header, first, longest, length);
    }
  }

  lemma {:induction false} TablePiecesAreRowPieces(
      header: Text, rows: seq<Text>, n: nat, current: seq<Text>, longest: nat, length: nat)
    requires IsLine(header)
    requires forall r <- current :: IsLine(r) && Count(r) <= longest
    requires forall r <- rows :: IsLine(r) && Count(r) <= longest
    requires JoinedLength([header] + current + rows) <= length + 1
    ensures forall p <- TablePieces(header, rows, n, current) :: RowPiece(header, p, longest, length)
    decreases |rows|
  {
    hide IsLine, Tokens, TableText, RowPiece, Split;
    JoinedLengthConcat([header] + current, rows);
    if rows == [] {
      if current != [] { TableTextIsRowPiece(header, current, longest, length); }
    } else {
      var row, rest := rows[0], rows[1..];
      assert [header] + current + rows == [header] + current + [row] + rest;
      assert [header] + current + [row] + rest == [header] + (current + [row]) + rest;
      JoinedLengthConcat([header] + current + [row], rest);
      JoinedLengthConcat([header] + current, [row]);
      JoinedLengthConcat([header], current);
      JoinedLengthConcat([header], [row]);
      JoinedLengthConcat([header] + [row], rest);
      JoinedLengthConcat([header], rest);
      assert [header] + [] + rest == [header] + rest;
      LengthOfOne(header);
      LengthOfOne(row);
      if Count(TableText(header, current + [row])) > n {
        if current != [] {
          TableTextIsRowPiece(header, current, longest, length);
          TablePiecesAreRowPieces(header, rest, n, [row], longest, length);
        } else {
          var room := RowRoom(header, n);
          PiecesOfLine(row, room);
          PiecesNoLonger(row, room);
          UnderHeaderPieces(header, Split(row, room), longest, length);
          TablePiecesAreRowPieces(header, rest, n, [], longest, length);
        }
      } else {
        TablePiecesAreRowPieces(header, rest, n, current + [row], longest, length);
      }
    }
  }

  lemma LengthOfOne(t: Text)
    ensures JoinedLength([t]) == |t| + 1
  {
    assert [t][1..] == [];
  }

  lemma {:induction false} AllTokensMember(texts: seq<Text>, t: Text)
    requires t in texts
    ensures Count(t) <= |AllTokens(texts)|
  {
    if texts[0] != t { AllTokensMember(texts[1..], t); }
  }

  lemma PiecesNoLonger(t: Text, n: nat)
    requires n > 0
    ensures forall p <- Split(t, n) :: Count(p) <= Count(t)
  {
    hide Tokens;
    SplitPieces(t, n);
    forall p | p in Split(t, n) ensures Count(p) <= Count(t) { AllTokensMember(Split(t, n), p); }
  }

  // ---------- how large the pieces are ----------

  predicate AllFit(pieces: seq<Text>, n: nat) { forall p <- pieces :: Count(p) <= n }

  predicate Overlong(header: Text, row: Text, n: nat) { Count(header) + Count(row) > n }

  lemma {:induction false} UnderHeaderFits(header: Text, parts: seq<Text>, room: nat)
    requires AllFit(parts, room)
    ensures AllFit(UnderHeader(header, parts), Count(header) + room)
  {
    hide Tokens, TableText;
    if parts != [] {
      TableTextTokens(header, [parts[0]]);
      AllTokensOne(parts[0]);
      assert parts[0] in parts;
      UnderHeaderFits(header, parts[1..], room);
    }
  }

  lemma RowPartsFit(header: Text, row: Text, n: nat)
    requires Count(header) < n
    ensures AllFit(UnderHeader(header, Split(row, RowRoom(header, n))), n)
  {
    hide Tokens, TableText, UnderHeader;
    SplitPieces(row, RowRoom(header, n));
    UnderHeaderFits(header, Split(row, RowRoom(header, n)), RowRoom(header, n));
  }

  /** No piece is larger than the limit or than the header with the longest row. */
  lemma {:induction false} TablePiecesBound(header: Text, rows: seq<Text>, n: nat, current: seq<Text>, longest: nat)
    requires Count(header) < n
    requires forall r <- rows :: Count(r) <= longest
    requires Count(header) + |AllTokens(current)| <= Max(n, Count(header) + longest)
    ensures AllFit(TablePieces(header, rows, n, current), Max(n, Count(header) + longest))
    decreases |rows|
  {
    hide Tokens, TableText, UnderHeader, Split;
    TableTextTokens(header, current);
    if rows != [] {
      var row, rest := rows[0], rows[1..];
      TableTextTokens(header, current + [row]);
      AllTokensSnoc(current, row);
      AllTokensOne(row);
      if Count(TableText(header, current + [row])) > n {
        assert row in rows;
        if current != [] {
          TablePiecesBound(header, rest, n, [row], longest);
        } else {
          RowPartsFit(header, row, n);
          TablePiecesBound(header, rest, n, [], longest);
        }
      } else {
        TablePiecesBound(header, rest, n, current + [row], longest);
      }
    }
  }

  lemma {:induction false} FirstPieceFits(header: Text, rows: seq<Text>, n: nat, current: seq<Text>)
    requires Count(header) < n
    requires Count(header) + |AllTokens(current)| <= n
    ensures var pieces := TablePieces(header, rows, n, current);
            pieces != [] ==> Count(pieces[0]) <= n
    decreases |rows|
  {
    hide Tokens, TableText, UnderHeader, Split;
    TableTextTokens(header, current);
    if rows != [] {
      var row, rest := rows[0], rows[1..];
      TableTextTokens(header, current + [row]);
      AllTokensSnoc(current, row);
      if Count(TableText(header, current + [row])) > n {
        if current == [] {
          RowPartsFit(header, row, n);
          FirstPieceFits(header, rest, n, []);
          var parts := UnderHeader(header, Split(row, RowRoom(header, n)));
          if parts == [] {
            assert parts + TablePieces(header, rest, n, []) == TablePieces(header, rest, n, []);
          } else {
            assert parts[0] in parts;
          }
        }
      } else {
        FirstPieceFits(header, rest, n, current + [row]);
      }
    }
  }

  /** No overlong row directly follows a row that fits. */
  predicate NoLateOverlongRow(header: Text, rows: seq<Text>, n: nat) {
    forall i :: 1 <= i < |rows| && Overlong(header, rows[i], n) ==> Overlong(header, rows[i - 1], n)
  }

  lemma {:induction false} OverlongCurrentStays(header: Text, rows: seq<Text>, n: nat, current: seq<Text>)
    requires current != [] && Count(header) + |AllTokens(current)| > n
    ensures !AllFit(TablePieces(header, rows, n, current), n)
  {
    hide Tokens, TableText, UnderHeader, Split;
    TableTextTokens(header, current);
    var pieces := TablePieces(header, rows, n, current);
    if rows != [] {
      TableTextTokens(header, current + [rows[0]]);
      AllTokensSnoc(current, rows[0]);
    }
    assert pieces[0] == TableText(header, current) && pieces[0] in pieces;
  }

  lemma NoLateStep(header: Text, rows: seq<Text>, n: nat)
    requires rows != []
    ensures NoLateOverlongRow(header, rows, n) <==>
            (NoLateOverlongRow(header, rows[1..], n)
             && (|rows| > 1 && Overlong(header, rows[1], n) ==> Overlong(header, rows[0], n)))
  {
    hide Overlong;
    var rest := rows[1..];
    assert forall i :: 1 <= i < |rest| ==> rest[i] == rows[i + 1] && rest[i - 1] == rows[i];
    if NoLateOverlongRow(header, rest, n)
       && (|rows| > 1 && Overlong(header, rows[1], n) ==> Overlong(header, rows[0], n)) {
      forall i | 1 <= i < |rows| && Overlong(header, rows[i], n) ensures Overlong(header, rows[i - 1], n) {
        if i > 1 { assert rest[i - 1] == rows[i] && rest[i - 2] == rows[i - 1]; }
      }
    }
    if NoLateOverlongRow(header, rows, n) {
      forall i | 1 <= i < |rest| && Overlong(header, rest[i], n) ensures Overlong(header, rest[i - 1], n) {
        assert Overlong(header, rows[i + 1], n);
      }
    }
  }

  lemma {:induction false} TablePiecesFitExactly(header: Text, rows: seq<Text>, n: nat, current: seq<Text>)
    requires Count(header) < n
    requires Count(header) + |AllTokens(current)| <= n
    ensures AllFit(TablePieces(header, rows, n, current), n) <==>
            (NoLateOverlongRow(header, rows, n)
             && (current != [] && rows != [] ==> !Overlong(header, rows[0], n)))
    decreases |rows|
  {
    hide Tokens, TableText, UnderHeader, Split, NoLateOverlongRow;
    TableTextTokens(header, current);
    if rows == [] {
      NoLateNone(header, n);
    } else {
      var row, rest := rows[0], rows[1..];
      NoLateStep(header, rows, n);
      TableTextTokens(header, current + [row]);
      AllTokensSnoc(current, row);
      AllTokensOne(row);
      if Count(TableText(header, current + [row])) > n {
        if current != [] {
          FitConcat([TableText(header, current)], TablePieces(header, rest, n, [row]), n);
          if Overlong(header, row, n) {
            OverlongCurrentStays(header, rest, n, [row]);
          } else {
            TablePiecesFitExactly(header, rest, n, [row]);
          }
        } else {
          RowPartsFit(header, row, n);
          TablePiecesFitExactly(header, rest, n, []);
          FitConcat(UnderHeader(header, Split(row, RowRoom(header, n))), TablePieces(header, rest, n, []), n);
        }
      } else {
        TablePiecesFitExactly(header, rest, n, current + [row]);
      }
    }
  }

  lemma NoLateNone(header: Text, n: nat)
    ensures NoLateOverlongRow(header, [], n)
  {}

  lemma FitConcat(a: seq<Text>, b: seq<Text>, n: nat)
    ensures AllFit(a + b, n) <==> AllFit(a, n) && AllFit(b, n)
  {
    if AllFit(a + b, n) {
      forall p | p in a ensures Count(p) <= n { assert p in a + b; }
      forall p | p in b ensures Count(p) <= n { assert p in a + b; }
    }
  }

  /** The pieces of a row-wise split all respect the limit if and only if no overlong row
      directly follows a row that fits. */
  lemma RowSplitFitsExactly(t: Text, n: nat)
    requires SplitsByRows(t, n)
    ensures AllFit(RowSplitTexts(t, n), n) <==> NoLateOverlongRow(Rows(t)[0], Rows(t)[1..], n)
  {
    hide Tokens, Rows, TablePieces, NoLateOverlongRow;
    TablePiecesFitExactly(Rows(t)[0], Rows(t)[1..], n, []);
  }

  /** A row-wise split repeats the header on every piece, keeps all row tokens in order, bounds the
      first piece by the limit, and all pieces by the limit or the header with the longest row. */
  lemma RowSplitConserves(t: Text, n: nat, longest: nat)
    requires SplitsByRows(t, n)
    requires forall i :: 1 <= i < |Rows(t)| ==> Count(Rows(t)[i]) <= longest
    ensures var header := Rows(t)[0];
            var pieces := RowSplitTexts(t, n);
            && Tokens(t) == Tokens(header) + Bodies(pieces, Count(header))
            && (forall p <- pieces :: RowPiece(header, p, longest, |t|))
            && |pieces| > 0 && Count(pieces[0]) <= n
            && AllFit(pieces, Max(n, Count(header) + longest))
  {
    hide Tokens, TablePieces, RowsIn, RowPiece;
    var header, rows := Rows(t)[0], Rows(t)[1..];
    assert Rows(t) == [header] + rows;
    RowsHoldAllTokens(t);
    SplitFromCons(header, rows);
    TablePiecesKeepRows(header, rows, n, []);
    assert AllTokens([]) + AllTokens(rows) == AllTokens(rows);
    RowsAreLines(t, 0, |t|);
    RowsLength(t, 0, |t|);
    assert [header] + [] + rows == Rows(t);
    forall r | r in rows ensures IsLine(r) && Count(r) <= longest {
      var i :| 0 <= i < |rows| && rows[i] == r;
      assert Rows(t)[i + 1] == r && r in Rows(t);
    }
    TablePiecesAreRowPieces(header, rows, n, [], longest, |t|);
    TablePiecesBound(header, rows, n, [], longest);
    FirstPieceFits(header, rows, n, []);
    BlankIsTokenless(rows[0]);
    assert IsLine(rows[0]);
    AllTokensMember(rows, rows[0]);
    assert Bodies([], Count(header)) == [];
  }

  /** `_split_table`. */
  method SplitTable(s: Segment, maxTokens: nat) returns (parts: seq<Segment>)
    requires maxTokens > 0
    ensures parts == TableSplit(s, maxTokens)
  {
    hide Tokens, Split, JoinTexts, Rows, TablePieces, UnderHeader, HardSplit;
    var rows := Rows(s.text);
    if |rows| <= 2 {
      return HardSplit(s, maxTokens);
    }
    var header := rows[0];
    if Count(header) >= maxTokens {
      return HardSplit(s, maxTokens);
    }
    var pieces: seq<Text> := [];
    var current := [header];
    assert current[1..] == [];
    for i := 1 to |rows|
      invariant |current| >= 1 && current == [header] + current[1..]
      invariant pieces + TablePieces(header, rows[i..], maxTokens, current[1..]) == RowSplitTexts(s.text, maxTokens)
    {
      var row := rows[i];
      ghost var rest, body := rows[i + 1..], current[1..];
      assert rows[i..] == [row] + rest;
      TablePiecesStep(header, row, rest, maxTokens, body);
      assert current + [row] == [header] + (body + [row]);
      var proposed := JoinTexts(NEWLINE, current + [row]);
      if |current| > 1 && Count(proposed) > maxTokens {
        pieces := pieces + [JoinTexts(NEWLINE, current)];
        current := [header, row];
        assert current[1..] == [row];
      } else if Count(proposed) > maxTokens {
        assert body == [];
        pieces := AddUnderHeader(pieces, header, Split(row, Max(1, maxTokens - Count(header))));
        current := [header];
        assert current[1..] == [];
      } else {
        current := current + [row];
        assert current[1..] == body + [row];
      }
    }
    assert rows[|rows|..] == [];
    LastPiece(header, maxTokens, current[1..]);
    if |current| > 1 {
      pieces := pieces + [JoinTexts(NEWLINE, current)];
    } else {
      assert pieces + [] == pieces;
    }
    parts := Retexted(s, pieces);
  }

  lemma LastPiece(header: Text, n: nat, current: seq<Text>)
    ensures TablePieces(header, [], n, current) == if current == [] then [] else [TableText(header, current)]
  {
    hide TableText;
  }

  /** The parts of one overlong row, each put under the header. */
  method AddUnderHeader(pieces: seq<Text>, header: Text, rowParts: seq<Text>) returns (more: seq<Text>)
    ensures more == pieces + UnderHeader(header, rowParts)
  {
    hide Tokens, JoinTexts;
    more := pieces;
    var k := 0;
    assert rowParts[0..] == rowParts;
    while k < |rowParts|
      invariant 0 <= k <= |rowParts|
      invariant more + UnderHeader(header, rowParts[k..]) == pieces + UnderHeader(header, rowParts)
    {
      assert rowParts[k..][1..] == rowParts[k + 1..];
      UnderHeaderText(header, rowParts[k]);
      more := more + [header + NEWLINE + rowParts[k]];
      k := k + 1;
    }
    assert rowParts[k..] == [];
  }

  lemma UnderHeaderText(header: Text, part: Text)
    ensures TableText(header, [part]) == header + NEWLINE + part
  {
    assert ([header] + [part])[1..] == [part];
    assert header + NEWLINE + JoinTexts(NEWLINE, [part]) == header + NEWLINE + part;
  }
}
