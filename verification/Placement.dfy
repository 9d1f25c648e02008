/** Where the parts of a segment lie in it, and when a cut keeps them in order. */
module Placement {
  import opened Wrappers
  import opened Tokenization
  import opened Segments
  import opened Splitting
  import opened Tables
  import opened SegmentSplitting
  import opened Headings

  // ---------- pieces that really lie one after the other ----------

  /** The pieces are slices of `t`, one after the other, all between `lo` and `hi`. */
  ghost predicate Laid(t: Text, pieces: seq<Text>, lo: nat, hi: nat)
    decreases |pieces|, 1
  {
    if pieces == [] then lo <= hi <= |t| else exists a: nat :: LaidAt(t, pieces, lo, hi, a)
  }

  ghost predicate LaidAt(t: Text, pieces: seq<Text>, lo: nat, hi: nat, a: nat)
    requires pieces != []
    decreases |pieces|, 0
  {
    && lo <= a && a + |pieces[0]| <= hi <= |t|
    && t[a..a + |pieces[0]|] == pieces[0]
    && Laid(t, pieces[1..], a + |pieces[0]|, hi)
  }

  lemma {:induction false} LaidBounds(t: Text, pieces: seq<Text>, lo: nat, hi: nat)
    requires Laid(t, pieces, lo, hi)
    ensures lo <= hi <= |t|
  {
    if pieces != [] { var a: nat :| LaidAt(t, pieces, lo, hi, a); }
  }

  lemma LaidOne(t: Text, piece: Text, lo: nat, a: nat, hi: nat)
    requires lo <= a && a + |piece| <= hi <= |t| && t[a..a + |piece|] == piece
    ensures Laid(t, [piece], lo, hi)
  {
    assert [piece][1..] == [];
    assert LaidAt(t, [piece], lo, hi, a);
  }

  lemma {:induction false} LaidConcat(t: Text, a: seq<Text>, b: seq<Text>, lo: nat, mid: nat, hi: nat)
    requires Laid(t, a, lo, mid) && Laid(t, b, mid, hi)
    ensures Laid(t, a + b, lo, hi)
    decreases |a|
  {
    LaidBounds(t, b, mid, hi);
    if a == [] {
      assert a + b == b;
      LaidFromEarlier(t, b, lo, mid, hi);
    } else {
      var at: nat :| LaidAt(t, a, lo, mid, at);
      LaidConcat(t, a[1..], b, at + |a[0]|, mid, hi);
      assert (a + b)[1..] == a[1..] + b && (a + b)[0] == a[0];
      assert LaidAt(t, a + b, lo, hi, at);
    }
  }

  lemma LaidFromEarlier(t: Text, pieces: seq<Text>, lo: nat, mid: nat, hi: nat)
    requires Laid(t, pieces, mid, hi) && lo <= mid
    ensures Laid(t, pieces, lo, hi)
  {
    if pieces != [] {
      var a: nat :| LaidAt(t, pieces, mid, hi, a);
      assert LaidAt(t, pieces, lo, hi, a);
    }
  }

  lemma SliceOfSlice(t: Text, x: nat, y: nat, a: nat, b: nat)
    requires x <= y <= |t| && a <= b <= y - x
    ensures t[x..y][a..b] == t[x + a..x + b]
  {
    assert forall k :: 0 <= k < b - a ==> t[x..y][a..b][k] == t[x + a..x + b][k];
  }

  /** Pieces that lie in a slice lie in the text the slice is from. */
  lemma {:induction false} LaidInSlice(t: Text, x: nat, y: nat, pieces: seq<Text>, lo: nat, hi: nat)
    requires x <= y <= |t| && Laid(t[x..y], pieces, lo, hi)
    ensures Laid(t, pieces, x + lo, x + hi)
    decreases |pieces|
  {
    if pieces != [] {
      var u := t[x..y];
      var a: nat :| LaidAt(u, pieces, lo, hi, a);
      LaidInSlice(t, x, y, pieces[1..], a + |pieces[0]|, hi);
      SliceOfSlice(t, x, y, a, a + |pieces[0]|);
      assert LaidAt(t, pieces, x + lo, x + hi, x + a);
    }
  }

  lemma {:induction false} LaidMember(t: Text, pieces: seq<Text>, lo: nat, hi: nat, p: Text)
      returns (a: nat, b: nat)
    requires Laid(t, pieces, lo, hi) && p in pieces
    ensures a <= b <= |t| && t[a..b] == p
    decreases |pieces|
  {
    var at: nat :| LaidAt(t, pieces, lo, hi, at);
    if p == pieces[0] {
      a, b := at, at + |p|;
    } else {
      a, b := LaidMember(t, pieces[1..], at + |pieces[0]|, hi, p);
    }
  }

  /** The pieces of a hard split lie one after the other. */
  lemma {:induction false} SplitFromLaid(t: Text, n: nat, i: nat)
    requires n > 0 && i <= Count(t)
    ensures CursorBefore(t, i) <= |t|
    ensures Laid(t, SplitFrom(t, n, i), CursorBefore(t, i), |t|)
    decreases Count(t) - i
  {
    hide Tokens, Spans, Piece, StartOf, EndOf, SplitFrom;
    SplitStep(t, n, i);
    if i < Count(t) {
      var j := Min(i + n, Count(t));
      PieceTokens(t, i, j);
      FindsPiece(t, i, j);
      var first, rest := Piece(t, i, j), SplitFrom(t, n, i + n);
      if i + n < Count(t) {
        SplitFromLaid(t, n, i + n);
      } else {
        SplitStep(t, n, i + n);
      }
      assert ([first] + rest)[1..] == rest;
      assert LaidAt(t, [first] + rest, CursorBefore(t, i), |t|, StartOf(t, i));
    }
  }

  lemma SplitLaid(t: Text, n: nat)
    requires n > 0
    ensures Laid(t, Split(t, n), 0, |t|)
  {
    hide SplitFrom, Laid, Tokens;
    SplitFromLaid(t, n, 0);
  }

  // ---------- placed pieces ----------

  lemma {:induction false} FindsNoLater(t: Text, piece: Text, at: nat, there: nat)
    requires at <= there && there + |piece| <= |t| && t[there..there + |piece|] == piece
    ensures 0 <= FindFrom(t, piece, at) <= there
    decreases there - at
  {
    if at < there && t[at..at + |piece|] != piece { FindsNoLater(t, piece, at + 1, there); }
  }

  /** The part stands at its offsets in its source. */
  predicate Verbatim(p: Segment, s: Segment) {
    && s.startOffset.Some? && p.startOffset.Some? && p.endOffset.Some?
    && 0 <= p.startOffset.value - s.startOffset.value <= p.endOffset.value - s.startOffset.value <= |s.text|
    && s.text[p.startOffset.value - s.startOffset.value..p.endOffset.value - s.startOffset.value] == p.text
  }

  predicate Apart(a: Segment, b: Segment) {
    a.startOffset.Some? && b.startOffset.Some? ==> a.endOffset.Some? && a.endOffset.value <= b.startOffset.value
  }

  /** The parts stand at their offsets, one after the other, from `from` on. */
  predicate InPlace(parts: seq<Segment>, s: Segment, from: nat) {
    && (forall p <- parts :: Verbatim(p, s) && s.startOffset.value + from <= p.startOffset.value)
    && (forall i, j :: 0 <= i < j < |parts| ==> Apart(parts[i], parts[j]))
  }

  lemma InPlaceCons(first: Segment, rest: seq<Segment>, s: Segment, from: nat, mid: nat)
    requires Verbatim(first, s) && s.startOffset.value + from <= first.startOffset.value
    requires first.endOffset == Some(s.startOffset.value + mid) && from <= mid && InPlace(rest, s, mid)
    ensures InPlace([first] + rest, s, from)
  {
    hide Verbatim;
    var parts := [first] + rest;
    assert forall j :: 1 <= j < |parts| ==> parts[j] == rest[j - 1] && rest[j - 1] in rest;
    forall i, j | 0 <= i < j < |parts| ensures Apart(parts[i], parts[j]) {
      if i > 0 { assert Apart(rest[i - 1], rest[j - 1]); }
    }
  }

  /** Pieces that really lie one after the other are all found, at places one after the other. */
  lemma {:induction false} LaidPiecesAreFound(s: Segment, pieces: seq<Text>, cursor: nat, lo: nat, hi: nat)
    requires Laid(s.text, pieces, lo, hi) && cursor <= lo && s.startOffset.Some?
    ensures InPlace(LocatedPieces(s, pieces, cursor), s, cursor)
    decreases |pieces|
  {
    hide FindFrom, PieceStart, InPlace, LocatedPieces;
    if pieces == [] {
      NothingInPlace(s, cursor);
    } else {
      var a: nat :| LaidAt(s.text, pieces, lo, hi, a);
      var first, rest := pieces[0], pieces[1..];
      FindsNoLater(s.text, first, cursor, a);
      StartsWhereFound(s, first, cursor);
      var at := PieceStart(s, first, cursor);
      LaidPiecesAreFound(s, rest, at + |first|, a + |first|, hi);
      assert pieces == [first] + rest;
      LocatedStep(s, first, rest, cursor);
      InPlaceCons(LocatedPiece(s, first, at), LocatedPieces(s, rest, at + |first|), s, cursor, at + |first|);
    }
  }

  lemma NothingInPlace(s: Segment, from: nat)
    ensures InPlace(LocatedPieces(s, [], from), s, from)
  {}

  lemma StartsWhereFound(s: Segment, piece: Text, cursor: nat)
    requires FindFrom(s.text, piece, cursor) >= 0
    ensures PieceStart(s, piece, cursor) == FindFrom(s.text, piece, cursor)
  {}

  // ---------- sentences that are separated by one space ----------

  /** A sentence mark that text follows is followed by one space character and then the text. */
  predicate Spaced(t: Text) {
    forall k, m :: 0 <= k < m < |t| && IsTerminal(t[k]) && !t[m].Space? ==>
      k + 2 < |t| && t[k + 1] == Space(32) && !t[k + 2].Space?
  }

  lemma SlicesStaySpaced(t: Text, a: nat, b: nat)
    requires Spaced(t) && a <= b <= |t|
    ensures Spaced(t[a..b])
  {
    var u := t[a..b];
    forall k, m | 0 <= k < m < |u| && IsTerminal(u[k]) && !u[m].Space?
      ensures k + 2 < |u| && u[k + 1] == Space(32) && !u[k + 2].Space?
    {
      assert t[a + k] == u[k] && t[a + m] == u[m];
      assert t[a + k + 1] == Space(32);
      assert u[k + 1] == t[a + k + 1];
    }
  }

  lemma {:induction false} LStripIsSuffix(t: Text) returns (x: nat)
    ensures x <= |t| && LStrip(t) == t[x..] && forall k :: 0 <= k < x ==> t[k].Space?
  {
    if t != [] && t[0].Space? {
      x := LStripIsSuffix(t[1..]);
      x := x + 1;
    } else {
      x := 0;
    }
  }

  lemma {:induction false} RStripIsPrefix(t: Text) returns (y: nat)
    ensures y <= |t| && RStrip(t) == t[..y] && forall k :: y <= k < |t| ==> t[k].Space?
  {
    if t != [] && t[|t| - 1].Space? {
      y := RStripIsPrefix(t[..|t| - 1]);
    } else {
      y := |t|;
    }
  }

  /** Stripping takes a slice, and what it takes off is white space. */
  lemma StripIsSlice(t: Text) returns (x: nat, y: nat)
    ensures x <= y <= |t| && Strip(t) == t[x..y]
    ensures forall k :: 0 <= k < x || y <= k < |t| ==> t[k].Space?
  {
    x := LStripIsSuffix(t);
    var z := RStripIsPrefix(t[x..]);
    y := x + z;
    forall k | y <= k < |t| ensures t[k].Space? { assert t[k] == t[x..][k - x]; }
  }

  /** The next sentence of a well-spaced text: where it lies without the white space around it. */
  lemma NextSentence(t: Text, at: nat) returns (x: nat, y: nat)
    requires Spaced(t) && at < |t| && (at == 0 || IsTerminal(t[at - 1]))
    ensures at <= x <= y <= SentenceEnd(t, at) && Strip(t[at..SentenceEnd(t, at)]) == t[x..y]
    ensures x < y || SentenceEnd(t, at) == |t|
    ensures x < y && SentenceEnd(t, at) < |t| ==> y == SentenceEnd(t, at)
    ensures x < y && at > 0 ==> x == at + 1 && t[at] == Space(32)
  {
    hide Strip, Spaced, IsTerminal, SentenceEnd;
    NextStart(t, at);
    var e := SentenceEnd(t, at);
    var u := t[at..e];
    assert forall k :: 0 <= k < |u| ==> u[k] == t[at + k];
    var a, b := StripIsSlice(u);
    SliceOfSlice(t, at, e, a, b);
    x, y := at + a, at + b;
    if e < |t| { MarkIsNoSpace(u[|u| - 1]); }
    if x < y {
      StripEnds(u);
      assert !u[a].Space?;
      if at > 0 {
        OneSpaceAfter(t, at - 1, x);
        EndAfterSpace(t, at);
        assert !u[1].Space?;
        assert a == 1;
      }
    }
  }

  lemma MarkIsNoSpace(c: Character)
    requires IsTerminal(c)
    ensures !c.Space?
  {}

  lemma OneSpaceAfter(t: Text, k: nat, m: nat)
    requires Spaced(t) && k < m < |t| && IsTerminal(t[k]) && !t[m].Space?
    ensures k + 2 < |t| && t[k + 1] == Space(32) && !t[k + 2].Space?
  {
    hide IsTerminal;
  }

  lemma StripEnds(t: Text)
    ensures Strip(t) == [] || (!Strip(t)[0].Space? && !Strip(t)[|Strip(t)| - 1].Space?)
  {}

  lemma EndAfterSpace(t: Text, at: nat)
    requires at + 1 < |t| && t[at].Space?
    ensures SentenceEnd(t, at) > at + 1
  {}

  lemma {:induction false} JoinSnoc(gap: Text, texts: seq<Text>, t: Text)
    ensures JoinTexts(gap, texts + [t]) == if texts == [] then t else JoinTexts(gap, texts) + gap + t
    decreases |texts|
  {
    if texts == [] {
      assert texts + [t] == [t];
    } else {
      assert (texts + [t])[1..] == texts[1..] + [t];
      JoinSnoc(gap, texts[1..], t);
    }
  }

  lemma SentencesStep(t: Text, at: nat)
    requires at < |t|
    ensures var e := SentenceEnd(t, at);
            SentencesFrom(t, at) == (if Blank(t[at..e]) then [] else [Strip(t[at..e])]) + SentencesFrom(t, e)
  {
    hide Blank, Strip, SentenceEnd;
  }

  lemma PiecesStep(s: Text, rest: seq<Text>, n: nat, current: seq<Text>)
    requires n > 0
    ensures SentencePieces([s] + rest, n, current) ==
            if Count(s) > n then Flushed(current) + Split(s, n) + SentencePieces(rest, n, [])
            else if current != [] && Count(Sentence(current + [s])) > n then
              [Sentence(current)] + SentencePieces(rest, n, [s])
            else SentencePieces(rest, n, current + [s])
  {
    hide Tokens, Split, Sentence;
    assert ([s] + rest)[1..] == rest;
  }

  lemma NoSentencePieces(n: nat, current: seq<Text>)
    requires n > 0
    ensures SentencePieces([], n, current) == Flushed(current)
  {}

  lemma SentenceSnoc(current: seq<Text>, s: Text)
    ensures Sentence(current + [s]) == if current == [] then s else Sentence(current) + SINGLE_SPACE + s
  {
    hide JoinTexts;
    JoinSnoc(SINGLE_SPACE, current, s);
  }

  /** The collected sentences are a slice that ends where the next sentence is looked for, or no text is left. */
  predicate Collected(t: Text, current: seq<Text>, a: nat, b: nat, at: nat) {
    a <= b <= at <= |t| && (current != [] ==> Sentence(current) == t[a..b] && (at == |t| || b == at))
  }

  lemma CollectedGrows(t: Text, current: seq<Text>, a: nat, b: nat, at: nat, x: nat, y: nat, e: nat)
    requires Collected(t, current, a, b, at) && at < |t|
    requires at <= x <= y <= e <= |t| && (e < |t| ==> y == e)
    requires current != [] ==> x == at + 1 && t[at] == Space(32)
    ensures Collected(t, current + [t[x..y]], if current == [] then x else a, y, e)
    ensures Collected(t, [t[x..y]], x, y, e)
  {
    hide Sentence;
    SentenceSnoc(current, t[x..y]);
    SentenceSnoc([], t[x..y]);
    assert [] + [t[x..y]] == [t[x..y]];
    if current != [] { assert t[a..b] + SINGLE_SPACE + t[b + 1..y] == t[a..y]; }
  }

  lemma OversizedLaid(t: Text, n: nat, x: nat, y: nat, lo: nat, at: nat, current: seq<Text>)
    requires n > 0 && lo <= at <= x <= y <= |t| && Laid(t, Flushed(current), lo, at)
    ensures Laid(t, Flushed(current) + Split(t[x..y], n), lo, y)
  {
    hide Split, Flushed, Laid;
    SplitLaid(t[x..y], n);
    LaidInSlice(t, x, y, Split(t[x..y], n), 0, y - x);
    LaidFromEarlier(t, Split(t[x..y], n), at, x, y);
    LaidConcat(t, Flushed(current), Split(t[x..y], n), lo, at, y);
  }

  /** In a well-spaced text the collected sentences and the pieces still to come really lie one after the other. */
  lemma {:induction false} SentencePiecesLaid(t: Text, at: nat, n: nat, current: seq<Text>, lo: nat, a: nat, b: nat)
    requires n > 0 && Spaced(t) && lo <= a && Collected(t, current, a, b, at)
    requires at == 0 ==> current == []
    requires at == 0 || at == |t| || IsTerminal(t[at - 1])
    ensures Laid(t, SentencePieces(SentencesFrom(t, at), n, current), lo, |t|)
    decreases |t| - at
  {
    hide Tokens, Spaced, Split, SentencePieces, SentencesFrom, Sentence, Flushed, SentenceEnd, Strip, Laid, IsTerminal;
    FlushedLaid(t, current, lo, a, b, at);
    if at == |t| {
      NoSentencesLeft(t);
      NoSentencePieces(n, current);
    } else {
      var e := SentenceEnd(t, at);
      var x, y := NextSentence(t, at);
      SentencesStep(t, at);
      NextStart(t, at);
      if x == y {
        assert [] + SentencesFrom(t, e) == SentencesFrom(t, e);
        SentencePiecesLaid(t, e, n, current, lo, a, b);
      } else {
        var s, rest := t[x..y], SentencesFrom(t, e);
        PiecesStep(s, rest, n, current);
        CollectedGrows(t, current, a, b, at, x, y, e);
        if Count(s) > n {
          OversizedLaid(t, n, x, y, lo, at, current);
          SentencePiecesLaid(t, e, n, [], y, y, y);
          LaidConcat(t, Flushed(current) + Split(s, n), SentencePieces(rest, n, []), lo, y, |t|);
        } else if current != [] && Count(Sentence(current + [s])) > n {
          FlushedIs(current);
          SentencePiecesLaid(t, e, n, [s], at, x, y);
          LaidConcat(t, [Sentence(current)], SentencePieces(rest, n, [s]), lo, at, |t|);
        } else {
          SentencePiecesLaid(t, e, n, current + [s], lo, if current == [] then x else a, y);
        }
      }
    }
  }

  lemma FlushedIs(current: seq<Text>)
    ensures current != [] ==> Flushed(current) == [Sentence(current)]
  {}

  lemma NoSentencesLeft(t: Text)
    ensures SentencesFrom(t, |t|) == []
  {}

  lemma NextStart(t: Text, at: nat)
    requires at < |t|
    ensures at < SentenceEnd(t, at) <= |t|
    ensures SentenceEnd(t, at) == |t| || IsTerminal(t[SentenceEnd(t, at) - 1])
  {}

  lemma FlushedLaid(t: Text, current: seq<Text>, lo: nat, a: nat, b: nat, at: nat)
    requires lo <= a <= b <= at <= |t| && (current != [] ==> Sentence(current) == t[a..b])
    ensures Laid(t, Flushed(current), lo, at) && Laid(t, Flushed(current), lo, |t|)
  {
    hide JoinTexts, Laid;
    if current == [] {
      NothingLaid(t, lo, at);
      NothingLaid(t, lo, |t|);
    } else {
      LaidOne(t, Sentence(current), lo, a, at);
      LaidOne(t, Sentence(current), lo, a, |t|);
    }
  }

  lemma NothingLaid(t: Text, lo: nat, hi: nat)
    requires lo <= hi <= |t|
    ensures Laid(t, [], lo, hi)
  {}

  // ---------- one space is exactly what it takes ----------

  /** A sentence: no white space at its ends, and no sentence mark before its end. */
  predicate IsSentence(s: Text) {
    && s != [] && !s[0].Space? && !s[|s| - 1].Space?
    && forall k :: 0 <= k < |s| - 1 ==> !IsTerminal(s[k])
  }

  lemma {:induction false} NoMarkBefore(t: Text, at: nat, k: nat)
    requires at <= k < |t| && k + 1 < SentenceEnd(t, at)
    ensures !IsTerminal(t[k])
    decreases |t| - at
  {
    if at < k { NoMarkBefore(t, at + 1, k); }
  }

  lemma {:induction false} SentencesAreSentences(t: Text, at: nat)
    requires at <= |t|
    ensures forall s <- SentencesFrom(t, at) :: IsSentence(s) && exists x: nat, y: nat :: x <= y <= |t| && s == t[x..y]
    decreases |t| - at
  {
    hide Strip, IsTerminal, SentenceEnd;
    if at < |t| {
      NextStart(t, at);
      var e := SentenceEnd(t, at);
      SentencesAreSentences(t, e);
      var u := t[at..e];
      var x, y := StripIsSlice(u);
      StripEnds(u);
      SliceOfSlice(t, at, e, x, y);
      var s := Strip(u);
      forall k | 0 <= k < |s| - 1 ensures !IsTerminal(s[k]) {
        assert s[k] == t[at + x + k];
        NoMarkBefore(t, at, at + x + k);
      }
    }
  }

  lemma {:induction false} JoinedIsSpaced(sentences: seq<Text>)
    requires forall s <- sentences :: IsSentence(s)
    ensures Spaced(Sentence(sentences)) && (sentences != [] ==> Sentence(sentences) != [] && !Sentence(sentences)[0].Space?)
  {
    if sentences != [] {
      var first, rest := sentences[0], sentences[1..];
      assert first in sentences && forall s <- rest :: s in sentences;
      var t := Sentence(sentences);
      if rest != [] {
        JoinedIsSpaced(rest);
        OneSpaceBetween(first, Sentence(rest));
        assert t == first + SINGLE_SPACE + Sentence(rest);
      } else {
        assert t == first;
      }
    }
  }

  lemma OneSpaceBetween(first: Text, rest: Text)
    requires IsSentence(first) && Spaced(rest) && rest != [] && !rest[0].Space?
    ensures Spaced(first + SINGLE_SPACE + rest)
  {
    hide IsTerminal;
    var t, n := first + SINGLE_SPACE + rest, |first|;
    assert t[n] == Space(32) && t[n + 1] == rest[0];
    assert !IsTerminal(t[n]) by { if IsTerminal(t[n]) { MarkIsNoSpace(t[n]); } }
    forall k, m | 0 <= k < m < |t| && IsTerminal(t[k]) && !t[m].Space?
      ensures k + 2 < |t| && t[k + 1] == Space(32) && !t[k + 2].Space?
    {
      if k < n {
        assert t[k] == first[k];
        assert k == n - 1;
      } else {
        assert t[k] == rest[k - n - 1] && t[m] == rest[m - n - 1];
        assert t[k + 1] == rest[k - n] && t[k + 2] == rest[k - n + 1];
      }
    }
  }

  lemma {:induction false} NonSpaceSlice(t: Text, lo: nat, a: nat, b: nat)
    requires lo <= a <= b <= |t|
    ensures |NonSpace(t, lo)| >= |NonSpace(t[a..b], 0)|
    ensures |NonSpace(t, lo)| == |NonSpace(t[a..b], 0)| ==>
              forall k :: lo <= k < a || b <= k < |t| ==> t[k].Space?
    decreases a - lo
  {
    if lo < a {
      NonSpaceSlice(t, lo + 1, a, b);
    } else {
      NonSpaceFront(t, a, b);
    }
  }

  lemma {:induction false} NonSpaceFront(t: Text, a: nat, b: nat)
    requires a <= b <= |t|
    ensures |NonSpace(t, a)| == |NonSpace(t[a..b], 0)| + |NonSpace(t, b)|
    ensures |NonSpace(t, b)| == 0 ==> forall k :: b <= k < |t| ==> t[k].Space?
    decreases b - a
  {
    if a < b {
      NonSpaceFront(t, a + 1, b);
      NonSpaceShift(t[a..b], 1);
      assert t[a..b][1..] == t[a + 1..b];
    } else {
      NothingButSpace(t, b);
    }
  }

  lemma {:induction false} NonSpaceShift(t: Text, lo: nat)
    requires lo <= |t|
    ensures NonSpace(t, lo) == NonSpace(t[lo..], 0)
    decreases |t| - lo
  {
    if lo < |t| {
      NonSpaceShift(t, lo + 1);
      NonSpaceShift(t[lo..], 1);
      assert t[lo..][1..] == t[lo + 1..];
    }
  }

  lemma {:induction false} NothingButSpace(t: Text, lo: nat)
    requires lo <= |t|
    ensures |NonSpace(t, lo)| == 0 ==> forall k :: lo <= k < |t| ==> t[k].Space?
    decreases |t| - lo
  {
    if lo < |t| { NothingButSpace(t, lo + 1); }
  }

  /** A text whose joined sentences occur in it is well spaced. */
  lemma OccurrenceIsSpaced(t: Text, a: nat, b: nat)
    requires a <= b <= |t| && t[a..b] == Sentence(Sentences(t))
    ensures Spaced(t)
  {
    hide Tokens, NonSpace, Sentence, IsTerminal, SentencesFrom, IsSentence, AllTokens;
    var joined := Sentence(Sentences(t));
    SentencesAreSentences(t, 0);
    JoinedIsSpaced(Sentences(t));
    SentencesTokens(t);
    TokensKeepCharacters(t);
    TokensKeepCharacters(joined);
    NonSpaceSlice(t, 0, a, b);
    forall k, m | 0 <= k < m < |t| && IsTerminal(t[k]) && !t[m].Space?
      ensures k + 2 < |t| && t[k + 1] == Space(32) && !t[k + 2].Space?
    {
      MarkIsNoSpace(t[k]);
      assert joined[k - a] == t[k] && joined[m - a] == t[m];
      assert joined[k - a + 1] == t[k + 1] && joined[k - a + 2] == t[k + 2];
    }
  }

  lemma SentencesTokens(t: Text)
    ensures Tokens(Sentence(Sentences(t))) == Tokens(t)
  {
    SentencesFromTokens(t, 0);
    FlushedTokens(Sentences(t));
  }

  lemma {:induction false} AllInOnePiece(sentences: seq<Text>, n: nat, current: seq<Text>)
    requires n > 0 && |AllTokens(current)| + |AllTokens(sentences)| <= n
    ensures SentencePieces(sentences, n, current) == Flushed(current + sentences)
    decreases |sentences|
  {
    hide Tokens, Split, Flushed;
    if sentences == [] {
      NoSentencePieces(n, current);
      assert current + sentences == current;
    } else {
      var s, rest := sentences[0], sentences[1..];
      assert sentences == [s] + rest;
      PiecesStep(s, rest, n, current);
      AllTokensSnoc(current, s);
      FlushedTokens(current + [s]);
      AllInOnePiece(rest, n, current + [s]);
      assert current + [s] + rest == current + sentences;
    }
  }

  /** Whatever the limit, the parts of a sentence split stand at their offsets if and only if the sentences are
      separated by one space. */
  lemma SentencesStandExactly(s: Segment)
    requires s.startOffset.Some?
    ensures (forall n: nat, p: Segment :: n > 0 && p in SentenceSplit(s, n) ==> Verbatim(p, s)) <==> Spaced(s.text)
  {
    hide Verbatim, Spaced, SentenceSplit, Sentences, Sentence, SentencePieces, Tokens;
    if Spaced(s.text) {
      forall n: nat, p: Segment | n > 0 && p in SentenceSplit(s, n) ensures Verbatim(p, s) {
        SpacedStand(s, n, p);
      }
    }
    if forall n: nat, p: Segment :: n > 0 && p in SentenceSplit(s, n) ==> Verbatim(p, s) {
      var n := Max(1, Count(s.text));
      if |Sentences(s.text)| <= 1 {
        var a, b := OneSentenceOccurs(s.text);
        OccurrenceIsSpaced(s.text, a, b);
      } else {
        var p := WholePiece(s, n);
        assert Verbatim(p, s);
        var a, b := VerbatimOccurs(p, s);
        OccurrenceIsSpaced(s.text, a, b);
      }
    }
  }

  lemma SpacedStand(s: Segment, n: nat, p: Segment)
    requires s.startOffset.Some? && Spaced(s.text) && n > 0 && p in SentenceSplit(s, n)
    ensures Verbatim(p, s)
  {
    hide Verbatim, Spaced, LocatedPieces, Split, SentencePieces, Laid, Tokens, SentencesFrom;
    SentenceSplitIs(s, n);
    HardSplitIs(s, n);
    SplitLaid(s.text, n);
    LaidPiecesAreFound(s, Split(s.text, n), 0, 0, |s.text|);
    SentencePiecesLaid(s.text, 0, n, [], 0, 0, 0);
    LaidPiecesAreFound(s, SentencePieces(Sentences(s.text), n, []), 0, 0, |s.text|);
  }

  lemma OneSentenceOccurs(t: Text) returns (a: nat, b: nat)
    requires |Sentences(t)| <= 1
    ensures a <= b <= |t| && t[a..b] == Sentence(Sentences(t))
  {
    hide SentencesFrom, IsSentence;
    SentencesAreSentences(t, 0);
    if Sentences(t) == [] {
      a, b := 0, 0;
    } else {
      assert Sentences(t)[0] in Sentences(t);
      a, b :| a <= b <= |t| && Sentences(t)[0] == t[a..b];
    }
  }

  lemma WholePiece(s: Segment, n: nat) returns (p: Segment)
    requires n > 0 && n >= Count(s.text) && |Sentences(s.text)| > 1
    ensures p in SentenceSplit(s, n) && p.text == Sentence(Sentences(s.text))
  {
    hide Tokens, LocatedPieces, SentencePieces, Sentence, SentencesFrom, AllTokens;
    var sentences := Sentences(s.text);
    SentencesFromTokens(s.text, 0);
    NoPieces();
    AllInOnePiece(sentences, n, []);
    assert [] + sentences == sentences;
    FlushedIs(sentences);
    LocatedPiecesParts(s, [Sentence(sentences)], 0);
    p := SentenceSplit(s, n)[0];
  }

  lemma VerbatimOccurs(p: Segment, s: Segment) returns (a: nat, b: nat)
    requires Verbatim(p, s)
    ensures a <= b <= |s.text| && s.text[a..b] == p.text
  {
    a, b := p.startOffset.value - s.startOffset.value, p.endOffset.value - s.startOffset.value;
  }

  // ---------- segments that every cut keeps in order ----------

  /** The least number of tokens that a segment is ever cut to, when no heading has more than `headings` tokens. */
  function Room(s: Segment, c: Config, headings: nat): int { ContentMax(s.headingPath, c) - headings }

  predicate HasSentences(s: Segment) { s.kind in {Paragraph, ListBlock, ListItem} }

  /** A table is only cut between rows, and sentences are only joined where the text joins them. */
  predicate Placeable(s: Segment, c: Config, headings: nat) {
    && (s.kind == Table ==> SafeTable(s.text, Room(s, c, headings)))
    && (HasSentences(s) ==> Count(s.text) <= Room(s, c, headings) || Spaced(s.text))
  }

  /** A table of which every part keeps the place of the whole. */
  predicate Pinned(s: Segment, c: Config, headings: nat) {
    && s.kind == Table
    && (Count(s.text) <= Room(s, c, headings) || (|Rows(s.text)| > 2 && SafeTable(s.text, Room(s, c, headings))))
  }

  /** A part that lies within its segment. */
  predicate PartWithin(p: Segment, s: Segment, c: Config, headings: nat) {
    && PartOf(p, s) && OffsetsFit(p) && Placeable(p, c, headings)
    && (s.startOffset.Some? && s.endOffset.Some? ==>
         s.startOffset.value <= p.startOffset.value && p.endOffset.value <= s.endOffset.value)
    && (Pinned(s, c, headings) ==> Pinned(p, c, headings) && p.startOffset == s.startOffset)
  }

  /** One after the other, or parts of one table in the place of the whole. */
  predicate InOrder(a: Segment, b: Segment, c: Config, headings: nat) {
    Apart(a, b) || (a.startOffset == b.startOffset && Pinned(a, c, headings) && Pinned(b, c, headings))
  }

  predicate PartsWithin(parts: seq<Segment>, s: Segment, c: Config, headings: nat) {
    && (forall p <- parts :: PartWithin(p, s, c, headings))
    && (forall i, j :: 0 <= i < j < |parts| ==> InOrder(parts[i], parts[j], c, headings))
  }

  lemma PlacedParts(s: Segment, pieces: seq<Text>, c: Config, headings: nat)
    requires OffsetsFit(s) && !Pinned(s, c, headings) && Laid(s.text, pieces, 0, |s.text|)
    requires forall p <- LocatedPieces(s, pieces, 0) :: Placeable(p, c, headings)
    ensures PartsWithin(LocatedPieces(s, pieces, 0), s, c, headings)
  {
    hide Laid, LocatedPieces, Placeable, Pinned, Tokens, AllTokens, SegmentTokens, PartOf;
    var parts := LocatedPieces(s, pieces, 0);
    LocatedPiecesParts(s, pieces, 0);
    LocatedOffsets(s, pieces);
    if s.startOffset.Some? {
      LaidPiecesAreFound(s, pieces, 0, 0, |s.text|);
    }
    forall p | p in parts ensures PartWithin(p, s, c, headings) {
      var i :| 0 <= i < |parts| && parts[i] == p;
      if s.startOffset.Some? { assert Verbatim(p, s); }
    }
    forall i, j | 0 <= i < j < |parts| ensures InOrder(parts[i], parts[j], c, headings) {
      if s.startOffset.None? { NotPlaced(parts[i], s); }
    }
  }

  lemma NotPlaced(p: Segment, s: Segment)
    requires PartOf(p, s) && s.startOffset.None?
    ensures p.startOffset.None?
  {}

  lemma LaidPartsSpaced(s: Segment, pieces: seq<Text>, c: Config, headings: nat)
    requires Laid(s.text, pieces, 0, |s.text|) && s.kind != Table && (HasSentences(s) ==> Spaced(s.text))
    ensures forall p <- LocatedPieces(s, pieces, 0) :: Placeable(p, c, headings)
  {
    hide Laid, LocatedPieces, Tokens, Rows, Spaced, AllTokens, SegmentTokens;
    var parts := LocatedPieces(s, pieces, 0);
    LocatedPiecesParts(s, pieces, 0);
    forall p | p in parts ensures Placeable(p, c, headings) {
      var i :| 0 <= i < |parts| && parts[i] == p;
      var a, b := LaidMember(s.text, pieces, 0, |s.text|, pieces[i]);
      if HasSentences(s) { SlicesStaySpaced(s.text, a, b); }
    }
  }

  lemma RowPieceIsPinned(t: Text, n: nat, p: Text, room: int)
    requires SplitsByRows(t, n) && SafeTable(t, room) && p in RowSplitTexts(t, n)
    ensures Count(p) <= room || (|Rows(p)| > 2 && SafeTable(p, room))
  {
    hide Tokens, Rows, RowSplitTexts, AllTokens;
    var header := Rows(t)[0];
    assert Count(header) + Count(Rows(t)[1]) <= room;
    RowSplitConserves(t, n, room - Count(header));
    RowPartsSafe(t, n, room);
    assert RowPiece(header, p, room - Count(header), |t|);
    if |Rows(p)| <= 2 { TwoRowsFit(p, header, room - Count(header)); }
  }

  lemma TwoRowsFit(p: Text, header: Text, longest: nat)
    requires |Rows(p)| == 2 && Rows(p)[0] == header && Count(Rows(p)[1]) <= longest
    ensures Count(p) <= Count(header) + longest
  {
    hide Tokens, Rows, AllTokens;
    RowsHoldAllTokens(p);
    assert Rows(p) == [header] + [Rows(p)[1]];
    SplitFromCons(header, [Rows(p)[1]]);
    AllTokensOne(Rows(p)[1]);
  }

  lemma RowPartsPinned(s: Segment, n: nat, c: Config, headings: nat)
    requires s.kind == Table && OffsetsFit(s) && Placeable(s, c, headings) && SplitsByRows(s.text, n) && n > 0
    requires Count(s.text) > n
    ensures PartsWithin(TableSplit(s, n), s, c, headings)
  {
    hide Tokens, Rows, RowSplitTexts, OffsetsFit, SafeTable;
    TableOffsets(s, n);
    var texts, room := RowSplitTexts(s.text, n), Room(s, c, headings);
    var parts := TableSplit(s, n);
    assert |Rows(s.text)| > 2;
    RowPartsSafe(s.text, n, room);
    forall p | p in parts
      ensures PartWithin(p, s, c, headings) && Pinned(p, c, headings) && p.startOffset == s.startOffset
    {
      var i :| 0 <= i < |parts| && parts[i] == p;
      assert texts[i] in texts && p == s.(text := texts[i]);
      RowPieceIsPinned(s.text, n, texts[i], room);
    }
    forall i, j | 0 <= i < j < |parts| ensures InOrder(parts[i], parts[j], c, headings) {
      assert parts[i] in parts && parts[j] in parts;
    }
  }

  /** A cut to no less than the room keeps the parts of a placeable segment in order and within it. */
  lemma SplitKeepsPlaces(s: Segment, n: nat, c: Config, headings: nat)
    requires n > 0 && Room(s, c, headings) <= n && OffsetsFit(s) && Placeable(s, c, headings)
    ensures PartsWithin(SplitSegment(s, n), s, c, headings)
  {
    hide Tokens, SentenceSplit, HardSplit, RowSplitTexts, SplitsByRows, SafeTable, Rows, ContentMax, OffsetsFit, Spaced;
    hide Laid, LocatedPieces, Split, Sentences, SentencePieces, PartsWithin, TableSplit;
    if Count(s.text) <= n {
      WholeWithin(s, c, headings);
    } else if s.kind == Table && SplitsByRows(s.text, n) {
      RowSplitMakesParts(s.text, n);
      TableSplitIs(s, n);
      RowPartsPinned(s, n, c, headings);
    } else {
      HardPartsWithin(s, n, c, headings);
      if HasSentences(s) { SentencePartsWithin(s, n, c, headings); }
      TableSplitIs(s, n);
    }
  }

  lemma WholeWithin(s: Segment, c: Config, headings: nat)
    requires OffsetsFit(s) && Placeable(s, c, headings)
    ensures PartsWithin([s], s, c, headings)
  {
    hide Placeable, Pinned, Apart;
  }

  lemma TableSplitIs(s: Segment, n: nat)
    requires n > 0
    ensures !SplitsByRows(s.text, n) ==> TableSplit(s, n) == HardSplit(s, n)
    ensures SplitsByRows(s.text, n) ==> |TableSplit(s, n)| == |RowSplitTexts(s.text, n)|
  {
    hide HardSplit, RowSplitTexts, SplitsByRows;
  }

  lemma HardPartsWithin(s: Segment, n: nat, c: Config, headings: nat)
    requires n > 0 && Room(s, c, headings) <= n < Count(s.text) && OffsetsFit(s) && Placeable(s, c, headings)
    requires s.kind == Table ==> !SplitsByRows(s.text, n)
    ensures PartsWithin(HardSplit(s, n), s, c, headings)
  {
    hide Tokens, Rows, ContentMax, OffsetsFit, Spaced, Laid, LocatedPieces, Split, PartsWithin, HardSplit, SplitsByRows, SafeTable;
    HardSplitIs(s, n);
    SplitLaid(s.text, n);
    if s.kind == Table {
      HardPartsSafe(s, n, Room(s, c, headings));
      HardSplitConserves(s, n);
      if |Rows(s.text)| > 2 { SafeIsSplitByRows(s.text, Room(s, c, headings), n); }
    } else {
      LaidPartsSpaced(s, Split(s.text, n), c, headings);
    }
    PlacedParts(s, Split(s.text, n), c, headings);
  }

  /** A large table that is safe in the room is cut by rows. */
  lemma SafeIsSplitByRows(t: Text, room: int, n: nat)
    requires |Rows(t)| > 2 && SafeTable(t, room) && room <= n
    ensures SplitsByRows(t, n)
  {
    hide Tokens, Rows;
    RowHasToken(t, 1);
    assert Count(Rows(t)[0]) + Count(Rows(t)[1]) <= room;
  }

  lemma RowHasToken(t: Text, i: nat)
    requires i < |Rows(t)|
    ensures Count(Rows(t)[i]) > 0
  {
    hide Tokens, RowsIn, Blank;
    RowsAreLines(t, 0, |t|);
    assert Rows(t)[i] in Rows(t);
    assert IsLine(Rows(t)[i]);
    BlankIsTokenless(Rows(t)[i]);
  }

  lemma SentencePartsWithin(s: Segment, n: nat, c: Config, headings: nat)
    requires n > 0 && Room(s, c, headings) <= n < Count(s.text) && OffsetsFit(s) && Placeable(s, c, headings)
    requires HasSentences(s)
    ensures PartsWithin(SentenceSplit(s, n), s, c, headings)
  {
    hide Tokens, Rows, ContentMax, OffsetsFit, Spaced, Laid, LocatedPieces, Split, PartsWithin, HardSplit, SentencePieces, SentencesFrom;
    hide SentenceSplit;
    SentenceSplitIs(s, n);
    HardPartsWithin(s, n, c, headings);
    SentencePiecesLaid(s.text, 0, n, [], 0, 0, 0);
    LaidPartsSpaced(s, SentencePieces(Sentences(s.text), n, []), c, headings);
    PlacedParts(s, SentencePieces(Sentences(s.text), n, []), c, headings);
  }
}
