/** The conservative tokenizer: how text is cut into tokens, and why the cuts are stable.

    Text is a sequence of characters of three classes: white space, ASCII word
    characters, and everything else.  A run of word characters is counted in
    four-character pieces; every other non-space character is a token by itself.
 */
module Tokenization {
  import opened Wrappers

  /** A character by its class and its code point. */
  datatype Character = Space(code: int) | Word(code: int) | Other(code: int)

  type Text = seq<Character>

  const TOKEN_WIDTH := 4

  datatype Span = Span(start: nat, end: nat)

  // ---------- the tokens of a stretch of text ----------

  /** The end of the run of word characters from `at`, no more than `limit` characters on. */
  function RunEnd(t: Text, at: nat, hi: nat, limit: nat): (e: nat)
    requires at <= hi <= |t|
    ensures at <= e <= hi && e - at <= limit
    decreases limit
  {
    if limit == 0 || at == hi || !t[at].Word? then at else RunEnd(t, at + 1, hi, limit - 1)
  }

  /** The end of the token that starts at `at`. */
  function TokenEnd(t: Text, at: nat, hi: nat): (e: nat)
    requires at < hi <= |t|
    ensures at < e <= hi
  {
    if t[at].Word? then RunEnd(t, at + 1, hi, TOKEN_WIDTH - 1) else at + 1
  }

  /** The positions of the tokens of `t` between `lo` and `hi`. */
  function SpansIn(t: Text, lo: nat, hi: nat): seq<Span>
    requires lo <= hi <= |t|
    decreases hi - lo
  {
    if lo == hi then []
    else if t[lo].Space? then SpansIn(t, lo + 1, hi)
    else [Span(lo, TokenEnd(t, lo, hi))] + SpansIn(t, TokenEnd(t, lo, hi), hi)
  }

  function TokensIn(t: Text, lo: nat, hi: nat): (tokens: seq<Text>)
    requires lo <= hi <= |t|
    ensures |tokens| == |SpansIn(t, lo, hi)|
    decreases hi - lo
  {
    if lo == hi then []
    else if t[lo].Space? then TokensIn(t, lo + 1, hi)
    else [t[lo..TokenEnd(t, lo, hi)]] + TokensIn(t, TokenEnd(t, lo, hi), hi)
  }

  function Spans(t: Text): seq<Span> { SpansIn(t, 0, |t|) }

  function Tokens(t: Text): (tokens: seq<Text>)
    ensures |tokens| == |Spans(t)|
  {
    TokensIn(t, 0, |t|)
  }

  function Count(t: Text): nat { |Tokens(t)| }

  // ---------- stretches and copies ----------

  lemma {:induction false} SpanBounds(t: Text, lo: nat, hi: nat, k: nat)
    requires lo <= hi <= |t| && k < |SpansIn(t, lo, hi)|
    ensures var s := SpansIn(t, lo, hi)[k];
            lo <= s.start < s.end <= hi && !t[s.start].Space? && TokensIn(t, lo, hi)[k] == t[s.start..s.end]
    decreases hi - lo
  {
    if t[lo].Space? {
      SpanBounds(t, lo + 1, hi, k);
    } else if k > 0 {
      SpanBounds(t, TokenEnd(t, lo, hi), hi, k - 1);
    }
  }

  lemma {:induction false} SpansIncrease(t: Text, lo: nat, hi: nat, i: nat, j: nat)
    requires lo <= hi <= |t| && i < j < |SpansIn(t, lo, hi)|
    ensures SpansIn(t, lo, hi)[i].end <= SpansIn(t, lo, hi)[j].start
    decreases hi - lo
  {
    if t[lo].Space? {
      SpansIncrease(t, lo + 1, hi, i, j);
    } else if i > 0 {
      SpansIncrease(t, TokenEnd(t, lo, hi), hi, i - 1, j - 1);
    } else {
      SpanBounds(t, TokenEnd(t, lo, hi), hi, j - 1);
    }
  }

  predicate AllWord(t: Text, a: nat, b: nat)
    requires a <= b <= |t|
  {
    forall k :: a <= k < b ==> t[k].Word?
  }

  predicate AllSpaceIn(t: Text, a: nat, b: nat)
    requires a <= b <= |t|
  {
    forall k :: a <= k < b ==> t[k].Space?
  }

  lemma {:induction false} RunIsLongest(t: Text, at: nat, hi: nat, limit: nat)
    requires at <= hi <= |t|
    ensures var e := RunEnd(t, at, hi, limit);
            AllWord(t, at, e) && (e - at < limit ==> e == hi || !t[e].Word?)
    decreases limit
  {
    if !(limit == 0 || at == hi || !t[at].Word?) { RunIsLongest(t, at + 1, hi, limit - 1); }
  }

  /** The shape of one token: up to four word characters, fewer only where the word ends, or one other character. */
  predicate IsToken(t: Text, s: Span, hi: nat)
    requires hi <= |t|
  {
    && s.start < s.end <= hi
    && (if t[s.start].Word?
        then && AllWord(t, s.start, s.end) && s.end - s.start <= 4
             && (s.end - s.start < 4 ==> s.end == hi || !t[s.end].Word?)
        else t[s.start].Other? && s.end == s.start + 1)
  }

  /** Every token has this shape, and between two tokens, before the first and after the last there is only white space. */
  lemma {:induction false} TokenShapes(t: Text, lo: nat, hi: nat, k: nat)
    requires lo <= hi <= |t| && k < |SpansIn(t, lo, hi)|
    ensures var spans := SpansIn(t, lo, hi);
            && lo <= spans[k].start && IsToken(t, spans[k], hi)
            && (k == 0 ==> AllSpaceIn(t, lo, spans[0].start))
            && (k > 0 ==> spans[k - 1].end <= spans[k].start && AllSpaceIn(t, spans[k - 1].end, spans[k].start))
            && (k == |spans| - 1 ==> AllSpaceIn(t, spans[k].end, hi))
    decreases hi - lo
  {
    if t[lo].Space? {
      TokenShapes(t, lo + 1, hi, k);
    } else {
      var e := TokenEnd(t, lo, hi);
      if t[lo].Word? { RunIsLongest(t, lo + 1, hi, 3); }
      if k > 0 {
        TokenShapes(t, e, hi, k - 1);
      } else if SpansIn(t, e, hi) == [] {
        NoSpansNoText(t, e, hi);
      }
    }
  }

  lemma {:induction false} NoSpansNoText(t: Text, lo: nat, hi: nat)
    requires lo <= hi <= |t| && SpansIn(t, lo, hi) == []
    ensures AllSpaceIn(t, lo, hi)
    decreases hi - lo
  {
    if lo < hi { NoSpansNoText(t, lo + 1, hi); }
  }

  lemma {:induction false} RunEndCopy(t: Text, at: nat, hi: nat, u: Text, d: nat, limit: nat)
    requires d <= at <= hi <= |t| && hi - d <= |u|
    requires forall k :: at <= k < hi ==> u[k - d] == t[k]
    ensures RunEnd(u, at - d, hi - d, limit) == RunEnd(t, at, hi, limit) - d
    decreases limit
  {
    if !(limit == 0 || at == hi || !t[at].Word?) {
      assert u[at - d] == t[at];
      RunEndCopy(t, at + 1, hi, u, d, limit - 1);
    }
  }

  /** The stretch of `t` from `lo` to `hi` is also in `u`, `d` places further left. */
  ghost predicate Copied(t: Text, lo: nat, hi: nat, u: Text, d: nat) {
    && d <= lo <= hi <= |t| && hi - d <= |u|
    && forall k :: lo <= k < hi ==> u[k - d] == t[k]
  }

  lemma TokenEndCopy(t: Text, lo: nat, hi: nat, u: Text, d: nat) returns (e: nat)
    requires Copied(t, lo, hi, u, d) && lo < hi
    ensures e == TokenEnd(t, lo, hi) && d <= e && TokenEnd(u, lo - d, hi - d) == e - d
    ensures u[lo - d] == t[lo] && u[lo - d..e - d] == t[lo..e]
    ensures Copied(t, e, hi, u, d) && Copied(t, lo + 1, hi, u, d)
  {
    assert u[lo - d] == t[lo];
    e := TokenEnd(t, lo, hi);
    RunEndCopy(t, lo + 1, hi, u, d, TOKEN_WIDTH - 1);
    assert u[lo - d..e - d] == t[lo..e];
  }

  lemma TokensStep(t: Text, lo: nat, hi: nat)
    requires lo < hi <= |t|
    ensures var e := TokenEnd(t, lo, hi);
            && lo < e <= hi
            && TokensIn(t, lo, hi) == if t[lo].Space? then TokensIn(t, lo + 1, hi) else [t[lo..e]] + TokensIn(t, e, hi)
  {
    hide TokenEnd, RunEnd, SpansIn;
  }

  lemma SpansStep(t: Text, lo: nat, hi: nat)
    requires lo < hi <= |t|
    ensures var e := TokenEnd(t, lo, hi);
            && lo < e <= hi
            && SpansIn(t, lo, hi) == if t[lo].Space? then SpansIn(t, lo + 1, hi) else [Span(lo, e)] + SpansIn(t, e, hi)
  {
    hide TokenEnd, RunEnd;
  }

  /** A copy of a stretch of text has the tokens of the stretch. */
  lemma {:induction false} CopyTokens(t: Text, lo: nat, hi: nat, u: Text, d: nat)
    requires Copied(t, lo, hi, u, d)
    ensures TokensIn(u, lo - d, hi - d) == TokensIn(t, lo, hi)
    decreases hi - lo
  {
    hide TokensIn, SpansIn, TokenEnd, Copied;
    CopiedBounds(t, lo, hi, u, d);
    if lo == hi {
      NoTokens(t, lo);
      NoTokens(u, lo - d);
    } else {
      TokensStep(t, lo, hi);
      TokensStep(u, lo - d, hi - d);
      var e := TokenEndCopy(t, lo, hi, u, d);
      if t[lo].Space? {
        CopyTokens(t, lo + 1, hi, u, d);
        assert lo + 1 - d == lo - d + 1;
      } else {
        CopyTokens(t, e, hi, u, d);
      }
    }
  }

  lemma CopiedBounds(t: Text, lo: nat, hi: nat, u: Text, d: nat)
    requires Copied(t, lo, hi, u, d)
    ensures d <= lo <= hi <= |t| && hi - d <= |u|
  {}

  lemma SliceIsStretch(t: Text, lo: nat, hi: nat)
    requires lo <= hi <= |t|
    ensures Tokens(t[lo..hi]) == TokensIn(t, lo, hi)
  {
    hide TokensIn, SpansIn;
    CopyTokens(t, lo, hi, t[lo..hi], lo);
  }

  // ---------- joining ----------

  lemma {:induction false} RunEndBefore(t: Text, at: nat, mid: nat, hi: nat, limit: nat)
    requires at <= mid <= hi <= |t|
    requires at == mid || mid == hi || !t[mid - 1].Word? || !t[mid].Word?
    requires at == mid ==> mid == hi || !t[mid].Word?
    ensures RunEnd(t, at, mid, limit) == RunEnd(t, at, hi, limit)
    decreases limit
  {
    if !(limit == 0 || at == mid || !t[at].Word?) {
      RunEndBefore(t, at + 1, mid, hi, limit - 1);
    }
  }

  /** Tokens do not cross a point where one of the neighbours is not a word character. */
  lemma {:induction false} StretchSplits(t: Text, lo: nat, mid: nat, hi: nat)
    requires lo <= mid <= hi <= |t|
    requires lo == mid || mid == hi || !t[mid - 1].Word? || !t[mid].Word?
    ensures TokensIn(t, lo, hi) == TokensIn(t, lo, mid) + TokensIn(t, mid, hi)
    decreases mid - lo
  {
    hide TokensIn, SpansIn, TokenEnd;
    if lo < mid {
      TokensStep(t, lo, mid);
      TokensStep(t, lo, hi);
      if t[lo].Space? {
        StretchSplits(t, lo + 1, mid, hi);
      } else {
        var e := TokenEndBefore(t, lo, mid, hi);
        StretchSplits(t, e, mid, hi);
        Regroup([t[lo..e]], TokensIn(t, e, mid), TokensIn(t, mid, hi));
      }
    } else {
      NoTokens(t, lo);
      Regroup([], TokensIn(t, lo, mid), TokensIn(t, mid, hi));
    }
  }

  lemma TokenEndBefore(t: Text, lo: nat, mid: nat, hi: nat) returns (e: nat)
    requires lo < mid <= hi <= |t| && (mid == hi || !t[mid - 1].Word? || !t[mid].Word?)
    ensures e == TokenEnd(t, lo, mid) == TokenEnd(t, lo, hi) && lo < e <= mid
    ensures e == mid || mid == hi || !t[mid - 1].Word? || !t[mid].Word?
  {
    if t[lo].Word? { RunEndBefore(t, lo + 1, mid, hi, TOKEN_WIDTH - 1); }
    e := TokenEnd(t, lo, mid);
  }

  lemma Regroup<T>(a: seq<T>, b: seq<T>, c: seq<T>)
    ensures a + (b + c) == (a + b) + c && [] + c == c
  {}

  lemma NoTokens(t: Text, lo: nat)
    requires lo <= |t|
    ensures TokensIn(t, lo, lo) == []
  {}

  lemma EmptyHasNoTokens()
    ensures Tokens([]) == []
  {}

  lemma OneToken(c: Character)
    requires !c.Space?
    ensures Tokens([c]) == [[c]] && Count([c]) == 1 && !Blank([c]) && Strip([c]) == [c]
  {
    NoTokens([c], 1);
    assert TokenEnd([c], 0, 1) == 1;
    assert [c][0..1] == [c];
  }

  /** The token sequence of a concatenation, when no word runs across the joint. */
  lemma TokensConcat(a: Text, b: Text)
    requires a == [] || b == [] || !a[|a| - 1].Word? || !b[0].Word?
    ensures Tokens(a + b) == Tokens(a) + Tokens(b)
  {
    var t := a + b;
    StretchSplits(t, 0, |a|, |t|);
    CopyTokens(t, 0, |a|, a, 0);
    CopyTokens(t, |a|, |t|, b, |a|);
  }

  lemma {:induction false} SpacesHaveNoTokens(t: Text, lo: nat, hi: nat)
    requires lo <= hi <= |t| && forall k :: lo <= k < hi ==> t[k].Space?
    ensures TokensIn(t, lo, hi) == []
    decreases hi - lo
  {
    if lo < hi { SpacesHaveNoTokens(t, lo + 1, hi); }
  }

  predicate AllSpace(t: Text) { forall k :: 0 <= k < |t| ==> t[k].Space? }

  /** Counts add up across any white-space gap. */
  lemma TokensJoin(a: Text, gap: Text, b: Text)
    requires gap != [] && AllSpace(gap)
    ensures Tokens(a + gap + b) == Tokens(a) + Tokens(b)
  {
    SpacesHaveNoTokens(gap, 0, |gap|);
    TokensConcat(a, gap);
    TokensConcat(a + gap, b);
  }

  // ---------- cutting at token boundaries ----------

  lemma {:induction false} CutBefore(t: Text, lo: nat, hi: nat, i: nat)
    requires lo <= hi <= |t| && i < |SpansIn(t, lo, hi)|
    ensures lo <= SpansIn(t, lo, hi)[i].start < hi
    ensures SpansIn(t, SpansIn(t, lo, hi)[i].start, hi) == SpansIn(t, lo, hi)[i..]
    ensures TokensIn(t, SpansIn(t, lo, hi)[i].start, hi) == TokensIn(t, lo, hi)[i..]
    decreases hi - lo
  {
    if t[lo].Space? {
      CutBefore(t, lo + 1, hi, i);
    } else if i > 0 {
      CutBefore(t, TokenEnd(t, lo, hi), hi, i - 1);
    }
  }

  lemma {:induction false} RunEndWithin(t: Text, at: nat, mid: nat, hi: nat, limit: nat)
    requires at <= mid <= hi <= |t| && RunEnd(t, at, hi, limit) <= mid
    ensures RunEnd(t, at, mid, limit) == RunEnd(t, at, hi, limit)
    decreases limit
  {
    if !(limit == 0 || at == hi || !t[at].Word?) {
      RunEndWithin(t, at + 1, mid, hi, limit - 1);
    }
  }

  /** Cutting at the end of token `j`, even inside a word, leaves exactly the tokens up to `j`. */
  lemma {:induction false} CutAfter(t: Text, lo: nat, hi: nat, j: nat)
    requires lo <= hi <= |t| && j < |SpansIn(t, lo, hi)|
    ensures lo < SpansIn(t, lo, hi)[j].end <= hi
    ensures TokensIn(t, lo, SpansIn(t, lo, hi)[j].end) == TokensIn(t, lo, hi)[..j + 1]
    decreases hi - lo
  {
    if t[lo].Space? {
      CutAfter(t, lo + 1, hi, j);
    } else {
      var e := TokenEnd(t, lo, hi);
      var mid := SpansIn(t, lo, hi)[j].end;
      if j > 0 { CutAfter(t, e, hi, j - 1); }
      if t[lo].Word? { RunEndWithin(t, lo + 1, mid, hi, TOKEN_WIDTH - 1); }
      assert TokenEnd(t, lo, mid) == e;
    }
  }

  /** The characters that end a token are not white space. */
  lemma {:induction false} RunIsWord(t: Text, at: nat, hi: nat, limit: nat, k: nat)
    requires at <= hi <= |t| && at <= k < RunEnd(t, at, hi, limit)
    ensures t[k].Word?
    decreases limit
  {
    if at < k { RunIsWord(t, at + 1, hi, limit - 1, k); }
  }

  lemma {:induction false} TokenHasNoSpace(t: Text, lo: nat, hi: nat, i: nat, k: nat)
    requires lo <= hi <= |t| && i < |SpansIn(t, lo, hi)|
    requires SpansIn(t, lo, hi)[i].start <= k < SpansIn(t, lo, hi)[i].end
    ensures lo <= k < hi && !t[k].Space?
    decreases hi - lo
  {
    SpanBounds(t, lo, hi, i);
    if t[lo].Space? {
      TokenHasNoSpace(t, lo + 1, hi, i, k);
    } else if i > 0 {
      TokenHasNoSpace(t, TokenEnd(t, lo, hi), hi, i - 1, k);
    } else if lo < k {
      RunIsWord(t, lo + 1, hi, TOKEN_WIDTH - 1, k);
    }
  }

  function StartOf(t: Text, i: nat): (s: nat)
    requires i < Count(t)
    ensures s < |t|
  {
    SpanBounds(t, 0, |t|, i);
    Spans(t)[i].start
  }

  function EndOf(t: Text, i: nat): (e: nat)
    requires i < Count(t)
    ensures e <= |t|
  {
    SpanBounds(t, 0, |t|, i);
    Spans(t)[i].end
  }

  lemma SpansOrdered(t: Text, i: nat, j: nat)
    requires i < j <= Count(t)
    ensures StartOf(t, i) < EndOf(t, j - 1)
  {
    SpanBounds(t, 0, |t|, i);
    SpanBounds(t, 0, |t|, j - 1);
    if i < j - 1 { SpansIncrease(t, 0, |t|, i, j - 1); }
  }

  /** The text between two token boundaries re-tokenizes to exactly the tokens between them. */
  lemma SliceTokens(t: Text, i: nat, j: nat)
    requires i < j <= Count(t)
    ensures StartOf(t, i) < EndOf(t, j - 1)
    ensures Tokens(t[StartOf(t, i)..EndOf(t, j - 1)]) == Tokens(t)[i..j]
  {
    SpansOrdered(t, i, j);
    var s, e := StartOf(t, i), EndOf(t, j - 1);
    CutBefore(t, 0, |t|, i);
    assert SpansIn(t, s, |t|)[j - 1 - i] == Spans(t)[j - 1];
    CutAfter(t, s, |t|, j - 1 - i);
    SliceIsStretch(t, s, e);
    assert Tokens(t)[i..][..j - i] == Tokens(t)[i..j];
  }

  // ---------- stripping ----------

  function LStrip(t: Text): (r: Text)
    ensures |r| <= |t|
    ensures r == [] || !r[0].Space?
  {
    if t != [] && t[0].Space? then LStrip(t[1..]) else t
  }

  function RStrip(t: Text): (r: Text)
    ensures r <= t
    ensures r == [] || !r[|r| - 1].Space?
  {
    if t != [] && t[|t| - 1].Space? then RStrip(t[..|t| - 1]) else t
  }

  function Strip(t: Text): (r: Text)
    ensures |r| <= |t|
    ensures r == [] || (!r[0].Space? && !r[|r| - 1].Space?)
  {
    RStrip(LStrip(t))
  }

  predicate Blank(t: Text) { Strip(t) == [] }

  lemma {:induction false} LStripTokens(t: Text)
    ensures Tokens(LStrip(t)) == Tokens(t)
  {
    if t != [] && t[0].Space? {
      LStripTokens(t[1..]);
      SliceIsStretch(t, 1, |t|);
      assert t[1..|t|] == t[1..];
    }
  }

  lemma {:induction false} RStripTokens(t: Text)
    ensures Tokens(RStrip(t)) == Tokens(t)
  {
    if t != [] && t[|t| - 1].Space? {
      var n := |t| - 1;
      RStripTokens(t[..n]);
      SliceIsStretch(t, 0, n);
      StretchSplits(t, 0, n, |t|);
      SpacesHaveNoTokens(t, n, |t|);
    }
  }

  lemma StripTokens(t: Text)
    ensures Tokens(Strip(t)) == Tokens(t)
  {
    LStripTokens(t);
    RStripTokens(LStrip(t));
  }

  /** A text is blank exactly when it has no token. */
  lemma BlankIsTokenless(t: Text)
    ensures Blank(t) <==> Count(t) == 0
  {
    StripTokens(t);
  }

  // ---------- split and tail ----------

  /** Tokens `i` up to `j` of `t`, as a piece of text. */
  function Piece(t: Text, i: nat, j: nat): Text
    requires i < j <= Count(t)
  {
    SpansOrdered(t, i, j);
    Strip(t[StartOf(t, i)..EndOf(t, j - 1)])
  }

  /** The pieces of `maxTokens` tokens that cover `t` from token `i` on. */
  function SplitFrom(t: Text, maxTokens: nat, i: nat): seq<Text>
    requires maxTokens > 0
    decreases Count(t) - i
  {
    if i >= Count(t) then []
    else [Piece(t, i, Min(i + maxTokens, Count(t)))] + SplitFrom(t, maxTokens, i + maxTokens)
  }

  function Split(t: Text, maxTokens: nat): seq<Text>
    requires maxTokens > 0
  {
    SplitFrom(t, maxTokens, 0)
  }

  function Tail(t: Text, maxTokens: int): Text {
    if maxTokens <= 0 || Count(t) == 0 then []
    else Strip(t[StartOf(t, Max(0, Count(t) - maxTokens))..])
  }

  /** The token sequences of several texts, one after the other. */
  function AllTokens(pieces: seq<Text>): seq<Text> {
    if pieces == [] then [] else Tokens(pieces[0]) + AllTokens(pieces[1..])
  }

  lemma {:induction false} AllTokensConcat(a: seq<Text>, b: seq<Text>)
    ensures AllTokens(a + b) == AllTokens(a) + AllTokens(b)
  {
    if a == [] {
      assert a + b == b;
    } else {
      assert (a + b)[1..] == a[1..] + b;
      AllTokensConcat(a[1..], b);
    }
  }

  function CeilDiv(a: int, n: nat): nat
    requires n > 0
    decreases a
  {
    if a <= 0 then 0 else 1 + CeilDiv(a - n, n)
  }

  /** A piece is a verbatim slice and holds exactly its tokens. */
  lemma PieceTokens(t: Text, i: nat, j: nat)
    requires i < j <= Count(t)
    ensures StartOf(t, i) < EndOf(t, j - 1)
    ensures Tokens(Piece(t, i, j)) == Tokens(t)[i..j]
    ensures Piece(t, i, j) == t[StartOf(t, i)..EndOf(t, j - 1)] != []
  {
    SliceTokens(t, i, j);
    TokenHasNoSpace(t, 0, |t|, i, StartOf(t, i)) by { SpanBounds(t, 0, |t|, i); }
    TokenHasNoSpace(t, 0, |t|, j - 1, EndOf(t, j - 1) - 1) by { SpanBounds(t, 0, |t|, j - 1); }
  }

  lemma SplitStep(t: Text, n: nat, i: nat)
    requires n > 0
    ensures SplitFrom(t, n, i) == if i >= Count(t) then [] else [Piece(t, i, Min(i + n, Count(t)))] + SplitFrom(t, n, i + n)
  {
    hide Tokens, Piece;
  }

  lemma CeilDivStep(a: int, n: nat)
    requires n > 0
    ensures a <= 0 ==> CeilDiv(a, n) == 0
    ensures a > 0 ==> CeilDiv(a, n) == 1 + CeilDiv(a - n, n)
  {}

  lemma {:induction false} SplitFromPieces(t: Text, n: nat, i: nat)
    requires n > 0
    ensures |SplitFrom(t, n, i)| == CeilDiv(Count(t) - i, n)
    ensures forall p <- SplitFrom(t, n, i) :: 1 <= Count(p) <= n
    ensures forall k :: 0 <= k < |SplitFrom(t, n, i)| - 1 ==> Count(SplitFrom(t, n, i)[k]) == n
    decreases Count(t) - i
  {
    hide Tokens, SplitFrom, CeilDiv, Piece;
    SplitStep(t, n, i);
    CeilDivStep(Count(t) - i, n);
    if i < Count(t) {
      PieceTokens(t, i, Min(i + n, Count(t)));
      SplitFromPieces(t, n, i + n);
      CeilDivStep(Count(t) - (i + n), n);
    }
  }

  lemma {:induction false} SplitFromTokens(t: Text, n: nat, i: nat)
    requires n > 0
    ensures AllTokens(SplitFrom(t, n, i)) == if i >= Count(t) then [] else Tokens(t)[i..]
    decreases Count(t) - i
  {
    hide Tokens, SplitFrom, AllTokens, Piece;
    SplitStep(t, n, i);
    if i >= Count(t) {
      NoPieces();
    } else {
      var j := Min(i + n, Count(t));
      var first, rest := Piece(t, i, j), SplitFrom(t, n, i + n);
      PieceTokens(t, i, j);
      SplitFromCons(first, rest);
      SplitFromTokens(t, n, i + n);
      if i + n < Count(t) {
        CutTokens(Tokens(t), i, j);
      } else {
        LastTokens(Tokens(t), i);
      }
    }
  }

  lemma CutTokens(tokens: seq<Text>, i: nat, j: nat)
    requires i <= j <= |tokens|
    ensures tokens[i..j] + tokens[j..] == tokens[i..]
  {}

  lemma LastTokens(tokens: seq<Text>, i: nat)
    requires i <= |tokens|
    ensures tokens[i..|tokens|] + [] == tokens[i..]
  {}

  lemma NoPieces()
    ensures AllTokens([]) == []
  {}

  lemma SplitFromCons(p: Text, rest: seq<Text>)
    ensures AllTokens([p] + rest) == Tokens(p) + AllTokens(rest)
  {
    assert ([p] + rest)[1..] == rest;
  }

  /** Every piece but the last has exactly `n` tokens, and the pieces keep every token in order. */
  lemma SplitPieces(t: Text, n: nat)
    requires n > 0
    ensures |Split(t, n)| == CeilDiv(Count(t), n)
    ensures forall p <- Split(t, n) :: 1 <= Count(p) <= n
    ensures forall k :: 0 <= k < |Split(t, n)| - 1 ==> Count(Split(t, n)[k]) == n
    ensures AllTokens(Split(t, n)) == Tokens(t)
  {
    SplitFromPieces(t, n, 0);
    SplitFromTokens(t, n, 0);
    assert Tokens(t)[0..] == Tokens(t);
  }

  /** The tail is a suffix of the token sequence, as long as the limit lets it be. */
  lemma TailTokens(t: Text, n: int)
    ensures Tokens(Tail(t, n)) == Tokens(t)[Count(t) - Max(0, Min(n, Count(t)))..]
  {
    if n > 0 && Count(t) > 0 {
      var k := Max(0, Count(t) - n);
      CutBefore(t, 0, |t|, k);
      SliceIsStretch(t, StartOf(t, k), |t|);
      assert t[StartOf(t, k)..|t|] == t[StartOf(t, k)..];
      StripTokens(t[StartOf(t, k)..]);
    }
  }

  // ---------- characters ----------

  function NonSpace(t: Text, lo: nat): Text
    requires lo <= |t|
    decreases |t| - lo
  {
    if lo == |t| then [] else (if t[lo].Space? then [] else [t[lo]]) + NonSpace(t, lo + 1)
  }

  function Flatten(ts: seq<Text>): Text {
    if ts == [] then [] else ts[0] + Flatten(ts[1..])
  }

  lemma {:induction false} NonSpaceStretch(t: Text, lo: nat, e: nat)
    requires lo <= e <= |t| && forall k :: lo <= k < e ==> !t[k].Space?
    ensures NonSpace(t, lo) == t[lo..e] + NonSpace(t, e)
    decreases e - lo
  {
    if lo < e {
      NonSpaceStretch(t, lo + 1, e);
      var rest := NonSpace(t, e);
      assert t[lo..e] + rest == [t[lo]] + (t[lo + 1..e] + rest);
    }
  }

  lemma {:induction false} TokensKeepCharactersFrom(t: Text, lo: nat)
    requires lo <= |t|
    ensures Flatten(TokensIn(t, lo, |t|)) == NonSpace(t, lo)
    decreases |t| - lo
  {
    if lo < |t| {
      if t[lo].Space? {
        TokensKeepCharactersFrom(t, lo + 1);
      } else {
        var e := TokenEnd(t, lo, |t|);
        forall k | lo <= k < e ensures !t[k].Space? {
          TokenHasNoSpace(t, lo, |t|, 0, k);
        }
        NonSpaceStretch(t, lo, e);
        TokensKeepCharactersFrom(t, e);
      }
    }
  }

  /** The tokens hold every non-space character of the text, in order, and nothing else. */
  lemma TokensKeepCharacters(t: Text)
    ensures Flatten(Tokens(t)) == NonSpace(t, 0)
  {
    TokensKeepCharactersFrom(t, 0);
  }

  // ---------- the loops of the source ----------

  lemma {:induction false} RunEndIs(t: Text, at: nat, end: nat, limit: nat)
    requires at <= end <= |t| && (forall k :: at <= k < end ==> t[k].Word?)
    requires end == |t| || !t[end].Word?
    ensures RunEnd(t, at, |t|, limit) == Min(at + limit, end)
    decreases limit
  {
    if limit > 0 && at < end { RunEndIs(t, at + 1, end, limit - 1); }
  }

  lemma AppendedFirst(spans: seq<Span>, s: Span, rest: seq<Span>)
    ensures spans + ([s] + rest) == (spans + [s]) + rest
  {}

  /** `_token_spans`: one regular-expression match per step, a word cut in four-character pieces. */
  method TokenSpans(text: Text) returns (spans: seq<Span>)
    ensures spans == Spans(text)
  {
    hide SpansIn, RunEnd, TokenEnd;
    spans := [];
    var i := 0;
    while i < |text|
      invariant 0 <= i <= |text|
      invariant spans + SpansIn(text, i, |text|) == Spans(text)
    {
      SpansStep(text, i, |text|);
      if text[i].Space? {
        i := i + 1;
      } else if text[i].Word? {
        var end := i;
        while end < |text| && text[end].Word?
          invariant i <= end <= |text|
          invariant forall k :: i <= k < end ==> text[k].Word?
        {
          end := end + 1;
        }
        var offset := i;
        while offset < end
          invariant i <= offset
          invariant spans + SpansIn(text, Min(offset, end), |text|) == Spans(text)
        {
          SpansStep(text, offset, |text|);
          WordPieceEnd(text, offset, end);
          AppendedFirst(spans, Span(offset, Min(offset + TOKEN_WIDTH, end)), SpansIn(text, Min(offset + TOKEN_WIDTH, end), |text|));
          spans := spans + [Span(offset, Min(offset + TOKEN_WIDTH, end))];
          offset := offset + TOKEN_WIDTH;
        }
        i := end;
      } else {
        OneCharacterEnd(text, i);
        AppendedFirst(spans, Span(i, i + 1), SpansIn(text, i + 1, |text|));
        spans := spans + [Span(i, i + 1)];
        i := i + 1;
      }
    }
    NoSpans(text);
    assert spans + [] == spans;
  }

  lemma WordPieceEnd(t: Text, at: nat, end: nat)
    requires at < end <= |t| && (forall k :: at <= k < end ==> t[k].Word?) && (end == |t| || !t[end].Word?)
    ensures TokenEnd(t, at, |t|) == Min(at + TOKEN_WIDTH, end)
  {
    RunEndIs(t, at + 1, end, TOKEN_WIDTH - 1);
  }

  lemma OneCharacterEnd(t: Text, at: nat)
    requires at < |t| && !t[at].Word?
    ensures TokenEnd(t, at, |t|) == at + 1
  {}

  lemma NoSpans(t: Text)
    ensures SpansIn(t, |t|, |t|) == []
  {}

  /** `ConservativeTokenizer.split`; the source raises an error for a limit that is not positive. */
  method SplitText(text: Text, maxTokens: nat) returns (pieces: seq<Text>)
    requires maxTokens > 0
    ensures pieces == Split(text, maxTokens)
  {
    hide Tokens, SplitFrom, Piece, StartOf, EndOf;
    var spans := TokenSpans(text);
    pieces := [];
    var i := 0;
    while i < |spans|
      invariant pieces + SplitFrom(text, maxTokens, i) == Split(text, maxTokens)
    {
      var j := Min(i + maxTokens, |spans|);
      SplitStep(text, maxTokens, i);
      StrippedPiece(text, i, j);
      var piece := Strip(text[spans[i].start..spans[j - 1].end]);
      if piece != [] {
        pieces := pieces + [piece];
      }
      i := i + maxTokens;
    }
    SplitStep(text, maxTokens, i);
    assert pieces + [] == pieces;
  }

  lemma StrippedPiece(t: Text, i: nat, j: nat)
    requires i < j <= Count(t)
    ensures Spans(t)[i].start <= Spans(t)[j - 1].end <= |t|
    ensures Strip(t[Spans(t)[i].start..Spans(t)[j - 1].end]) == Piece(t, i, j) != []
  {
    hide Tokens, Strip;
    PieceTokens(t, i, j);
  }
}
