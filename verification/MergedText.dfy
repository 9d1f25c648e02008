/** Merging the texts of two neighbouring passages that may repeat words at the joint. */
module MergedText {
  import opened Wrappers
  import opened Tokenization
  import opened Segments

  type Words = seq<Text>

  const MAX_OVERLAP := 256

  // ---------- words ----------

  /** The end of the run of non-space characters from `at`. */
  function WordEnd(t: Text, at: nat): (e: nat)
    requires at <= |t|
    ensures at <= e <= |t| && (e == |t| || t[e].Space?)
    ensures at < |t| && !t[at].Space? ==> at < e
    decreases |t| - at
  {
    if at == |t| || t[at].Space? then at else WordEnd(t, at + 1)
  }

  function WordsFrom(t: Text, lo: nat): Words
    requires lo <= |t|
    decreases |t| - lo
  {
    if lo == |t| then []
    else if t[lo].Space? then WordsFrom(t, lo + 1)
    else [t[lo..WordEnd(t, lo)]] + WordsFrom(t, WordEnd(t, lo))
  }

  lemma WordsStep(t: Text, lo: nat)
    requires lo < |t|
    ensures WordsFrom(t, lo)
         == if t[lo].Space? then WordsFrom(t, lo + 1) else [t[lo..WordEnd(t, lo)]] + WordsFrom(t, WordEnd(t, lo))
  {
    hide WordEnd;
  }

  lemma NoWords(t: Text)
    ensures WordsFrom(t, |t|) == []
  {}

  /** The maximal runs of non-space characters. */
  function WordsOf(t: Text): Words { WordsFrom(t, 0) }

  /** Where the `k`-th word after `lo` ends. */
  function EndOfWord(t: Text, lo: nat, k: nat): (e: nat)
    requires lo <= |t| && k <= |WordsFrom(t, lo)|
    ensures lo <= e <= |t| && (k > 0 ==> e == |t| || t[e].Space?)
    decreases |t| - lo
  {
    if k == 0 || lo == |t| then lo
    else if t[lo].Space? then EndOfWord(t, lo + 1, k)
    else if k == 1 then WordEnd(t, lo)
    else EndOfWord(t, WordEnd(t, lo), k - 1)
  }

  // ---------- merging ----------

  /** The last `size` words of the left are the first `size` words of the right. */
  predicate Overlaps(left: Words, right: Words, size: nat)
    requires size <= |left| && size <= |right|
  {
    left[|left| - size..] == right[..size]
  }

  /** The greatest overlap of at most `size` words. */
  function OverlapUpTo(left: Words, right: Words, size: nat): (n: nat)
    requires size <= |left| && size <= |right|
    ensures n <= size && Overlaps(left, right, n)
    ensures forall m :: n < m <= size ==> !Overlaps(left, right, m)
  {
    if size == 0 then 0
    else if Overlaps(left, right, size) then size
    else OverlapUpTo(left, right, size - 1)
  }

  function Overlap(left: Words, right: Words): (n: nat)
    ensures n <= |left| && n <= |right| && n <= MAX_OVERLAP && Overlaps(left, right, n)
    ensures forall m :: n < m <= Min(Min(|left|, |right|), MAX_OVERLAP) ==> !Overlaps(left, right, m)
  {
    OverlapUpTo(left, right, Min(Min(|left|, |right|), MAX_OVERLAP))
  }

  /** `_merge_text`. */
  function MergeText(left: Text, right: Text): Text {
    var n := Overlap(WordsOf(left), WordsOf(right));
    if n == 0 then left + PARAGRAPH_BREAK + right
    else
      var rest := LStrip(right[EndOfWord(right, 0, n)..]);
      if rest == [] then left else left + SINGLE_SPACE + rest
  }

  method MergeTexts(left: Text, right: Text) returns (merged: Text)
    ensures merged == MergeText(left, right)
  {
    var leftWords, rightWords := WordsOf(left), WordsOf(right);
    var overlap := 0;
    var size := Min(Min(|leftWords|, |rightWords|), MAX_OVERLAP);
    while size > 0
      invariant 0 <= size <= |leftWords| && size <= |rightWords|
      invariant overlap == 0 && Overlap(leftWords, rightWords) == OverlapUpTo(leftWords, rightWords, size)
    {
      if leftWords[|leftWords| - size..] == rightWords[..size] {
        overlap := size;
        break;
      }
      size := size - 1;
    }
    if overlap == 0 { return left + PARAGRAPH_BREAK + right; }
    var rest := LStrip(right[EndOfWord(right, 0, overlap)..]);
    if rest == [] { return left; }
    return left + SINGLE_SPACE + rest;
  }

  // ---------- the words of a concatenation ----------

  lemma {:induction false} WordEndBefore(a: Text, b: Text, at: nat)
    requires at <= |a| && (b == [] || b[0].Space?)
    ensures WordEnd(a + b, at) == WordEnd(a, at)
    decreases |a| - at
  {
    if at < |a| && !a[at].Space? { WordEndBefore(a, b, at + 1); }
  }

  lemma {:induction false} WordEndAfter(a: Text, b: Text, at: nat)
    requires at <= |b|
    ensures WordEnd(a + b, |a| + at) == |a| + WordEnd(b, at)
    decreases |b| - at
  {
    if at < |b| && !b[at].Space? { WordEndAfter(a, b, at + 1); }
  }

  lemma {:induction false} WordsAfter(a: Text, b: Text, lo: nat)
    requires lo <= |b|
    ensures WordsFrom(a + b, |a| + lo) == WordsFrom(b, lo)
    decreases |b| - lo
  {
    hide WordsFrom, WordEnd;
    var t := a + b;
    if lo == |b| {
      NoWords(b);
      NoWords(t);
    } else {
      WordsStep(b, lo);
      WordsStep(t, |a| + lo);
      assert t[|a| + lo] == b[lo];
      if b[lo].Space? {
        WordsAfter(a, b, lo + 1);
      } else {
        var e := WordEnd(b, lo);
        WordEndAfter(a, b, lo);
        WordsAfter(a, b, e);
        assert t[|a| + lo..|a| + e] == b[lo..e];
      }
    }
  }

  lemma {:induction false} WordsBefore(a: Text, b: Text, lo: nat)
    requires lo <= |a| && (b == [] || b[0].Space?)
    ensures WordsFrom(a + b, lo) == WordsFrom(a, lo) + WordsOf(b)
    decreases |a| - lo
  {
    hide WordsFrom, WordEnd;
    var t := a + b;
    if lo == |a| {
      NoWords(a);
      WordsAfter(a, b, 0);
      assert [] + WordsOf(b) == WordsOf(b);
    } else {
      WordsStep(a, lo);
      WordsStep(t, lo);
      assert t[lo] == a[lo];
      if a[lo].Space? {
        WordsBefore(a, b, lo + 1);
      } else {
        var e := WordEnd(a, lo);
        WordEndBefore(a, b, lo);
        WordsBefore(a, b, e);
        assert t[lo..e] == a[lo..e];
        Regroup([a[lo..e]], WordsFrom(a, e), WordsOf(b));
      }
    }
  }

  lemma {:induction false} WordsAfterSpace(gap: Text, b: Text)
    requires AllSpace(gap)
    ensures WordsOf(gap + b) == WordsOf(b)
  {
    if gap == [] {
      assert gap + b == b;
    } else {
      assert gap + b == [gap[0]] + (gap[1..] + b);
      WordsAfter([gap[0]], gap[1..] + b, 0);
      WordsAfterSpace(gap[1..], b);
    }
  }

  lemma {:induction false} WordsOfStripped(t: Text)
    ensures WordsOf(LStrip(t)) == WordsOf(t)
  {
    if t != [] && t[0].Space? {
      WordsOfStripped(t[1..]);
      assert t == [t[0]] + t[1..];
      WordsAfter([t[0]], t[1..], 0);
    }
  }

  lemma {:induction false} WordsPast(t: Text, lo: nat, k: nat)
    requires lo <= |t| && k <= |WordsFrom(t, lo)|
    ensures WordsFrom(t, EndOfWord(t, lo, k)) == WordsFrom(t, lo)[k..]
    decreases |t| - lo
  {
    if k > 0 && lo < |t| {
      if t[lo].Space? {
        WordsPast(t, lo + 1, k);
      } else if k > 1 {
        WordsPast(t, WordEnd(t, lo), k - 1);
      }
    }
  }

  lemma RestOfWords(t: Text, k: nat)
    requires k <= |WordsOf(t)|
    ensures WordsOf(LStrip(t[EndOfWord(t, 0, k)..])) == WordsOf(t)[k..]
  {
    var e := EndOfWord(t, 0, k);
    WordsPast(t, 0, k);
    WordsAfter(t[..e], t[e..], 0);
    assert t == t[..e] + t[e..];
    WordsOfStripped(t[e..]);
  }

  /** A merged text has the words of the left and then those of the right, without the longest run of up to 256
      words that ends the left and begins the right. */
  lemma MergedWords(left: Text, right: Text)
    ensures WordsOf(MergeText(left, right))
              == WordsOf(left) + WordsOf(right)[Overlap(WordsOf(left), WordsOf(right))..]
  {
    hide WordsFrom, Overlaps, EndOfWord, Overlap;
    var n := Overlap(WordsOf(left), WordsOf(right));
    if n == 0 {
      JoinedWords(left, PARAGRAPH_BREAK, right);
      assert WordsOf(right)[0..] == WordsOf(right);
    } else {
      RestOfWords(right, n);
      var rest := LStrip(right[EndOfWord(right, 0, n)..]);
      if rest == [] {
        EmptyWords();
        assert WordsOf(left) + [] == WordsOf(left);
      } else {
        JoinedWords(left, SINGLE_SPACE, rest);
      }
    }
  }

  lemma EmptyWords()
    ensures WordsOf([]) == []
  {}

  lemma JoinedWords(left: Text, gap: Text, right: Text)
    requires gap != [] && AllSpace(gap)
    ensures WordsOf(left + gap + right) == WordsOf(left) + WordsOf(right)
  {
    hide WordsFrom;
    assert left + gap + right == left + (gap + right);
    WordsBefore(left, gap + right, 0);
    WordsAfterSpace(gap, right);
  }

  // ---------- the size of a merged text ----------

  /** Merging keeps all tokens of the left side, and never has more than both sides together. */
  lemma MergedCount(left: Text, right: Text)
    ensures Count(left) <= Count(MergeText(left, right)) <= Count(left) + Count(right)
  {
    hide Tokens;
    var n := Overlap(WordsOf(left), WordsOf(right));
    if n == 0 {
      TokensJoin(left, PARAGRAPH_BREAK, right);
    } else {
      var e := EndOfWord(right, 0, n);
      var rest := LStrip(right[e..]);
      LStripTokens(right[e..]);
      assert right == right[..e] + right[e..];
      TokensConcat(right[..e], right[e..]);
      TokensJoin(left, SINGLE_SPACE, rest);
    }
  }

  /** The words of a merged text when the last `n` words of the left, up to 256, are the first of the right, and no longer
      run is. */
  lemma MergedWordsExactly(left: Text, right: Text, n: nat)
    requires var a, b := WordsOf(left), WordsOf(right);
             && n <= |a| && n <= |b| && n <= 256 && a[|a| - n..] == b[..n]
             && forall m :: n < m <= |a| && m <= |b| && m <= 256 ==> a[|a| - m..] != b[..m]
    ensures WordsOf(MergeText(left, right)) == WordsOf(left) + WordsOf(right)[n..]
  {
    hide WordsFrom, MergeText;
    var a, b := WordsOf(left), WordsOf(right);
    MergedWords(left, right);
    var k := Overlap(a, b);
    assert Overlaps(a, b, n) && Overlaps(a, b, k);
  }

  lemma ShiftedSlice(t: Text, a: nat)
    requires a <= |t|
    ensures exists b: nat :: a <= b <= |t| && LStrip(t[a..]) == t[b..] && AllSpaceIn(t, a, b)
    decreases |t| - a
  {
    if a < |t| && t[a].Space? {
      assert t[a..][1..] == t[a + 1..];
      ShiftedSlice(t, a + 1);
      var b: nat :| a + 1 <= b <= |t| && LStrip(t[a + 1..]) == t[b..] && AllSpaceIn(t, a + 1, b);
      assert AllSpaceIn(t, a, b);
    } else {
      assert AllSpaceIn(t, a, a);
    }
  }

  /** A merged text is the left, a blank line and the right when they share no words at the joint; otherwise the left
      alone, or the left, one space, and what follows the shared words in the right. */
  lemma MergedTextIs(left: Text, right: Text)
    ensures var merged := MergeText(left, right);
            if Overlap(WordsOf(left), WordsOf(right)) == 0
            then merged == left + [Space(10), Space(10)] + right
            else merged == left
                 || exists b: nat :: b < |right| && !right[b].Space? && merged == left + [Space(32)] + right[b..]
  {
    hide Overlap, WordsFrom, EndOfWord;
    var n := Overlap(WordsOf(left), WordsOf(right));
    if n > 0 {
      var a := EndOfWord(right, 0, n);
      ShiftedSlice(right, a);
      var rest := LStrip(right[a..]);
      var b: nat :| a <= b <= |right| && rest == right[b..] && AllSpaceIn(right, a, b);
      if rest != [] { assert rest[0] == right[b]; }
    }
  }
}
