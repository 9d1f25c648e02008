/** Segments: stretches of one source block, and the text that a list of them makes. */
module Segments {
  import opened Wrappers
  import opened Tokenization

  datatype BlockKind =
    | Heading | Paragraph | ListBlock | ListItem | Table | Code | Preformatted | OtherBlock

  datatype Segment = Segment(
    text: Text,
    kind: BlockKind,
    order: int,
    startPage: Option<int>,
    endPage: Option<int>,
    startOffset: Option<int>,
    endOffset: Option<int>,
    headingPath: seq<Text>)

  const SINGLE_SPACE: Text := [Space(32)]
  const NEWLINE: Text := [Space(10)]
  const PARAGRAPH_BREAK: Text := [Space(10), Space(10)]

  // ---------- joining texts ----------

  function JoinTexts(gap: Text, texts: seq<Text>): Text {
    if texts == [] then []
    else if |texts| == 1 then texts[0]
    else texts[0] + gap + JoinTexts(gap, texts[1..])
  }

  lemma {:induction false} JoinTextsTokens(gap: Text, texts: seq<Text>)
    requires gap != [] && AllSpace(gap)
    ensures Tokens(JoinTexts(gap, texts)) == AllTokens(texts)
  {
    if |texts| == 1 {
      assert texts[1..] == [];
    } else if |texts| > 1 {
      JoinTextsTokens(gap, texts[1..]);
      TokensJoin(texts[0], gap, JoinTexts(gap, texts[1..]));
    }
  }

  lemma {:induction false} AllTokensSnoc(texts: seq<Text>, t: Text)
    ensures AllTokens(texts + [t]) == AllTokens(texts) + Tokens(t)
  {
    AllTokensConcat(texts, [t]);
    AllTokensOne(t);
  }

  lemma AllTokensOne(t: Text)
    ensures AllTokens([t]) == Tokens(t)
  {
    assert [t][1..] == [];
    assert AllTokens([t]) == Tokens(t) + AllTokens([]);
  }

  // ---------- joining segments ----------

  function Separator(previous: Segment, current: Segment): Text {
    if previous.order == current.order then SINGLE_SPACE else PARAGRAPH_BREAK
  }

  function Joined(segments: seq<Segment>): Text {
    if segments == [] then []
    else if |segments| == 1 then segments[0].text
    else segments[0].text + Separator(segments[0], segments[1]) + Joined(segments[1..])
  }

  /** `_join_segments`. */
  function JoinSegments(segments: seq<Segment>): Text { Strip(Joined(segments)) }

  /** The token sequence that a list of segments carries. */
  function SegmentTokens(segments: seq<Segment>): seq<Text> {
    if segments == [] then [] else Tokens(segments[0].text) + SegmentTokens(segments[1..])
  }

  function Size(segments: seq<Segment>): nat { |SegmentTokens(segments)| }

  lemma {:induction false} JoinedTokens(segments: seq<Segment>)
    ensures Tokens(Joined(segments)) == SegmentTokens(segments)
  {
    if |segments| == 1 {
      assert segments[1..] == [];
    } else if |segments| > 1 {
      JoinedTokens(segments[1..]);
      TokensJoin(segments[0].text, Separator(segments[0], segments[1]), Joined(segments[1..]));
    }
  }

  /** However the parts are separated, the joined text has exactly the tokens of the parts. */
  lemma JoinSegmentsTokens(segments: seq<Segment>)
    ensures Tokens(JoinSegments(segments)) == SegmentTokens(segments)
  {
    JoinedTokens(segments);
    StripTokens(Joined(segments));
  }

  /** Between parts of one source block stands a space, between blocks a blank line. */
  lemma {:induction false} JoinedConcat(a: seq<Segment>, b: seq<Segment>)
    requires a != [] && b != []
    ensures Joined(a + b)
         == Joined(a) + (if a[|a| - 1].order == b[0].order then [Space(32)] else [Space(10), Space(10)]) + Joined(b)
  {
    if |a| == 1 {
      assert (a + b)[1..] == b;
    } else {
      JoinedConcat(a[1..], b);
      assert (a + b)[1..] == a[1..] + b;
    }
  }

  /** Text with something in it and no white space at either end. */
  predicate IsTrimmed(t: Text) { t != [] && !t[0].Space? && !t[|t| - 1].Space? }

  lemma {:induction false} JoinedIsTrimmed(segments: seq<Segment>)
    requires segments != [] && forall s <- segments :: IsTrimmed(s.text)
    ensures IsTrimmed(Joined(segments))
  {
    assert segments[0] in segments;
    if |segments| > 1 {
      assert forall s <- segments[1..] :: s in segments;
      JoinedIsTrimmed(segments[1..]);
    }
  }

  /** The text of a chunk: joining two lists of segments puts one space between parts of a block and a blank line
      between blocks, and nothing else. */
  lemma JoinSegmentsConcat(a: seq<Segment>, b: seq<Segment>)
    requires a != [] && b != [] && (forall s <- a :: IsTrimmed(s.text)) && (forall s <- b :: IsTrimmed(s.text))
    ensures JoinSegments(a + b)
         == JoinSegments(a) + (if a[|a| - 1].order == b[0].order then [Space(32)] else [Space(10), Space(10)]) + JoinSegments(b)
  {
    hide Joined, Strip;
    JoinedConcat(a, b);
    assert forall s <- a + b :: s in a || s in b;
    JoinedIsTrimmed(a);
    JoinedIsTrimmed(b);
    JoinedIsTrimmed(a + b);
    TrimmedStays(Joined(a));
    TrimmedStays(Joined(b));
    TrimmedStays(Joined(a + b));
  }

  lemma JoinSegmentsOne(s: Segment)
    requires IsTrimmed(s.text)
    ensures JoinSegments([s]) == s.text
  {
    hide Strip;
    TrimmedStays(s.text);
  }

  lemma TrimmedStays(t: Text)
    requires IsTrimmed(t)
    ensures Strip(t) == t
  {}

  lemma {:induction false} SegmentTokensConcat(a: seq<Segment>, b: seq<Segment>)
    ensures SegmentTokens(a + b) == SegmentTokens(a) + SegmentTokens(b)
  {
    if a == [] {
      assert a + b == b;
    } else {
      assert (a + b)[1..] == a[1..] + b;
      SegmentTokensConcat(a[1..], b);
    }
  }

  lemma NothingIsSmall()
    ensures SegmentTokens([]) == [] && Size([]) == 0
  {}

  lemma SegmentTokensOne(s: Segment)
    ensures SegmentTokens([s]) == Tokens(s.text)
  {
    assert [s][1..] == [];
    assert SegmentTokens([s]) == Tokens(s.text) + SegmentTokens([]);
  }

  lemma SegmentTokensSnoc(a: seq<Segment>, s: Segment)
    ensures SegmentTokens(a + [s]) == SegmentTokens(a) + Tokens(s.text)
    ensures Size(a + [s]) == Size(a) + Count(s.text)
  {
    SegmentTokensConcat(a, [s]);
    SegmentTokensOne(s);
  }

  lemma SegmentTokensCons(s: Segment, rest: seq<Segment>)
    ensures SegmentTokens([s] + rest) == Tokens(s.text) + SegmentTokens(rest)
    ensures Size([s] + rest) == Count(s.text) + Size(rest)
  {
    assert ([s] + rest)[1..] == rest;
  }

  lemma {:induction false} MemberSize(segments: seq<Segment>, s: Segment)
    requires s in segments
    ensures Count(s.text) <= Size(segments)
  {
    if segments[0] != s { MemberSize(segments[1..], s); }
  }

  // ---------- what parts of a segment share with it ----------

  /** `p` is a part of `s`: everything but the text and the offset values is the same. */
  predicate PartOf(p: Segment, s: Segment) {
    && p.kind == s.kind && p.order == s.order && p.headingPath == s.headingPath
    && p.startPage == s.startPage && p.endPage == s.endPage
    && p.startOffset.Some? == s.startOffset.Some?
  }

  /** Offsets are both known or both unknown, and span at least the text. */
  predicate OffsetsFit(s: Segment) {
    && s.startOffset.Some? == s.endOffset.Some?
    && (s.startOffset.Some? ==> 0 <= s.startOffset.value && s.startOffset.value + |s.text| <= s.endOffset.value)
  }
}
