/** Heading paths, the prefix they put before embedded text, and the room that they leave. */
module Headings {
  import opened Wrappers
  import opened Tokenization
  import opened Segments
  import opened SegmentSplitting

  datatype Config = Config(
    childMin: nat, childTarget: nat, childMax: nat, childOverlap: nat,
    parentTarget: nat, parentMax: nat)

  /** The checks of `HierarchicalChunkingConfig.__post_init__`. */
  predicate ValidConfig(c: Config) {
    && 0 < c.childMin <= c.childTarget <= c.childMax < c.parentTarget <= c.parentMax
    && c.childOverlap < c.childMin
  }

  const PATH_SEPARATOR: Text := [Space(32), Other(62), Space(32)]

  /** `_heading_path`: the first of the longest heading paths. */
  function HeadingPath(segments: seq<Segment>): seq<Text> {
    if segments == [] then []
    else
      var later := HeadingPath(segments[1..]);
      if |segments[0].headingPath| >= |later| then segments[0].headingPath else later
  }

  predicate OnePath(segments: seq<Segment>, path: seq<Text>) {
    forall s <- segments :: s.headingPath == path
  }

  lemma {:induction false} HeadingPathOfOne(segments: seq<Segment>, path: seq<Text>)
    requires segments != [] && OnePath(segments, path)
    ensures HeadingPath(segments) == path
  {
    assert segments[0] in segments;
    if |segments| > 1 {
      assert forall s <- segments[1..] :: s in segments;
      HeadingPathOfOne(segments[1..], path);
    } else {
      assert segments[1..] == [];
    }
  }

  /** The path of a group is the first one with the most parts. */
  lemma {:induction false} HeadingPathExactly(segments: seq<Segment>)
    ensures segments == [] ==> HeadingPath(segments) == []
    ensures segments != [] ==>
              exists k :: 0 <= k < |segments| && segments[k].headingPath == HeadingPath(segments)
                && (forall j :: 0 <= j < |segments| ==> |segments[j].headingPath| <= |segments[k].headingPath|)
                && forall j :: 0 <= j < k ==> |segments[j].headingPath| < |segments[k].headingPath|
  {
    if segments != [] {
      var rest := segments[1..];
      HeadingPathExactly(rest);
      if |segments[0].headingPath| < |HeadingPath(rest)| {
        var k :| 0 <= k < |rest| && rest[k].headingPath == HeadingPath(rest)
          && (forall j :: 0 <= j < |rest| ==> |rest[j].headingPath| <= |rest[k].headingPath|)
          && forall j :: 0 <= j < k ==> |rest[j].headingPath| < |rest[k].headingPath|;
        assert segments[k + 1] == rest[k];
        forall j | 0 <= j < |segments| ensures |segments[j].headingPath| <= |rest[k].headingPath| {
          if j > 0 { assert segments[j] == rest[j - 1]; }
        }
        forall j | 0 <= j < k + 1 ensures |segments[j].headingPath| < |rest[k].headingPath| {
          if j > 0 { assert segments[j] == rest[j - 1]; }
        }
      } else {
        forall j | 0 <= j < |segments| ensures |segments[j].headingPath| <= |segments[0].headingPath| {
          if j > 0 {
            assert segments[j] == rest[j - 1];
            assert rest != [];
          }
        }
      }
    }
  }

  /** `_bounded_heading_prefix`. */
  function HeadingPrefix(path: seq<Text>, childMax: nat): Text {
    var prefix := JoinTexts(PATH_SEPARATOR, path);
    if prefix == [] || Count(prefix) <= Max(1, childMax - 1) then prefix
    else Tail(prefix, Max(1, childMax - 1))
  }

  /** The prefix keeps the end of the path and leaves at least one token of the maximum free,
      unless the maximum is a single token. */
  lemma HeadingPrefixBound(path: seq<Text>, childMax: nat)
    ensures Count(HeadingPrefix(path, childMax)) <= Max(1, childMax - 1)
    ensures exists k: nat :: k <= Count(JoinTexts(PATH_SEPARATOR, path))
              && Tokens(HeadingPrefix(path, childMax)) == Tokens(JoinTexts(PATH_SEPARATOR, path))[k..]
  {
    hide Tokens, JoinTexts, Tail;
    var prefix := JoinTexts(PATH_SEPARATOR, path);
    var room := Max(1, childMax - 1);
    TailTokens(prefix, room);
    if HeadingPrefix(path, childMax) == prefix {
      assert Tokens(prefix) == Tokens(prefix)[0..];
    }
    EmptyHasNoTokens();
  }

  function PrefixTokens(path: seq<Text>, childMax: nat): nat {
    var prefix := HeadingPrefix(path, childMax);
    if prefix == [] then 0 else Count(prefix + PARAGRAPH_BREAK)
  }

  lemma PrefixTokensAre(path: seq<Text>, childMax: nat)
    ensures PrefixTokens(path, childMax) == Count(HeadingPrefix(path, childMax))
  {
    hide Tokens, HeadingPrefix;
    var prefix := HeadingPrefix(path, childMax);
    TokensJoin(prefix, PARAGRAPH_BREAK, []);
    EmptyHasNoTokens();
    assert prefix + PARAGRAPH_BREAK + [] == prefix + PARAGRAPH_BREAK;
  }

  /** The tokens of a child that its heading prefix leaves for content. */
  function ContentMax(path: seq<Text>, c: Config): (n: nat)
    ensures n >= 1
  {
    Max(1, c.childMax - PrefixTokens(path, c.childMax))
  }

  /** The text that is embedded for a child. */
  function Enriched(path: seq<Text>, childMax: nat, text: Text): Text {
    var prefix := HeadingPrefix(path, childMax);
    if prefix == [] then text else prefix + PARAGRAPH_BREAK + text
  }

  /** The embedded text of a child below two headings that fit: the headings with an angle bracket between them, a blank
      line, and the text of the child. */
  lemma EnrichedIs(outer: Text, inner: Text, childMax: nat, text: Text)
    requires Count(outer) + 1 + Count(inner) < childMax
    ensures Enriched([outer, inner], childMax, text)
         == outer + [Space(32), Other(62), Space(32)] + inner + [Space(10), Space(10)] + text
  {
    hide Tokens, Tail;
    var angle := [Other(62)];
    TokensJoin(angle, [Space(32)], inner);
    TokensJoin(outer, [Space(32)], angle + [Space(32)] + inner);
    OneToken(Other(62));
    var prefix := outer + [Space(32)] + (angle + [Space(32)] + inner);
    assert [outer, inner][1..] == [inner];
    assert JoinTexts(PATH_SEPARATOR, [inner]) == inner;
    assert JoinTexts(PATH_SEPARATOR, [outer, inner]) == prefix;
  }

  lemma EnrichedCount(path: seq<Text>, childMax: nat, text: Text)
    ensures Count(Enriched(path, childMax, text)) == PrefixTokens(path, childMax) + Count(text)
  {
    hide Tokens, HeadingPrefix, PrefixTokens;
    var prefix := HeadingPrefix(path, childMax);
    PrefixTokensAre(path, childMax);
    TokensJoin(prefix, PARAGRAPH_BREAK, text);
    EmptyHasNoTokens();
  }

  /** Prefix and content share the maximum; the one exception is a one-token maximum under a heading. */
  lemma EnrichedBound(path: seq<Text>, c: Config, text: Text)
    requires Count(text) <= ContentMax(path, c) && c.childMax > 0
    requires c.childMax >= 2 || PrefixTokens(path, c.childMax) == 0
    ensures Count(Enriched(path, c.childMax, text)) <= c.childMax
  {
    hide Tokens, HeadingPrefix, PrefixTokens, Enriched;
    EnrichedCount(path, c.childMax, text);
    PrefixTokensAre(path, c.childMax);
    HeadingPrefixBound(path, c.childMax);
  }

  function Marked(n: nat): Text { if n == 0 then [] else Marked(n - 1) + [Other(46)] }

  lemma {:induction false} MarkedCount(n: nat)
    ensures Count(Marked(n)) == n
  {
    hide Tokens;
    if n == 0 {
      EmptyHasNoTokens();
    } else {
      MarkedCount(n - 1);
      TokensConcat(Marked(n - 1), [Other(46)]);
      OneToken(Other(46));
    }
  }

  /** Whatever fits the room that one path leaves can be embedded under another. */
  ghost predicate LeavesEnough(room: seq<Text>, path: seq<Text>, c: Config) {
    forall text: Text :: Count(text) <= ContentMax(room, c) ==> Count(Enriched(path, c.childMax, text)) <= c.childMax
  }

  /** The room that one path leaves is enough under another exactly when the prefix of the other is not longer; with a
      maximum of one token, exactly when there is no prefix. */
  lemma LeavesEnoughExactly(room: seq<Text>, path: seq<Text>, c: Config)
    requires c.childMax > 0
    ensures LeavesEnough(room, path, c) <==>
              if c.childMax >= 2 then PrefixTokens(path, c.childMax) <= PrefixTokens(room, c.childMax)
              else PrefixTokens(path, c.childMax) == 0
  {
    hide Tokens, HeadingPrefix, PrefixTokens, Enriched, Marked;
    PrefixTokensAre(room, c.childMax);
    HeadingPrefixBound(room, c.childMax);
    var full := Marked(ContentMax(room, c));
    MarkedCount(ContentMax(room, c));
    EnrichedCount(path, c.childMax, full);
    if PrefixTokens(path, c.childMax) + ContentMax(room, c) <= c.childMax {
      forall text: Text | Count(text) <= ContentMax(room, c)
        ensures Count(Enriched(path, c.childMax, text)) <= c.childMax
      {
        EnrichedCount(path, c.childMax, text);
      }
    } else {
      assert Count(full) <= ContentMax(room, c) && Count(Enriched(path, c.childMax, full)) > c.childMax;
    }
  }

  /** With a maximum of one token, a heading with a token makes every embedded text too long. */
  lemma OneTokenMaximumOverflows(path: seq<Text>, c: Config, text: Text)
    requires c.childMax == 1 && Count(text) >= 1
    ensures Count(Enriched(path, 1, text)) > 1 <==> (PrefixTokens(path, 1) > 0 || Count(text) > 1)
  {
    hide Tokens, PrefixTokens, Enriched;
    EnrichedCount(path, 1, text);
  }

  // ---------- tables that leave room for their heading prefix ----------

  /** A table whose header and any row fit beside the heading prefix of its own path. */
  predicate PathSafe(s: Segment, c: Config) { Safe(s, ContentMax(s.headingPath, c)) }

  lemma SplitSegmentPathSafe(s: Segment, n: nat, c: Config)
    requires n > 0 && PathSafe(s, c)
    ensures forall p <- SplitSegment(s, n) :: PathSafe(p, c) && Count(p.text) <= Max(n, ContentMax(s.headingPath, c))
  {
    hide Tokens, SplitSegment, Safe, ContentMax;
    SplitSegmentParts(s, n);
    SplitSegmentSafe(s, n, ContentMax(s.headingPath, c));
  }
}
