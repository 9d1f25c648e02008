/** `_apply_overlap`: each child repeats the end of the base group before it, and the repetition can be erased. */
module ChildOverlap {
  import opened Wrappers
  import opened Tokenization
  import opened Segments
  import opened Splitting
  import opened Content
  import opened ChildPacking

  // ---------- the tail of a group ----------

  /** `str.rfind(piece)` among the positions up to `at`, with -1 for "not found". */
  function FindBack(t: Text, piece: Text, at: int): (r: int)
    ensures r >= 0 ==> r <= at && r + |piece| <= |t| && t[r..r + |piece|] == piece
    ensures r < 0 ==> r == -1
    decreases at
  {
    if at < 0 then -1
    else if at + |piece| <= |t| && t[at..at + |piece|] == piece then at
    else FindBack(t, piece, at - 1)
  }

  /** The end of one segment, as no or one segment. */
  function TailSegment(s: Segment, n: int): Group {
    var tail := Tail(s.text, n);
    var at := FindBack(s.text, tail, |s.text|);
    if tail == [] then []
    else [s.(text := tail, startOffset := if at >= 0 then Shift(s.startOffset, at) else s.startOffset)]
  }

  /** The last `n` tokens of a group, as segments. */
  function TailSegments(segments: seq<Segment>, n: int): Group
    decreases |segments|
  {
    if n <= 0 || segments == [] then []
    else
      var last := segments[|segments| - 1];
      if Count(last.text) <= n then TailSegments(segments[..|segments| - 1], n - Count(last.text)) + [last]
      else TailSegment(last, n)
  }

  /** The last `n` elements, or all of them. */
  function Last(ts: seq<Text>, n: int): seq<Text> { ts[|ts| - Max(0, Min(n, |ts|))..] }

  lemma TailSegmentTokens(s: Segment, n: int)
    requires 0 < n < Count(s.text)
    ensures SegmentTokens(TailSegment(s, n)) == Last(Tokens(s.text), n)
  {
    hide Tokens, Tail, SegmentTokens;
    TailTokens(s.text, n);
    var tail := Tail(s.text, n);
    if tail == [] { EmptyHasNoTokens(); }
    SegmentTokensOne(s.(text := tail, startOffset := TailSegment(s, n)[0].startOffset));
  }

  /** The tail carries exactly the last tokens of the group, as many as asked for or all of them. */
  lemma {:induction false} TailSegmentsTokens(segments: seq<Segment>, n: int)
    ensures SegmentTokens(TailSegments(segments, n)) == Last(SegmentTokens(segments), n)
    decreases |segments|
  {
    hide Tokens, TailSegment, SegmentTokens;
    assert SegmentTokens([]) == [] by { NothingIsSmall(); }
    if n > 0 && segments != [] {
      var last, init := segments[|segments| - 1], segments[..|segments| - 1];
      assert segments == init + [last];
      SegmentTokensSnoc(init, last);
      if Count(last.text) <= n {
        TailSegmentsTokens(init, n - Count(last.text));
        SegmentTokensSnoc(TailSegments(init, n - Count(last.text)), last);
      } else {
        TailSegmentTokens(last, n);
      }
    }
  }

  lemma {:induction false} TailSegmentsSources(segments: seq<Segment>, n: int, source: seq<Segment>, pageCount: Option<int>)
    requires Kept(segments, source, pageCount)
    ensures Kept(TailSegments(segments, n), source, pageCount)
    decreases |segments|
  {
    hide Tokens, Tail;
    if n > 0 && segments != [] {
      var last, init := segments[|segments| - 1], segments[..|segments| - 1];
      assert segments == init + [last];
      assert From(last, source) && Sound(last, pageCount);
      if Count(last.text) <= n {
        TailSegmentsSources(init, n - Count(last.text), source, pageCount);
      } else if Tail(last.text, n) != [] {
        TailNoLonger(last.text, n);
        PartsFrom(TailSegment(last, n), last, source);
      }
    }
  }

  lemma TailNoLonger(t: Text, n: int)
    ensures |Tail(t, n)| <= |t|
  {
    hide Tokens;
  }

  // ---------- the overlap of one child ----------

  predicate TableOrCode(g: Group) { forall s <- g :: s.kind in {Table, Code} }

  /** The overlap that is asked for: no more than what the group leaves free. */
  function Wanted(group: Group, overlap: int, max: nat): int {
    Min(overlap, Max(0, max - Count(JoinSegments(group))))
  }

  /** The loop that takes tokens off the overlap while prefix and group together are too large. */
  function Shrunk(previous: Group, group: Group, available: int, max: nat): int
    decreases available
  {
    var prefix := TailSegments(previous, available);
    if prefix != [] && Count(JoinSegments(prefix + group)) > max then Shrunk(previous, group, available - 1, max)
    else available
  }

  function OverlapPrefix(previous: Group, group: Group, overlap: int, max: nat): Group {
    if TableOrCode(group) then []
    else TailSegments(previous, Shrunk(previous, group, Wanted(group, overlap, max), max))
  }

  function ChildAt(groups: seq<Group>, overlap: int, max: nat, i: nat): Group
    requires i < |groups|
  {
    if overlap <= 0 || i == 0 then groups[i]
    else OverlapPrefix(groups[i - 1], groups[i], overlap, max) + groups[i]
  }

  /** `_apply_overlap`. */
  function Overlapped(groups: seq<Group>, overlap: int, max: nat): (children: seq<Group>)
    ensures |children| == |groups|
  {
    seq(|groups|, i requires 0 <= i < |groups| => ChildAt(groups, overlap, max, i))
  }

  /** The shrinking loop never takes a turn. */
  lemma NeverShrinks(previous: Group, group: Group, overlap: int, max: nat)
    ensures Shrunk(previous, group, Wanted(group, overlap, max), max) == Wanted(group, overlap, max)
  {
    hide Tokens, JoinSegments, SegmentTokens;
    var available := Wanted(group, overlap, max);
    var prefix := TailSegments(previous, available);
    JoinSegmentsTokens(group);
    JoinSegmentsTokens(prefix + group);
    SegmentTokensConcat(prefix, group);
    TailSegmentsTokens(previous, available);
  }

  // ---------- all children ----------

  /** How many tokens child `i` repeats. */
  function OverlapLength(groups: seq<Group>, overlap: int, max: nat, i: nat): nat
    requires i < |groups|
  {
    if overlap <= 0 || i == 0 || TableOrCode(groups[i]) then 0
    else Max(0, Min(Min(overlap, max - Size(groups[i])), Size(groups[i - 1])))
  }

  /** A child is the last tokens of the base group before it, followed by its own base group. */
  lemma ChildTokens(groups: seq<Group>, overlap: int, max: nat, i: nat)
    requires i < |groups|
    ensures var k := OverlapLength(groups, overlap, max, i);
            && (i > 0 ==> k <= Size(groups[i - 1]))
            && SegmentTokens(Overlapped(groups, overlap, max)[i])
               == (if i == 0 then [] else Last(SegmentTokens(groups[i - 1]), k)) + SegmentTokens(groups[i])
            && Size(Overlapped(groups, overlap, max)[i]) == k + Size(groups[i])
  {
    hide Tokens, JoinSegments, SegmentTokens, TailSegments, Shrunk, Last;
    if overlap > 0 && i > 0 && !TableOrCode(groups[i]) {
      NeverShrinks(groups[i - 1], groups[i], overlap, max);
      PrefixedTokens(groups[i - 1], groups[i], overlap, max);
      JoinSegmentsTokens(groups[i]);
    } else if i > 0 {
      NothingIsSmall();
      NothingLast(SegmentTokens(groups[i - 1]));
      assert [] + groups[i] == groups[i];
    }
    assert [] + SegmentTokens(groups[i]) == SegmentTokens(groups[i]);
  }

  lemma NothingLast(ts: seq<Text>)
    ensures Last(ts, 0) == []
  {}

  lemma PrefixedTokens(previous: Group, group: Group, overlap: int, max: nat)
    ensures var n := Wanted(group, overlap, max);
            var k := Max(0, Min(n, Size(previous)));
            && SegmentTokens(TailSegments(previous, n) + group) == Last(SegmentTokens(previous), k) + SegmentTokens(group)
            && Size(TailSegments(previous, n) + group) == k + Size(group)
  {
    hide Tokens, JoinSegments, SegmentTokens, TailSegments, Wanted;
    var n := Wanted(group, overlap, max);
    TailSegmentsTokens(previous, n);
    SegmentTokensConcat(TailSegments(previous, n), group);
  }

  /** Overlap never pushes a child over the maximum. */
  lemma ChildrenWithinMax(groups: seq<Group>, overlap: int, max: nat)
    requires forall g <- groups :: Size(g) <= max
    ensures forall g <- Overlapped(groups, overlap, max) :: Count(JoinSegments(g)) == Size(g) <= max
  {
    hide Tokens, JoinSegments, SegmentTokens, Overlapped;
    var children := Overlapped(groups, overlap, max);
    forall g | g in children ensures Count(JoinSegments(g)) == Size(g) <= max {
      var i :| 0 <= i < |children| && children[i] == g;
      ChildTokens(groups, overlap, max, i);
      assert groups[i] in groups;
      JoinSegmentsTokens(g);
    }
  }

  /** The children from `i` on, each without the tokens that it repeats. */
  function Erased(children: seq<Group>, groups: seq<Group>, overlap: int, max: nat, i: nat): seq<Text>
    requires i <= |children| == |groups|
    decreases |children| - i
  {
    if i == |children| then []
    else
      var tokens := SegmentTokens(children[i]);
      tokens[Min(OverlapLength(groups, overlap, max, i), |tokens|)..] + Erased(children, groups, overlap, max, i + 1)
  }

  lemma {:induction false} ErasedFrom(groups: seq<Group>, overlap: int, max: nat, i: nat)
    requires i <= |groups|
    ensures Erased(Overlapped(groups, overlap, max), groups, overlap, max, i) == SegmentTokens(Flat(groups[i..]))
    decreases |groups| - i
  {
    hide Tokens, Overlapped, OverlapLength, SegmentTokens;
    var children := Overlapped(groups, overlap, max);
    if i < |groups| {
      ErasedFrom(groups, overlap, max, i + 1);
      ChildTokens(groups, overlap, max, i);
      assert groups[i..] == [groups[i]] + groups[i + 1..];
      assert groups[i..][1..] == groups[i + 1..];
      SegmentTokensConcat(groups[i], Flat(groups[i + 1..]));
      var k := OverlapLength(groups, overlap, max, i);
      var own := SegmentTokens(groups[i]);
      assert SegmentTokens(children[i])[k..] == own;
    } else {
      NothingIsSmall();
      assert groups[i..] == [];
    }
  }

  /** Erasing the repeated tokens of every child gives the token sequence of the base groups back. */
  lemma OverlapIsErasable(groups: seq<Group>, overlap: int, max: nat)
    ensures Erased(Overlapped(groups, overlap, max), groups, overlap, max, 0) == SegmentTokens(Flat(groups))
  {
    ErasedFrom(groups, overlap, max, 0);
    assert groups[0..] == groups;
  }

  /** A child draws on all the source blocks of its own base group. */
  lemma ChildOrders(groups: seq<Group>, overlap: int, max: nat, i: nat)
    requires i < |groups|
    ensures Orders(groups[i]) <= Orders(Overlapped(groups, overlap, max)[i])
    ensures groups[i] != [] ==> Overlapped(groups, overlap, max)[i] != []
  {
    hide TailSegments, Tokens, JoinSegments, Orders, OverlapPrefix;
    if overlap > 0 && i > 0 {
      OrdersConcat(OverlapPrefix(groups[i - 1], groups[i], overlap, max), groups[i]);
    }
  }

  /** A child is made of the same sources as the base groups. */
  lemma ChildSources(groups: seq<Group>, overlap: int, max: nat, source: seq<Segment>, pageCount: Option<int>, i: nat)
    requires Kept(Flat(groups), source, pageCount) && i < |groups|
    ensures Kept(Overlapped(groups, overlap, max)[i], source, pageCount)
  {
    hide TailSegments, Kept, Tokens, JoinSegments, Flat, Shrunk, Wanted;
    MemberKept(groups, source, pageCount, i);
    if overlap > 0 && i > 0 && !TableOrCode(groups[i]) {
      var n := Shrunk(groups[i - 1], groups[i], Wanted(groups[i], overlap, max), max);
      MemberKept(groups, source, pageCount, i - 1);
      TailSegmentsSources(groups[i - 1], n, source, pageCount);
      KeptConcat(TailSegments(groups[i - 1], n), groups[i], source, pageCount);
    } else if overlap > 0 && i > 0 {
      assert [] + groups[i] == groups[i];
    }
  }

  lemma MemberKept(groups: seq<Group>, source: seq<Segment>, pageCount: Option<int>, i: nat)
    requires Kept(Flat(groups), source, pageCount) && i < |groups|
    ensures Kept(groups[i], source, pageCount)
  {
    hide Flat, Sound, From;
    forall s | s in groups[i] ensures s in Flat(groups) {
      FlatMembers(groups, s);
      assert groups[i] in groups;
    }
  }

  lemma KeptConcat(a: seq<Segment>, b: seq<Segment>, source: seq<Segment>, pageCount: Option<int>)
    requires Kept(a, source, pageCount) && Kept(b, source, pageCount)
    ensures Kept(a + b, source, pageCount)
  {
    hide Sound, From;
  }

  // ---------- the loops of the source ----------

  lemma {:induction false} TailSegmentsConcat(rest: seq<Segment>, s: Segment, n: int)
    requires n > 0
    ensures TailSegments(rest + [s], n) ==
            if Count(s.text) <= n then TailSegments(rest, n - Count(s.text)) + [s] else TailSegment(s, n)
  {
    hide Tokens;
    assert (rest + [s])[..|rest|] == rest;
  }

  /** `_tail_segments`. */
  method CollectTail(segments: seq<Segment>, maxTokens: int) returns (selected: Group)
    ensures selected == TailSegments(segments, maxTokens)
  {
    hide Tokens, Tail, FindBack;
    if maxTokens <= 0 {
      return [];
    }
    selected := [];
    var remaining := maxTokens;
    var i := |segments|;
    assert segments[..i] == segments;
    while i > 0 && remaining > 0
      invariant 0 <= i <= |segments|
      invariant TailSegments(segments[..i], remaining) + selected == TailSegments(segments, maxTokens)
    {
      i := i - 1;
      var segment := segments[i];
      assert segments[..i + 1] == segments[..i] + [segment];
      TailSegmentsConcat(segments[..i], segment, remaining);
      if Count(segment.text) <= remaining {
        Regrouped(TailSegments(segments[..i], remaining - Count(segment.text)), segment, selected);
        selected := [segment] + selected;
        remaining := remaining - Count(segment.text);
      } else {
        var tail := Tail(segment.text, remaining);
        if tail != [] {
          var relativeStart := FindBack(segment.text, tail, |segment.text|);
          var startOffset := if segment.startOffset.Some? && relativeStart >= 0
                             then Some(segment.startOffset.value + relativeStart) else segment.startOffset;
          selected := [segment.(text := tail, startOffset := startOffset)] + selected;
        }
        remaining := 0;
      }
    }
  }

  lemma Regrouped(front: Group, s: Segment, rest: Group)
    ensures (front + [s]) + rest == front + ([s] + rest)
  {}

  /** The shrinking loop of `_apply_overlap`. */
  method ShrinkPrefix(previous: Group, group: Group, wanted: int, max: nat) returns (prefix: Group)
    ensures prefix == TailSegments(previous, Shrunk(previous, group, wanted, max))
  {
    hide Tokens, JoinSegments, TailSegments;
    var available := wanted;
    prefix := CollectTail(previous, available);
    while prefix != [] && Count(JoinSegments(prefix + group)) > max
      invariant prefix == TailSegments(previous, available)
      invariant Shrunk(previous, group, available, max) == Shrunk(previous, group, wanted, max)
      decreases available, |prefix|
    {
      NothingToTake(previous, available);
      available := available - 1;
      prefix := CollectTail(previous, available);
    }
  }

  /** `_apply_overlap`. */
  method ApplyOverlap(groups: seq<Group>, overlap: int, max: nat) returns (overlapped: seq<Group>)
    ensures overlapped == Overlapped(groups, overlap, max)
  {
    hide Tokens, JoinSegments, TailSegments, Shrunk;
    if overlap <= 0 {
      return groups;
    }
    overlapped := [];
    for index := 0 to |groups|
      invariant |overlapped| == index
      invariant forall k :: 0 <= k < index ==> overlapped[k] == ChildAt(groups, overlap, max, k)
    {
      var group := groups[index];
      if index == 0 {
        overlapped := overlapped + [group];
      } else if TableOrCode(group) {
        overlapped := overlapped + [group];
        assert [] + group == group;
      } else {
        var groupTokens := Count(JoinSegments(group));
        var available := Min(overlap, Max(0, max - groupTokens));
        var prefix := ShrinkPrefix(groups[index - 1], group, available, max);
        overlapped := overlapped + [prefix + group];
      }
      assert overlapped[index] == ChildAt(groups, overlap, max, index);
    }
  }

  lemma NothingToTake(segments: seq<Segment>, n: int)
    ensures n <= 0 ==> TailSegments(segments, n) == []
  {}

  /** How many tokens a child repeats: none without overlap, for the first child, and for a child of tables and code only;
      otherwise the overlap, as far as the room above the base group and the group before it allow. */
  lemma OverlapExactly(groups: seq<Group>, overlap: int, max: nat, i: nat)
    requires i < |groups|
    ensures var k := Size(Overlapped(groups, overlap, max)[i]) - Size(groups[i]);
            if overlap <= 0 || i == 0 || (forall s <- groups[i] :: s.kind == Table || s.kind == Code) then k == 0
            else && 0 <= k <= overlap && k <= Size(groups[i - 1]) && (k > 0 ==> Size(groups[i]) + k <= max)
                 && (k == overlap || k == Size(groups[i - 1]) || Size(groups[i]) + k >= max)
  {
    hide Tokens, JoinSegments, SegmentTokens, Overlapped;
    ChildTokens(groups, overlap, max, i);
  }

  // ---------- where a tail stands ----------

  lemma {:induction false} FindBackIsLast(t: Text, piece: Text, at: int, q: int)
    requires FindBack(t, piece, at) < q <= at && 0 <= q && q + |piece| <= |t|
    ensures t[q..q + |piece|] != piece
    decreases at
  {
    if q < at { FindBackIsLast(t, piece, at - 1, q); }
  }

  lemma {:induction false} FindBackReaches(t: Text, piece: Text, at: int, q: int)
    requires 0 <= q <= at && q + |piece| <= |t| && t[q..q + |piece|] == piece
    ensures FindBack(t, piece, at) >= q
    decreases at
  {
    if q < at { FindBackReaches(t, piece, at - 1, q); }
  }

  lemma {:induction false} OnlySpaceIsStripped(u: Text)
    ensures |RStrip(u)| <= |u| && RStrip(u) == u[..|RStrip(u)|] && AllSpaceIn(u, |RStrip(u)|, |u|)
  {
    if u != [] && u[|u| - 1].Space? {
      var init := u[..|u| - 1];
      OnlySpaceIsStripped(init);
      assert init[..|RStrip(init)|] == u[..|RStrip(init)|];
      forall k | |RStrip(u)| <= k < |u| ensures u[k].Space? { if k < |u| - 1 { assert u[k] == init[k]; } }
    }
  }

  lemma EndOfSlice(t: Text, a: nat, m: nat)
    requires 0 < m && a + m <= |t|
    ensures |t[a..a + m]| == m && t[a..a + m][m - 1] == t[a + m - 1]
  {}

  lemma LastPlace(t: Text, a: nat, m: nat)
    requires 0 < m && a + m <= |t| && !t[a + m - 1].Space? && AllSpaceIn(t, a + m, |t|)
    ensures FindBack(t, t[a..a + m], |t|) == a
  {
    hide FindBack;
    var piece := t[a..a + m];
    FindBackReaches(t, piece, |t|, a);
    var r := FindBack(t, piece, |t|);
    EndOfSlice(t, a, m);
    EndOfSlice(t, r, m);
  }

  lemma NotAllSpace(u: Text, m: nat)
    requires m <= |u| && u != [] && !u[0].Space? && AllSpaceIn(u, m, |u|)
    ensures m > 0
  {}

  /** What stripping leaves of a text that starts with a token. */
  lemma StrippedEnd(u: Text)
    requires u != [] && !u[0].Space?
    ensures var m := |Strip(u)|;
            0 < m <= |u| && Strip(u) == u[..m] && !u[m - 1].Space? && AllSpaceIn(u, m, |u|)
  {
    hide RStrip;
    assert LStrip(u) == u;
    OnlySpaceIsStripped(u);
    NotAllSpace(u, |RStrip(u)|);
  }

  lemma TailIs(s: Segment, n: nat, tail: Text, at: nat)
    requires tail != [] && tail == Tail(s.text, n) && FindBack(s.text, tail, |s.text|) == at
    ensures TailSegment(s, n) == [s.(text := tail, startOffset := Shift(s.startOffset, at))]
  {
    hide Tail, FindBack;
  }

  lemma TailText(t: Text, n: nat)
    requires 0 < n < Count(t)
    ensures Tail(t, n) == Strip(t[StartOf(t, Count(t) - n)..]) && !t[StartOf(t, Count(t) - n)].Space?
  {
    SpanBounds(t, 0, |t|, Count(t) - n);
    hide SpansIn, Strip;
  }

  /** A segment of which only the last tokens are repeated starts exactly at the first of them, whatever looks the same
      elsewhere in its text. */
  lemma TailStandsExactly(s: Segment, n: nat)
    requires 0 < n < Count(s.text)
    ensures var start := StartOf(s.text, Count(s.text) - n);
            TailSegment(s, n) == [s.(text := Strip(s.text[start..]), startOffset := Shift(s.startOffset, start))]
  {
    hide Tokens, FindBack, Strip, StartOf, Tail, TailSegment;
    var t := s.text;
    var a := StartOf(t, Count(t) - n);
    TailText(t, n);
    var u := t[a..];
    assert u[0] == t[a];
    StrippedEnd(u);
    var m := |Strip(u)|;
    SpaceBehind(t, a, m);
    LastPlace(t, a, m);
    TailIs(s, n, Strip(u), a);
  }

  lemma SpaceBehind(t: Text, a: nat, m: nat)
    requires a <= |t| && 0 < m <= |t[a..]| && !t[a..][m - 1].Space? && AllSpaceIn(t[a..], m, |t[a..]|)
    ensures a + m <= |t| && t[a..][..m] == t[a..a + m] && !t[a + m - 1].Space? && AllSpaceIn(t, a + m, |t|)
  {
    forall k | a + m <= k < |t| ensures t[k].Space? { assert t[a..][k - a] == t[k]; }
  }
}
