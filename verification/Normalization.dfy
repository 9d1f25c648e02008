/** `_assign_offsets_and_order`: the offsets and the order that normalization gives to the blocks. */
module Normalization {
  import opened Wrappers
  import opened Segments
  import opened Placement
  import opened Hierarchy
  import opened OffsetOrder

  /** The number of characters that normalization leaves between two blocks. */
  const BLOCK_GAP := 2

  function Assigned(blocks: seq<Block>, first: nat, cursor: nat): (r: seq<Block>)
    ensures |r| == |blocks|
    decreases |blocks|
  {
    if blocks == [] then []
    else
      [blocks[0].(order := first, startOffset := Some(cursor), endOffset := Some(cursor + |blocks[0].text|))]
      + Assigned(blocks[1..], first + 1, cursor + |blocks[0].text| + BLOCK_GAP)
  }

  /** `_assign_offsets_and_order`. */
  method AssignOffsetsAndOrder(blocks: seq<Block>) returns (ordered: seq<Block>)
    ensures ordered == Assigned(blocks, 0, 0)
  {
    ordered := [];
    var cursor := 0;
    for order := 0 to |blocks|
      invariant cursor >= 0
      invariant ordered + Assigned(blocks[order..], order, cursor) == Assigned(blocks, 0, 0)
    {
      var block := blocks[order];
      assert blocks[order..][1..] == blocks[order + 1..];
      ordered := ordered + [block.(order := order, startOffset := Some(cursor), endOffset := Some(cursor + |block.text|))];
      cursor := cursor + |block.text| + BLOCK_GAP;
    }
  }

  /** Blocks that start no earlier than `cursor`, in order. */
  predicate Numbered(r: seq<Block>, first: nat, cursor: nat) {
    && (forall i :: 0 <= i < |r| ==> r[i].order == first + i && PlacedFrom(r[i], cursor))
    && (forall i, j :: 0 <= i < j < |r| ==> Apart(SegmentOf(r[i]), SegmentOf(r[j])))
  }

  predicate PlacedFrom(b: Block, cursor: nat) {
    b.startOffset.Some? && b.startOffset.value >= cursor && OffsetsFit(SegmentOf(b))
  }

  lemma NumberedCons(b: Block, rest: seq<Block>, first: nat, cursor: nat, next: nat)
    requires b.order == first && PlacedFrom(b, cursor) && b.endOffset.Some? && b.endOffset.value <= next
    requires cursor <= next && Numbered(rest, first + 1, next)
    ensures Numbered([b] + rest, first, cursor)
  {
    var r := [b] + rest;
    forall i | 0 <= i < |r| ensures r[i].order == first + i && PlacedFrom(r[i], cursor) {
      if i > 0 { assert rest[i - 1].order == first + 1 + (i - 1) && PlacedFrom(rest[i - 1], next); }
    }
    forall i, j | 0 <= i < j < |r| ensures Apart(SegmentOf(r[i]), SegmentOf(r[j])) {
      assert r[j] == rest[j - 1] && PlacedFrom(rest[j - 1], next);
      if i > 0 { assert r[i] == rest[i - 1]; }
    }
  }

  lemma {:induction false} AssignedAreNumbered(blocks: seq<Block>, first: nat, cursor: nat)
    ensures Numbered(Assigned(blocks, first, cursor), first, cursor)
    decreases |blocks|
  {
    hide Numbered;
    if blocks == [] {
      NoBlocks(first, cursor);
    } else {
      var end := cursor + |blocks[0].text|;
      var b := blocks[0].(order := first, startOffset := Some(cursor), endOffset := Some(end));
      AssignedAreNumbered(blocks[1..], first + 1, end + BLOCK_GAP);
      NumberedCons(b, Assigned(blocks[1..], first + 1, end + BLOCK_GAP), first, cursor, end + BLOCK_GAP);
    }
  }

  lemma NoBlocks(first: nat, cursor: nat)
    ensures Numbered([], first, cursor)
  {}

  /** Normalized blocks are numbered consecutively, and their offset ranges fit their texts and follow each other. */
  lemma NormalizedBlocksInOrder(blocks: seq<Block>, pageCount: Option<int>)
    ensures var d := Document(Assigned(blocks, 0, 0), pageCount);
            && BlocksInOrder(d)
            && forall i :: 0 <= i < |d.blocks| ==> d.blocks[i].order == i && OffsetsFit(SegmentOf(d.blocks[i]))
  {
    hide Assigned, OffsetsFit, Apart;
    AssignedAreNumbered(blocks, 0, 0);
  }

  /** Where a block starts: after all blocks before it, each with a gap of two characters behind it. */
  function StartOfBlock(blocks: seq<Block>, i: nat): nat
    requires i <= |blocks|
  {
    if i == 0 then 0 else StartOfBlock(blocks, i - 1) + |blocks[i - 1].text| + 2
  }

  lemma {:induction false} StartOfLater(blocks: seq<Block>, i: nat)
    requires 0 < i <= |blocks|
    ensures StartOfBlock(blocks, i) == |blocks[0].text| + 2 + StartOfBlock(blocks[1..], i - 1)
  {
    if i > 1 { StartOfLater(blocks, i - 1); }
  }

  lemma {:induction false} AssignedAt(blocks: seq<Block>, first: nat, cursor: nat, i: nat)
    requires i < |blocks|
    ensures var start := cursor + StartOfBlock(blocks, i);
            Assigned(blocks, first, cursor)[i]
              == blocks[i].(order := first + i, startOffset := Some(start), endOffset := Some(start + |blocks[i].text|))
    decreases |blocks|
  {
    if i > 0 {
      StartOfLater(blocks, i);
      AssignedAt(blocks[1..], first + 1, cursor + |blocks[0].text| + BLOCK_GAP, i - 1);
    }
  }

  /** Every block gets its place as its number and the offsets of its text; nothing else changes. */
  lemma NormalizedBlocksExactly(blocks: seq<Block>, i: nat)
    requires i < |blocks|
    ensures var start := StartOfBlock(blocks, i);
            Assigned(blocks, 0, 0)[i]
              == blocks[i].(order := i, startOffset := Some(start), endOffset := Some(start + |blocks[i].text|))
  {
    hide Assigned, StartOfBlock;
    AssignedAt(blocks, 0, 0, i);
  }
}
