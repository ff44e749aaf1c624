/**
 * The chunked line store: an append-only sequence of blocks, each holding at
 * most `size` raw lines. Appending fills the last block and spills what does
 * not fit into fresh blocks, so no line is ever split or reordered.
 */
module LineStore {
  import opened Wrappers
  import opened Ints
  import Arith
  import Seqs

  const DEFAULT_BUFFER_BLOCK_SIZE: int := 100

  /** A block of raw lines and the number of lines it may hold. */
  datatype Block = Block(content: seq<string>, size: I32)

  /** The panic of `Block::append` when the data does not fit. */
  datatype BlockError = NotEnoughCapacity

  /** A store of blocks, all created with `blockSize`. */
  datatype Buff = Buff(blocks: seq<Block>, blockSize: I32)

  /** `Buff::default`: no blocks yet, blocks of 100 lines. */
  const Default: Buff := Buff([], DEFAULT_BUFFER_BLOCK_SIZE)

  /** `Block::new` (and `Buff::new_block`): an empty block whose room is its whole size. */
  function NewBlock(size: I32): (b: Block)
    ensures IsEmpty(b) && b.size == size && Cap(b) == size
    ensures Full(b) <==> size == 0
  {
    Block([], size)
  }

  function Len(b: Block): nat
  {
    |b.content|
  }

  predicate IsEmpty(b: Block)
  {
    |b.content| == 0
  }

  /** Room left in the block; negative only for a block made with a negative size. */
  function Cap(b: Block): int
  {
    b.size - |b.content|
  }

  function Data(b: Block): seq<string>
  {
    b.content
  }

  /** The block holds no more lines than its size allows. */
  predicate WellFormed(b: Block)
  {
    |b.content| <= b.size
  }

  predicate Full(b: Block)
  {
    |b.content| == b.size
  }

  /** The facts the block tests check about length, emptiness and room. */
  lemma BlockAccessors(b: Block)
    ensures Len(b) == |Data(b)|
    ensures IsEmpty(b) <==> Len(b) == 0
    ensures Cap(b) + Len(b) == b.size
    ensures WellFormed(b) <==> Cap(b) >= 0
    ensures Full(b) <==> Cap(b) == 0
  {
  }

  /** `Block::append`: add lines at the end, or refuse when they do not fit. */
  function BlockAppend(b: Block, data: seq<string>): (r: Result<Block, BlockError>)
    ensures r.Ok? <==> |data| <= Cap(b)
    ensures r.Ok? ==> r.value.content == b.content + data && r.value.size == b.size
    ensures r.Ok? ==> Len(r.value) == Len(b) + |data| && Cap(r.value) == Cap(b) - |data|
    ensures r.Ok? && Cap(b) >= 0 ==> WellFormed(r.value)
  {
    if |data| > Cap(b) then Err(NotEnoughCapacity)
    else Ok(Block(b.content + data, b.size))
  }

  /**
   * All lines of a block list, block after block. It recurses on the blocks
   * themselves, so proofs about the append loop unfold one block at a time;
   * `ContentsFlatten` shows it is `Seqs.Concat` of the copied contents.
   */
  function Flatten(blocks: seq<Block>): seq<string>
  {
    if blocks == [] then [] else blocks[0].content + Flatten(blocks[1..])
  }

  /** The lines of two block lists laid end to end. */
  lemma {:induction false} FlattenAppend(a: seq<Block>, b: seq<Block>)
    ensures Flatten(a + b) == Flatten(a) + Flatten(b)
  {
    if a == [] {
      assert a + b == b;
    } else {
      assert (a + b)[1..] == a[1..] + b;
      FlattenAppend(a[1..], b);
    }
  }

  /** The block appends go to: the last one. */
  function Last(blocks: seq<Block>): Block
    requires blocks != []
  {
    blocks[|blocks| - 1]
  }

  /** Every block was made with the store's size and respects it. */
  predicate Valid(buff: Buff)
  {
    && buff.blockSize >= 1
    && forall k :: 0 <= k < |buff.blocks| ==>
         buff.blocks[k].size == buff.blockSize && WellFormed(buff.blocks[k])
  }

  /** Valid, and every block but the last is full. */
  predicate Packed(buff: Buff)
  {
    && Valid(buff)
    && forall k :: 0 <= k < |buff.blocks| - 1 ==> Full(buff.blocks[k])
  }

  /**
   * The loop of `Buff::append`, from the current block `block`: put as many
   * lines as fit into it and, while lines remain, continue in a new block.
   * The result replaces `block` and follows it with the new blocks.
   */
  function Fill(block: Block, lines: seq<string>, blockSize: I32): (bs: seq<Block>)
    requires blockSize >= 1
    requires WellFormed(block)
    ensures |bs| >= 1
    ensures bs[0].size == block.size
    ensures bs[0].content == block.content + lines[..Min(|lines|, Cap(block))]
    ensures forall k :: 1 <= k < |bs| ==> bs[k].size == blockSize
    ensures forall k :: 0 <= k < |bs| ==> WellFormed(bs[k])
    ensures forall k :: 0 <= k < |bs| - 1 ==> Full(bs[k])
    decreases |lines|, if Cap(block) > 0 then 0 else 1
  {
    var avail := Cap(block);
    if |lines| > avail then
      var appended := BlockAppend(block, lines[..avail]);
      assert appended.Ok?;
      [appended.value] + Fill(NewBlock(blockSize), lines[avail..], blockSize)
    else
      var appended := BlockAppend(block, lines);
      assert appended.Ok?;
      assert lines[..|lines|] == lines;
      [appended.value]
  }

  /** Filling keeps every line, in order, after the lines already in the block. */
  lemma {:induction false} FillFlatten(block: Block, lines: seq<string>, blockSize: I32)
    requires blockSize >= 1
    requires WellFormed(block)
    ensures Flatten(Fill(block, lines, blockSize)) == block.content + lines
    decreases |lines|, if Cap(block) > 0 then 0 else 1
  {
    var avail := Cap(block);
    if |lines| > avail {
      var head := Block(block.content + lines[..avail], block.size);
      var rest := Fill(NewBlock(blockSize), lines[avail..], blockSize);
      FillFlatten(NewBlock(blockSize), lines[avail..], blockSize);
      FillStep(block, lines, blockSize);
      SpillFlatten(block.content, head, rest, lines, avail);
    } else {
      FillFlattenFits(block, lines, blockSize);
    }
  }

  /** A filled block followed by blocks holding the remaining lines holds all lines. */
  lemma SpillFlatten(before: seq<string>, head: Block, rest: seq<Block>, lines: seq<string>, avail: nat)
    requires avail <= |lines|
    requires head.content == before + lines[..avail]
    requires Flatten(rest) == [] + lines[avail..]
    ensures Flatten([head] + rest) == before + lines
  {
    FlattenCons(head, rest);
    Seqs.JoinAfterCut(before, lines, avail);
  }

  /** Lines that fit stay in the current block, after its lines. */
  lemma FillFlattenFits(block: Block, lines: seq<string>, blockSize: I32)
    requires blockSize >= 1
    requires WellFormed(block) && |lines| <= Cap(block)
    ensures Flatten(Fill(block, lines, blockSize)) == block.content + lines
  {
    FillStep(block, lines, blockSize);
    FlattenCons(Block(block.content + lines, block.size), []);
  }

  /** The lines of a block list are its first block's lines, then the rest. */
  lemma FlattenCons(b: Block, bs: seq<Block>)
    ensures Flatten([b] + bs) == b.content + Flatten(bs)
  {
    assert ([b] + bs)[1..] == bs;
  }

  /**
   * Filling a block of the store's size with `n` more lines leaves
   * `max(1, ceil((len + n) / blockSize))` blocks.
   */
  lemma {:induction false} FillCount(block: Block, lines: seq<string>, blockSize: I32)
    requires blockSize >= 1
    requires WellFormed(block)
    ensures block.size == blockSize ==>
      |Fill(block, lines, blockSize)| == Max(1, Arith.CeilDiv(|block.content| + |lines|, blockSize))
    decreases |lines|, if Cap(block) > 0 then 0 else 1
  {
    if block.size != blockSize {
      return;
    }
    var avail := Cap(block);
    var total := |block.content| + |lines|;
    if |lines| > avail {
      var remain := lines[avail..];
      FillCount(NewBlock(blockSize), remain, blockSize);
      Arith.CeilDivStep(total, blockSize);
      if |remain| <= blockSize {
        Arith.CeilDivOne(|remain|, blockSize);
      } else {
        Arith.CeilDivStep(|remain|, blockSize);
      }
    } else if total == 0 {
      Arith.CeilDivZero(blockSize);
    } else {
      Arith.CeilDivOne(total, blockSize);
    }
  }

  /**
   * `Buff::append`: make a first block when there is none, then fill from
   * the last block on.
   */
  function Append(buff: Buff, lines: seq<string>): (r: Buff)
    requires buff.blockSize >= 1
    requires buff.blocks != [] ==> WellFormed(Last(buff.blocks))
    ensures r.blockSize == buff.blockSize
    ensures |r.blocks| >= 1 && |r.blocks| >= |buff.blocks|
    ensures Flatten(r.blocks) == Flatten(buff.blocks) + lines
    // blocks before the old last one are untouched; the old last one only grows
    ensures buff.blocks != [] ==>
      r.blocks[..|buff.blocks| - 1] == buff.blocks[..|buff.blocks| - 1]
    ensures buff.blocks != [] ==>
      Last(buff.blocks).content <= r.blocks[|buff.blocks| - 1].content
    // new blocks have the store's size
    ensures forall k :: |buff.blocks| <= k < |r.blocks| ==> r.blocks[k].size == buff.blockSize
  {
    if buff.blocks == [] then
      var first := NewBlock(buff.blockSize);
      FillFlatten(first, lines, buff.blockSize);
      assert first.content + lines == lines;
      Buff(Fill(first, lines, buff.blockSize), buff.blockSize)
    else
      var n := |buff.blocks| - 1;
      var init, last := buff.blocks[..n], buff.blocks[n];
      var filled := Fill(last, lines, buff.blockSize);
      FillFlatten(last, lines, buff.blockSize);
      ReplaceLast(init, last, filled, lines);
      assert buff.blocks == init + [last];
      Buff(init + filled, buff.blockSize)
  }

  /** Replacing the last block by its filled version adds `lines` after all earlier lines. */
  lemma ReplaceLast(init: seq<Block>, last: Block, filled: seq<Block>, lines: seq<string>)
    requires Flatten(filled) == last.content + lines
    ensures Flatten(init + filled) == Flatten(init + [last]) + lines
  {
    FlattenAppend(init, filled);
    FlattenAppend(init, [last]);
    assert Flatten([last]) == last.content by {
      assert [last][1..] == [];
    }
    assert Flatten(init) + (last.content + lines) == (Flatten(init) + last.content) + lines;
  }

  /** One turn of the append loop. */
  lemma FillStep(block: Block, lines: seq<string>, blockSize: I32)
    requires blockSize >= 1
    requires WellFormed(block)
    ensures |lines| > Cap(block) ==>
      Fill(block, lines, blockSize)
        == [Block(block.content + lines[..Cap(block)], block.size)]
           + Fill(NewBlock(blockSize), lines[Cap(block)..], blockSize)
    ensures |lines| <= Cap(block) ==>
      Fill(block, lines, blockSize) == [Block(block.content + lines, block.size)]
  {
  }

  /** How `Append` arranges its blocks: the old ones before the last, then the filled last one. */
  lemma AppendBlocks(buff: Buff, lines: seq<string>)
    requires buff.blockSize >= 1
    requires buff.blocks != [] ==> WellFormed(Last(buff.blocks))
    ensures buff.blocks == [] ==>
      Append(buff, lines).blocks == Fill(NewBlock(buff.blockSize), lines, buff.blockSize)
    ensures buff.blocks != [] ==>
      Append(buff, lines).blocks
        == buff.blocks[..|buff.blocks| - 1] + Fill(Last(buff.blocks), lines, buff.blockSize)
  {
  }

  /** Appending keeps every block within the store's size and only the last one short. */
  lemma AppendKeepsPacked(buff: Buff, lines: seq<string>)
    requires Valid(buff)
    ensures Valid(Append(buff, lines))
    ensures Packed(buff) ==> Packed(Append(buff, lines))
  {
    AppendBlocks(buff, lines);
    if buff.blocks == [] {
      JoinPacked([], Fill(NewBlock(buff.blockSize), lines, buff.blockSize), buff.blockSize);
    } else {
      var n := |buff.blocks| - 1;
      JoinPacked(buff.blocks[..n], Fill(buff.blocks[n], lines, buff.blockSize), buff.blockSize);
    }
  }

  /** Valid, full blocks followed by a valid run that is full but at its end form a packed store. */
  lemma JoinPacked(init: seq<Block>, filled: seq<Block>, blockSize: I32)
    requires blockSize >= 1
    requires forall k :: 0 <= k < |init| ==> init[k].size == blockSize && WellFormed(init[k])
    requires forall k :: 0 <= k < |filled| ==> filled[k].size == blockSize && WellFormed(filled[k])
    requires forall k :: 0 <= k < |filled| - 1 ==> Full(filled[k])
    ensures Valid(Buff(init + filled, blockSize))
    ensures filled != [] && (forall k :: 0 <= k < |init| ==> Full(init[k])) ==>
      Packed(Buff(init + filled, blockSize))
  {
  }

  /**
   * Appending `m` lines to a store whose last block holds `t` lines leaves
   * the earlier blocks plus `max(1, ceil((t + m) / blockSize))` blocks; an
   * empty store ends with `max(1, ceil(m / blockSize))` blocks.
   */
  lemma AppendCount(buff: Buff, lines: seq<string>)
    requires buff.blockSize >= 1
    requires buff.blocks != [] ==> WellFormed(Last(buff.blocks))
    ensures buff.blocks == [] ==>
      |Append(buff, lines).blocks| == Max(1, Arith.CeilDiv(|lines|, buff.blockSize))
    ensures buff.blocks != [] && Last(buff.blocks).size == buff.blockSize ==>
      |Append(buff, lines).blocks| == |buff.blocks| - 1
        + Max(1, Arith.CeilDiv(|Last(buff.blocks).content| + |lines|, buff.blockSize))
  {
    var blocks := if buff.blocks == [] then [NewBlock(buff.blockSize)] else buff.blocks;
    FillCount(blocks[|blocks| - 1], lines, buff.blockSize);
  }

  /**
   * The same append, computed by the source's loop over a growing list of
   * blocks: fill the last block, stop when nothing is left, otherwise push a
   * new block and go on.
   */
  method AppendLoop(buff: Buff, lines: seq<string>) returns (r: Buff)
    requires buff.blockSize >= 1
    requires buff.blocks != [] ==> WellFormed(Last(buff.blocks))
    ensures r == Append(buff, lines)
  {
    var kept: seq<Block>, block: Block;
    if buff.blocks == [] {
      kept, block := [], NewBlock(buff.blockSize);
    } else {
      kept, block := buff.blocks[..|buff.blocks| - 1], Last(buff.blocks);
    }
    var rest := lines;
    ghost var target := Append(buff, lines).blocks;
    AppendBlocks(buff, lines);
    while true
      invariant WellFormed(block)
      invariant kept + Fill(block, rest, buff.blockSize) == target
      decreases |rest|, if Cap(block) > 0 then 0 else 1
    {
      var avail := Cap(block);
      var data, remain;
      if |rest| > avail {
        data, remain := rest[..avail], rest[avail..];
      } else {
        data, remain := rest, [];
      }
      var appended := BlockAppend(block, data);
      assert appended.Ok?;
      FillStep(block, rest, buff.blockSize);
      if remain != [] {
        Seqs.Assoc(kept, [appended.value], Fill(NewBlock(buff.blockSize), remain, buff.blockSize));
      }
      kept := kept + [appended.value];
      if remain == [] {
        break;
      }
      block, rest := NewBlock(buff.blockSize), remain;
    }
    r := Buff(kept, buff.blockSize);
  }

  /** A default store takes appends exactly like a store built with blocks of 100 lines. */
  lemma DefaultStore(lines: seq<string>)
    ensures Default.blocks == [] && Default.blockSize == DEFAULT_BUFFER_BLOCK_SIZE
    ensures Append(Default, lines) == New(lines, DEFAULT_BUFFER_BLOCK_SIZE)
    ensures Packed(Append(Default, lines))
    ensures |Append(Default, lines).blocks|
      == Max(1, Arith.CeilDiv(|lines|, DEFAULT_BUFFER_BLOCK_SIZE))
  {
  }

  /** `Buff::new`: an empty store with the given block size, then one append. */
  function New(content: seq<string>, blockSize: I32): (b: Buff)
    requires blockSize >= 1
    ensures b.blockSize == blockSize
    ensures Packed(b)
    ensures Flatten(b.blocks) == content
    ensures |b.blocks| == Max(1, Arith.CeilDiv(|content|, blockSize))
  {
    var empty := Buff([], blockSize);
    AppendCount(empty, content);
    AppendKeepsPacked(empty, content);
    Append(empty, content)
  }

  /** `Buff::content`: each block's lines, in block order. */
  function Content(buff: Buff): (c: seq<seq<string>>)
    ensures |c| == |buff.blocks|
    ensures forall k :: 0 <= k < |c| ==> c[k] == buff.blocks[k].content
    ensures Seqs.Concat(c) == Flatten(buff.blocks)
  {
    ContentsFlatten(buff.blocks);
    Contents(buff.blocks)
  }

  /** The lines of each block, block by block. */
  function Contents(blocks: seq<Block>): seq<seq<string>>
  {
    seq(|blocks|, k requires 0 <= k < |blocks| => blocks[k].content)
  }

  /** Flattening the copied contents gives the lines of the store. */
  lemma {:induction false} ContentsFlatten(blocks: seq<Block>)
    ensures Seqs.Concat(Contents(blocks)) == Flatten(blocks)
  {
    if blocks != [] {
      ContentsFlatten(blocks[1..]);
      assert Contents(blocks)[1..] == Contents(blocks[1..]);
    }
  }

  /** The block unit tests: length, emptiness, room, a fitting append and a refused one. */
  lemma BlockScenarios()
    ensures Len(Block(["Line0", "Line1", "Line2"], 10)) == 3
    ensures IsEmpty(Block([], 10))
    ensures !IsEmpty(Block(["Line0", "Line1", "Line2"], 10))
    ensures Cap(Block(["Line0", "Line1", "Line2"], 10)) == 7
    ensures BlockAppend(Block(["Line0", "Line1", "Line2"], 5), ["Foo", "Bar"])
      == Ok(Block(["Line0", "Line1", "Line2", "Foo", "Bar"], 5))
    ensures BlockAppend(Block(["Line0", "Line1", "Line2"], 4), ["Foo", "Bar"])
      == Err(NotEnoughCapacity)
  {
    assert ["Line0", "Line1", "Line2"] + ["Foo", "Bar"] == ["Line0", "Line1", "Line2", "Foo", "Bar"];
  }

  /** Lines that fit one block, appended to a new empty store, form that single block. */
  lemma AppendToEmptyStore(lines: seq<string>, blockSize: I32)
    requires blockSize >= 1 && |lines| <= blockSize
    ensures Content(Append(New([], blockSize), lines)) == [lines]
  {
    NewEmpty(blockSize);
    AppendBlocks(New([], blockSize), lines);
    FillStep(NewBlock(blockSize), lines, blockSize);
    assert [] + lines == lines;
  }

  /** A store made from no lines has one empty block. */
  lemma NewEmpty(blockSize: I32)
    requires blockSize >= 1
    ensures New([], blockSize).blocks == [NewBlock(blockSize)]
  {
    AppendBlocks(Buff([], blockSize), []);
    FillStep(NewBlock(blockSize), [], blockSize);
    assert NewBlock(blockSize).content + [] == [];
  }

  /** A store of blocks of two: one line, then four more, spill into three blocks. */
  lemma SpillScenario()
    ensures Content(Append(New(["Foo"], 2), ["Line0", "Line1", "Line2", "Line3"]))
      == [["Foo", "Line0"], ["Line1", "Line2"], ["Line3"]]
  {
    var lines := ["Line0", "Line1", "Line2", "Line3"];
    var start := New(["Foo"], 2);
    SpillStart();
    SpillFill();
    AppendBlocks(start, lines);
    assert Append(start, lines).blocks
      == [Block(["Foo", "Line0"], 2), Block(["Line1", "Line2"], 2), Block(["Line3"], 2)];
  }

  /** The store of the spill scenario before its append. */
  lemma SpillStart()
    ensures New(["Foo"], 2).blocks == [Block(["Foo"], 2)]
  {
    var first: seq<string> := ["Foo"];
    AppendBlocks(Buff([], 2), first);
    assert Fill(Block([], 2), first, 2) == [Block(first, 2)] by {
      assert [] + first == first;
    }
  }

  /** The append loop of the spill scenario, turn by turn. */
  lemma SpillFill()
    ensures Fill(Block(["Foo"], 2), ["Line0", "Line1", "Line2", "Line3"], 2)
      == [Block(["Foo", "Line0"], 2), Block(["Line1", "Line2"], 2), Block(["Line3"], 2)]
  {
    var lines := ["Line0", "Line1", "Line2", "Line3"];
    var last: seq<string> := ["Line3"];
    var middle: seq<string> := ["Line1", "Line2"];
    assert Fill(Block([], 2), last, 2) == [Block(last, 2)] by {
      assert [] + last == last;
    }
    assert lines[1..][..2] == middle && lines[1..][2..] == last;
    assert Fill(Block([], 2), lines[1..], 2) == [Block(middle, 2), Block(last, 2)] by {
      assert [] + middle == middle;
    }
    assert lines[..1] == ["Line0"] && ["Foo"] + ["Line0"] == ["Foo", "Line0"];
  }
}
