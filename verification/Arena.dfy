/**
 * The arena: a bump allocator over doubling blocks, whose allocations all end
 * with the epoch.  The host allocator is a parameter: a call that may need a new
 * block gets the address that the host would give, or none.
 */
module Arena {
  import opened Basics
  import opened ArenaLayout

  const RETAINED_BYTES_LIMIT := 0x400_0000

  class Arena {
    const blockSize: nat
    const bases: array<nat>
    const sizes: array<nat>
    var blockCount: nat
    var curIndex: nat
    var curBase: nat
    var offset: nat
    var endOffset: nat
    var bytesBefore: nat
    var retained: nat
    var hasOpenEpoch: bool
    ghost var blocks: seq<Block>
    ghost var live: seq<Span>
    /** The blocks that were the current one before, in this epoch. */
    ghost var passed: seq<nat>

    /** A new arena has one block, at the address that the host gave. */
    constructor (blockSize: nat, addr: nat)
      requires 0 < blockSize <= SIZE_MAX && BlockFits(Block(addr, blockSize))
      ensures Valid() && fresh(bases) && fresh(sizes) && live == [] && blocks == [Block(addr, blockSize)] && !hasOpenEpoch
    {
      this.blockSize := blockSize;
      bases := new nat[MAX_BLOCKS](_ => 0);
      sizes := new nat[MAX_BLOCKS](_ => 0);
      blockCount, curIndex, curBase, offset, endOffset := 1, 0, addr, 0, blockSize;
      bytesBefore, retained, hasOpenEpoch := 0, blockSize, false;
      blocks, live, passed := [Block(addr, blockSize)], [], [];
      new;
      bases[0], sizes[0] := addr, blockSize;
      assert blocks[..0] == [];
    }

    /** The block arrays hold the blocks. */
    ghost predicate Listed()
      reads this, bases, sizes
    {
      && bases.Length == sizes.Length == MAX_BLOCKS && bases != sizes && |blocks| == blockCount <= MAX_BLOCKS
      && (forall k :: 0 <= k < blockCount ==> blocks[k] == Block(bases[k], sizes[k]))
    }

    /** The allocations of the epoch lie in the blocks, apart from each other, and the counters are right. */
    ghost predicate Valid()
      reads this, bases, sizes
    {
      && Listed() && blockSize > 0 && BlocksFit(blocks, blockSize)
      && curIndex < blockCount && curBase == blocks[curIndex].offset && offset <= endOffset == blocks[curIndex].size
      && retained == Total(blocks) && Counted(blocks, live, passed, curIndex, bytesBefore)
      && SpansFit(live, blocks, curIndex, offset)
    }

    /**
     * The bytes that the arena gave out in this epoch: the whole of each block that
     * was the current one before, and the offset.  They are among the bytes it holds.
     */
    method TotalAllocated() returns (total: nat)
      requires Valid()
      ensures total <= retained && total == PassedBytes(blocks, passed) + offset
    {
      PassedBound(blocks, passed, curIndex);
      TotalPrefix(blocks, curIndex);
      TotalBound(blocks, blockSize);
      total := AddSat(bytesBefore, offset);
    }

    /** The size of the next new block, when needed bytes are asked for. */
    function Wanted(needed: nat): nat
      reads this
    {
      Max(needed, ShiftSat(blockSize, blockCount))
    }

    /** The host may place a new block at an address. */
    ghost predicate Placeable(addr: nat, size: nat)
      reads this
    {
      BlockFits(Block(addr, size)) && forall k :: 0 <= k < |blocks| ==> Apart(blocks[k], Block(addr, size))
    }

    /** A new block at the end of the list.  The limit of 64 blocks is never met. */
    method AddBlock(addr: nat, size: nat)
      requires Valid() && Placeable(addr, size) && size >= ShiftSat(blockSize, blockCount)
      modifies this`blockCount, this`retained, this`blocks, bases, sizes
      ensures Valid() && blocks == old(blocks) + [Block(addr, size)]
    {
      BlockLimitUnreached(blocks, blockSize);
      BlockAdded(blocks, blockSize, Block(addr, size));
      TotalBound(blocks + [Block(addr, size)], blockSize);
      SpansKept(live, blocks, blocks + [Block(addr, size)], curIndex, offset);
      PassedKept(blocks, blocks + [Block(addr, size)], passed, curIndex);
      bases[blockCount], sizes[blockCount] := addr, size;
      blockCount := blockCount + 1;
      retained := AddSat(retained, size);
      blocks := blocks + [Block(addr, size)];
    }

    /** Makes the first later block that holds the bytes the current one, or adds a block.  False is the fatal stop. */
    method EnterBlock(needed: nat, addr: Option<nat>) returns (ok: bool)
      requires Valid() && (addr.Some? ==> Placeable(addr.value, Wanted(needed)))
      modifies this`blockCount, this`curIndex, this`curBase, this`offset, this`endOffset
      modifies this`bytesBefore, this`retained, this`blocks, this`passed, bases, sizes
      ensures !ok ==> addr.None?
      ensures ok ==> Valid() && curIndex > old(curIndex) && offset == 0 && endOffset >= needed
                     && old(blocks) <= blocks
    {
      var index := FindBlock(needed);
      if index == blockCount {
        if addr.None? {
          return false;
        }
        AddBlock(addr.value, Wanted(needed));
      }
      MoveTo(index);
      return true;
    }

    method FindBlock(needed: nat) returns (index: nat)
      requires Valid()
      ensures curIndex < index <= blockCount && (index < blockCount ==> sizes[index] >= needed)
      ensures forall k :: curIndex < k < index ==> sizes[k] < needed
    {
      index := curIndex + 1;
      while index < blockCount && sizes[index] < needed
        invariant curIndex < index <= blockCount
        invariant forall k :: curIndex < k < index ==> sizes[k] < needed
      {
        index := index + 1;
      }
    }

    method MoveTo(index: nat)
      requires Valid() && curIndex < index < blockCount
      modifies this`curIndex, this`curBase, this`offset, this`endOffset, this`bytesBefore, this`passed
      ensures Valid() && curIndex == index && offset == 0 && endOffset == blocks[index].size
    {
      BlockPassed(blocks, live, passed, curIndex, bytesBefore, index);
      PassedBound(blocks, passed + [curIndex], index);
      TotalPrefix(blocks, index);
      TotalBound(blocks, blockSize);
      SpansMoved(live, blocks, blocks, curIndex, offset, index);
      bytesBefore, passed := AddSat(bytesBefore, endOffset), passed + [curIndex];
      curIndex, curBase, offset, endOffset := index, bases[index], 0, sizes[index];
    }

    /** Puts an allocation at an offset, on 64 bits.  The arena stays right exactly when the bytes are in the block. */
    method Place(aligned: nat, size: nat) returns (ptr: nat)
      requires Valid() && offset <= aligned
      modifies this`offset, this`live
      ensures ptr == curBase + aligned && live == old(live) + [Span(curIndex, ptr, size)]
      ensures offset == (aligned + size) % U64 && (Valid() <==> aligned + size <= endOffset)
    {
      ptr := curBase + aligned;
      ghost var span := Span(curIndex, ptr, size);
      if aligned + size <= endOffset {
        SpanAdded(live, blocks, blockSize, curIndex, offset, span);
      }
      offset := (aligned + size) % U64;
      live := live + [span];
      assert live[|live| - 1] == span;
    }

    /** The next aligned offset of the current block. */
    function Next(align: nat): nat
      requires align > 0
      reads this
    {
      AlignedOffset(curBase, offset, align)
    }

    ghost predicate Wraps(size: nat, align: nat)
      requires align > 0
      reads this
    {
      FastPathWraps(Next(align), size, endOffset)
    }

    /**
     * Allocates: the result is aligned and becomes one more allocation of the
     * epoch.  It lies in a block and apart from every other one exactly when the
     * sum of the fast path does not wrap.  A sum that wraps moves the offset back
     * in the block.  None is the fatal stop of a host that has no memory left.
     */
    method Alloc(size: nat, align: nat, ghost log: nat, addr: Option<nat>) returns (ptr: Option<nat>)
      requires Valid() && 0 < size < U64 && log < 64 && align == Pow2(log)
      requires addr.Some? ==> Placeable(addr.value, Wanted(AddSat(size, align)))
      modifies this`blockCount, this`curIndex, this`curBase, this`offset, this`endOffset
      modifies this`bytesBefore, this`retained, this`blocks, this`passed, this`live, bases, sizes
      ensures ptr.None? ==> addr.None?
      ensures ptr.Some? ==> ptr.value % align == 0
                            && live == old(live) + [Span(curIndex, ptr.value, size)] && old(blocks) <= blocks
      ensures ptr.Some? ==> (Valid() <==> !old(Wraps(size, align)))
      ensures old(Wraps(size, align)) ==>
                && blocks == old(blocks) && curIndex == old(curIndex) && ptr == Some(curBase + old(Next(align)))
                && offset == (old(Next(align)) + size) % U64 < old(Next(align))
    {
      PowerDivides(log);
      FastPathFits(curBase, offset, endOffset, size, align);
      ptr := AllocAt(Next(align), size, align, addr);
    }

    /** Takes the fast path at an aligned offset, or the slow path. */
    method AllocAt(aligned: nat, size: nat, align: nat, addr: Option<nat>) returns (ptr: Option<nat>)
      requires Valid() && 0 < size < U64 && 0 < align < U64 && U64 % align == 0
      requires offset <= aligned < U64 && (curBase + aligned) % align == 0
      requires FastPathTaken(aligned, size, endOffset) <==> aligned + size <= endOffset || FastPathWraps(aligned, size, endOffset)
      requires addr.Some? ==> Placeable(addr.value, Wanted(AddSat(size, align)))
      modifies this`blockCount, this`curIndex, this`curBase, this`offset, this`endOffset
      modifies this`bytesBefore, this`retained, this`blocks, this`passed, this`live, bases, sizes
      ensures ptr.None? ==> addr.None?
      ensures ptr.Some? ==> ptr.value % align == 0
                            && live == old(live) + [Span(curIndex, ptr.value, size)] && old(blocks) <= blocks
      ensures ptr.Some? ==> (Valid() <==> !FastPathWraps(aligned, size, old(endOffset)))
      ensures FastPathWraps(aligned, size, old(endOffset)) ==>
                && blocks == old(blocks) && curIndex == old(curIndex) && ptr == Some(curBase + aligned)
                && offset == (aligned + size) % U64 < aligned
    {
      if FastPathTaken(aligned, size, endOffset) {
        var p := PlaceFast(aligned, size);
        return Some(p);
      }
      ptr := AllocSlow(size, align, addr);
    }

    method PlaceFast(aligned: nat, size: nat) returns (ptr: nat)
      requires Valid() && 0 < size < U64 && offset <= aligned < U64
      requires aligned + size <= endOffset || FastPathWraps(aligned, size, endOffset)
      modifies this`offset, this`live
      ensures ptr == curBase + aligned && live == old(live) + [Span(curIndex, ptr, size)]
      ensures Valid() <==> !FastPathWraps(aligned, size, endOffset)
      ensures FastPathWraps(aligned, size, endOffset) ==> offset == (aligned + size) % U64 < aligned
    {
      SumWraps(aligned, size);
      ptr := Place(aligned, size);
    }

    method AllocSlow(size: nat, align: nat, addr: Option<nat>) returns (ptr: Option<nat>)
      requires Valid() && 0 < size && 0 < align < U64 && U64 % align == 0
      requires addr.Some? ==> Placeable(addr.value, Wanted(AddSat(size, align)))
      modifies this`blockCount, this`curIndex, this`curBase, this`offset, this`endOffset
      modifies this`bytesBefore, this`retained, this`blocks, this`passed, this`live, bases, sizes
      ensures ptr.None? ==> addr.None?
      ensures ptr.Some? ==> Valid() && ptr.value % align == 0
                            && live == old(live) + [Span(curIndex, ptr.value, size)] && old(blocks) <= blocks
    {
      var ok := EnterBlock(AddSat(size, align), addr);
      if !ok {
        return None;
      }
      var p := PlaceFirst(size, align);
      return Some(p);
    }

    /** Puts an allocation at the first aligned offset of a block that no allocation uses. */
    method PlaceFirst(size: nat, align: nat) returns (ptr: nat)
      requires Valid() && offset == 0 && endOffset >= AddSat(size, align) && 0 < align < U64 && U64 % align == 0
      modifies this`offset, this`live
      ensures Valid() && ptr % align == 0 && live == old(live) + [Span(curIndex, ptr, size)]
    {
      SlowPathFits(curBase, endOffset, size, align);
      ptr := Place(AlignedOffset(curBase, 0, align), size);
    }

    /** Ends the epoch: every allocation dies, and a large arena keeps only its first block. */
    method EndEpoch()
      requires Valid()
      modifies this, bases, sizes
      ensures Valid() && live == [] && !hasOpenEpoch && curIndex == 0 && offset == 0 && bytesBefore == 0
      ensures blocks == if old(retained) > RETAINED_BYTES_LIMIT then old(blocks)[..1] else old(blocks)
      ensures retained <= RETAINED_BYTES_LIMIT || blockCount == 1
    {
      if retained > RETAINED_BYTES_LIMIT {
        FreeBlocksFrom(1);
      }
      Rewind();
      hasOpenEpoch := false;
    }

    /** Makes the first block the current one, with nothing in it. */
    method Rewind()
      requires Listed() && blockCount > 0 && blockSize > 0 && BlocksFit(blocks, blockSize) && retained == Total(blocks)
      modifies this`curIndex, this`curBase, this`offset, this`endOffset, this`bytesBefore, this`live, this`passed
      ensures Valid() && live == [] && curIndex == 0 && offset == 0 && bytesBefore == 0
    {
      curIndex, curBase, offset, endOffset, bytesBefore := 0, bases[0], 0, sizes[0], 0;
      live, passed := [], [];
    }

    /** Frees every block from an index on.  An index past the blocks frees none. */
    method FreeBlocksFrom(first: nat)
      requires Listed() && BlocksFit(blocks, blockSize) && retained == Total(blocks)
      modifies this`blockCount, this`retained, this`blocks, bases, sizes
      ensures Listed() && blocks == old(blocks)[..Min(first, |old(blocks)|)]
      ensures retained == Total(blocks) && BlocksFit(blocks, blockSize)
      ensures first > 0 ==> bases[0] == old(bases[0]) && sizes[0] == old(sizes[0])
    {
      if first < blockCount {
        ClearFrom(first);
        blockCount, blocks := first, blocks[..first];
      } else {
        assert blocks[..|blocks|] == blocks;
      }
    }

    /** Clears the slots of the blocks from an index on. */
    method ClearFrom(first: nat)
      requires Listed() && retained == Total(blocks) && first < blockCount
      modifies this`retained, bases, sizes
      ensures retained == Total(blocks[..first])
      ensures forall k :: 0 <= k < first ==> bases[k] == old(bases[k]) && sizes[k] == old(sizes[k])
    {
      ghost var all := blocks;
      assert all[..blockCount] == all;
      for index := first to blockCount
        invariant retained == Left(all, first, index)
        invariant forall k :: 0 <= k < first || index <= k < |all| ==> bases[k] == old(bases[k]) && sizes[k] == old(sizes[k])
      {
        LeftStep(all, first, index);
        assert all[index] == Block(bases[index], sizes[index]);
        retained := retained - sizes[index];
        bases[index], sizes[index] := 0, 0;
      }
    }

    /** The end of the arena frees every block.  False is the fatal stop of an end with an open epoch. */
    method Destroy() returns (ok: bool)
      requires Valid()
      modifies this`blockCount, this`retained, this`blocks, bases, sizes
      ensures ok <==> !hasOpenEpoch
      ensures ok ==> blocks == [] && blockCount == 0 && retained == 0
      ensures !ok ==> Valid() && blocks == old(blocks)
    {
      if hasOpenEpoch {
        return false;
      }
      FreeBlocksFrom(0);
      return true;
    }

    /** Opens an epoch over every byte that the arena gives out until its end.  False is the fatal stop. */
    method OpenEpoch() returns (ok: bool)
      requires Valid()
      modifies this`hasOpenEpoch
      ensures Valid() && ok == (!old(hasOpenEpoch) && curIndex == 0 && offset == 0)
      ensures hasOpenEpoch == (ok || old(hasOpenEpoch))
    {
      if hasOpenEpoch || curIndex != 0 || offset != 0 {
        return false;
      }
      hasOpenEpoch := true;
      return true;
    }
  }

  /** The bytes that are left when the blocks from first to index are free. */
  ghost function Left(blocks: seq<Block>, first: nat, index: nat): int
    requires first <= index <= |blocks|
  {
    Total(blocks) - Total(blocks[..index]) + Total(blocks[..first])
  }

  lemma LeftStep(blocks: seq<Block>, first: nat, index: nat)
    requires first <= index < |blocks|
    ensures Left(blocks, first, index + 1) == Left(blocks, first, index) - blocks[index].size >= 0
  {
    assert blocks[..index + 1][..index] == blocks[..index];
    TotalPrefix(blocks, index);
  }
}
