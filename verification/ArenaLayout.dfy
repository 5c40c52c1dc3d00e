/**
 * The memory of an arena, on values: blocks of a 64-bit address space that
 * double in size, and the allocations of one epoch inside them.
 */
module ArenaLayout {
  import opened Basics

  const SIZE_MAX := 0xFFFF_FFFF_FFFF_FFFF
  const BLOCK_ALIGNMENT := 16
  const MAX_BLOCKS := 64

  /** An allocation in a block. */
  datatype Span = Span(block: nat, addr: nat, size: nat)

  function Extent(s: Span): Block {
    Block(s.addr, s.size)
  }

  /** The saturating operations of the machine. */
  function AddSat(a: nat, b: nat): nat {
    if a + b > SIZE_MAX then SIZE_MAX else a + b
  }

  function ShiftSat(value: nat, shift: nat): nat {
    if value * Pow2(shift) > SIZE_MAX then SIZE_MAX else value * Pow2(shift)
  }

  // ---------------------------------------------------------------- blocks

  ghost predicate BlockFits(b: Block) {
    b.offset >= BLOCK_ALIGNMENT && b.offset % BLOCK_ALIGNMENT == 0 && b.offset + b.size <= U64
  }

  /** Every block is in the address space and apart from the others, and block k has at least blockSize * 2 ^ k bytes. */
  ghost predicate BlocksFit(blocks: seq<Block>, blockSize: nat) {
    && (forall k :: 0 <= k < |blocks| ==> BlockFits(blocks[k]) && blocks[k].size >= ShiftSat(blockSize, k))
    && (forall k, l :: 0 <= k < l < |blocks| ==> Apart(blocks[k], blocks[l]))
  }

  function Total(blocks: seq<Block>): nat {
    if blocks == [] then 0 else Total(blocks[..|blocks| - 1]) + blocks[|blocks| - 1].size
  }

  /** The bytes of the blocks that were passed. */
  ghost function PassedBytes(blocks: seq<Block>, passed: seq<nat>): nat {
    if passed == [] then 0
    else
      var last := passed[|passed| - 1];
      PassedBytes(blocks, passed[..|passed| - 1]) + if last < |blocks| then blocks[last].size else 0
  }

  ghost predicate Increasing(passed: seq<nat>, limit: nat) {
    && (forall i, j :: 0 <= i < j < |passed| ==> passed[i] < passed[j])
    && (forall i :: 0 <= i < |passed| ==> passed[i] < limit)
  }

  /** Every allocation is in the current block or in a passed one, and before counts the passed blocks in full. */
  ghost predicate Counted(blocks: seq<Block>, live: seq<Span>, passed: seq<nat>, cur: nat, before: nat) {
    && Increasing(passed, cur) && cur <= |blocks| && before == PassedBytes(blocks, passed)
    && (forall i :: 0 <= i < |live| ==> live[i].block == cur || live[i].block in passed)
  }

  /**
   * The passed blocks are among the blocks before the current one.  Their bytes are
   * the bytes of all those blocks exactly when no block was skipped.
   */
  lemma {:induction false} PassedBound(blocks: seq<Block>, passed: seq<nat>, limit: nat)
    requires Increasing(passed, limit) && limit <= |blocks|
    ensures |passed| <= limit && PassedBytes(blocks, passed) <= Total(blocks[..limit])
    ensures (forall k :: 0 <= k < |blocks| ==> blocks[k].size > 0) ==>
              (PassedBytes(blocks, passed) == Total(blocks[..limit]) <==> |passed| == limit)
  {
    assert |passed| > 0 ==> passed[0] < limit;
    if limit > 0 {
      assert blocks[..limit][..limit - 1] == blocks[..limit - 1];
      if passed != [] && passed[|passed| - 1] == limit - 1 {
        PassedBound(blocks, passed[..|passed| - 1], limit - 1);
      } else {
        PassedBound(blocks, passed, limit - 1);
      }
    }
  }

  /** A block that an earlier epoch left, too small for the request, is skipped and not counted. */
  lemma SkippedNotCounted()
    ensures var blocks := [Block(64, 64), Block(256, 128), Block(1024, 1024)];
            Increasing([0], 2) && PassedBytes(blocks, [0]) == 64 && Total(blocks[..2]) == 192
  {
    var blocks := [Block(64, 64), Block(256, 128), Block(1024, 1024)];
    assert [0][..0] == [];
    assert blocks[..2][..1] == [Block(64, 64)] && [Block(64, 64)][..0] == [];
    assert Total([Block(64, 64)]) == 64;
  }

  lemma {:induction false} PassedKept(blocks: seq<Block>, more: seq<Block>, passed: seq<nat>, limit: nat)
    requires Increasing(passed, limit) && limit <= |blocks| && blocks <= more
    ensures PassedBytes(more, passed) == PassedBytes(blocks, passed)
  {
    if passed != [] {
      PassedKept(blocks, more, passed[..|passed| - 1], limit);
    }
  }

  /** The current block is passed when a later one becomes the current one. */
  lemma BlockPassed(blocks: seq<Block>, live: seq<Span>, passed: seq<nat>, cur: nat, before: nat, index: nat)
    requires Counted(blocks, live, passed, cur, before) && cur < index <= |blocks|
    ensures Counted(blocks, live, passed + [cur], index, before + blocks[cur].size)
  {
    assert (passed + [cur])[..|passed|] == passed;
  }

  /** The addresses of the blocks. */
  ghost function Covered(blocks: seq<Block>): set<nat> {
    if blocks == [] then {} else Covered(blocks[..|blocks| - 1]) + Range(blocks[|blocks| - 1].offset, blocks[|blocks| - 1].size)
  }

  lemma {:induction false} CoveredHolds(blocks: seq<Block>, x: nat)
    ensures x in Covered(blocks) <==> exists k :: 0 <= k < |blocks| && blocks[k].offset <= x < blocks[k].offset + blocks[k].size
  {
    if blocks != [] {
      var less, last := blocks[..|blocks| - 1], blocks[|blocks| - 1];
      CoveredHolds(less, x);
      RangeHolds(last.offset, last.size);
      assert forall k :: 0 <= k < |less| ==> less[k] == blocks[k];
    }
  }

  /** Blocks that are apart cover as many addresses as their sizes add up to. */
  lemma {:induction false} CoveredSize(blocks: seq<Block>, blockSize: nat)
    requires BlocksFit(blocks, blockSize)
    ensures |Covered(blocks)| == Total(blocks)
  {
    if blocks != [] {
      var less, last := blocks[..|blocks| - 1], blocks[|blocks| - 1];
      CoveredSize(less, blockSize);
      RangeHolds(last.offset, last.size);
      forall x | x in Covered(less) ensures x !in Range(last.offset, last.size) {
        CoveredHolds(less, x);
        var k :| 0 <= k < |less| && less[k].offset <= x < less[k].offset + less[k].size;
        assert Apart(blocks[k], last);
      }
      assert Covered(less) !! Range(last.offset, last.size);
    }
  }

  /** The blocks of an arena fit into the address space together. */
  lemma TotalBound(blocks: seq<Block>, blockSize: nat)
    requires BlocksFit(blocks, blockSize)
    ensures Total(blocks) <= U64 - BLOCK_ALIGNMENT
  {
    CoveredSize(blocks, blockSize);
    RangeHolds(BLOCK_ALIGNMENT, U64 - BLOCK_ALIGNMENT);
    forall x | x in Covered(blocks) ensures x in Range(BLOCK_ALIGNMENT, U64 - BLOCK_ALIGNMENT) {
      CoveredHolds(blocks, x);
    }
    PartSize(Covered(blocks), Range(BLOCK_ALIGNMENT, U64 - BLOCK_ALIGNMENT));
  }

  // ------------------------------------------------------ powers of two

  lemma {:induction false} Pow2Sum(m: nat, n: nat)
    ensures Pow2(m + n) == Pow2(m) * Pow2(n)
  {
    if n == 0 {
      assert Pow2(m + n) == Pow2(m);
    } else {
      Pow2Sum(m, n - 1);
      assert Pow2(m) * (2 * Pow2(n - 1)) == 2 * (Pow2(m) * Pow2(n - 1));
    }
  }

  lemma Pow2Of64()
    ensures Pow2(64) == U64
  {
    assert Pow2(4) == 16 by {
      assert Pow2(2) == 4;
    }
    Pow2Sum(4, 4);
    Pow2Sum(8, 8);
    Pow2Sum(16, 16);
    Pow2Sum(32, 32);
  }

  lemma {:induction false} Pow2Grows(m: nat, n: nat)
    requires m < n
    ensures Pow2(m) < Pow2(n)
  {
    if m + 1 < n {
      Pow2Grows(m, n - 1);
    }
  }

  /** Block k has at least 2 ^ k bytes. */
  lemma ShiftSatLarge(blockSize: nat, k: nat)
    requires blockSize > 0 && k < 64
    ensures ShiftSat(blockSize, k) >= Pow2(k)
  {
    Pow2Grows(k, 64);
    Pow2Of64();
    MultipleSize(blockSize, Pow2(k));
  }

  lemma {:induction false} TotalLarge(blocks: seq<Block>, blockSize: nat)
    requires blockSize > 0 && |blocks| <= 64 && BlocksFit(blocks, blockSize)
    ensures Total(blocks) >= Pow2(|blocks|) - 1
  {
    if blocks != [] {
      TotalLarge(blocks[..|blocks| - 1], blockSize);
      ShiftSatLarge(blockSize, |blocks| - 1);
    }
  }

  /** The limit of 64 blocks is out of reach: 64 doubling blocks do not fit into a 64-bit address space. */
  lemma BlockLimitUnreached(blocks: seq<Block>, blockSize: nat)
    requires blockSize > 0 && |blocks| <= MAX_BLOCKS && BlocksFit(blocks, blockSize)
    ensures |blocks| < MAX_BLOCKS
  {
    TotalLarge(blocks, blockSize);
    TotalBound(blocks, blockSize);
    Pow2Of64();
  }

  // ------------------------------------------------------------- alignment

  /** The least multiple of align that is at least x. */
  function AlignUp(x: nat, align: nat): (r: nat)
    requires align > 0
    ensures x <= r < x + align
  {
    x + align - 1 - (x + align - 1) % align
  }

  /** The offset of the next aligned address as the machine computes it, on 64 bits. */
  function AlignedOffset(base: nat, offset: nat, align: nat): nat
    requires align > 0
  {
    var sum := (base + offset + align - 1) % U64;
    var addr := sum - sum % align;
    (addr - base) % U64
  }

  lemma ModUnique(q: nat, a: nat, r: nat)
    requires r < a
    ensures (q * a + r) % a == r
  {
    var m := q * a + r;
    var d := q - m / a;
    assert d * a == m % a - r;
    MultipleSize(d, a);
  }

  lemma MultipleSize(d: int, a: nat)
    ensures (d > 0 ==> d * a >= a) && (d < 0 ==> d * a + a <= 0)
    decreases if d < 0 then -d else d
  {
    if d > 1 {
      MultipleSize(d - 1, a);
    } else if d < -1 {
      MultipleSize(d + 1, a);
    }
  }

  lemma AlignUpIsMultiple(x: nat, align: nat)
    requires align > 0
    ensures AlignUp(x, align) % align == 0
  {
    var y := x + align - 1;
    ModUnique(y / align, align, 0);
    assert y - y % align == y / align * align;
  }

  /**
   * For a power of two the machine finds the exact next aligned offset, also
   * when the sum passes the end of the address space.
   */
  lemma AlignedOffsetIsExact(base: nat, offset: nat, align: nat)
    requires 0 < base && base + offset <= U64 && 0 < align < U64 && U64 % align == 0
    ensures AlignedOffset(base, offset, align) == AlignUp(base + offset, align) - base
  {
    var y := base + offset + align - 1;
    if y >= U64 {
      ModPast(U64, y, align);
      assert AlignUp(base + offset, align) == U64;
      WrapsToStart(base, y, align);
    }
  }

  /** Past a multiple, the remainder starts again from zero. */
  lemma ModPast(multiple: nat, y: nat, align: nat)
    requires 0 < align && multiple % align == 0 && multiple <= y < multiple + align
    ensures y % align == y - multiple
  {
    assert multiple == multiple / align * align;
    ModUnique(multiple / align, align, y - multiple);
  }

  lemma WrapsToStart(base: nat, y: nat, align: nat)
    requires 0 < base <= U64 && 0 < align && U64 <= y < U64 + align && y < 2 * U64
    ensures var sum := y % U64; (sum - sum % align - base) % U64 == U64 - base
  {
    ModUnique(0, align, y - U64);
  }

  /** A power of two below 2 ^ 64 divides it. */
  lemma PowerDivides(k: nat)
    requires k < 64
    ensures 0 < Pow2(k) < U64 && U64 % Pow2(k) == 0
  {
    Pow2Of64();
    Pow2Grows(k, 64);
    Pow2Sum(64 - k, k);
    FactorDivides(Pow2(64 - k), Pow2(k), U64);
  }

  lemma FactorDivides(q: nat, a: nat, product: nat)
    requires a > 0 && product == q * a
    ensures product % a == 0
  {
    ModUnique(q, a, 0);
  }

  // -------------------------------------------------------- the fast path

  /** The test of the fast path, on 64 bits: the allocation seems to end inside the block. */
  predicate FastPathTaken(aligned: nat, size: nat, end: nat) {
    (aligned + size) % U64 <= end
  }

  lemma SumWraps(aligned: nat, size: nat)
    requires aligned < U64 && size < U64
    ensures U64 <= aligned + size ==> (aligned + size) % U64 == aligned + size - U64 < aligned
  {
  }

  /** The sum of the fast path wraps to an offset inside the block. */
  predicate FastPathWraps(aligned: nat, size: nat, end: nat) {
    U64 <= aligned + size <= U64 + end
  }

  /**
   * The fast path serves only allocations that end inside the block exactly when
   * the sum does not wrap, which a caller can see from the size and the block.
   */
  lemma FastPathExact(aligned: nat, size: nat, end: nat)
    requires aligned < U64 && 0 < size < U64 && end < U64
    ensures (FastPathTaken(aligned, size, end) ==> aligned + size <= end) <==> !FastPathWraps(aligned, size, end)
  {
  }

  /**
   * The wrap happens: in a block with one byte in use, a request of SIZE_MAX
   * bytes, which is what an overflowing array count saturates to, takes the
   * fast path and moves the offset back to the start of the block.
   */
  lemma SaturatedRequestServed(end: nat)
    requires end < U64
    ensures FastPathTaken(1, SIZE_MAX, end) && (1 + SIZE_MAX) % U64 == 0 && FastPathWraps(1, SIZE_MAX, end)
  {
  }

  /** What the fast path finds, and what it serves. */
  lemma FastPathFits(base: nat, offset: nat, end: nat, size: nat, align: nat)
    requires 0 < base && base + end <= U64 && offset <= end && 0 < size < U64 && 0 < align < U64 && U64 % align == 0
    ensures var aligned := AlignedOffset(base, offset, align);
            && offset <= aligned < U64 && (base + aligned) % align == 0
            && (FastPathTaken(aligned, size, end) <==> aligned + size <= end || FastPathWraps(aligned, size, end))
  {
    AlignedOffsetIsExact(base, offset, align);
    AlignUpIsMultiple(base + offset, align);
    FastPathExact(AlignedOffset(base, offset, align), size, end);
  }

  /** A block with the bytes that the slow path asks for has room for the aligned allocation. */
  lemma SlowPathFits(base: nat, end: nat, size: nat, align: nat)
    requires BlockFits(Block(base, end)) && 0 < align < U64 && U64 % align == 0 && AddSat(size, align) <= end
    ensures var aligned := AlignedOffset(base, 0, align);
            aligned + size <= end && (base + aligned) % align == 0
  {
    AlignedOffsetIsExact(base, 0, align);
    AlignUpIsMultiple(base, align);
  }

  // ----------------------------------------------------------- allocations

  /** An allocation lies in its block, and before the offset when the block is the current one. */
  ghost predicate SpanFits(s: Span, blocks: seq<Block>, cur: nat, offset: nat) {
    && s.block <= cur < |blocks|
    && blocks[s.block].offset <= s.addr && s.addr + s.size <= blocks[s.block].offset + blocks[s.block].size
    && (s.block == cur ==> s.addr + s.size <= blocks[cur].offset + offset)
  }

  ghost predicate SpansFit(live: seq<Span>, blocks: seq<Block>, cur: nat, offset: nat) {
    && (forall i :: 0 <= i < |live| ==> SpanFits(live[i], blocks, cur, offset))
    && (forall i, j :: 0 <= i < j < |live| ==> Apart(Extent(live[i]), Extent(live[j])))
  }

  /** An allocation past the offset of the current block is apart from every earlier one. */
  lemma SpanAdded(live: seq<Span>, blocks: seq<Block>, blockSize: nat, cur: nat, offset: nat, span: Span)
    requires BlocksFit(blocks, blockSize) && cur < |blocks| && SpansFit(live, blocks, cur, offset)
    requires span.block == cur && blocks[cur].offset + offset <= span.addr
    requires span.addr + span.size <= blocks[cur].offset + blocks[cur].size
    ensures SpansFit(live + [span], blocks, cur, span.addr - blocks[cur].offset + span.size)
  {
    forall i | 0 <= i < |live| ensures Apart(Extent(live[i]), Extent(span))
                                       && SpanFits(live[i], blocks, cur, span.addr - blocks[cur].offset + span.size) {
      assert SpanFits(live[i], blocks, cur, offset);
      if live[i].block < cur {
        assert Apart(blocks[live[i].block], blocks[cur]);
      }
    }
  }

  /** A later block becomes the current one. */
  lemma SpansMoved(live: seq<Span>, blocks: seq<Block>, blocks': seq<Block>, cur: nat, offset: nat, cur': nat)
    requires blocks <= blocks' && cur < cur' < |blocks'| && SpansFit(live, blocks, cur, offset)
    ensures SpansFit(live, blocks', cur', 0)
  {
    forall i | 0 <= i < |live| ensures SpanFits(live[i], blocks', cur', 0) {
      assert SpanFits(live[i], blocks, cur, offset);
    }
  }

  /** More blocks at the end of the list change nothing. */
  lemma SpansKept(live: seq<Span>, blocks: seq<Block>, blocks': seq<Block>, cur: nat, offset: nat)
    requires blocks <= blocks' && cur < |blocks| && SpansFit(live, blocks, cur, offset)
    ensures SpansFit(live, blocks', cur, offset)
  {
    forall i | 0 <= i < |live| ensures SpanFits(live[i], blocks', cur, offset) {
      assert SpanFits(live[i], blocks, cur, offset);
    }
  }

  lemma BlockAdded(blocks: seq<Block>, blockSize: nat, b: Block)
    requires BlocksFit(blocks, blockSize) && BlockFits(b) && b.size >= ShiftSat(blockSize, |blocks|)
    requires forall k :: 0 <= k < |blocks| ==> Apart(blocks[k], b)
    ensures BlocksFit(blocks + [b], blockSize) && Total(blocks + [b]) == Total(blocks) + b.size
  {
    assert (blocks + [b])[..|blocks|] == blocks;
  }

  lemma {:induction false} TotalPrefix(blocks: seq<Block>, n: nat)
    requires n <= |blocks|
    ensures Total(blocks[..n]) <= Total(blocks)
    ensures n < |blocks| ==> Total(blocks[..n]) + blocks[n].size <= Total(blocks)
  {
    if n == |blocks| {
      assert blocks[..n] == blocks;
    } else {
      TotalPrefix(blocks[..|blocks| - 1], n);
      assert blocks[..|blocks| - 1][..n] == blocks[..n];
    }
  }
}
