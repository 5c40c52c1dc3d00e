/**
 * The layout of the memory pool of one region: the sizes of the tensor slots,
 * the bytes that live slots and free blocks take, and the moves of bytes that
 * the sweep of the memory planner makes.
 */
module PlanLayout {
  import opened Basics

  const ALIGNMENT := 256
  const MAX_DEATH_OP := 0xFFFF_FFFC
  const MAX_FREE := 4096
  const MAX_PER_OP := 64

  datatype TensorSlot = TensorSlot(nbytes: nat, birth: nat, death: nat, external: bool, offset: nat)

  // ---------------------------------------------------------------- sizes

  /** Addition of the machine, on 64 bits. */
  function Add64(a: nat, b: nat): nat {
    (a + b) % U64
  }

  /** The size the planner gives a slot: nbytes rounded up, on 64 bits. */
  function AlignedSize(nbytes: nat): nat {
    Add64(nbytes, ALIGNMENT - 1) / ALIGNMENT * ALIGNMENT
  }

  /** The rounding on unbounded numbers. */
  function Ceil256(n: nat): nat {
    (n + 255) / 256 * 256
  }

  /**
   * The rounding covers the slot exactly when it does not wrap: the caller can
   * check nbytes before the call.
   */
  lemma AlignedSizeCovers(nbytes: nat)
    requires nbytes < U64
    ensures AlignedSize(nbytes) >= nbytes <==> nbytes <= U64 - ALIGNMENT
    ensures nbytes <= U64 - ALIGNMENT ==> AlignedSize(nbytes) == Ceil256(nbytes)
    ensures AlignedSize(nbytes) % ALIGNMENT == 0
  {
    if nbytes <= U64 - ALIGNMENT {
      assert Add64(nbytes, ALIGNMENT - 1) == nbytes + 255;
    } else {
      assert Add64(nbytes, ALIGNMENT - 1) == nbytes + 255 - U64 < 256;
      assert AlignedSize(nbytes) == 0;
    }
  }

  function Size(s: TensorSlot): nat {
    AlignedSize(s.nbytes)
  }

  /** The bytes of the pool that each slot takes. */
  function Ranges(slots: seq<TensorSlot>): (r: seq<Block>)
    ensures |r| == |slots|
  {
    seq(|slots|, i requires 0 <= i < |slots| => Block(slots[i].offset, Size(slots[i])))
  }

  /** Slots that differ only in their offsets. */
  ghost predicate SameShape(a: seq<TensorSlot>, b: seq<TensorSlot>) {
    |a| == |b| && forall i :: 0 <= i < |a| ==> a[i] == b[i].(offset := a[i].offset)
  }

  ghost function Internal(slots: seq<TensorSlot>): set<nat> {
    set s: nat | s < |slots| && !slots[s].external
  }

  /** The slots that hold their bytes at an op. */
  ghost function LiveAt(slots: seq<TensorSlot>, op: nat): set<nat> {
    set s: nat | s < |slots| && !slots[s].external && slots[s].birth <= op <= slots[s].death
  }

  ghost function BornBefore(slots: seq<TensorSlot>, op: nat): set<nat> {
    set s: nat | s < |slots| && !slots[s].external && slots[s].birth < op
  }

  /** The bytes of the ranges below n that are in ids. */
  ghost function Bytes(ranges: seq<Block>, ids: set<nat>, n: nat): nat
    requires n <= |ranges|
  {
    if n == 0 then 0
    else Bytes(ranges, ids, n - 1) + if n - 1 in ids then ranges[n - 1].size else 0
  }

  ghost function BlockBytes(blocks: seq<Block>): nat {
    if blocks == [] then 0 else BlockBytes(blocks[..|blocks| - 1]) + blocks[|blocks| - 1].size
  }

  /** The sizes are 64-bit numbers, and so is their rounded sum. */
  ghost predicate Fits(slots: seq<TensorSlot>) {
    && (forall i :: 0 <= i < |slots| ==> slots[i].nbytes <= U64 - ALIGNMENT)
    && Bytes(Ranges(slots), Internal(slots), |slots|) < U64
  }

  // --------------------------------------------------------------- layout

  ghost predicate Aligned(b: Block) {
    b.offset % ALIGNMENT == 0 && b.size % ALIGNMENT == 0
  }

  ghost predicate InPool(b: Block, end: nat) {
    Aligned(b) && b.offset + b.size <= end
  }

  /** The op intervals of two slots intersect. */
  ghost predicate Meet(a: TensorSlot, b: TensorSlot) {
    a.birth <= b.death && b.birth <= a.death
  }

  /** Live slots and free blocks are pairwise apart and inside the pool. */
  ghost predicate Placed(ranges: seq<Block>, live: set<nat>, blocks: seq<Block>, end: nat) {
    Laid(ranges, live, blocks, end) && Bytes(ranges, live, |ranges|) + BlockBytes(blocks) <= end
  }

  ghost predicate Laid(ranges: seq<Block>, live: set<nat>, blocks: seq<Block>, end: nat) {
    && end % ALIGNMENT == 0
    && (forall s :: s in live ==> s < |ranges| && InPool(ranges[s], end))
    && (forall s, t :: s in live && t in live && s != t ==> Apart(ranges[s], ranges[t]))
    && (forall i :: 0 <= i < |blocks| ==> InPool(blocks[i], end))
    && (forall s, i :: s in live && 0 <= i < |blocks| ==> Apart(ranges[s], blocks[i]))
    && (forall i, j :: 0 <= i < |blocks| && 0 <= j < |blocks| && i != j ==> Apart(blocks[i], blocks[j]))
  }

  /** Every placed slot is inside the pool and apart from the placed slots it meets. */
  ghost predicate Separated(slots: seq<TensorSlot>, ranges: seq<Block>, ids: set<nat>, end: nat)
    requires |slots| == |ranges|
  {
    && (forall s :: s in ids ==> s < |slots| && InPool(ranges[s], end))
    && (forall s, t :: s in ids && t in ids && s != t && Meet(slots[s], slots[t]) ==> Apart(ranges[s], ranges[t]))
  }

  /**
   * The invariant of the sweep at an op: done is the slots with an offset, live
   * is the slots that hold their bytes.  The bytes of live slots and free
   * blocks never exceed the pool, and the pool never exceeds the bytes handed
   * out.
   */
  ghost predicate Sweeping(slots: seq<TensorSlot>, ranges: seq<Block>, live: set<nat>, done: set<nat>,
                           blocks: seq<Block>, end: nat, op: nat) {
    && |ranges| == |slots|
    && Placed(ranges, live, blocks, end)
    && Separated(slots, ranges, done, end)
    && live <= done <= Internal(slots)
    && (forall s :: s in done && slots[s].death >= op ==> s in live)
    && end <= Bytes(ranges, done, |ranges|)
  }

  /** What a finished plan promises of its pool. */
  ghost predicate Planned(slots: seq<TensorSlot>, pool: nat) {
    && Separated(slots, Ranges(slots), Internal(slots), pool)
    && (forall op: nat :: Bytes(Ranges(slots), LiveAt(slots, op), |slots|) <= pool)
    && pool <= Bytes(Ranges(slots), Internal(slots), |slots|)
  }

  // Sums over sets of slots and over the free list.

  lemma {:induction false} BytesAdd(ranges: seq<Block>, ids: set<nat>, s: nat, n: nat)
    requires n <= |ranges| && s < |ranges| && s !in ids
    ensures Bytes(ranges, ids + {s}, n) == Bytes(ranges, ids, n) + if s < n then ranges[s].size else 0
  {
    if n > 0 {
      BytesAdd(ranges, ids, s, n - 1);
    }
  }

  lemma BytesRemove(ranges: seq<Block>, ids: set<nat>, s: nat)
    requires s < |ranges| && s in ids
    ensures Bytes(ranges, ids, |ranges|) == Bytes(ranges, ids - {s}, |ranges|) + ranges[s].size
  {
    BytesAdd(ranges, ids - {s}, s, |ranges|);
    assert ids - {s} + {s} == ids;
  }

  lemma {:induction false} BytesMono(ranges: seq<Block>, small: set<nat>, big: set<nat>, n: nat)
    requires n <= |ranges| && small <= big
    ensures Bytes(ranges, small, n) <= Bytes(ranges, big, n)
  {
    if n > 0 {
      BytesMono(ranges, small, big, n - 1);
    }
  }

  lemma {:induction false} BytesMoved(a: seq<Block>, b: seq<Block>, ids: set<nat>, n: nat)
    requires |a| == |b| && n <= |a|
    requires forall i :: 0 <= i < |a| ==> a[i].size == b[i].size
    ensures Bytes(a, ids, n) == Bytes(b, ids, n)
  {
    if n > 0 {
      BytesMoved(a, b, ids, n - 1);
    }
  }

  lemma BlockBytesAppend(blocks: seq<Block>, b: Block)
    ensures BlockBytes(blocks + [b]) == BlockBytes(blocks) + b.size
  {
    assert (blocks + [b])[..|blocks|] == blocks;
  }

  lemma {:induction false} BlockBytesUpdate(blocks: seq<Block>, f: nat, b: Block)
    requires f < |blocks|
    ensures BlockBytes(blocks[f := b]) + blocks[f].size == BlockBytes(blocks) + b.size
  {
    var last := |blocks| - 1;
    var changed := blocks[f := b];
    if f == last {
      assert changed[..last] == blocks[..last];
    } else {
      BlockBytesUpdate(blocks[..last], f, b);
      assert changed[..last] == blocks[..last][f := b];
    }
  }

  /** The free list after its block f is removed: the last block takes its place. */
  function SwapRemove(blocks: seq<Block>, f: nat): (r: seq<Block>)
    requires f < |blocks|
  {
    blocks[f := blocks[|blocks| - 1]][..|blocks| - 1]
  }

  /** The free list after block f gives up its first size bytes. */
  function Shrunk(blocks: seq<Block>, f: nat, size: nat): seq<Block>
    requires f < |blocks| && size <= blocks[f].size
  {
    if blocks[f].size == size then SwapRemove(blocks, f)
    else blocks[f := Block(blocks[f].offset + size, blocks[f].size - size)]
  }

  /** The free list after a block is freed: a full list loses the block. */
  function Freed(blocks: seq<Block>, b: Block): seq<Block> {
    if |blocks| < MAX_FREE then blocks + [b] else blocks
  }

  /** The free list after the first size bytes of a dying range are reused. */
  function Reused(blocks: seq<Block>, dying: Block, size: nat): seq<Block>
    requires size <= dying.size
  {
    if size < dying.size then Freed(blocks, Block(dying.offset + size, dying.size - size)) else blocks
  }

  lemma BlockBytesRemove(blocks: seq<Block>, f: nat)
    requires f < |blocks|
    ensures BlockBytes(SwapRemove(blocks, f)) + blocks[f].size == BlockBytes(blocks)
  {
    var last := blocks[|blocks| - 1];
    BlockBytesUpdate(blocks, f, last);
    var moved := blocks[f := last];
    assert moved[|moved| - 1] == last;
  }

  // The four primitive moves of bytes, each keeps the layout.

  lemma ReleaseKeeps(ranges: seq<Block>, live: set<nat>, blocks: seq<Block>, end: nat, d: nat)
    requires Placed(ranges, live, blocks, end) && d in live
    ensures Placed(ranges, live - {d}, blocks + [ranges[d]], end)
  {
    BytesRemove(ranges, live, d);
    BlockBytesAppend(blocks, ranges[d]);
  }

  lemma ForgetKeeps(ranges: seq<Block>, live: set<nat>, blocks: seq<Block>, end: nat, f: nat)
    requires Placed(ranges, live, blocks, end) && f < |blocks|
    ensures Placed(ranges, live, SwapRemove(blocks, f), end)
  {
    BlockBytesRemove(blocks, f);
    var last := |blocks| - 1;
    var after := SwapRemove(blocks, f);
    assert forall i :: 0 <= i < last ==> after[i] == blocks[if i == f then last else i];
  }

  /** Slot b takes the front of block f. */
  lemma TakeKeeps(ranges: seq<Block>, live: set<nat>, blocks: seq<Block>, end: nat, b: nat, f: nat)
    requires Placed(ranges, live, blocks, end) && b < |ranges| && b !in live
    requires f < |blocks| && ranges[b].size <= blocks[f].size && ranges[b].size % ALIGNMENT == 0
    ensures Placed(ranges[b := Block(blocks[f].offset, ranges[b].size)], live + {b},
                   blocks[f := Block(blocks[f].offset + ranges[b].size, blocks[f].size - ranges[b].size)], end)
  {
    var after := ranges[b := Block(blocks[f].offset, ranges[b].size)];
    var rest := Block(blocks[f].offset + ranges[b].size, blocks[f].size - ranges[b].size);
    TakeLaid(ranges, live, blocks, end, b, f);
    BytesMoved(after, ranges, live + {b}, |ranges|);
    BytesAdd(ranges, live, b, |ranges|);
    BlockBytesUpdate(blocks, f, rest);
  }

  lemma TakeLaid(ranges: seq<Block>, live: set<nat>, blocks: seq<Block>, end: nat, b: nat, f: nat)
    requires Laid(ranges, live, blocks, end) && b < |ranges| && b !in live
    requires f < |blocks| && ranges[b].size <= blocks[f].size && ranges[b].size % ALIGNMENT == 0
    ensures Laid(ranges[b := Block(blocks[f].offset, ranges[b].size)], live + {b},
                 blocks[f := Block(blocks[f].offset + ranges[b].size, blocks[f].size - ranges[b].size)], end)
  {
  }

  /** Slot b takes bytes past the end of the pool. */
  lemma FreshKeeps(ranges: seq<Block>, live: set<nat>, blocks: seq<Block>, end: nat, b: nat)
    requires Placed(ranges, live, blocks, end) && b < |ranges| && b !in live
    requires ranges[b].size % ALIGNMENT == 0
    ensures Placed(ranges[b := Block(end, ranges[b].size)], live + {b}, blocks, end + ranges[b].size)
  {
    var after := ranges[b := Block(end, ranges[b].size)];
    AlignedSum(end, ranges[b].size);
    FreshLaid(ranges, live, blocks, end, b);
    BytesMoved(after, ranges, live + {b}, |ranges|);
    BytesAdd(ranges, live, b, |ranges|);
  }

  lemma FreshLaid(ranges: seq<Block>, live: set<nat>, blocks: seq<Block>, end: nat, b: nat)
    requires Laid(ranges, live, blocks, end) && b < |ranges| && b !in live
    requires ranges[b].size % ALIGNMENT == 0 && (end + ranges[b].size) % ALIGNMENT == 0
    ensures Laid(ranges[b := Block(end, ranges[b].size)], live + {b}, blocks, end + ranges[b].size)
  {
  }

  lemma AlignedSum(a: nat, b: nat)
    requires a % ALIGNMENT == 0 && b % ALIGNMENT == 0
    ensures (a + b) % ALIGNMENT == 0
  {
  }

  /** A slot placed among the live slots is separated from every slot it meets. */
  lemma SeparatedGrows(slots: seq<TensorSlot>, before: seq<Block>, after: seq<Block>, live: set<nat>, done: set<nat>,
                       blocks: seq<Block>, end: nat, end': nat, b: nat)
    requires |slots| == |before| == |after| && end <= end'
    requires Separated(slots, before, done, end)
    requires b < |before| && b !in done && after == before[b := after[b]]
    requires Placed(after, live, blocks, end') && b in live
    requires forall s :: s in done && Meet(slots[s], slots[b]) ==> s in live
    ensures Separated(slots, after, done + {b}, end')
  {
  }

  // ---------------------------------------------------- steps of the sweep

  /** A dying slot gives its bytes to the free list, or loses them when the list is full. */
  lemma ReleaseStep(slots: seq<TensorSlot>, ranges: seq<Block>, live: set<nat>, done: set<nat>,
                    blocks: seq<Block>, end: nat, op: nat, d: nat)
    requires Sweeping(slots, ranges, live, done, blocks, end, op)
    requires d in live && slots[d].death < op
    ensures Sweeping(slots, ranges, live - {d}, done, Freed(blocks, ranges[d]), end, op)
  {
    ReleaseKeeps(ranges, live, blocks, end, d);
    var more := blocks + [ranges[d]];
    ForgetKeeps(ranges, live - {d}, more, end, |blocks|);
    assert SwapRemove(more, |blocks|) == blocks;
  }

  /** Slot b takes the front of the bytes of slot d, and the rest is a free block. */
  lemma ReuseSplit(ranges: seq<Block>, live: set<nat>, blocks: seq<Block>, end: nat, d: nat, b: nat)
    requires Placed(ranges, live, blocks, end) && d in live && b < |ranges| && b !in live
    requires ranges[b].size <= ranges[d].size && ranges[b].size % ALIGNMENT == 0
    ensures Placed(ranges[b := Block(ranges[d].offset, ranges[b].size)], live - {d} + {b},
                   blocks + [Block(ranges[d].offset + ranges[b].size, ranges[d].size - ranges[b].size)], end)
  {
    var rest := Block(ranges[d].offset + ranges[b].size, ranges[d].size - ranges[b].size);
    ReleaseKeeps(ranges, live, blocks, end, d);
    var freed := blocks + [ranges[d]];
    TakeKeeps(ranges, live - {d}, freed, end, b, |blocks|);
    assert freed[|blocks| := rest] == blocks + [rest];
  }

  /** The layout after a reuse, whether the free list has room for the rest or not. */
  lemma ReusePlaced(ranges: seq<Block>, live: set<nat>, blocks: seq<Block>, end: nat, d: nat, b: nat)
    requires Placed(ranges, live, blocks, end) && d in live && b < |ranges| && b !in live
    requires ranges[b].size <= ranges[d].size && ranges[b].size % ALIGNMENT == 0
    ensures var after := ranges[b := Block(ranges[d].offset, ranges[b].size)];
            && Placed(after, live - {d} + {b}, Reused(blocks, ranges[d], ranges[b].size), end)
            && Placed(after, live - {d} + {b}, blocks, end)
  {
    var after := ranges[b := Block(ranges[d].offset, ranges[b].size)];
    var more := blocks + [Block(ranges[d].offset + ranges[b].size, ranges[d].size - ranges[b].size)];
    ReuseSplit(ranges, live, blocks, end, d, b);
    ForgetKeeps(after, live - {d} + {b}, more, end, |blocks|);
    assert SwapRemove(more, |blocks|) == blocks;
  }

  /** A born slot takes the front of the bytes of a dying slot. */
  lemma ReuseStep(slots: seq<TensorSlot>, ranges: seq<Block>, live: set<nat>, done: set<nat>,
                  blocks: seq<Block>, end: nat, op: nat, d: nat, b: nat)
    requires Sweeping(slots, ranges, live, done, blocks, end, op)
    requires d in live && slots[d].death < op
    requires b in Internal(slots) && b !in done && slots[b].birth == op
    requires ranges[b].size <= ranges[d].size && ranges[b].size % ALIGNMENT == 0
    ensures Sweeping(slots, ranges[b := Block(ranges[d].offset, ranges[b].size)], live - {d} + {b}, done + {b},
                     Reused(blocks, ranges[d], ranges[b].size), end, op)
  {
    var after := ranges[b := Block(ranges[d].offset, ranges[b].size)];
    ReusePlaced(ranges, live, blocks, end, d, b);
    SeparatedGrows(slots, ranges, after, live - {d} + {b}, done, blocks, end, end, b);
    BytesMoved(after, ranges, done + {b}, |ranges|);
    BytesMono(ranges, done, done + {b}, |ranges|);
  }

  /** A born slot takes the front of a block of the free list. */
  lemma TakeStep(slots: seq<TensorSlot>, ranges: seq<Block>, live: set<nat>, done: set<nat>,
                 blocks: seq<Block>, end: nat, op: nat, b: nat, f: nat)
    requires Sweeping(slots, ranges, live, done, blocks, end, op)
    requires b in Internal(slots) && b !in done && slots[b].birth == op
    requires f < |blocks| && ranges[b].size <= blocks[f].size && ranges[b].size % ALIGNMENT == 0
    ensures Sweeping(slots, ranges[b := Block(blocks[f].offset, ranges[b].size)], live + {b}, done + {b},
                     Shrunk(blocks, f, ranges[b].size), end, op)
  {
    var after := ranges[b := Block(blocks[f].offset, ranges[b].size)];
    var rest := Block(blocks[f].offset + ranges[b].size, blocks[f].size - ranges[b].size);
    TakeKeeps(ranges, live, blocks, end, b, f);
    var more := blocks[f := rest];
    if rest.size == 0 {
      ForgetKeeps(after, live + {b}, more, end, f);
      assert SwapRemove(more, f) == SwapRemove(blocks, f);
    }
    SeparatedGrows(slots, ranges, after, live + {b}, done, more, end, end, b);
    BytesMoved(after, ranges, done + {b}, |ranges|);
    BytesMono(ranges, done, done + {b}, |ranges|);
  }

  /** A born slot that fits nowhere extends the pool. */
  lemma FreshStep(slots: seq<TensorSlot>, ranges: seq<Block>, live: set<nat>, done: set<nat>,
                  blocks: seq<Block>, end: nat, op: nat, b: nat)
    requires Sweeping(slots, ranges, live, done, blocks, end, op)
    requires b in Internal(slots) && b !in done && slots[b].birth == op
    requires ranges[b].size % ALIGNMENT == 0
    ensures Sweeping(slots, ranges[b := Block(end, ranges[b].size)], live + {b}, done + {b}, blocks,
                     end + ranges[b].size, op)
    ensures end + ranges[b].size <= Bytes(ranges, Internal(slots), |ranges|)
  {
    var after := ranges[b := Block(end, ranges[b].size)];
    FreshKeeps(ranges, live, blocks, end, b);
    SeparatedGrows(slots, ranges, after, live + {b}, done, blocks, end, end + ranges[b].size, b);
    BytesMoved(after, ranges, done + {b}, |ranges|);
    BytesAdd(ranges, done, b, |ranges|);
    BytesMono(ranges, done + {b}, Internal(slots), |ranges|);
  }
}
