/**
 * The account of the memory pool: every byte of the pool belongs to a live slot,
 * is in the free list, or was lost because the list was full.  The ledger also
 * keeps every growth of the pool, with the free list that could not serve it.
 */
module PoolLedger {
  import opened Basics
  import opened PlanLayout

  /** Slot made the pool grow from end on, while these slots were live and these blocks were free. */
  datatype Growth = Growth(slot: nat, end: nat, live: set<nat>, free: seq<Block>, lost: nat)

  datatype Ledger = Ledger(lost: nat, growths: seq<Growth>)

  /** Every internal slot has the same rounded size. */
  ghost predicate Uniform(slots: seq<TensorSlot>, size: nat) {
    forall s :: s in Internal(slots) ==> Size(slots[s]) == size
  }

  ghost predicate AllSized(blocks: seq<Block>, size: nat) {
    forall i :: 0 <= i < |blocks| ==> blocks[i].size == size
  }

  /** Slots of one size leave only blocks of that size. */
  ghost predicate UniformKept(slots: seq<TensorSlot>, blocks: seq<Block>) {
    forall size: nat :: Uniform(slots, size) ==> AllSized(blocks, size)
  }

  /** The live slots, the free blocks and the lost bytes make up the pool. */
  ghost predicate Balanced(slots: seq<TensorSlot>, live: set<nat>, blocks: seq<Block>, lost: nat, end: nat) {
    Bytes(Ranges(slots), live, |slots|) + BlockBytes(blocks) + lost == end
  }

  /** Bytes are lost only when more slots than the free list has blocks are planned. */
  ghost predicate LossFits(slots: seq<TensorSlot>, lost: nat) {
    lost > 0 ==> |Internal(slots)| > MAX_FREE
  }

  /**
   * A growth was needed: no free block held the slot, and the free blocks were all
   * of the pool that was not live or lost.  The slot is at the old end of the pool.
   */
  ghost predicate GrowthFits(slots: seq<TensorSlot>, ranges: seq<Block>, done: set<nat>, g: Growth)
    requires |ranges| == |slots|
  {
    && g.slot in Internal(slots) && g.slot !in g.live && g.live + {g.slot} <= done
    && g.live + {g.slot} <= LiveAt(slots, slots[g.slot].birth) && ranges[g.slot].offset == g.end
    && Balanced(slots, g.live, g.free, g.lost, g.end) && LossFits(slots, g.lost)
    && (forall i :: 0 <= i < |g.free| ==> g.free[i].size < Size(slots[g.slot]))
    && UniformKept(slots, g.free) && Laid(ranges, g.live, g.free, g.end)
  }

  ghost function SizeAt(slots: seq<TensorSlot>, s: nat): nat {
    if s < |slots| then Size(slots[s]) else 0
  }

  ghost function GrownTo(slots: seq<TensorSlot>, growths: seq<Growth>): nat {
    if growths == [] then 0
    else GrownTo(slots, growths[..|growths| - 1]) + SizeAt(slots, growths[|growths| - 1].slot)
  }

  /** The pool is the sum of its growths, and each growth was needed. */
  ghost predicate Grown(slots: seq<TensorSlot>, ranges: seq<Block>, done: set<nat>, growths: seq<Growth>, end: nat) {
    && |ranges| == |slots| && end == GrownTo(slots, growths)
    && (forall k :: 0 <= k < |growths| ==> GrowthFits(slots, ranges, done, growths[k]))
    && (forall k :: 0 <= k < |growths| ==> GrewFrom(slots, growths, k))
  }

  /** Growth k begins where the growths before it end. */
  ghost predicate GrewFrom(slots: seq<TensorSlot>, growths: seq<Growth>, k: nat)
    requires k < |growths|
  {
    growths[k].end == GrownTo(slots, growths[..k])
  }

  ghost predicate Accounted(slots: seq<TensorSlot>, ranges: seq<Block>, live: set<nat>, done: set<nat>, blocks: seq<Block>,
                            end: nat, ledger: Ledger) {
    && Balanced(slots, live, blocks, ledger.lost, end) && LossFits(slots, ledger.lost)
    && |blocks| + |live| <= |done| && UniformKept(slots, blocks)
    && Grown(slots, ranges, done, ledger.growths, end)
  }

  // ------------------------------------------------------------- the steps

  /** The bytes that a full free list loses. */
  ghost function LostBy(blocks: seq<Block>, size: nat): nat {
    if |blocks| < MAX_FREE then 0 else size
  }

  /** A freed block is in the list, or its bytes are lost. */
  lemma FreedBalances(blocks: seq<Block>, b: Block)
    ensures BlockBytes(Freed(blocks, b)) + LostBy(blocks, b.size) == BlockBytes(blocks) + b.size
    ensures |Freed(blocks, b)| <= |blocks| + 1
  {
    BlockBytesAppend(blocks, b);
  }

  lemma LiveShrinks(live: set<nat>, done: set<nat>, d: nat)
    requires d in live
    ensures |live - {d}| == |live| - 1
  {
  }

  /** While fewer slots than MAX_FREE are done, a live slot has room in the free list. */
  lemma RoomToFree(slots: seq<TensorSlot>, live: set<nat>, done: set<nat>, blocks: seq<Block>, d: nat, size: nat)
    requires d in live && done <= Internal(slots) && |blocks| + |live| <= |done|
    ensures LossFits(slots, LostBy(blocks, size))
  {
    PartSize(done, Internal(slots));
    LiveShrinks(live, done, d);
  }

  lemma UniformFreed(slots: seq<TensorSlot>, blocks: seq<Block>, b: Block, d: nat)
    requires UniformKept(slots, blocks) && d in Internal(slots) && b.size == Size(slots[d])
    ensures UniformKept(slots, Freed(blocks, b))
  {
    forall size: nat | Uniform(slots, size) ensures AllSized(Freed(blocks, b), size) {
      assert AllSized(blocks, size);
    }
  }

  /** A released slot. */
  lemma ReleaseCounts(slots: seq<TensorSlot>, ranges: seq<Block>, live: set<nat>, done: set<nat>, blocks: seq<Block>,
                      end: nat, ledger: Ledger, d: nat, b: Block)
    requires Accounted(slots, ranges, live, done, blocks, end, ledger) && live <= done <= Internal(slots)
    requires d in live && b.size == Size(slots[d])
    ensures Accounted(slots, ranges, live - {d}, done, Freed(blocks, b), end,
                      ledger.(lost := ledger.lost + LostBy(blocks, b.size)))
  {
    BytesRemove(Ranges(slots), live, d);
    FreedBalances(blocks, b);
    LiveShrinks(live, done, d);
    RoomToFree(slots, live, done, blocks, d, b.size);
    UniformFreed(slots, blocks, b, d);
  }

  /** A slot that gets its bytes does not touch the slots of earlier growths. */
  lemma GrowthKept(slots: seq<TensorSlot>, ranges: seq<Block>, done: set<nat>, g: Growth, b: nat, r: Block)
    requires |ranges| == |slots| && GrowthFits(slots, ranges, done, g) && b < |slots| && b !in done
    ensures GrowthFits(slots, ranges[b := r], done + {b}, g)
  {
    assert forall s :: s in g.live ==> ranges[b := r][s] == ranges[s];
  }

  lemma GrownKept(slots: seq<TensorSlot>, ranges: seq<Block>, done: set<nat>, growths: seq<Growth>, end: nat, b: nat, r: Block)
    requires Grown(slots, ranges, done, growths, end) && b < |slots| && b !in done
    ensures Grown(slots, ranges[b := r], done + {b}, growths, end)
  {
    forall k | 0 <= k < |growths| ensures GrowthFits(slots, ranges[b := r], done + {b}, growths[k]) {
      GrowthKept(slots, ranges, done, growths[k], b, r);
    }
  }

  lemma ShrunkBalances(blocks: seq<Block>, f: nat, size: nat)
    requires f < |blocks| && size <= blocks[f].size
    ensures BlockBytes(Shrunk(blocks, f, size)) + size == BlockBytes(blocks)
    ensures |Shrunk(blocks, f, size)| <= |blocks|
  {
    if blocks[f].size == size {
      BlockBytesRemove(blocks, f);
    } else {
      BlockBytesUpdate(blocks, f, Block(blocks[f].offset + size, blocks[f].size - size));
    }
  }

  lemma UniformShrunk(slots: seq<TensorSlot>, blocks: seq<Block>, f: nat, b: nat)
    requires UniformKept(slots, blocks) && b in Internal(slots) && f < |blocks| && Size(slots[b]) <= blocks[f].size
    ensures UniformKept(slots, Shrunk(blocks, f, Size(slots[b])))
  {
    forall size: nat | Uniform(slots, size) ensures AllSized(Shrunk(blocks, f, Size(slots[b])), size) {
      assert AllSized(blocks, size);
    }
  }

  lemma BytesEnter(slots: seq<TensorSlot>, ids: set<nat>, b: nat)
    requires b < |slots| && b !in ids
    ensures Bytes(Ranges(slots), ids + {b}, |slots|) == Bytes(Ranges(slots), ids, |slots|) + Size(slots[b])
  {
    BytesAdd(Ranges(slots), ids, b, |slots|);
  }

  /** A slot that takes the front of a free block. */
  lemma TakeCounts(slots: seq<TensorSlot>, ranges: seq<Block>, live: set<nat>, done: set<nat>, blocks: seq<Block>,
                   end: nat, ledger: Ledger, b: nat, f: nat, r: Block)
    requires Accounted(slots, ranges, live, done, blocks, end, ledger) && live <= done
    requires b in Internal(slots) && b !in done && f < |blocks| && Size(slots[b]) <= blocks[f].size
    ensures Accounted(slots, ranges[b := r], live + {b}, done + {b}, Shrunk(blocks, f, Size(slots[b])), end, ledger)
  {
    BytesEnter(slots, live, b);
    ShrunkBalances(blocks, f, Size(slots[b]));
    UniformShrunk(slots, blocks, f, b);
    GrownKept(slots, ranges, done, ledger.growths, end, b, r);
  }

  /** A slot that takes the front of a dying slot, with the rest freed. */
  lemma ReuseCounts(slots: seq<TensorSlot>, ranges: seq<Block>, live: set<nat>, done: set<nat>, blocks: seq<Block>,
                    end: nat, ledger: Ledger, d: nat, b: nat, dying: Block, r: Block)
    requires Accounted(slots, ranges, live, done, blocks, end, ledger) && live <= done <= Internal(slots)
    requires b in Internal(slots) && b !in done && d in live && dying.size == Size(slots[d]) >= Size(slots[b])
    ensures Accounted(slots, ranges[b := r], live - {d} + {b}, done + {b}, Reused(blocks, dying, Size(slots[b])), end,
                      ledger.(lost := ledger.lost + ReuseLoses(blocks, dying.size, Size(slots[b]))))
  {
    var rest := Block(dying.offset + Size(slots[b]), dying.size - Size(slots[b]));
    BytesRemove(Ranges(slots), live, d);
    BytesEnter(slots, live - {d}, b);
    FreedBalances(blocks, rest);
    LiveShrinks(live, done, d);
    RoomToFree(slots, live, done, blocks, d, rest.size);
    UniformReused(slots, blocks, dying, d, b);
    GrownKept(slots, ranges, done, ledger.growths, end, b, r);
  }

  ghost function ReuseLoses(blocks: seq<Block>, dying: nat, size: nat): nat
    requires size <= dying
  {
    if size < dying then LostBy(blocks, dying - size) else 0
  }

  lemma UniformReused(slots: seq<TensorSlot>, blocks: seq<Block>, dying: Block, d: nat, b: nat)
    requires UniformKept(slots, blocks) && d in Internal(slots) && b in Internal(slots)
    requires dying.size == Size(slots[d]) >= Size(slots[b])
    ensures UniformKept(slots, Reused(blocks, dying, Size(slots[b])))
  {
    forall size: nat | Uniform(slots, size) ensures AllSized(Reused(blocks, dying, Size(slots[b])), size) {
      assert AllSized(blocks, size);
    }
  }

  /** A slot that no free block holds, while every live slot is live at its birth. */
  lemma FreshCounts(slots: seq<TensorSlot>, ranges: seq<Block>, live: set<nat>, done: set<nat>, blocks: seq<Block>,
                    end: nat, ledger: Ledger, b: nat)
    requires Accounted(slots, ranges, live, done, blocks, end, ledger) && live <= done && Laid(ranges, live, blocks, end)
    requires b in Internal(slots) && b !in done && live + {b} <= LiveAt(slots, slots[b].birth)
    requires forall i :: 0 <= i < |blocks| ==> blocks[i].size < Size(slots[b])
    ensures Accounted(slots, ranges[b := Block(end, Size(slots[b]))], live + {b}, done + {b}, blocks, end + Size(slots[b]),
                      ledger.(growths := ledger.growths + [Growth(b, end, live, blocks, ledger.lost)]))
  {
    var r, g := Block(end, Size(slots[b])), Growth(b, end, live, blocks, ledger.lost);
    BytesEnter(slots, live, b);
    GrownKept(slots, ranges, done, ledger.growths, end, b, r);
    assert forall s :: s in live ==> ranges[b := r][s] == ranges[s];
    assert GrowthFits(slots, ranges[b := r], done + {b}, g);
    GrownMore(slots, ranges[b := r], done + {b}, ledger.growths, end, g);
  }

  lemma GrownMore(slots: seq<TensorSlot>, ranges: seq<Block>, done: set<nat>, growths: seq<Growth>, end: nat, g: Growth)
    requires Grown(slots, ranges, done, growths, end) && GrowthFits(slots, ranges, done, g) && g.end == end
    ensures Grown(slots, ranges, done, growths + [g], end + SizeAt(slots, g.slot))
  {
    assert (growths + [g])[..|growths|] == growths;
    forall k: nat | k < |growths| ensures GrewFrom(slots, growths + [g], k) {
      GrewSame(slots, growths, g, k);
    }
  }

  lemma GrewSame(slots: seq<TensorSlot>, growths: seq<Growth>, g: Growth, k: nat)
    requires k < |growths| && GrewFrom(slots, growths, k)
    ensures GrewFrom(slots, growths + [g], k)
  {
    assert (growths + [g])[..k] == growths[..k];
  }

  // -------------------------------------------------------------- the moves

  /** The pool of a sweep at an op: its slots, its free list, its end and its ledger. */
  datatype Pool = Pool(ranges: seq<Block>, live: set<nat>, done: set<nat>, blocks: seq<Block>, end: nat, ledger: Ledger, op: nat)

  datatype Move = Release(d: nat) | Reuse(d: nat, b: nat) | Take(b: nat, f: nat) | Grow(b: nat) | NextOp

  ghost predicate RangesSized(slots: seq<TensorSlot>, ranges: seq<Block>) {
    |ranges| == |slots| && forall i :: 0 <= i < |slots| ==> ranges[i].size == Size(slots[i])
  }

  /** A slot that begins at this op and has no bytes yet. */
  ghost predicate Beginning(slots: seq<TensorSlot>, p: Pool, b: nat) {
    b in Internal(slots) && b !in p.done && slots[b].birth == p.op && |p.ranges| == |slots|
  }

  /** A slot that ended before this op and still has its bytes. */
  ghost predicate Ending(slots: seq<TensorSlot>, p: Pool, d: nat) {
    d in p.live && d < |slots| && slots[d].death < p.op && |p.ranges| == |slots| && p.ranges[d].size == Size(slots[d])
  }

  /**
   * What a sweep may do at an op.  It grows the pool only for a slot that no free
   * block holds, and only when every live slot is live at this op.
   */
  ghost predicate Legal(slots: seq<TensorSlot>, p: Pool, m: Move) {
    match m
    case Release(d) => Ending(slots, p, d)
    case Reuse(d, b) => Ending(slots, p, d) && Beginning(slots, p, b) && Size(slots[b]) <= Size(slots[d])
    case Take(b, f) => Beginning(slots, p, b) && f < |p.blocks| && Size(slots[b]) <= p.blocks[f].size
    case Grow(b) =>
      && Beginning(slots, p, b) && p.live + {b} <= LiveAt(slots, p.op)
      && (forall i :: 0 <= i < |p.blocks| ==> p.blocks[i].size < Size(slots[b]))
    case NextOp => true
  }

  ghost function Moved(slots: seq<TensorSlot>, p: Pool, m: Move): Pool
    requires Legal(slots, p, m)
  {
    match m
    case Release(d) => p.(live := p.live - {d}, blocks := Freed(p.blocks, p.ranges[d]),
                          ledger := Losing(p.ledger, LostBy(p.blocks, Size(slots[d]))))
    case Reuse(d, b) => p.(ranges := p.ranges[b := Block(p.ranges[d].offset, Size(slots[b]))], live := p.live - {d} + {b},
                           done := p.done + {b}, blocks := Reused(p.blocks, p.ranges[d], Size(slots[b])),
                           ledger := Losing(p.ledger, ReuseLoses(p.blocks, Size(slots[d]), Size(slots[b]))))
    case Take(b, f) => p.(ranges := p.ranges[b := Block(p.blocks[f].offset, Size(slots[b]))], live := p.live + {b},
                          done := p.done + {b}, blocks := Shrunk(p.blocks, f, Size(slots[b])))
    case Grow(b) => p.(ranges := p.ranges[b := Block(p.end, Size(slots[b]))], live := p.live + {b}, done := p.done + {b},
                       end := p.end + Size(slots[b]),
                       ledger := Growing(p.ledger, Growth(b, p.end, p.live, p.blocks, p.ledger.lost)))
    case NextOp => p.(op := p.op + 1)
  }

  ghost function Losing(ledger: Ledger, lost: nat): Ledger {
    ledger.(lost := ledger.lost + lost)
  }

  ghost function Growing(ledger: Ledger, g: Growth): Ledger {
    ledger.(growths := ledger.growths + [g])
  }

  /** The pool is what the moves make of an empty one. */
  ghost predicate Follows(slots: seq<TensorSlot>, moves: seq<Move>, p: Pool)
    decreases |moves|
  {
    if moves == [] then p == Pool(p.ranges, {}, {}, [], 0, Ledger(0, []), 0) && RangesSized(slots, p.ranges)
    else exists q: Pool :: Follows(slots, moves[..|moves| - 1], q) && Makes(slots, q, Last(moves), p)
  }

  ghost function Last(moves: seq<Move>): Move
    requires moves != []
  {
    moves[|moves| - 1]
  }

  ghost predicate Makes(slots: seq<TensorSlot>, q: Pool, m: Move, p: Pool) {
    Legal(slots, q, m) && p == Moved(slots, q, m)
  }

  lemma FollowsMore(slots: seq<TensorSlot>, moves: seq<Move>, q: Pool, m: Move, p: Pool)
    requires Follows(slots, moves, q) && Makes(slots, q, m, p)
    ensures Follows(slots, moves + [m], p)
  {
    assert (moves + [m])[..|moves|] == moves && Last(moves + [m]) == m;
  }

  ghost predicate LaidOut(slots: seq<TensorSlot>, p: Pool) {
    RangesSized(slots, p.ranges) && Sweeping(slots, p.ranges, p.live, p.done, p.blocks, p.end, p.op)
  }

  ghost predicate Balances(slots: seq<TensorSlot>, p: Pool) {
    Accounted(slots, p.ranges, p.live, p.done, p.blocks, p.end, p.ledger)
  }

  lemma SizedPlaced(slots: seq<TensorSlot>, ranges: seq<Block>, b: nat, offset: nat)
    requires RangesSized(slots, ranges) && b < |slots|
    ensures Block(offset, Size(slots[b])) == Block(offset, ranges[b].size) && ranges[b].size % ALIGNMENT == 0
    ensures RangesSized(slots, ranges[b := Block(offset, Size(slots[b]))])
  {
  }

  lemma MoveLaysOut(slots: seq<TensorSlot>, p: Pool, m: Move)
    requires LaidOut(slots, p) && Legal(slots, p, m)
    ensures LaidOut(slots, Moved(slots, p, m))
  {
    match m
    case Release(d) => ReleaseStep(slots, p.ranges, p.live, p.done, p.blocks, p.end, p.op, d);
    case Reuse(d, b) => ReuseLaysOut(slots, p, d, b);
    case Take(b, f) => TakeLaysOut(slots, p, b, f);
    case Grow(b) => GrowLaysOut(slots, p, b);
    case NextOp =>
  }

  lemma ReuseLaysOut(slots: seq<TensorSlot>, p: Pool, d: nat, b: nat)
    requires LaidOut(slots, p) && Legal(slots, p, Reuse(d, b))
    ensures LaidOut(slots, Moved(slots, p, Reuse(d, b)))
  {
    SizedPlaced(slots, p.ranges, b, p.ranges[d].offset);
    ReuseStep(slots, p.ranges, p.live, p.done, p.blocks, p.end, p.op, d, b);
  }

  lemma TakeLaysOut(slots: seq<TensorSlot>, p: Pool, b: nat, f: nat)
    requires LaidOut(slots, p) && Legal(slots, p, Take(b, f))
    ensures LaidOut(slots, Moved(slots, p, Take(b, f)))
  {
    SizedPlaced(slots, p.ranges, b, p.blocks[f].offset);
    TakeStep(slots, p.ranges, p.live, p.done, p.blocks, p.end, p.op, b, f);
  }

  lemma GrowLaysOut(slots: seq<TensorSlot>, p: Pool, b: nat)
    requires LaidOut(slots, p) && Legal(slots, p, Grow(b))
    ensures LaidOut(slots, Moved(slots, p, Grow(b)))
  {
    SizedPlaced(slots, p.ranges, b, p.end);
    FreshStep(slots, p.ranges, p.live, p.done, p.blocks, p.end, p.op, b);
  }

  /** What the account of a move needs of the layout. */
  ghost predicate Nested(slots: seq<TensorSlot>, p: Pool) {
    p.live <= p.done <= Internal(slots) && Laid(p.ranges, p.live, p.blocks, p.end)
  }

  lemma MoveBalances(slots: seq<TensorSlot>, p: Pool, m: Move)
    requires Balances(slots, p) && Nested(slots, p) && Legal(slots, p, m)
    ensures Balances(slots, Moved(slots, p, m))
  {
    match m
    case Release(d) => ReleaseCounts(slots, p.ranges, p.live, p.done, p.blocks, p.end, p.ledger, d, p.ranges[d]);
    case Reuse(d, b) =>
      ReuseCounts(slots, p.ranges, p.live, p.done, p.blocks, p.end, p.ledger, d, b, p.ranges[d],
                  Block(p.ranges[d].offset, Size(slots[b])));
    case Take(b, f) =>
      TakeCounts(slots, p.ranges, p.live, p.done, p.blocks, p.end, p.ledger, b, f, Block(p.blocks[f].offset, Size(slots[b])));
    case Grow(b) => FreshCounts(slots, p.ranges, p.live, p.done, p.blocks, p.end, p.ledger, b);
    case NextOp =>
  }

  lemma StartSound(slots: seq<TensorSlot>, p: Pool)
    requires Follows(slots, [], p)
    ensures LaidOut(slots, p) && Balances(slots, p)
  {
    NoBytes(p.ranges, |slots|);
    NoBytes(Ranges(slots), |slots|);
  }

  lemma {:induction false} NoBytes(ranges: seq<Block>, n: nat)
    requires n <= |ranges|
    ensures Bytes(ranges, {}, n) == 0
  {
    if n > 0 {
      NoBytes(ranges, n - 1);
    }
  }

  /** After any moves, live slots and free blocks are apart and inside the pool. */
  lemma {:induction false} AlwaysLaidOut(slots: seq<TensorSlot>, moves: seq<Move>, p: Pool)
    requires Follows(slots, moves, p)
    ensures LaidOut(slots, p)
    decreases |moves|
  {
    if moves == [] {
      StartSound(slots, p);
    } else {
      var q: Pool :| Follows(slots, moves[..|moves| - 1], q) && Makes(slots, q, Last(moves), p);
      AlwaysLaidOut(slots, moves[..|moves| - 1], q);
      MoveLaysOut(slots, q, Last(moves));
    }
  }

  lemma AlwaysNested(slots: seq<TensorSlot>, moves: seq<Move>, p: Pool)
    requires Follows(slots, moves, p)
    ensures Nested(slots, p)
  {
    AlwaysLaidOut(slots, moves, p);
  }

  /** After any moves, every byte of the pool is accounted for, and every growth was needed. */
  lemma {:induction false} AlwaysBalances(slots: seq<TensorSlot>, moves: seq<Move>, p: Pool)
    requires Follows(slots, moves, p)
    ensures Balances(slots, p)
    decreases |moves|
  {
    if moves == [] {
      StartSound(slots, p);
    } else {
      var q: Pool :| Follows(slots, moves[..|moves| - 1], q) && Makes(slots, q, Last(moves), p);
      AlwaysBalances(slots, moves[..|moves| - 1], q);
      AlwaysNested(slots, moves[..|moves| - 1], q);
      MoveBalances(slots, q, Last(moves));
    }
  }

  /** The sets of a pool. */
  lemma SetsOf(slots: seq<TensorSlot>, moves: seq<Move>, p: Pool)
    requires Follows(slots, moves, p)
    ensures p.live <= p.done <= Internal(slots)
    ensures forall s :: s in p.done && slots[s].death >= p.op ==> s in p.live
  {
    AlwaysLaidOut(slots, moves, p);
  }

  /** The pool is no larger than the bytes of all slots, and no block or live slot goes past its end. */
  lemma EndsOf(slots: seq<TensorSlot>, moves: seq<Move>, p: Pool)
    requires Follows(slots, moves, p)
    ensures |p.ranges| == |slots| && p.end <= Bytes(Ranges(slots), Internal(slots), |slots|)
    ensures forall i :: 0 <= i < |p.blocks| ==> p.blocks[i].offset + p.blocks[i].size <= p.end
    ensures forall s :: s in p.live ==> s < |slots| && p.ranges[s].offset + p.ranges[s].size <= p.end
  {
    AlwaysLaidOut(slots, moves, p);
    BytesMoved(p.ranges, Ranges(slots), p.done, |slots|);
    BytesMono(Ranges(slots), p.done, Internal(slots), |slots|);
    forall i | 0 <= i < |p.blocks| ensures p.blocks[i].offset + p.blocks[i].size <= p.end {
      assert InPool(p.blocks[i], p.end);
    }
  }

  // ---------------------------------------------------------- what follows

  lemma UniformServes(blocks: seq<Block>, size: nat)
    requires AllSized(blocks, size)
    ensures blocks == [] || blocks[0].size == size
  {
  }

  /**
   * Slots of one size, as many as the free list has blocks or fewer: the pool is no
   * larger than the bytes that are live at one op.
   */
  lemma UniformPool(slots: seq<TensorSlot>, ranges: seq<Block>, done: set<nat>, growths: seq<Growth>, pool: nat, size: nat)
    returns (op: nat)
    requires Grown(slots, ranges, done, growths, pool) && Uniform(slots, size) && |Internal(slots)| <= MAX_FREE
    ensures pool <= Bytes(Ranges(slots), LiveAt(slots, op), |slots|)
  {
    op := 0;
    if growths != [] {
      var g := growths[|growths| - 1];
      assert GrowthFits(slots, ranges, done, g) && GrewFrom(slots, growths, |growths| - 1);
      UniformServes(g.free, size);
      op := slots[g.slot].birth;
      BytesEnter(slots, g.live, g.slot);
      BytesMono(Ranges(slots), g.live + {g.slot}, LiveAt(slots, op), |slots|);
    }
  }
}
