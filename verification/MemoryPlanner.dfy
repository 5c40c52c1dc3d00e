/**
 * The static memory planner: it gives every internal tensor slot of a trace an
 * offset in one pool.  Slots are bucketed by their birth and by the op after
 * their death, and a sweep over the ops hands bytes from dying slots to born
 * slots, directly or through a bounded free list.
 */
module MemoryPlanner {
  import opened PlanLayout
  import opened PoolLedger
  import opened CountingSort
  import opened Basics

  datatype MemoryPlan = MemoryPlan(poolBytes: nat, numExternal: nat)

  lemma NoWrap(a: nat, b: nat)
    requires a + b < U64
    ensures Add64(a, b) == a + b
  {
  }

  lemma RangesUpdate(slots: seq<TensorSlot>, b: nat, offset: nat)
    requires b < |slots|
    ensures Ranges(slots[b := slots[b].(offset := offset)])
         == Ranges(slots)[b := Block(offset, Ranges(slots)[b].size)]
  {
  }

  lemma RangesShape(slots: seq<TensorSlot>, shape: seq<TensorSlot>)
    requires SameShape(slots, shape)
    ensures forall i :: 0 <= i < |slots| ==> Ranges(slots)[i].size == Ranges(shape)[i].size
  {
  }

  /** A dying slot is live until it is consumed, and a born slot is done when it is served. */
  ghost predicate Used(live: set<nat>, done: set<nat>, dying: seq<nat>, born: seq<nat>, consumed: seq<bool>, served: seq<bool>) {
    && (forall i :: 0 <= i < |dying| ==> dying[i] in done && (dying[i] in live <==> !(i < |consumed| && consumed[i])))
    && (forall k :: 0 <= k < |born| ==> (born[k] in done <==> k < |served| && served[k]))
  }

  lemma MatchStep(live: set<nat>, done: set<nat>, dying: seq<nat>, born: seq<nat>, consumed: seq<bool>, served: seq<bool>,
                  best: nat, j: nat)
    requires Used(live, done, dying, born, consumed, served)
    requires best < |consumed| <= |dying| && !consumed[best] && j < |served| <= |born| && !served[j]
    requires forall i, k :: 0 <= i < k < |dying| ==> dying[i] != dying[k]
    requires forall i, k :: 0 <= i < k < |born| ==> born[i] != born[k]
    ensures Used(live - {dying[best]} + {born[j]}, done + {born[j]}, dying, born, consumed[best := true], served[j := true])
  {
  }

  /** The first n born slots are done, and of the others those that a dying slot serves. */
  ghost predicate ServedUpTo(done: set<nat>, born: seq<nat>, served: seq<bool>, n: nat) {
    forall k :: 0 <= k < |born| ==> (born[k] in done <==> k < n || (k < |served| && served[k]))
  }

  lemma OneMoreServed(done: set<nat>, born: seq<nat>, served: seq<bool>, n: nat)
    requires ServedUpTo(done, born, served, n) && n < |born|
    requires forall i, k :: 0 <= i < k < |born| ==> born[i] != born[k]
    ensures ServedUpTo(if n < |served| && served[n] then done else done + {born[n]}, born, served, n + 1)
    ensures !(n < |served| && served[n]) ==> born[n] !in done
  {
  }

  /** The mutable state of one sweep: the slots, the free list and the end of the pool. */
  class Sweep {
    const slots: array<TensorSlot>
    const freeList: array<Block>
    var freeCount: nat
    var poolEnd: nat
    ghost const shape: seq<TensorSlot>
    ghost var live: set<nat>
    ghost var done: set<nat>
    ghost var ledger: Ledger
    ghost var moves: seq<Move>

    constructor (slots: array<TensorSlot>)
      requires Fits(slots[..])
      ensures this.slots == slots && fresh(freeList) && shape == slots[..]
      ensures done == {} && live == {} && Valid(0)
    {
      this.slots := slots;
      freeList := new Block[MAX_FREE](_ => Block(0, 0));
      freeCount, poolEnd := 0, 0;
      shape := slots[..];
      live, done, ledger, moves := {}, {}, Ledger(0, []), [];
    }

    ghost predicate Shaped()
      reads this, slots, freeList
    {
      && freeList.Length == MAX_FREE && freeCount <= MAX_FREE
      && SameShape(slots[..], shape) && Fits(shape)
    }

    /** The slots, the free list and the end of the pool are what the moves of the sweep make. */
    ghost predicate Valid(op: nat)
      reads this, slots, freeList
    {
      Shaped() && Follows(shape, moves, State(op))
    }

    ghost function State(op: nat): Pool
      requires freeCount <= freeList.Length
      reads this, slots, freeList
    {
      Pool(Ranges(slots[..]), live, done, freeList[..freeCount], poolEnd, ledger, op)
    }

    /** One more move: the state that it makes follows. */
    ghost method MakeMove(op: nat, m: Move) returns (next: Pool)
      requires Valid(op) && Legal(shape, State(op), m)
      modifies this`moves
      ensures next == Moved(shape, State(op), m) && Follows(shape, moves, next)
    {
      next := Moved(shape, State(op), m);
      FollowsMore(shape, moves, State(op), m, next);
      moves := moves + [m];
    }

    ghost method EnterOp(op: nat)
      requires Valid(op)
      modifies this`moves
      ensures Valid(op + 1)
    {
      var _ := MakeMove(op, NextOp);
    }

    /** Adds a block to the free list.  The bytes are lost exactly when MAX_FREE blocks are in the list. */
    method FreeBlock(offset: nat, size: nat)
      requires Shaped()
      modifies this`freeCount, this`ledger, freeList
      ensures Shaped()
      ensures freeList[..freeCount] == Freed(old(freeList[..freeCount]), Block(offset, size))
      ensures ledger == Losing(old(ledger), LostBy(old(freeList[..freeCount]), size))
      ensures old(freeCount) < MAX_FREE ==>
                ledger == old(ledger) && freeList[..freeCount] == old(freeList[..freeCount]) + [Block(offset, size)]
    {
      ledger := Losing(ledger, LostBy(freeList[..freeCount], size));
      if freeCount < MAX_FREE {
        freeList[freeCount] := Block(offset, size);
        freeCount := freeCount + 1;
      }
    }

    method SetOffset(s: nat, offset: nat)
      requires Shaped() && s < slots.Length
      modifies slots
      ensures Shaped()
      ensures slots[..] == old(slots[..])[s := old(slots[s]).(offset := offset)]
      ensures Ranges(slots[..]) == old(Ranges(slots[..]))[s := Block(offset, old(Ranges(slots[..]))[s].size)]
    {
      RangesUpdate(slots[..], s, offset);
      slots[s] := slots[s].(offset := offset);
    }

    /** The first free block that holds size bytes, or the count of blocks. */
    method FindFit(size: nat) returns (f: nat)
      requires Shaped()
      ensures f <= freeCount
      ensures forall i :: 0 <= i < f ==> freeList[i].size < size
      ensures f < freeCount ==> freeList[f].size >= size
    {
      f := 0;
      while f < freeCount && freeList[f].size < size
        invariant f <= freeCount && forall i :: 0 <= i < f ==> freeList[i].size < size
      {
        f := f + 1;
      }
    }

    /** A born slot that no dying slot serves: first fit in the free list, else the pool grows. */
    method AllocSlot(s: nat, size: nat, op: nat)
      requires Valid(op) && s in Internal(shape) && s !in done && shape[s].birth == op
      requires size == Size(slots[s]) && live + {s} <= LiveAt(shape, op)
      modifies this`freeCount, this`poolEnd, this`live, this`done, this`ledger, this`moves, slots, freeList
      ensures Valid(op)
      ensures done == old(done) + {s} && live == old(live) + {s}
      ensures SlotsExcept(s, old(slots[..])) && poolEnd >= old(poolEnd)
      ensures slots[s].offset == FitOffset(old(freeList[..freeCount]), size, old(poolEnd))
    {
      var f := FindFit(size);
      FitOffsetIs(freeList[..freeCount], size, poolEnd, f);
      if f < freeCount {
        TakeBlock(s, size, op, f);
      } else {
        ExtendPool(s, size, op);
      }
    }

    ghost predicate SlotsExcept(s: nat, before: seq<TensorSlot>)
      requires s < slots.Length
      reads slots
    {
      slots.Length == |before| && slots[..] == before[s := slots[s]]
    }

    method TakeBlock(s: nat, size: nat, op: nat, f: nat)
      requires Valid(op) && s in Internal(shape) && s !in done && shape[s].birth == op
      requires size == Size(slots[s]) && f < freeCount && freeList[f].size >= size
      modifies this`freeCount, this`poolEnd, this`live, this`done, this`ledger, this`moves, slots, freeList
      ensures Valid(op)
      ensures done == old(done) + {s} && live == old(live) + {s}
      ensures SlotsExcept(s, old(slots[..])) && slots[s].offset == old(freeList[f]).offset && poolEnd == old(poolEnd)
    {
      BlockFits(op, f);
      ghost var next := MakeMove(op, Take(s, f));
      var offset := freeList[f].offset;
      ShrinkBlock(f, size);
      live, done := live + {s}, done + {s};
      SetOffset(s, offset);
      assert State(op) == next;
    }

    /** Block f loses its first size bytes, and leaves the list when none remain. */
    method ShrinkBlock(f: nat, size: nat)
      requires Shaped() && f < freeCount && size <= freeList[f].size
      requires freeList[f].offset + size < U64
      modifies this`freeCount, freeList
      ensures Shaped()
      ensures freeList[..freeCount] == Shrunk(old(freeList[..freeCount]), f, size)
    {
      if freeList[f].size == size {
        freeCount := freeCount - 1;
        freeList[f] := freeList[freeCount];
      } else {
        freeList[f] := Block(Add64(freeList[f].offset, size), freeList[f].size - size);
      }
    }

    method ExtendPool(s: nat, size: nat, op: nat)
      requires Valid(op) && s in Internal(shape) && s !in done && shape[s].birth == op
      requires size == Size(slots[s]) && live + {s} <= LiveAt(shape, op)
      requires forall i :: 0 <= i < freeCount ==> freeList[i].size < size
      modifies this`freeCount, this`poolEnd, this`live, this`done, this`ledger, this`moves, slots
      ensures Valid(op)
      ensures done == old(done) + {s} && live == old(live) + {s}
      ensures SlotsExcept(s, old(slots[..])) && slots[s].offset == old(poolEnd) && poolEnd >= old(poolEnd)
    {
      ghost var blocks := freeList[..freeCount];
      ghost var next := MakeMove(op, Grow(s));
      EndsOf(shape, moves, next);
      NoWrap(poolEnd, size);
      ledger := Growing(ledger, Growth(s, poolEnd, live, blocks, ledger.lost));
      var offset := poolEnd;
      poolEnd := Add64(poolEnd, size);
      live, done := live + {s}, done + {s};
      SetOffset(s, offset);
      assert State(op) == next;
    }

    /** A dying slot that no born slot took gives its bytes to the free list. */
    method ReleaseSlot(d: nat, op: nat)
      requires Valid(op) && d in live && d < |shape| && shape[d].death < op
      modifies this`freeCount, this`poolEnd, this`live, this`done, this`ledger, this`moves, freeList
      ensures Valid(op)
      ensures done == old(done) && live == old(live) - {d} && poolEnd == old(poolEnd)
    {
      ghost var next := MakeMove(op, Release(d));
      FreeBlock(slots[d].offset, Size(slots[d]));
      live := live - {d};
      assert State(op) == next;
    }

    /** Born slot b takes the bytes of dying slot d, and the rest goes to the free list. */
    method ReuseSlot(d: nat, b: nat, op: nat)
      requires Valid(op) && d in live && d < |shape| && shape[d].death < op
      requires b in Internal(shape) && b !in done && shape[b].birth == op
      requires Size(slots[b]) <= Size(slots[d])
      modifies this`freeCount, this`poolEnd, this`live, this`done, this`ledger, this`moves, slots, freeList
      ensures Valid(op)
      ensures done == old(done) + {b} && live == old(live) - {d} + {b} && poolEnd == old(poolEnd)
      ensures SlotsExcept(b, old(slots[..])) && slots[b].offset == old(slots[d].offset)
    {
      SlotFits(op, d);
      ghost var next := MakeMove(op, Reuse(d, b));
      var offset := slots[d].offset;
      FreeRest(Block(offset, Size(slots[d])), Size(slots[b]));
      live, done := live - {d} + {b}, done + {b};
      SetOffset(b, offset);
      assert State(op) == next;
    }

    method FreeRest(dying: Block, size: nat)
      requires Shaped() && size <= dying.size && dying.offset + size < U64
      modifies this`freeCount, this`ledger, freeList
      ensures Shaped()
      ensures freeList[..freeCount] == Reused(old(freeList[..freeCount]), dying, size)
      ensures ledger == Losing(old(ledger), ReuseLoses(old(freeList[..freeCount]), dying.size, size))
    {
      if size < dying.size {
        FreeBlock(Add64(dying.offset, size), dying.size - size);
      }
    }

    lemma BlockFits(op: nat, f: nat)
      requires Valid(op) && f < freeCount
      ensures freeList[f].offset + freeList[f].size < U64
    {
      EndsOf(shape, moves, State(op));
      assert freeList[..freeCount][f] == freeList[f];
    }

    lemma SlotFits(op: nat, d: nat)
      requires Valid(op) && d in live
      ensures d < slots.Length && slots[d].offset + Size(slots[d]) < U64
    {
      EndsOf(shape, moves, State(op));
    }

    /** Slots that end at this op: each still holds its bytes. */
    ghost predicate AreDying(dying: seq<nat>, op: nat)
      reads this
    {
      && (forall i :: 0 <= i < |dying| ==> dying[i] in live && dying[i] < |shape| && shape[dying[i]].death < op)
      && (forall i, j :: 0 <= i < j < |dying| ==> dying[i] != dying[j])
    }

    ghost predicate Starts(s: nat, op: nat)
      reads this
    {
      s in Internal(shape) && shape[s].birth == op <= shape[s].death
    }

    /** Slots that begin at this op: none has an offset yet. */
    ghost predicate AreBorn(born: seq<nat>, op: nat)
      reads this
    {
      && (forall i :: 0 <= i < |born| ==> born[i] !in done && Starts(born[i], op))
      && (forall i, j :: 0 <= i < j < |born| ==> born[i] != born[j])
    }

    /** What stays true of the done slots while op is swept. */
    ghost predicate DoneWithin(op: nat)
      reads this
    {
      BornBefore(shape, op) <= done <= BornBefore(shape, op + 1)
    }

    /** How far the direct match of an op is: which dying and born slots are used up. */
    ghost predicate Matched(op: nat, dying: seq<nat>, born: seq<nat>, consumed: seq<bool>, served: seq<bool>)
      reads this
    {
      DoneWithin(op) && |consumed| == Capped(dying) && |served| == Capped(born) && Used(live, done, dying, born, consumed, served)
    }

    /** A live slot that ends before op is one of the dying slots. */
    ghost predicate EndsOnly(op: nat, dying: seq<nat>)
      reads this
    {
      forall s :: s in live && s < |shape| && shape[s].death < op ==> s in dying
    }

    /** No unserved slot of the first n born fits an unused dying slot: the match left nothing out. */
    ghost predicate NoneLeft(dying: seq<nat>, born: seq<nat>, consumed: seq<bool>, served: seq<bool>, n: nat)
      reads this
    {
      forall i, j :: 0 <= i < |consumed| && 0 <= j < n && j < |served| && !consumed[i] && !served[j]
                     && i < |dying| && j < |born| && dying[i] < |shape| && born[j] < |shape|
                     ==> Size(shape[dying[i]]) < Size(shape[born[j]])
    }

    /** info holds the ranges of the first dying slots. */
    ghost predicate Described(info: seq<Block>, dying: seq<nat>)
      requires Shaped()
      reads this, slots, freeList
    {
      && |info| == Capped(dying)
      && (forall i :: 0 <= i < |info| ==> dying[i] < slots.Length && info[i] == Ranges(slots[..])[dying[i]])
    }

    /**
     * Gives each of the first born slots the best dying slot that holds it.
     * consumed and served say which of the dying and born slots were used.
     */
    method MatchDying(op: nat, dying: seq<nat>, born: seq<nat>) returns (consumed: seq<bool>, served: seq<bool>)
      requires Valid(op) && AreDying(dying, op) && AreBorn(born, op) && DoneWithin(op) && EndsOnly(op, dying)
      requires live <= done
      modifies this`freeCount, this`poolEnd, this`live, this`done, this`ledger, this`moves, slots, freeList
      ensures Valid(op) && poolEnd == old(poolEnd)
      ensures Matched(op, dying, born, consumed, served) && EndsOnly(op, dying)
      ensures NoneLeft(dying, born, consumed, served, Capped(born))
    {
      var nd, nb := Capped(dying), Capped(born);
      consumed, served := seq(nd, _ => false), seq(nb, _ => false);
      var info := seq(nd, i requires 0 <= i < nd && dying[i] < slots.Length reads slots
                        => Block(slots[dying[i]].offset, Size(slots[dying[i]])));
      for j := 0 to nb
        invariant Valid(op) && poolEnd == old(poolEnd) && Described(info, dying)
        invariant Matched(op, dying, born, consumed, served) && EndsOnly(op, dying)
        invariant forall k :: j <= k < nb ==> !served[k]
        invariant NoneLeft(dying, born, consumed, served, j)
      {
        consumed, served := MatchOne(op, dying, born, info, consumed, served, j);
      }
    }

    /** The best unused dying slot, if one is large enough, gives its bytes to born slot j. */
    method MatchOne(op: nat, dying: seq<nat>, born: seq<nat>, info: seq<Block>, consumed: seq<bool>, served: seq<bool>,
                    j: nat) returns (consumed': seq<bool>, served': seq<bool>)
      requires Valid(op) && Described(info, dying) && Matched(op, dying, born, consumed, served) && EndsOnly(op, dying)
      requires forall i :: 0 <= i < |dying| ==> dying[i] < |shape| && shape[dying[i]].death < op
      requires forall i, k :: 0 <= i < k < |dying| ==> dying[i] != dying[k]
      requires forall i :: 0 <= i < |born| ==> Starts(born[i], op)
      requires forall i, k :: 0 <= i < k < |born| ==> born[i] != born[k]
      requires j < |served| && !served[j]
      modifies this`freeCount, this`poolEnd, this`live, this`done, this`ledger, this`moves, slots, freeList
      ensures Valid(op) && poolEnd == old(poolEnd) && Described(info, dying)
      ensures Matched(op, dying, born, consumed', served') && EndsOnly(op, dying)
      ensures served' == served[j := served'[j]] && |consumed'| == |consumed| && born[j] < |shape|
      ensures forall i :: 0 <= i < |consumed| && consumed[i] ==> consumed'[i]
      ensures !served'[j] ==> forall i :: 0 <= i < |info| ==> consumed'[i] || info[i].size < Size(shape[born[j]])
      ensures served'[j] ==>
                exists k :: 0 <= k < |info| && BestOf(info, consumed, Size(shape[born[j]]), k)
                            && slots[born[j]].offset == info[k].offset
    {
      consumed', served' := consumed, served;
      SizesFit();
      var b := born[j];
      var best := BestMatch(info, consumed, Size(slots[b]));
      if best < |info| {
        MatchStep(live, done, dying, born, consumed, served, best, j);
        ReuseSlot(dying[best], b, op);
        consumed', served' := consumed[best := true], served[j := true];
      }
    }

    /** One op of the sweep: match, then free the unmatched dying slots, then place the unmatched born slots. */
    method SweepOp(op: nat, dying: seq<nat>, born: seq<nat>)
      requires Valid(op) && AreDying(dying, op) && AreBorn(born, op)
      requires done == BornBefore(shape, op) && EndsOnly(op, dying)
      requires forall s: nat :: s < |shape| && !shape[s].external && shape[s].birth == op ==> s in born
      modifies this`freeCount, this`poolEnd, this`live, this`done, this`ledger, this`moves, slots, freeList
      ensures Valid(op) && done == BornBefore(shape, op + 1) && poolEnd >= old(poolEnd)
      ensures live == LiveAt(shape, op)
    {
      SetsOf(shape, moves, State(op));
      var consumed, served := MatchDying(op, dying, born);
      ReleaseRest(op, dying, consumed);
      SetsOf(shape, moves, State(op));
      assert live <= LiveAt(shape, op);
      PlaceRest(op, born, served);
      SetsOf(shape, moves, State(op));
      assert BornBefore(shape, op + 1) <= done;
    }

    /** Sweeps op over its buckets of deaths and births. */
    method SweepBuckets(op: nat, numOps: nat, dying: seq<nat>, born: seq<nat>)
      requires Valid(if op == 0 then 0 else op - 1) && done == BornBefore(shape, op) && op < numOps
      requires live == LiveBefore(shape, op)
      requires dying == Bucket(DeathKeys(shape, numOps), op, |shape|)
      requires born == Bucket(BirthKeys(shape), op, |shape|)
      requires forall i :: 0 <= i < |shape| ==> LifetimeOk(shape[i])
      requires PeaksFit(shape, op, poolEnd)
      modifies this`freeCount, this`poolEnd, this`live, this`done, this`ledger, this`moves, slots, freeList
      ensures Valid(op) && done == BornBefore(shape, op + 1) && live == LiveAt(shape, op)
      ensures PeaksFit(shape, op + 1, poolEnd)
    {
      ghost var before := poolEnd;
      BucketHolds(BirthKeys(shape), op, |shape|);
      BucketHolds(DeathKeys(shape, numOps), op, |shape|);
      if op > 0 {
        EnterOp(op - 1);
      }
      SweepOp(op, dying, born);
      PeakStep(shape, moves, State(op), before);
    }

    /** Sweeps every op in turn, each over its stretches of born and dead. */
    method SweepOps(numOps: nat, birthOff: seq<nat>, born: seq<nat>, deathOff: seq<nat>, dead: seq<nat>)
      requires Valid(0) && done == BornBefore(shape, 0) && live == {}
      requires forall i :: 0 <= i < |shape| ==> LifetimeOk(shape[i])
      requires forall k: nat :: k < numOps ==> Bucketed(BirthKeys(shape), birthOff, born, k)
      requires forall k: nat :: k < numOps ==> Bucketed(DeathKeys(shape, numOps), deathOff, dead, k)
      modifies this`freeCount, this`poolEnd, this`live, this`done, this`ledger, this`moves, slots, freeList
      ensures Valid(if numOps == 0 then 0 else numOps - 1) && done == BornBefore(shape, numOps)
      ensures PeaksFit(shape, numOps, poolEnd)
    {
      for op := 0 to numOps
        invariant Valid(if op == 0 then 0 else op - 1)
        invariant done == BornBefore(shape, op) && live == LiveBefore(shape, op)
        invariant PeaksFit(shape, op, poolEnd)
      {
        assert Bucketed(BirthKeys(shape), birthOff, born, op) && Bucketed(DeathKeys(shape, numOps), deathOff, dead, op);
        SweepBuckets(op, numOps, dead[deathOff[op]..deathOff[op + 1]], born[birthOff[op]..birthOff[op + 1]]);
      }
    }

    method ReleaseRest(op: nat, dying: seq<nat>, consumed: seq<bool>)
      requires Valid(op)
      requires forall i :: 0 <= i < |dying| ==> dying[i] < |shape| && shape[dying[i]].death < op
      requires forall i, k :: 0 <= i < k < |dying| ==> dying[i] != dying[k]
      requires forall k :: 0 <= k < |dying| ==> (dying[k] in live <==> !(k < |consumed| && consumed[k]))
      modifies this`freeCount, this`poolEnd, this`live, this`done, this`ledger, this`moves, freeList
      ensures Valid(op) && done == old(done) && poolEnd == old(poolEnd) && live <= old(live)
      ensures forall k :: 0 <= k < |dying| ==> dying[k] !in live
    {
      for i := 0 to |dying|
        invariant Valid(op) && done == old(done) && poolEnd == old(poolEnd) && live <= old(live)
        invariant forall k :: 0 <= k < i ==> dying[k] !in live
        invariant forall k :: i <= k < |dying| ==> (dying[k] in live <==> !(k < |consumed| && consumed[k]))
      {
        if !(i < |consumed| && consumed[i]) {
          ReleaseSlot(dying[i], op);
        }
      }
    }

    method PlaceRest(op: nat, born: seq<nat>, served: seq<bool>)
      requires Valid(op) && DoneWithin(op)
      requires forall i :: 0 <= i < |born| ==> Starts(born[i], op)
      requires forall i, k :: 0 <= i < k < |born| ==> born[i] != born[k]
      requires ServedUpTo(done, born, served, 0) && live <= LiveAt(shape, op)
      modifies this`freeCount, this`poolEnd, this`live, this`done, this`ledger, this`moves, slots, freeList
      ensures Valid(op) && DoneWithin(op) && poolEnd >= old(poolEnd)
      ensures forall k :: 0 <= k < |born| ==> born[k] in done
      ensures live <= LiveAt(shape, op)
    {
      for j := 0 to |born|
        invariant Valid(op) && DoneWithin(op) && poolEnd >= old(poolEnd)
        invariant live <= LiveAt(shape, op) && ServedUpTo(done, born, served, j)
      {
        OneMoreServed(done, born, served, j);
        if !(j < |served| && served[j]) {
          AllocSlot(born[j], Size(slots[born[j]]), op);
        }
      }
    }

    lemma SizesFit()
      requires Shaped()
      ensures forall s :: 0 <= s < slots.Length ==> Ranges(slots[..])[s].size < U64 - 1
    {
    }
  }

  /** The direct match looks at no more than MAX_PER_OP slots on each side. */
  function Capped(ids: seq<nat>): (r: nat)
    ensures r <= |ids| && r <= 64 && (r == |ids| || r == 64)
  {
    if |ids| < MAX_PER_OP then |ids| else MAX_PER_OP
  }

  /** Range a wastes less than range b, or as much and comes first. */
  ghost predicate Better(info: seq<Block>, a: nat, b: nat)
    requires a < |info| && b < |info|
  {
    info[a].size < info[b].size || (info[a].size == info[b].size && a <= b)
  }

  /** Range k is free, holds size bytes, and no free range that holds them is better. */
  ghost predicate BestOf(info: seq<Block>, consumed: seq<bool>, size: nat, k: nat)
    requires |info| == |consumed|
  {
    && k < |info| && !consumed[k] && info[k].size >= size
    && (forall i :: 0 <= i < |info| && !consumed[i] && info[i].size >= size ==> Better(info, k, i))
  }

  /** The first unconsumed dying range with the least waste for size bytes, or the count of ranges. */
  method BestMatch(info: seq<Block>, consumed: seq<bool>, size: nat) returns (best: nat)
    requires |info| == |consumed| && forall i :: 0 <= i < |info| ==> info[i].size < U64 - 1
    ensures best <= |info|
    ensures best == |info| <==> forall i :: 0 <= i < |info| ==> consumed[i] || info[i].size < size
    ensures best < |info| ==> BestOf(info, consumed, size, best)
  {
    best := |info|;
    var leastWaste := U64 - 1;
    for i := 0 to |info|
      invariant best < i || best == |info|
      invariant best == |info| <==> forall k :: 0 <= k < i ==> consumed[k] || info[k].size < size
      invariant best < |info| ==> !consumed[best] && info[best].size >= size && leastWaste == info[best].size - size
      invariant best == |info| ==> leastWaste == U64 - 1
      invariant best < |info| ==> forall k :: 0 <= k < i && !consumed[k] && info[k].size >= size ==> Better(info, best, k)
    {
      if !consumed[i] && info[i].size >= size {
        var waste := info[i].size - size;
        if waste < leastWaste {
          best, leastWaste := i, waste;
        }
      }
    }
  }

  /** Where first fit puts size bytes: at the first block that holds them, else at the end. */
  ghost function FitOffset(blocks: seq<Block>, size: nat, end: nat): nat {
    if blocks == [] then end
    else if blocks[0].size >= size then blocks[0].offset
    else FitOffset(blocks[1..], size, end)
  }

  lemma {:induction false} FitOffsetIs(blocks: seq<Block>, size: nat, end: nat, f: nat)
    requires f <= |blocks| && (forall i :: 0 <= i < f ==> blocks[i].size < size)
    requires f < |blocks| ==> blocks[f].size >= size
    ensures FitOffset(blocks, size, end) == if f < |blocks| then blocks[f].offset else end
  {
    if f > 0 {
      FitOffsetIs(blocks[1..], size, end, f - 1);
    }
  }

  // -------------------------------------------------------------- the plan

  /** The lifetime rule of an internal slot, which the planner checks on entry. */
  ghost predicate LifetimeOk(s: TensorSlot) {
    s.external || (s.birth <= s.death && s.death <= MAX_DEATH_OP)
  }

  ghost function CountExternal(slots: seq<TensorSlot>, n: nat): (r: nat)
    requires n <= |slots|
    ensures r <= n
  {
    if n == 0 then 0 else CountExternal(slots, n - 1) + if slots[n - 1].external then 1 else 0
  }

  function BirthKeys(slots: seq<TensorSlot>): (keys: seq<int>) {
    seq(|slots|, i requires 0 <= i < |slots| => if slots[i].external then -1 else slots[i].birth)
  }

  /** The op that frees each slot, when it is in the range of the sweep. */
  function DeathKeys(slots: seq<TensorSlot>, numOps: nat): (keys: seq<int>) {
    seq(|slots|, i requires 0 <= i < |slots| =>
      if slots[i].external || slots[i].death + 1 >= numOps then -1 else slots[i].death + 1)
  }

  lemma {:induction false} KeyedInternal(slots: seq<TensorSlot>, numOps: nat, n: nat)
    requires n <= |slots|
    ensures Keyed(BirthKeys(slots), n) == n - CountExternal(slots, n)
    ensures Keyed(DeathKeys(slots, numOps), n) <= n - CountExternal(slots, n)
  {
    if n > 0 {
      KeyedInternal(slots, numOps, n - 1);
    }
  }

  /** Checks the lifetimes and finds the end of the sweep. */
  method CheckSlots(slots: array<TensorSlot>) returns (ok: bool, numExternal: nat, maxOp: nat)
    ensures ok <==> forall i :: 0 <= i < slots.Length ==> LifetimeOk(slots[i])
    ensures ok ==> numExternal == CountExternal(slots[..], slots.Length)
    ensures ok ==> forall i :: 0 <= i < slots.Length && !slots[i].external ==> slots[i].death + 1 <= maxOp
    ensures ok ==> maxOp == 0 || exists i :: 0 <= i < slots.Length && !slots[i].external && maxOp == slots[i].death + 1
    ensures ok ==> maxOp <= MAX_DEATH_OP + 1
  {
    ok, numExternal, maxOp := true, 0, 0;
    for s := 0 to slots.Length
      invariant forall i :: 0 <= i < s ==> LifetimeOk(slots[i])
      invariant numExternal == CountExternal(slots[..], s)
      invariant forall i :: 0 <= i < s && !slots[i].external ==> slots[i].death + 1 <= maxOp
      invariant maxOp == 0 || exists i :: 0 <= i < s && !slots[i].external && maxOp == slots[i].death + 1
      invariant ok && maxOp <= MAX_DEATH_OP + 1
    {
      if slots[s].external {
        numExternal := numExternal + 1;
      } else {
        if !(slots[s].birth <= slots[s].death) || !(slots[s].death <= MAX_DEATH_OP) {
          ok := false;
          return;
        }
        if slots[s].death + 1 > maxOp {
          maxOp := slots[s].death + 1;
        }
      }
    }
  }

  /** The slots live at the op before the given one. */
  ghost function LiveBefore(slots: seq<TensorSlot>, op: nat): set<nat> {
    if op == 0 then {} else LiveAt(slots, op - 1)
  }

  /** The bytes live at each op before the given one fit the pool. */
  ghost predicate PeaksFit(slots: seq<TensorSlot>, ops: nat, pool: nat) {
    forall op: nat :: op < ops ==> Bytes(Ranges(slots), LiveAt(slots, op), |slots|) <= pool
  }

  lemma PeakStep(slots: seq<TensorSlot>, moves: seq<Move>, p: Pool, before: nat)
    requires Follows(slots, moves, p) && p.done == BornBefore(slots, p.op + 1)
    requires PeaksFit(slots, p.op, before) && before <= p.end
    ensures PeaksFit(slots, p.op + 1, p.end)
  {
    AlwaysLaidOut(slots, moves, p);
    assert LiveAt(slots, p.op) <= p.live;
    BytesMono(p.ranges, LiveAt(slots, p.op), p.live, |slots|);
    BytesMoved(p.ranges, Ranges(slots), LiveAt(slots, p.op), |slots|);
  }

  /** The sweep over all ops, from the buckets of births and deaths. */
  method RunSweep(slots: array<TensorSlot>, numOps: nat, numInternal: nat) returns (pool: nat, ghost growths: seq<Growth>)
    requires Fits(slots[..])
    requires forall i :: 0 <= i < slots.Length ==> LifetimeOk(slots[i])
    requires forall i :: 0 <= i < slots.Length && !slots[i].external ==> slots[i].death + 1 < numOps
    requires numInternal == slots.Length - CountExternal(slots[..], slots.Length)
    modifies slots
    ensures SameShape(slots[..], old(slots[..]))
    ensures Separated(old(slots[..]), Ranges(slots[..]), Internal(old(slots[..])), pool)
    ensures PeaksFit(old(slots[..]), numOps, pool)
    ensures pool <= Bytes(Ranges(slots[..]), Internal(old(slots[..])), slots.Length)
    ensures Grown(old(slots[..]), Ranges(slots[..]), Internal(old(slots[..])), growths, pool)
  {
    var shape := slots[..];
    var births, deaths := BirthKeys(shape), DeathKeys(shape, numOps);
    KeyedInternal(shape, numOps, |shape|);
    var birthOff, born := BucketBy(births, numOps, numInternal);
    var deathOff, dead := BucketBy(deaths, numOps, numInternal);
    var sweep := new Sweep(slots);
    assert sweep.done == BornBefore(shape, 0);
    sweep.SweepOps(numOps, birthOff[..], born[..], deathOff[..], dead[..]);
    AllBorn(shape, numOps);
    SweptPool(shape, sweep.moves, sweep.State(if numOps == 0 then 0 else numOps - 1));
    pool, growths := sweep.poolEnd, sweep.ledger.growths;
  }

  /** What a sweep leaves. */
  lemma SweptPool(slots: seq<TensorSlot>, moves: seq<Move>, p: Pool)
    requires Follows(slots, moves, p) && p.done == Internal(slots)
    ensures |p.ranges| == |slots| && Separated(slots, p.ranges, Internal(slots), p.end)
    ensures p.end <= Bytes(p.ranges, Internal(slots), |slots|)
    ensures Grown(slots, p.ranges, Internal(slots), p.ledger.growths, p.end)
  {
    AlwaysLaidOut(slots, moves, p);
    AlwaysBalances(slots, moves, p);
  }

  lemma AllBorn(slots: seq<TensorSlot>, numOps: nat)
    requires forall i :: 0 <= i < |slots| ==> LifetimeOk(slots[i])
    requires forall i :: 0 <= i < |slots| && !slots[i].external ==> slots[i].death + 1 < numOps
    ensures BornBefore(slots, numOps) == Internal(slots)
  {
  }

  /** An op past every death has no live slot. */
  lemma PeaksComplete(slots: seq<TensorSlot>, numOps: nat, pool: nat)
    requires forall i :: 0 <= i < |slots| && !slots[i].external ==> slots[i].death + 1 < numOps
    requires PeaksFit(slots, numOps, pool)
    ensures forall op: nat :: Bytes(Ranges(slots), LiveAt(slots, op), |slots|) <= pool
  {
    forall op: nat ensures Bytes(Ranges(slots), LiveAt(slots, op), |slots|) <= pool {
      if op >= numOps {
        assert LiveAt(slots, op) == {};
        NoBytes(Ranges(slots), |slots|);
      }
    }
  }

  /** A plan for slots of the same shape is a plan for the slots themselves. */
  lemma PlannedShape(slots: seq<TensorSlot>, shape: seq<TensorSlot>, pool: nat)
    requires SameShape(slots, shape)
    requires Separated(shape, Ranges(slots), Internal(shape), pool)
    requires forall op: nat :: Bytes(Ranges(shape), LiveAt(shape, op), |shape|) <= pool
    requires pool <= Bytes(Ranges(slots), Internal(shape), |slots|)
    ensures Planned(slots, pool)
  {
    assert Internal(slots) == Internal(shape);
    RangesShape(slots, shape);
    forall op: nat ensures Bytes(Ranges(slots), LiveAt(slots, op), |slots|) <= pool {
      assert LiveAt(slots, op) == LiveAt(shape, op);
      BytesMoved(Ranges(slots), Ranges(shape), LiveAt(shape, op), |slots|);
    }
  }

  /**
   * Plans the slots in place.  None is the fatal stop on a slot that breaks the
   * lifetime rule, and it comes before any offset is written.
   */
  method ComputeMemoryPlan(slots: array<TensorSlot>) returns (plan: Option<MemoryPlan>, ghost growths: seq<Growth>)
    requires Fits(slots[..])
    modifies slots
    ensures plan.None? <==> exists i :: 0 <= i < slots.Length && !LifetimeOk(old(slots[i]))
    ensures plan.None? ==> slots[..] == old(slots[..])
    ensures SameShape(slots[..], old(slots[..]))
    ensures plan.Some? ==> Planned(slots[..], plan.value.poolBytes)
    ensures plan.Some? ==> plan.value.numExternal == CountExternal(old(slots[..]), slots.Length)
    ensures plan.Some? ==>
              Grown(old(slots[..]), Ranges(slots[..]), Internal(old(slots[..])), growths, plan.value.poolBytes)
    ensures plan.Some? ==> PoolIsPeak(slots[..], plan.value.poolBytes)
  {
    growths := [];
    var ok, numExternal, maxOp := CheckSlots(slots);
    if !ok {
      plan := None;
      return;
    }
    ghost var shape := slots[..];
    var numInternal := slots.Length - numExternal;
    var pool := 0;
    if numInternal == 0 {
      NoInternal(shape, |shape|);
      NoBytes(Ranges(shape), |shape|);
      PlannedShape(shape, shape, 0);
    } else {
      pool, growths := RunSweep(slots, maxOp + 1, numInternal);
      PeaksComplete(shape, maxOp + 1, pool);
      PlannedShape(slots[..], shape, pool);
    }
    UniformIsPeak(slots[..], shape, growths, pool);
    plan := Some(MemoryPlan(pool, numExternal));
  }

  /**
   * Slots of one size, no more than the free list has blocks, get the smallest pool
   * that there can be: the bytes that are live at one op.
   */
  ghost predicate PoolIsPeak(slots: seq<TensorSlot>, pool: nat) {
    (exists size :: Uniform(slots, size)) && |Internal(slots)| <= MAX_FREE ==>
      exists op: nat :: pool == Bytes(Ranges(slots), LiveAt(slots, op), |slots|)
  }

  lemma UniformIsPeak(slots: seq<TensorSlot>, shape: seq<TensorSlot>, growths: seq<Growth>, pool: nat)
    requires SameShape(slots, shape) && Planned(slots, pool)
    requires Grown(shape, Ranges(slots), Internal(shape), growths, pool)
    ensures PoolIsPeak(slots, pool)
  {
    assert Internal(slots) == Internal(shape);
    if (exists size :: Uniform(slots, size)) && |Internal(slots)| <= MAX_FREE {
      var size :| Uniform(slots, size);
      assert Uniform(shape, size);
      var op := UniformPool(shape, Ranges(slots), Internal(shape), growths, pool, size);
      assert LiveAt(slots, op) == LiveAt(shape, op);
      RangesShape(slots, shape);
      BytesMoved(Ranges(slots), Ranges(shape), LiveAt(slots, op), |slots|);
    }
  }

  lemma {:induction false} NoInternal(slots: seq<TensorSlot>, n: nat)
    requires n <= |slots| && CountExternal(slots, n) == n
    ensures n == |slots| ==> Internal(slots) == {} && forall op: nat :: LiveAt(slots, op) == {}
    ensures forall i :: 0 <= i < n ==> slots[i].external
  {
    if n > 0 {
      NoInternal(slots, n - 1);
    }
  }

  /**
   * The promise of a plan to a replay: two internal tensors that are live at
   * one op never share a byte, each starts at a multiple of the alignment, and
   * each lies inside the pool.
   */
  lemma PlanIsSafe(slots: seq<TensorSlot>, pool: nat, s: nat, t: nat, op: nat)
    requires Fits(slots) && Planned(slots, pool)
    requires s in LiveAt(slots, op) && t in LiveAt(slots, op) && s != t
    ensures slots[s].offset % ALIGNMENT == 0
    ensures slots[s].offset + slots[s].nbytes <= pool
    ensures slots[s].offset + slots[s].nbytes <= slots[t].offset || slots[t].offset + slots[t].nbytes <= slots[s].offset
  {
    AlignedSizeCovers(slots[s].nbytes);
    AlignedSizeCovers(slots[t].nbytes);
    var ranges := Ranges(slots);
    assert InPool(ranges[s], pool) && Meet(slots[s], slots[t]) && Apart(ranges[s], ranges[t]);
  }
}
