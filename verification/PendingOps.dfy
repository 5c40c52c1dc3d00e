/**
 * The ops that the detect stage holds: a ring that grows by doubling, from
 * which the stage drops ops, cuts the ops of a completed iteration, and which a
 * reset empties.
 */
module PendingOps {
  import opened Basics

  const MIN_CAPACITY := 4096
  const HISTORY_MAX_CAPACITY := 0x8_0000

  /** The ops of the next iteration that an iteration boundary leaves behind. */
  const K := 5

  datatype Op = Op(entry: nat, metaStart: nat, scope: nat, callsite: nat)

  const NO_ENTRY := Op(0, 0, 0, 0)

  /** Where ops went that the ring does not hold any more. */
  datatype Fate = Dropped(ops: seq<Op>) | Cut(ops: seq<Op>)

  function Flat(gone: seq<Fate>): seq<Op> {
    if gone == [] then [] else Flat(gone[..|gone| - 1]) + gone[|gone| - 1].ops
  }

  lemma FlatAppend(gone: seq<Fate>, fate: Fate)
    ensures Flat(gone + [fate]) == Flat(gone) + fate.ops
  {
    assert (gone + [fate])[..|gone|] == gone;
  }

  /** Ops that leave the front of the held ops are not lost. */
  lemma Conserved(gone: seq<Fate>, held: seq<Op>, n: nat, fate: Fate)
    requires n <= |held| && fate.ops == held[..n]
    ensures Flat(gone + [fate]) + held[n..] == Flat(gone) + held
  {
    FlatAppend(gone, fate);
    assert held[..n] + held[n..] == held;
  }

  lemma PushedLast(before: seq<Op>, held: seq<Op>, op: Op)
    ensures before + (held + [op]) == before + held + [op]
  {
  }

  /** The ring holds the ops, from the head. */
  ghost predicate Holds(ring: seq<Op>, head: nat, held: seq<Op>) {
    |held| <= |ring| && forall i :: 0 <= i < |held| ==> ring[Slot(|ring|, head + i)] == held[i]
  }

  lemma HoldsPush(ring: seq<Op>, head: nat, held: seq<Op>, op: Op)
    requires Holds(ring, head, held) && |held| < |ring|
    ensures Holds(ring[Slot(|ring|, head + |held|) := op], head, held + [op])
  {
    var more, ring' := held + [op], ring[Slot(|ring|, head + |held|) := op];
    forall i | 0 <= i < |more| ensures ring'[Slot(|ring|, head + i)] == more[i] {
      if i < |held| {
        SlotsDiffer(|ring|, head + i, head + |held|);
      }
    }
  }

  lemma HoldsDrop(ring: seq<Op>, head: nat, held: seq<Op>, n: nat)
    requires Holds(ring, head, held) && n <= |held|
    ensures Holds(ring, head + n, held[n..])
  {
    forall i | 0 <= i < |held| - n ensures ring[Slot(|ring|, head + n + i)] == held[n..][i] {
      assert head + n + i == head + (n + i);
      assert held[n + i] == ring[Slot(|ring|, head + (n + i))];
    }
  }

  lemma HoldsMoved(ring: seq<Op>, held: seq<Op>)
    requires |held| <= |ring| && forall i :: 0 <= i < |held| ==> ring[i] == held[i]
    ensures Holds(ring, 0, held)
  {
  }

  /** A capacity of the ring: none before the first push, then a doubling of the least. */
  predicate Capacity(n: nat) {
    || n == 0 || n == 4096 || n == 8192 || n == 16384 || n == 32768 || n == 65536
    || n == 131072 || n == 262144 || n == HISTORY_MAX_CAPACITY
  }

  class Ring {
    var ring: array<Op>
    var head: nat
    var count: nat
    ghost var held: seq<Op>
    ghost var pushed: seq<Op>
    ghost var gone: seq<Fate>

    constructor ()
      ensures Valid() && pushed == [] && gone == [] && fresh(ring)
    {
      ring := new Op[0];
      head, count, held, pushed, gone := 0, 0, [], [], [];
    }

    /** What went and what is held, in order, is what was pushed: no op is lost, doubled or moved. */
    ghost predicate Valid()
      reads this, ring
    {
      && count == |held| && Holds(ring[..], head, held)
      && Capacity(ring.Length) && Flat(gone) + held == pushed
    }

    /** Moves the ops to a ring of twice the size, the oldest to slot zero.  A larger ring than the limit is fatal. */
    method Grow() returns (ok: bool)
      requires Valid() && count == ring.Length
      modifies this`ring, this`head
      ensures Valid() && (ok <==> old(ring.Length) < HISTORY_MAX_CAPACITY)
      ensures ok ==> count < ring.Length && fresh(ring)
      ensures !ok ==> ring == old(ring) && head == old(head)
    {
      var capacity := if ring.Length == 0 then MIN_CAPACITY else ring.Length * 2;
      if capacity > HISTORY_MAX_CAPACITY {
        return false;
      }
      var larger := new Op[capacity](_ => NO_ENTRY);
      for i := 0 to count
        modifies larger
        invariant forall k :: 0 <= k < i ==> larger[k] == held[k]
      {
        larger[i] := ring[Slot(ring.Length, head + i)];
      }
      HoldsMoved(larger[..], held);
      ring, head := larger, 0;
      return true;
    }

    /** Adds the newest op.  Ok is false for the fatal growth past the limit. */
    method Push(op: Op) returns (ok: bool)
      requires Valid()
      modifies this, ring
      ensures Valid() && (ok <==> |old(held)| < HISTORY_MAX_CAPACITY)
      ensures gone == old(gone) && (ring == old(ring) || fresh(ring))
      ensures ok ==> held == old(held) + [op] && pushed == old(pushed) + [op]
      ensures !ok ==> held == old(held) && pushed == old(pushed)
    {
      if ring.Length == 0 || count == ring.Length {
        ok := Grow();
        if !ok {
          return;
        }
      }
      Place(op);
      return true;
    }

    method Place(op: Op)
      requires Valid() && count < ring.Length
      modifies this`count, this`held, this`pushed, ring
      ensures Valid() && held == old(held) + [op] && pushed == old(pushed) + [op]
    {
      HoldsPush(ring[..], head, held, op);
      PushedLast(Flat(gone), held, op);
      ring[Slot(ring.Length, head + count)] := op;
      count := count + 1;
      held, pushed := held + [op], pushed + [op];
    }

    /** Drops the oldest ops.  A count past the size drops each op. */
    method DropOldest(n: nat)
      requires Valid()
      modifies this`head, this`count, this`held, this`gone
      ensures Valid() && held == old(held)[Min(n, |old(held)|)..]
      ensures gone == old(gone) + [Dropped(old(held)[..Min(n, |old(held)|)])]
    {
      Remove(n, Dropped(held[..Min(n, |held|)]));
    }

    method Remove(n: nat, ghost fate: Fate)
      requires Valid() && fate.ops == held[..Min(n, |held|)]
      modifies this`head, this`count, this`held, this`gone
      ensures Valid() && held == old(held)[Min(n, |old(held)|)..] && gone == old(gone) + [fate]
    {
      var dropped := if n < count then n else count;
      HoldsDrop(ring[..], head, held, dropped);
      Conserved(gone, held, dropped, fate);
      head, count := head + dropped, count - dropped;
      held, gone := held[dropped..], gone + [fate];
    }

    /** A reset after a divergence drops every op. */
    method Clear()
      requires Valid()
      modifies this`head, this`count, this`held, this`gone
      ensures Valid() && held == [] && gone == old(gone) + [Dropped(old(held))]
    {
      assert held[..count] == held;
      DropOldest(count);
    }

    /** Drops the ops before a position of the trace, when pos ops were pushed since the start. */
    method DropUnclaimable(pos: nat, oldestClaimable: nat)
      requires Valid() && |held| <= pos
      modifies this`head, this`count, this`held, this`gone
      ensures Valid() && held == old(held)[Min(SubSat(oldestClaimable, pos - |old(held)|), |old(held)|)..]
    {
      var firstHeld := pos - count;
      if oldestClaimable > firstHeld {
        DropOldest(oldestClaimable - firstHeld);
      }
    }

    /**
     * Cuts the ops of a completed iteration at a boundary: the iterLen ops, or
     * as many as there are, just before the last K.  Those K stay held.  None
     * means that there is no work, because no op is left or no metadata log is
     * set.
     */
    method PrepareWork(iterLen: nat, hasLog: bool) returns (work: Option<seq<Op>>)
      requires Valid()
      modifies this`head, this`count, this`held, this`gone
      ensures Valid()
      ensures var parts := Boundary(old(held), iterLen);
              && held == parts.kept
              && (work.Some? <==> hasLog && parts.completed != [])
              && (work.Some? ==> work.value == parts.completed)
              && gone == old(gone) + [Dropped(parts.early),
                                      if work.Some? then Cut(parts.completed) else Dropped(parts.completed)]
    {
      BoundaryInSteps(held, iterLen);
      ghost var parts := Boundary(held, iterLen);
      var total := count;
      var warmup := SubSat(SubSat(total, K), iterLen);
      DropOldest(warmup);
      total := SubSat(total, warmup);
      var completedLen := SubSat(total, K);
      TwoGone(old(gone), Dropped(parts.early),
              if hasLog && completedLen > 0 then Cut(parts.completed) else Dropped(parts.completed));
      work := None;
      if hasLog && completedLen > 0 {
        var ops := CopyOldest(completedLen);
        work := Some(ops);
        Remove(completedLen, Cut(held[..completedLen]));
      } else {
        DropOldest(completedLen);
      }
    }

    /** The oldest ops, copied out of the ring. */
    method CopyOldest(n: nat) returns (ops: seq<Op>)
      requires Valid() && n <= count
      ensures ops == held[..n]
    {
      var copy := new Op[n](_ => NO_ENTRY);
      for i := 0 to n
        invariant forall k :: 0 <= k < i ==> copy[k] == held[k]
      {
        copy[i] := ring[Slot(ring.Length, head + i)];
      }
      ops := copy[..];
    }
  }

  datatype Parts<T> = Parts(early: seq<T>, completed: seq<T>, kept: seq<T>)

  /**
   * An iteration boundary cuts the held ops in three: the last K, which begin
   * the next iteration, at most iterLen ops before them, and the rest.
   */
  function Boundary<T>(held: seq<T>, iterLen: nat): (r: Parts<T>) {
    var end := SubSat(|held|, K);
    var start := SubSat(end, iterLen);
    Parts(held[..start], held[start..end], held[end..])
  }

  /** The three parts are the held ops, the last K stay, and the completed part has iterLen ops or what there is. */
  lemma BoundaryParts<T>(held: seq<T>, iterLen: nat)
    ensures var r := Boundary(held, iterLen);
            && r.early + r.completed + r.kept == held
            && |r.kept| == Min(K, |held|) && |r.completed| == Min(iterLen, SubSat(|held|, K))
  {
  }

  /** The boundary as the detect stage makes it: it drops the early ops and then takes the completed ones. */
  lemma BoundaryInSteps<T>(held: seq<T>, iterLen: nat)
    ensures var warmup := SubSat(SubSat(|held|, K), iterLen);
            && warmup <= |held|
            && var rest := held[warmup..];
               var completedLen := SubSat(|rest|, K);
               && completedLen <= |rest|
               && Boundary(held, iterLen) == Parts(held[..warmup], rest[..completedLen], rest[completedLen..])
  {
  }

  lemma TwoGone(gone: seq<Fate>, first: Fate, second: Fate)
    ensures gone + [first] + [second] == gone + [first, second]
  {
  }
}
