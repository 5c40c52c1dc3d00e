/** Values that may be missing, and the arithmetic of ranges and rings that several modules share. */
module Basics {
  /** One past the largest number of 64 bits. */
  const U64 := 0x1_0000_0000_0000_0000

  datatype Option<+T> = None | Some(value: T)

  function Min(a: nat, b: nat): nat {
    if a < b then a else b
  }

  function Max(a: nat, b: nat): nat {
    if a < b then b else a
  }

  /** Subtraction that stops at zero. */
  function SubSat(a: nat, b: nat): nat {
    if a < b then 0 else a - b
  }

  /** The slot of a position: its low bits, below the capacity. */
  function Slot(capacity: nat, position: nat): (r: nat)
    requires capacity > 0
    ensures r < capacity
    decreases position
  {
    if position < capacity then position else Slot(capacity, position - capacity)
  }

  /** Two positions less than a capacity apart never share a slot. */
  lemma {:induction false} SlotsDiffer(capacity: nat, a: nat, b: nat)
    requires a < b < a + capacity
    ensures Slot(capacity, a) != Slot(capacity, b)
    decreases a
  {
    if a >= capacity {
      SlotsDiffer(capacity, a - capacity, b - capacity);
    }
  }

  /** The slot of a later position, around the end of the ring. */
  lemma {:induction false} SlotAhead(capacity: nat, a: nat, i: nat)
    requires i < capacity
    ensures var s := Slot(capacity, a);
            Slot(capacity, a + i) == if s + i < capacity then s + i else s + i - capacity
    decreases a
  {
    if a >= capacity {
      SlotAhead(capacity, a - capacity, i);
    }
  }

  /** A run of bytes, of a pool or of the address space. */
  datatype Block = Block(offset: nat, size: nat)

  ghost predicate Apart(a: Block, b: Block) {
    a.offset + a.size <= b.offset || b.offset + b.size <= a.offset
  }

  function Pow2(m: nat): (r: nat)
    ensures r > 0
  {
    if m == 0 then 1 else 2 * Pow2(m - 1)
  }

  /** The numbers from lo on, count of them. */
  ghost function Range(lo: nat, count: nat): set<nat> {
    if count == 0 then {} else Range(lo, count - 1) + {lo + count - 1}
  }

  lemma {:induction false} RangeHolds(lo: nat, count: nat)
    ensures |Range(lo, count)| == count && forall k: nat :: k in Range(lo, count) <==> lo <= k < lo + count
  {
    if count > 0 {
      RangeHolds(lo, count - 1);
    }
  }

  /** A part of a set is not larger, and as large only when it is the whole. */
  lemma PartSize(part: set<nat>, whole: set<nat>)
    requires part <= whole
    ensures |part| <= |whole| && (|part| == |whole| ==> part == whole)
  {
    var rest := whole - part;
    assert whole == part + rest;
  }
}
