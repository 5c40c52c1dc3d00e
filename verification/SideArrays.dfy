/**
 * The side arrays of a region: one block of bytes, in which one cursor lays out
 * the scalars, the trace indices and the slot ids of each op.
 */
module SideArrays {
  import opened Basics

  const MAX_SCALARS := 5
  const SCALAR_BYTES := 8
  const ID_BYTES := 4

  /** An op: whether it has tensor records, and its counts. */
  datatype SideOp = SideOp(recorded: bool, inputs: nat, outputs: nat, scalars: nat)

  /** Where the four arrays of an op begin, and where the last ends. */
  datatype Sections = Sections(scalars: nat, indices: nat, inSlots: nat, outSlots: nat, end: nat)

  function Scalars(op: SideOp): nat {
    Min(op.scalars, MAX_SCALARS)
  }

  function OpBytes(op: SideOp): nat {
    Scalars(op) * SCALAR_BYTES + op.inputs * ID_BYTES + op.inputs * ID_BYTES + op.outputs * ID_BYTES
  }

  /** The bytes that the build asks for, from the totals over all ops. */
  function BlockBytes(ops: seq<SideOp>): nat {
    if ops == [] then 0 else BlockBytes(ops[..|ops| - 1]) + OpBytes(ops[|ops| - 1])
  }

  /** Where the cursor stands after n ops.  An op without records takes nothing. */
  function Cursor(ops: seq<SideOp>, n: nat): nat
    requires n <= |ops|
  {
    if n == 0 then 0 else Cursor(ops, n - 1) + if ops[n - 1].recorded then OpBytes(ops[n - 1]) else 0
  }

  function SectionsAt(op: SideOp, cursor: nat): Sections {
    var indices := cursor + Scalars(op) * SCALAR_BYTES;
    var inSlots := indices + op.inputs * ID_BYTES;
    var outSlots := inSlots + op.inputs * ID_BYTES;
    Sections(cursor, indices, inSlots, outSlots, outSlots + op.outputs * ID_BYTES)
  }

  /** Lays the arrays out: an op with records gets four arrays, in order, inside the block and apart from those of other ops. */
  method LayOut(ops: seq<SideOp>) returns (placed: seq<Option<Sections>>)
    ensures |placed| == |ops|
    ensures forall k :: 0 <= k < |ops| ==>
              placed[k] == if ops[k].recorded then Some(SectionsAt(ops[k], Cursor(ops, k))) else None
    ensures forall k :: 0 <= k < |ops| && placed[k].Some? ==>
              var s := placed[k].value;
              && s.indices == s.scalars + 8 * Scalars(ops[k]) && s.inSlots == s.indices + 4 * ops[k].inputs
              && s.outSlots == s.inSlots + 4 * ops[k].inputs && s.end == s.outSlots + 4 * ops[k].outputs <= BlockBytes(ops)
    ensures forall k, l :: 0 <= k < l < |ops| && placed[k].Some? && placed[l].Some? ==>
              placed[k].value.end <= placed[l].value.scalars
  {
    placed := [];
    var cursor := 0;
    for i := 0 to |ops|
      invariant |placed| == i && cursor == Cursor(ops, i)
      invariant forall k :: 0 <= k < i ==>
                  placed[k] == if ops[k].recorded then Some(SectionsAt(ops[k], Cursor(ops, k))) else None
    {
      if ops[i].recorded {
        var s := SectionsAt(ops[i], cursor);
        placed := placed + [Some(s)];
        cursor := s.end;
      } else {
        placed := placed + [None];
      }
    }
    forall k | 0 <= k < |ops| && ops[k].recorded
      ensures SectionsAt(ops[k], Cursor(ops, k)).end <= BlockBytes(ops)
      ensures forall l :: k < l < |ops| ==> SectionsAt(ops[k], Cursor(ops, k)).end <= Cursor(ops, l)
    {
      CursorInside(ops, |ops|);
      forall l | k < l <= |ops| ensures Cursor(ops, k + 1) <= Cursor(ops, l) {
        CursorGrows(ops, k + 1, l);
      }
    }
  }

  lemma {:induction false} CursorGrows(ops: seq<SideOp>, m: nat, n: nat)
    requires m <= n <= |ops|
    ensures Cursor(ops, m) <= Cursor(ops, n)
    decreases n
  {
    if m < n {
      CursorGrows(ops, m, n - 1);
    }
  }

  lemma {:induction false} CursorKept(ops: seq<SideOp>, less: seq<SideOp>, n: nat)
    requires n <= |less| <= |ops| && less == ops[..|less|]
    ensures Cursor(less, n) == Cursor(ops, n)
  {
    if n > 0 {
      CursorKept(ops, less, n - 1);
    }
  }

  lemma {:induction false} CursorInside(ops: seq<SideOp>, n: nat)
    requires n == |ops|
    ensures Cursor(ops, n) <= BlockBytes(ops)
    ensures (forall k :: 0 <= k < n ==> ops[k].recorded) ==> Cursor(ops, n) == BlockBytes(ops)
  {
    if n > 0 {
      CursorInside(ops[..n - 1], n - 1);
      CursorKept(ops, ops[..n - 1], n - 1);
    }
  }

  // --------------------------------------------------------------- alignment

  /** The outputs of the ops with records before op n. */
  function OutputsBefore(ops: seq<SideOp>, n: nat): nat
    requires n <= |ops|
  {
    if n == 0 then 0 else OutputsBefore(ops, n - 1) + if ops[n - 1].recorded then ops[n - 1].outputs else 0
  }

  /** The scalars and the inputs of those ops. */
  function WordsBefore(ops: seq<SideOp>, n: nat): nat
    requires n <= |ops|
  {
    if n == 0 then 0 else WordsBefore(ops, n - 1) + if ops[n - 1].recorded then Scalars(ops[n - 1]) + ops[n - 1].inputs else 0
  }

  lemma {:induction false} CursorParts(ops: seq<SideOp>, n: nat)
    requires n <= |ops|
    ensures Cursor(ops, n) == 8 * WordsBefore(ops, n) + 4 * OutputsBefore(ops, n)
  {
    if n > 0 {
      CursorParts(ops, n - 1);
    }
  }

  lemma PartsParity(words: nat, outputs: nat)
    ensures (8 * words + 4 * outputs) % 4 == 0
    ensures (8 * words + 4 * outputs) % 8 == 0 <==> outputs % 2 == 0
  {
    var q := words + outputs / 2;
    if outputs % 2 == 0 {
      assert 8 * words + 4 * outputs == 8 * q;
    } else {
      assert 8 * words + 4 * outputs == 8 * q + 4;
    }
    Eights(q);
    Fours(2 * words + outputs);
  }

  lemma Eights(q: nat)
    ensures (8 * q) % 8 == 0 && (8 * q + 4) % 8 == 4
  {
  }

  lemma Fours(q: nat)
    ensures (4 * q) % 4 == 0
  {
  }

  lemma StaysAligned(at: nat, ids: nat)
    requires at % ID_BYTES == 0
    ensures (at + 4 * ids) % ID_BYTES == 0
  {
  }

  lemma SectionsAligned(op: SideOp, cursor: nat)
    requires cursor % ID_BYTES == 0
    ensures var s := SectionsAt(op, cursor);
            s.indices % ID_BYTES == 0 && s.inSlots % ID_BYTES == 0 && s.outSlots % ID_BYTES == 0
  {
    var s := SectionsAt(op, cursor);
    StaysAligned(cursor, 2 * Scalars(op));
    StaysAligned(s.indices, op.inputs);
    StaysAligned(s.inSlots, op.inputs);
  }

  /**
   * The trace indices and the slot ids of every op are aligned.  Its scalars are
   * aligned exactly when the ops before it have an even number of outputs.
   */
  lemma AlignedIff(ops: seq<SideOp>, k: nat)
    requires k < |ops| && ops[k].recorded
    ensures var s := SectionsAt(ops[k], Cursor(ops, k));
            && s.indices % ID_BYTES == 0 && s.inSlots % ID_BYTES == 0 && s.outSlots % ID_BYTES == 0
            && (s.scalars % SCALAR_BYTES == 0 <==> OutputsBefore(ops, k) % 2 == 0)
  {
    CursorParts(ops, k);
    PartsParity(WordsBefore(ops, k), OutputsBefore(ops, k));
    SectionsAligned(ops[k], Cursor(ops, k));
  }

  /** An op with one output, and then an op with one scalar: the scalar begins at byte 4. */
  lemma ScalarsMisaligned()
    ensures var ops := [SideOp(true, 0, 1, 0), SideOp(true, 1, 1, 1)];
            SectionsAt(ops[1], Cursor(ops, 1)).scalars == 4
  {
    var ops := [SideOp(true, 0, 1, 0), SideOp(true, 1, 1, 1)];
    assert Cursor(ops, 0) == 0 && OpBytes(ops[0]) == 4;
  }
}
