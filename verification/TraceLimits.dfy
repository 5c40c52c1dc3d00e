/**
 * The limits of the builder's buffers.  External reads fill the pointer map and
 * the slots, and the builder sizes neither of them for that.
 */
module TraceLimits {
  import opened Basics
  import opened PtrMap
  import opened TraceSpec
  import opened TraceBuilder

  /** The inputs of an op are counted in sixteen bits. */
  const MAX_INPUTS := 65535

  /** Ops that read pointers in order, as many in one op as it can have. */
  function ReadOps(reading: seq<nat>): (r: seq<TraceOp>)
    ensures |r| <= |reading| && (|reading| > 1 ==> |r| < |reading|)
    ensures forall op :: op in r ==> |op.inputs| <= MAX_INPUTS && op.outputs == []
  {
    if reading == [] then []
    else
      var k := SubSat(|reading|, MAX_INPUTS);
      ReadOps(reading[..k]) + [TraceOp(Tensors(reading[k..]), [])]
  }

  function Tensors(pointers: seq<nat>): (r: seq<Tensor>)
    ensures |r| == |pointers|
  {
    seq(|pointers|, i requires 0 <= i < |pointers| => Tensor(pointers[i], 8))
  }

  /** Ops that read some pointers, an op that writes one more, and an op that reads it. */
  function Flood(reading: seq<nat>, ptr: nat): (r: seq<TraceOp>)
    ensures forall op :: op in r ==> |op.inputs| <= MAX_INPUTS
  {
    ReadOps(reading) + [TraceOp([], [Tensor(ptr, 8)]), TraceOp([Tensor(ptr, 8)], [])]
  }

  function FloodEvents(reading: seq<nat>, ptr: nat): seq<Event> {
    Events(Flood(reading, ptr), |Flood(reading, ptr)|)
  }

  ghost predicate Reads(events: seq<Event>, reading: seq<nat>) {
    && |events| >= |reading|
    && (forall i :: 0 <= i < |reading| ==> events[i].isInput && events[i].tensor == Tensor(reading[i], 8))
  }

  ghost predicate FloodsAs(events: seq<Event>, reading: seq<nat>, ptr: nat, op: nat) {
    && Reads(events, reading) && |events| == |reading| + 2
    && events[|reading|] == Event(op, 0, false, Tensor(ptr, 8))
    && events[|reading| + 1] == Event(op + 1, 0, true, Tensor(ptr, 8))
  }

  lemma {:induction false} EventsPrefix(ops: seq<TraceOp>, more: seq<TraceOp>, n: nat)
    requires n <= |ops|
    ensures Events(ops + more, n) == Events(ops, n)
  {
    if n > 0 {
      EventsPrefix(ops, more, n - 1);
      EventsNext(ops, n - 1, ops[n - 1]);
      EventsNext(ops + more, n - 1, ops[n - 1]);
    }
  }

  lemma EventsNext(ops: seq<TraceOp>, n: nat, op: TraceOp)
    requires n < |ops| && op == ops[n]
    ensures Events(ops, n + 1) == Events(ops, n) + EventsOf(n, op)
  {
  }

  lemma {:induction false} ReadOpsRead(reading: seq<nat>)
    ensures var events := Events(ReadOps(reading), |ReadOps(reading)|);
            |events| == |reading| && Reads(events, reading)
  {
    if reading != [] {
      var k := SubSat(|reading|, MAX_INPUTS);
      var before, last := ReadOps(reading[..k]), TraceOp(Tensors(reading[k..]), []);
      ReadOpsRead(reading[..k]);
      EventsPrefix(before, [last], |before|);
      var all: seq<Event> := Events(before, |before|) + EventsOf(|before|, last);
      assert Events(ReadOps(reading), |ReadOps(reading)|) == all;
      forall i | 0 <= i < |reading| ensures all[i].isInput && all[i].tensor == Tensor(reading[i], 8) {
        assert i < k ==> reading[..k][i] == reading[i];
      }
    }
  }

  lemma FloodReads(reading: seq<nat>, ptr: nat)
    ensures FloodsAs(FloodEvents(reading, ptr), reading, ptr, |ReadOps(reading)|)
  {
    var before, write, read := ReadOps(reading), TraceOp([], [Tensor(ptr, 8)]), TraceOp([Tensor(ptr, 8)], []);
    var n, ops := |before|, Flood(reading, ptr);
    var next := n + 1;
    ReadOpsRead(reading);
    EventsPrefix(before, [write, read], n);
    assert Events(ops, next) == Events(before, n) + EventsOf(n, write);
    assert Events(ops, next + 1) == Events(ops, next) + EventsOf(next, read);
  }

  lemma {:induction false} CountsPrefix(ops: seq<TraceOp>, more: seq<TraceOp>, n: nat)
    requires n <= |ops|
    ensures CountInputs(ops + more, n) == CountInputs(ops, n) && CountOutputs(ops + more, n) == CountOutputs(ops, n)
  {
    if n > 0 {
      CountsPrefix(ops, more, n - 1);
    }
  }

  lemma {:induction false} ReadOpsCount(reading: seq<nat>)
    ensures CountInputs(ReadOps(reading), |ReadOps(reading)|) == |reading|
    ensures CountOutputs(ReadOps(reading), |ReadOps(reading)|) == 0
  {
    if reading != [] {
      var k := SubSat(|reading|, MAX_INPUTS);
      var before, last := ReadOps(reading[..k]), TraceOp(Tensors(reading[k..]), []);
      ReadOpsCount(reading[..k]);
      CountsPrefix(before, [last], |before|);
    }
  }

  lemma FloodCounts(reading: seq<nat>, ptr: nat)
    ensures var ops := Flood(reading, ptr); CountInputs(ops, |ops|) == |reading| + 1 && CountOutputs(ops, |ops|) == 1
  {
    var before, ops := ReadOps(reading), Flood(reading, ptr);
    var n := |before| + 1;
    ReadOpsCount(reading);
    CountsPrefix(before, ops[|before|..], |before|);
    assert ops == before + ops[|before|..];
    assert CountInputs(ops, n) == |reading| && CountOutputs(ops, n) == 1;
  }

  /** As many reads as one op can have are one op. */
  lemma OneReadOp(reading: seq<nat>)
    requires 0 < |reading| <= MAX_INPUTS
    ensures |ReadOps(reading)| == 1
  {
    assert reading[..0] == [];
  }

  lemma {:induction false} NoneWritten(events: seq<Event>, reading: seq<nat>, n: nat)
    requires Reads(events, reading) && n <= |reading|
    ensures LastWriterEdges(events, n) == []
    ensures forall q :: LastWrite(events, n, q).None?
  {
    if n > 0 {
      NoneWritten(events, reading, n - 1);
    }
  }

  /** The graph must show one edge, from the write to its read. */
  lemma FloodEdge(events: seq<Event>, reading: seq<nat>, ptr: nat, op: nat)
    requires FloodsAs(events, reading, ptr, op) && ptr != 0
    ensures LastWriterEdges(events, |events|) == [Edge(op, op + 1, 0, 0, DataFlow)]
  {
    var n := |reading|;
    var next := n + 1;
    NoneWritten(events, reading, n);
    assert LastWrite(events, next, ptr) == Some(n);
    assert EdgeFor(events, n) == None && EdgeFor(events, next) == Some(Edge(op, op + 1, 0, 0, DataFlow));
    assert LastWriterEdges(events, next) == [];
  }

  // ------------------------------------------------------------- a full map

  function Distinct(n: nat): (r: seq<nat>)
    ensures |r| == n && forall i :: 0 <= i < n ==> r[i] == i + 1
  {
    seq(n, i => i + 1)
  }

  ghost predicate MapFilled(st: State, n: nat) {
    |st.m| == |st.slots| == n && st.edges == [] && forall q :: q in st.m ==> q <= n
  }

  lemma ReadFillsOne(st: State, e: Event, caps: Caps, n: nat)
    requires n < caps.ptrs <= caps.slots && e.isInput && e.tensor.ptr == n + 1
    ensures MapFilled(st, n) ==> MapFilled(Step(st, e, caps), n + 1)
  {
  }

  /** Distinct external reads fill the map one by one. */
  lemma {:induction false} ReadsFillMap(events: seq<Event>, caps: Caps, n: nat)
    requires Reads(events, Distinct(caps.ptrs))
    requires n <= caps.ptrs <= caps.slots
    ensures MapFilled(Run(events, n, caps), n)
  {
    var k, filled := 0, MapFilled(START, 0);
    while k < n
      invariant k <= n && filled && filled == MapFilled(Run(events, k, caps), k)
    {
      assert events[k].isInput && events[k].tensor == Tensor(Distinct(caps.ptrs)[k], 8);
      FillsNext(events, caps, k);
      k := k + 1;
    }
  }

  lemma FillsNext(events: seq<Event>, caps: Caps, n: nat)
    requires n < |events| && n < caps.ptrs <= caps.slots && events[n].isInput && events[n].tensor.ptr == n + 1
    requires MapFilled(Run(events, n, caps), n)
    ensures MapFilled(Run(events, n + 1, caps), n + 1)
  {
    ReadFillsOne(Run(events, n, caps), events[n], caps, n);
    RunNext(events, n, caps);
  }

  /**
   * At every capacity of the map, with as many slots, a trace that first reads as
   * many external pointers loses the edge from a write to its read.
   */
  lemma FullMapLosesEdge(caps: Caps)
    requires caps.ptrs <= caps.slots
    ensures var events, op := FloodEvents(Distinct(caps.ptrs), caps.ptrs + 1), |ReadOps(Distinct(caps.ptrs))|;
            && |events| == caps.ptrs + 2
            && LastWriterEdges(events, |events|) == [Edge(op, op + 1, 0, 0, DataFlow)]
            && Run(events, |events|, caps).edges == []
  {
    var reading, next := Distinct(caps.ptrs), caps.ptrs + 1;
    FloodReads(reading, next);
    FloodEdge(FloodEvents(reading, next), reading, next, |ReadOps(reading)|);
    FloodLoses(FloodEvents(reading, next), caps, |ReadOps(reading)|);
  }

  lemma FloodLoses(events: seq<Event>, caps: Caps, op: nat)
    requires caps.ptrs <= caps.slots && FloodsAs(events, Distinct(caps.ptrs), caps.ptrs + 1, op)
    ensures Run(events, |events|, caps).edges == []
  {
    var n, next := caps.ptrs, caps.ptrs + 1;
    ReadsFillMap(events, caps, n);
    EdgeIsLost(Run(events, n, caps), events[n], events[next], caps, n);
    RunNext(events, n, caps);
    RunNext(events, next, caps);
  }

  lemma EdgeIsLost(st: State, write: Event, read: Event, caps: Caps, n: nat)
    requires MapFilled(st, n) && n == caps.ptrs && !write.isInput && read.isInput
    requires write.tensor.ptr == read.tensor.ptr == n + 1
    ensures Step(Step(st, write, caps), read, caps).edges == []
  {
    var written := Step(st, write, caps);
    assert written.m == st.m && written.edges == [];
  }

  // --------------------------------------------------------- the last slot

  function Same(n: nat): (r: seq<nat>)
    ensures |r| == n && forall i :: 0 <= i < n ==> r[i] == 1
  {
    seq(n, _ => 1)
  }

  ghost predicate SlotsTaken(st: State, n: nat) {
    && |st.slots| == |st.ids| == n && st.m.Keys == (if n == 0 then {} else {1})
    && (n > 0 ==> st.m[1].op == NO_OP && st.ids[0] == 0)
  }

  lemma ReadTakesOne(st: State, e: Event, caps: Caps, n: nat)
    requires n < caps.slots && 0 < caps.ptrs && e.isInput && e.tensor.ptr == 1
    ensures SlotsTaken(st, n) ==> SlotsTaken(Step(st, e, caps), n + 1)
  {
  }

  /** Reads of one external pointer take a slot each. */
  lemma {:induction false} ReadsTakeSlots(events: seq<Event>, caps: Caps, n: nat)
    requires Reads(events, Same(caps.slots))
    requires n <= caps.slots && 0 < caps.ptrs
    ensures SlotsTaken(Run(events, n, caps), n)
  {
    if n > 0 {
      ReadsTakeSlots(events, caps, n - 1);
      ReadTakesOne(Run(events, n - 1, caps), events[n - 1], caps, n - 1);
      RunNext(events, n - 1, caps);
    }
  }

  /**
   * At every capacity of the slots, a trace that first reads one external pointer
   * as many times leaves the next write without a slot, and the read of that write
   * with the slot of the external pointer.
   */
  lemma FullSlotsMixStorages(caps: Caps)
    requires 0 < caps.slots <= NO_SLOT && 2 <= caps.ptrs
    ensures var events := FloodEvents(Same(caps.slots), 2);
            var ids := Run(events, |events|, caps).ids;
            && |ids| == |events| == caps.slots + 2
            && ids[caps.slots] == NO_SLOT && ids[caps.slots + 1] == 0 == ids[0]
  {
    var reading := Same(caps.slots);
    FloodReads(reading, 2);
    FloodMixes(FloodEvents(reading, 2), caps, |ReadOps(reading)|);
  }

  lemma FloodMixes(events: seq<Event>, caps: Caps, op: nat)
    requires 0 < caps.slots && 2 <= caps.ptrs && FloodsAs(events, Same(caps.slots), 2, op) && op < NO_OP
    ensures var ids := Run(events, |events|, caps).ids;
            |ids| == |events| && ids[caps.slots] == NO_SLOT && ids[caps.slots + 1] == 0 == ids[0]
  {
    var n, next := caps.slots, caps.slots + 1;
    ReadsTakeSlots(events, caps, n);
    WriteIsRefused(Run(events, n, caps), events[n], events[next], caps);
    RunNext(events, n, caps);
    RunNext(events, next, caps);
  }

  lemma WriteIsRefused(st: State, write: Event, read: Event, caps: Caps)
    requires |st.slots| == caps.slots && 2 <= caps.ptrs && st.m.Keys == {1}
    requires write == Event(write.op, 0, false, Tensor(2, 8)) && write.op < NO_OP
    requires read == Event(read.op, 0, true, Tensor(2, 8))
    ensures Step(Step(st, write, caps), read, caps).ids == st.ids + [NO_SLOT] + [0]
  {
    assert |st.m| == |st.m.Keys| == 1;
    assert Step(st, write, caps).m == st.m[2 := Entry(write.op, 0, 0)];
  }

  // ------------------------------------------------------------ the builder

  /** A new builder sizes its map for 4096 pointers here, and loses the one edge of the trace. */
  method BuildLosesEdge() returns (edges: seq<Edge>)
    ensures edges == []
    ensures var events := FloodEvents(Distinct(4096), 4097);
            LastWriterEdges(events, |events|) == [Edge(1, 2, 0, 0, DataFlow)]
  {
    var builder := new Builder();
    var ops := Flood(Distinct(4096), 4097);
    FloodCounts(Distinct(4096), 4097);
    OneReadOp(Distinct(4096));
    builder.BuildTrace(ops, 4097, 1);
    FullMapLosesEdge(Caps(4096, 4098));
    edges := builder.edges[..builder.numEdges];
  }

  /** A new builder has 8192 slots here, and the last read of the trace gets the storage of another pointer. */
  method BuildMixesStorages() returns (ids: seq<nat>)
    ensures |ids| == 8194 && ids[8192] == NO_SLOT && ids[8193] == ids[0] == 0
    ensures FloodsAs(FloodEvents(Same(8192), 2), Same(8192), 2, 1)
  {
    var builder := new Builder();
    var ops := Flood(Same(8192), 2);
    FloodCounts(Same(8192), 2);
    FloodReads(Same(8192), 2);
    OneReadOp(Same(8192));
    builder.BuildTrace(ops, 8193, 1);
    FullSlotsMixStorages(Caps(4096, 8192));
    ids := builder.ids;
  }
}
