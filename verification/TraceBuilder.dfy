/**
 * The trace builder: it walks the ops of one iteration and fills the pointer
 * map, the storage slots and the edges in place, in scratch buffers that it
 * keeps from build to build.
 */
module TraceBuilder {
  import opened PtrMap
  import opened Basics
  import opened TraceSpec
  import MetaLog

  const U32_MAX := 0xFFFF_FFFF
  const MIN_PTR_MAP_CAP := 4096
  const MAX_PTR_MAP_CAP := 0x4000_0000
  const MIN_SCRATCH_SLOT_CAP := 8192
  const MIN_SCRATCH_EDGE_CAP := 16384

  const BLANK_SLOT := SlotInfo(0, NO_OP, NO_OP, false)
  const BLANK_EDGE := Edge(0, 0, 0, 0, DataFlow)

  function SatAdd(a: nat, b: nat): nat {
    if a + b > U32_MAX then U32_MAX else a + b
  }

  function SatMul(a: nat, b: nat): nat {
    if a * b > U32_MAX then U32_MAX else a * b
  }

  ghost predicate PowerOfTwo(n: nat) {
    n == 1 || (n > 1 && n % 2 == 0 && PowerOfTwo(n / 2))
  }

  /** The first of p, 2p, 4p, ... that is at least n. */
  function DoubledTo(p: nat, n: nat): nat
    requires p > 0
    decreases n - p
  {
    if p < n then DoubledTo(2 * p, n) else p
  }

  /** The least power of two that is at least n. */
  method BitCeil(n: nat) returns (p: nat)
    requires n > 0
    ensures PowerOfTwo(p) && n <= p < 2 * n && p == DoubledTo(1, n)
  {
    p := 1;
    while p < n
      invariant PowerOfTwo(p) && p < 2 * n && DoubledTo(p, n) == DoubledTo(1, n)
      decreases n - p
    {
      p := 2 * p;
    }
  }

  /** The sizes of a pointer map, of the slots and of the edges for a trace. */
  function MapLength(outputs: nat): nat {
    var raw := Max(MIN_PTR_MAP_CAP, SatMul(SatAdd(outputs, 256), 2));
    if raw < MAX_PTR_MAP_CAP then DoubledTo(1, raw) else MAX_PTR_MAP_CAP
  }

  function SlotsLength(outputs: nat): nat {
    Max(MIN_SCRATCH_SLOT_CAP, SatAdd(outputs, 1024))
  }

  function EdgesLength(inputs: nat, outputs: nat): nat {
    Max(MIN_SCRATCH_EDGE_CAP, SatAdd(inputs, outputs))
  }

  ghost function CountInputs(ops: seq<TraceOp>, n: nat): nat
    requires n <= |ops|
  {
    if n == 0 then 0 else CountInputs(ops, n - 1) + |ops[n - 1].inputs|
  }

  ghost function CountOutputs(ops: seq<TraceOp>, n: nat): nat
    requires n <= |ops|
  {
    if n == 0 then 0 else CountOutputs(ops, n - 1) + |ops[n - 1].outputs|
  }

  /** How many events come before op n. */
  ghost function StartOf(ops: seq<TraceOp>, n: nat): nat
    requires n <= |ops|
  {
    if n == 0 then 0 else StartOf(ops, n - 1) + |ops[n - 1].inputs| + |ops[n - 1].outputs|
  }

  lemma {:induction false} CountEvents(ops: seq<TraceOp>, n: nat)
    requires n <= |ops|
    ensures |Events(ops, n)| == StartOf(ops, n) == CountInputs(ops, n) + CountOutputs(ops, n)
  {
    if n > 0 {
      CountEvents(ops, n - 1);
    }
  }

  class Builder {
    var table: PtrTable
    var slots: array<SlotInfo>
    var edges: array<Edge>
    var slotCap: nat
    var nextSlot: nat
    var numEdges: nat
    var ids: seq<nat>
    var sources: seq<nat>
    ghost var model: State

    constructor ()
      ensures fresh(table) && fresh(table.slots) && fresh(slots) && fresh(edges)
      ensures table.Stamped() && table.slots.Length == 1 && slots.Length == 0 && edges.Length == 0
    {
      table := new PtrTable(1);
      slots := new SlotInfo[0];
      edges := new Edge[0];
      slotCap, nextSlot, numEdges, ids, sources, model := 0, 0, 0, [], [], START;
    }

    /** model is what the buffers stand for. */
    ghost predicate Valid()
      reads this, table, table.slots, slots, edges
    {
      && table.Valid() && nextSlot <= slotCap <= slots.Length && numEdges <= edges.Length
      && model == State(table.contents, slots[..nextSlot], edges[..numEdges], ids, sources)
    }

    ghost function Room(): Caps
      reads this, table
    {
      Caps(table.slots.Length, slotCap)
    }

    /**
     * Sizes the scratch buffers for a trace.  A buffer that is large enough
     * stays, and a new pointer map starts with no generation in use.
     */
    method EnsureScratch(totalInputs: nat, totalOutputs: nat)
      requires table.Stamped() && totalInputs + totalOutputs <= MetaLog.CAPACITY
      modifies this, table
      ensures table == old(table) && table.Stamped()
      ensures table.slots == old(table.slots) || fresh(table.slots)
      ensures slots == old(slots) || fresh(slots)
      ensures edges == old(edges) || fresh(edges)
      ensures table.slots.Length >= 2 * (totalOutputs + 256) && table.slots.Length >= MIN_PTR_MAP_CAP
      ensures slots.Length >= totalOutputs + 1024 && slots.Length >= MIN_SCRATCH_SLOT_CAP
      ensures edges.Length >= totalInputs + totalOutputs
      ensures table.slots.Length == Max(old(table.slots.Length), MapLength(totalOutputs))
      ensures slots.Length == Max(old(slots.Length), SlotsLength(totalOutputs))
      ensures edges.Length == Max(old(edges.Length), EdgesLength(totalInputs, totalOutputs))
    {
      var raw := Max(MIN_PTR_MAP_CAP, SatMul(SatAdd(totalOutputs, 256), 2));
      var neededMap := MAX_PTR_MAP_CAP;
      if raw < MAX_PTR_MAP_CAP {
        neededMap := BitCeil(raw);
      }
      var neededSlots := Max(MIN_SCRATCH_SLOT_CAP, SatAdd(totalOutputs, 1024));
      var neededEdges := Max(MIN_SCRATCH_EDGE_CAP, SatAdd(totalInputs, totalOutputs));
      if neededMap > table.slots.Length {
        table.Regrow(neededMap);
      }
      if neededSlots > slots.Length {
        slots := new SlotInfo[neededSlots](_ => BLANK_SLOT);
      }
      if neededEdges > edges.Length {
        edges := new Edge[neededEdges](_ => BLANK_EDGE);
      }
    }

    /** One more edge.  The bound on edges is checked before the store. */
    method AddEdge(edge: Edge)
      requires Valid() && numEdges < edges.Length
      modifies this`numEdges, this`model, edges
      ensures Valid() && numEdges == old(numEdges) + 1
      ensures model == old(model).(edges := old(model).edges + [edge])
    {
      edges[numEdges] := edge;
      numEdges := numEdges + 1;
      model := model.(edges := model.edges + [edge]);
    }

    /** Slot id is in use at op, with nbytes bytes. */
    method TouchSlot(id: nat, op: nat, nbytes: nat)
      requires Valid()
      modifies this`model, slots
      ensures Valid()
      ensures model == old(model).(slots := Touched(old(model).slots, id, op, nbytes))
    {
      if id < slotCap {
        slots[id] := slots[id].(death := Max(slots[id].death, op), nbytes := Max(slots[id].nbytes, nbytes));
      }
      model := model.(slots := Touched(model.slots, id, op, nbytes));
    }

    method AddSlot(info: SlotInfo) returns (id: nat)
      requires Valid() && nextSlot < slotCap
      modifies this`nextSlot, this`model, slots
      ensures Valid() && id == old(nextSlot) == |old(model).slots| && nextSlot == id + 1
      ensures model == old(model).(slots := old(model).slots + [info])
    {
      id := nextSlot;
      nextSlot := nextSlot + 1;
      slots[id] := info;
      model := model.(slots := model.slots + [info]);
    }

    method Record(id: nat, source: nat)
      requires Valid()
      modifies this`ids, this`sources, this`model
      ensures Valid()
      ensures model == old(model).(ids := old(model).ids + [id], sources := old(model).sources + [source])
    {
      ids, sources := ids + [id], sources + [source];
      model := model.(ids := ids, sources := sources);
    }

    method InsertPtr(ptr: nat, op: nat, port: nat, slot: nat) returns (r: InsertResult)
      requires Valid()
      modifies this`model, table`contents, table.slots
      ensures Valid()
      ensures model == old(model).(m := Inserted(old(model).m, table.slots.Length, ptr, op, port, slot))
      ensures r.wasAlias <==> ptr in old(model).m && old(model).m[ptr].op != op
      ensures r.wasAlias ==> r.was == old(model).m[ptr]
      ensures r.at.Some? <==> ptr in model.m
      ensures r.at.Some? ==> Holds(table.slots[..], table.gen, ptr, r.at.value)
    {
      ghost var before := model;
      r := table.Insert(ptr, op, port, slot);
      assert before == State(before.m, slots[..nextSlot], edges[..numEdges], ids, sources);
      model := model.(m := table.contents);
    }

    /** The claimed entry of a pointer gets its new storage slot. */
    method SetPtrSlot(ptr: nat, at: nat, id: nat)
      requires Valid() && Holds(table.slots[..], table.gen, ptr, at)
      modifies this`model, table`contents, table.slots
      ensures Valid() && ptr in old(model).m
      ensures model == old(model).(m := old(model).m[ptr := old(model).m[ptr].(slot := id)])
    {
      table.SetSlot(at, id);
      model := model.(m := table.contents);
    }

    /** Does one access.  goal is the state that the access leads to. */
    method ReadInput(e: Event, ghost goal: State)
      requires Valid() && numEdges < edges.Length
      requires e.isInput && goal == Step(model, e, Room())
      modifies this`nextSlot, this`numEdges, this`ids, this`sources, this`model, table`contents, table.slots, slots, edges
      ensures Valid() && model == goal && numEdges <= old(numEdges) + 1
    {
      var found := table.Lookup(e.tensor.ptr);
      if found.Some? && found.value.op != NO_OP {
        ReadWritten(e, found.value, goal);
      } else if e.tensor.ptr != 0 && nextSlot < slotCap {
        ReadExternal(e, goal);
      } else {
        Record(NO_SLOT, NO_OP);
      }
    }

    /** The input reads what an earlier op wrote. */
    method ReadWritten(e: Event, w: Entry, ghost goal: State)
      requires Valid() && numEdges < edges.Length && e.isInput && goal == Step(model, e, Room())
      requires e.tensor.ptr != 0 && e.tensor.ptr in model.m && w == model.m[e.tensor.ptr] && w.op != NO_OP
      modifies this`numEdges, this`ids, this`sources, this`model, slots, edges
      ensures Valid() && model == goal && numEdges == old(numEdges) + 1
    {
      AddEdge(Edge(w.op, e.op, w.port, Port8(e.port), DataFlow));
      TouchSlot(w.slot, e.op, 0);
      Record(w.slot, w.op);
    }

    /** The input is the first sight of an external tensor, or one more read of it. */
    method ReadExternal(e: Event, ghost goal: State)
      requires Valid() && nextSlot < slotCap && e.isInput && goal == Step(model, e, Room())
      requires e.tensor.ptr != 0 && (e.tensor.ptr in model.m ==> model.m[e.tensor.ptr].op == NO_OP)
      modifies this`nextSlot, this`ids, this`sources, this`model, table`contents, table.slots, slots
      ensures Valid() && model == goal
    {
      var id := AddSlot(SlotInfo(e.tensor.nbytes, 0, e.op, true));
      var _ := InsertPtr(e.tensor.ptr, NO_OP, 0, id);
      Record(id, NO_OP);
    }

    method WriteOutput(e: Event, ghost goal: State)
      requires Valid() && !e.isInput && numEdges < edges.Length
      requires goal == Step(model, e, Room())
      modifies this`nextSlot, this`numEdges, this`ids, this`sources, this`model, table`contents, table.slots, slots, edges
      ensures Valid() && model == goal && numEdges <= old(numEdges) + 1
    {
      if e.tensor.ptr == 0 {
        Record(NO_SLOT, NO_OP);
        return;
      }
      ghost var st := model;
      var r := InsertPtr(e.tensor.ptr, e.op, Port8(e.port), 0);
      FinishWrite(e, r, st, goal);
    }

    /** The rest of an output, after its pointer is in the map. */
    method FinishWrite(e: Event, r: InsertResult, ghost st: State, ghost goal: State)
      requires Valid() && numEdges < edges.Length && e.tensor.ptr != 0
      requires model == st.(m := Inserted(st.m, table.slots.Length, e.tensor.ptr, e.op, Port8(e.port), 0))
      requires r.wasAlias <==> e.tensor.ptr in st.m && st.m[e.tensor.ptr].op != e.op
      requires r.wasAlias ==> r.was == st.m[e.tensor.ptr]
      requires r.at.Some? <==> e.tensor.ptr in model.m
      requires r.at.Some? ==> Holds(table.slots[..], table.gen, e.tensor.ptr, r.at.value)
      requires !e.isInput && goal == Step(st, e, Room())
      modifies this`nextSlot, this`numEdges, this`ids, this`sources, this`model, table`contents, table.slots, slots, edges
      ensures Valid() && model == goal && numEdges <= old(numEdges) + 1
    {
      if r.wasAlias {
        WriteAlias(e, r.was, st, goal);
      } else if nextSlot < slotCap {
        WriteNew(e, r.at, st, goal);
      } else {
        WriteNowhere(e, st, goal);
      }
    }

    /** The output finds no storage slot free. */
    method WriteNowhere(e: Event, ghost st: State, ghost goal: State)
      requires Valid() && nextSlot == slotCap
      requires model == st.(m := Inserted(st.m, table.slots.Length, e.tensor.ptr, e.op, Port8(e.port), 0))
      requires e.tensor.ptr != 0 && (e.tensor.ptr in st.m ==> st.m[e.tensor.ptr].op == e.op)
      requires !e.isInput && goal == Step(st, e, Room())
      modifies this`ids, this`sources, this`model
      ensures Valid() && model == goal
    {
      Record(NO_SLOT, NO_OP);
    }

    /** The output lands on a storage that the trace already holds. */
    method WriteAlias(e: Event, was: Entry, ghost st: State, ghost goal: State)
      requires Valid() && numEdges < edges.Length
      requires model == st.(m := Inserted(st.m, table.slots.Length, e.tensor.ptr, e.op, Port8(e.port), 0))
      requires e.tensor.ptr != 0 && e.tensor.ptr in st.m && was == st.m[e.tensor.ptr] && was.op != e.op
      requires !e.isInput && goal == Step(st, e, Room())
      modifies this`numEdges, this`ids, this`sources, this`model, slots, edges
      ensures Valid() && model == goal && numEdges <= old(numEdges) + 1
    {
      TouchSlot(was.slot, e.op, e.tensor.nbytes);
      if was.op != NO_OP {
        AddEdge(Edge(was.op, e.op, was.port, Port8(e.port), Alias));
      }
      Record(was.slot, NO_OP);
    }

    /** The output makes a new storage, and the claimed map entry, if there is one, gets its slot. */
    method WriteNew(e: Event, at: Option<nat>, ghost st: State, ghost goal: State)
      requires Valid() && nextSlot < slotCap
      requires model == st.(m := Inserted(st.m, table.slots.Length, e.tensor.ptr, e.op, Port8(e.port), 0))
      requires e.tensor.ptr != 0 && (e.tensor.ptr in st.m ==> st.m[e.tensor.ptr].op == e.op)
      requires at.Some? <==> e.tensor.ptr in model.m
      requires at.Some? ==> Holds(table.slots[..], table.gen, e.tensor.ptr, at.value)
      requires !e.isInput && goal == Step(st, e, Room())
      modifies this`nextSlot, this`ids, this`sources, this`model, table`contents, table.slots, slots
      ensures Valid() && model == goal
    {
      var id := AddSlot(SlotInfo(e.tensor.nbytes, e.op, e.op, false));
      if at.Some? {
        SetPtrSlot(e.tensor.ptr, at.value, id);
      }
      Record(id, NO_OP);
    }

    /**
     * Builds the trace: the scratch holds exactly the fold of the events of the
     * ops, at any fill of the pointer map and of the slots.
     */
    method BuildTrace(ops: seq<TraceOp>, totalInputs: nat, totalOutputs: nat)
      requires table.Stamped() && totalInputs + totalOutputs <= MetaLog.CAPACITY
      requires totalInputs == CountInputs(ops, |ops|) && totalOutputs == CountOutputs(ops, |ops|)
      modifies this, table, table.slots, slots, edges
      ensures Valid() && table == old(table)
      ensures Room() == Caps(table.slots.Length, Min(slots.Length, Max(256, totalInputs + totalOutputs)))
      ensures model == Run(Events(ops, |ops|), |Events(ops, |ops|)|, Room())
      ensures slots.Length >= totalOutputs + 1024 && slots.Length >= MIN_SCRATCH_SLOT_CAP
      ensures table.slots.Length >= 2 * (totalOutputs + 256)
      ensures table.slots.Length == Max(old(table.slots.Length), MapLength(totalOutputs))
      ensures slots.Length == Max(old(slots.Length), SlotsLength(totalOutputs))
    {
      EnsureScratch(totalInputs, totalOutputs);
      Restart(Min(slots.Length, Max(256, totalInputs + totalOutputs)));
      CountEvents(ops, |ops|);
      AllOpsAt(ops);
      ghost var path := RunPath(Events(ops, |ops|), Room());
      BuildOps(ops, Events(ops, |ops|), path, Room());
    }

    /** Empties the map, the slots and the edges for one build. */
    method Restart(cap: nat)
      requires table.Stamped() && cap <= slots.Length
      modifies this`slotCap, this`nextSlot, this`numEdges, this`ids, this`sources, this`model
      modifies table`gen, table`contents, table.slots
      ensures Valid() && slotCap == cap && model == START && numEdges == 0
    {
      table.NextGeneration();
      slotCap := cap;
      nextSlot, numEdges, ids, sources, model := 0, 0, [], [], START;
    }

    /** Builds op by op.  path holds the state before each access and after the last. */
    method BuildOps(ops: seq<TraceOp>, ghost events: seq<Event>, ghost path: seq<State>, ghost caps: Caps)
      requires Valid() && Room() == caps && numEdges == 0
      requires |events| == StartOf(ops, |ops|) <= edges.Length && AllAt(ops, events)
      requires IsPath(path, events, caps) && model == path[0]
      modifies this`nextSlot, this`numEdges, this`ids, this`sources, this`model, table`contents, table.slots, slots, edges
      ensures Valid() && Room() == caps && model == path[|events|]
    {
      ghost var n := 0;
      for i := 0 to |ops|
        invariant Valid() && Room() == caps && numEdges <= n == StartOf(ops, i) <= |events| && model == path[n]
      {
        n := BuildOp(ops, i, events, path, caps);
      }
    }

    method BuildOp(ops: seq<TraceOp>, i: nat, ghost events: seq<Event>, ghost path: seq<State>, ghost caps: Caps)
      returns (ghost next: nat)
      requires Valid() && Room() == caps && i < |ops| && numEdges <= StartOf(ops, i) <= |events| <= edges.Length
      requires AllAt(ops, events) && IsPath(path, events, caps) && model == path[StartOf(ops, i)]
      modifies this`nextSlot, this`numEdges, this`ids, this`sources, this`model, table`contents, table.slots, slots, edges
      ensures Valid() && Room() == caps && numEdges <= next == StartOf(ops, i + 1) <= |events| && model == path[next]
    {
      next := StartOf(ops, i);
      TakeOpAt(ops, events, i);
      next := ReadInputs(ops[i], i, events, next, path, caps);
      next := WriteOutputs(ops[i], i, events, next, path, caps);
    }

    method ReadInputs(op: TraceOp, i: nat, ghost events: seq<Event>, ghost start: nat, ghost path: seq<State>, ghost caps: Caps)
      returns (ghost n: nat)
      requires Valid() && Room() == caps && numEdges <= start && |events| <= edges.Length
      requires OpAt(op, i, events, start) && IsPath(path, events, caps) && model == path[start]
      modifies this`nextSlot, this`numEdges, this`ids, this`sources, this`model, table`contents, table.slots, slots, edges
      ensures Valid() && Room() == caps && numEdges <= n == start + |op.inputs| && model == path[n]
    {
      n := start;
      for j := 0 to |op.inputs|
        invariant Valid() && Room() == caps && numEdges <= n == start + j && model == path[n]
      {
        ReadInputAt(op, i, j, events, start, path, caps);
        n := n + 1;
      }
    }

    method ReadInputAt(op: TraceOp, i: nat, j: nat, ghost events: seq<Event>, ghost start: nat, ghost path: seq<State>,
                       ghost caps: Caps)
      requires Valid() && Room() == caps && numEdges < edges.Length && j < |op.inputs|
      requires OpAt(op, i, events, start) && IsPath(path, events, caps) && model == path[start + j]
      modifies this`nextSlot, this`numEdges, this`ids, this`sources, this`model, table`contents, table.slots, slots, edges
      ensures Valid() && Room() == caps && numEdges <= old(numEdges) + 1 && model == path[start + j + 1]
    {
      var e := Event(i, j, true, op.inputs[j]);
      assert events[start + j] == e && Leads(path, events, start + j, caps);
      ReadInput(e, path[start + j + 1]);
    }

    method WriteOutputs(op: TraceOp, i: nat, ghost events: seq<Event>, ghost start: nat, ghost path: seq<State>, ghost caps: Caps)
      returns (ghost n: nat)
      requires Valid() && Room() == caps && numEdges <= start && |events| <= edges.Length && start >= |op.inputs|
      requires OpAt(op, i, events, start - |op.inputs|) && IsPath(path, events, caps) && model == path[start]
      modifies this`nextSlot, this`numEdges, this`ids, this`sources, this`model, table`contents, table.slots, slots, edges
      ensures Valid() && Room() == caps && numEdges <= n == start + |op.outputs| && model == path[n]
    {
      n := start;
      for j := 0 to |op.outputs|
        invariant Valid() && Room() == caps && numEdges <= n == start + j && model == path[n]
      {
        WriteOutputAt(op, i, j, events, start, path, caps);
        n := n + 1;
      }
    }

    method WriteOutputAt(op: TraceOp, i: nat, j: nat, ghost events: seq<Event>, ghost start: nat, ghost path: seq<State>,
                         ghost caps: Caps)
      requires Valid() && Room() == caps && numEdges < edges.Length && j < |op.outputs| && start >= |op.inputs|
      requires OpAt(op, i, events, start - |op.inputs|) && IsPath(path, events, caps) && model == path[start + j]
      modifies this`nextSlot, this`numEdges, this`ids, this`sources, this`model, table`contents, table.slots, slots, edges
      ensures Valid() && Room() == caps && numEdges <= old(numEdges) + 1 && model == path[start + j + 1]
    {
      var e := Event(i, j, false, op.outputs[j]);
      ghost var first := start - |op.inputs|;
      assert events[first + |op.inputs| + j] == e && Leads(path, events, start + j, caps);
      WriteOutput(e, path[start + j + 1]);
    }
  }

  // ----------------------------------------------------- the path of a build

  /** Access k leads from one state to the next. */
  ghost predicate Leads(path: seq<State>, events: seq<Event>, k: nat, caps: Caps)
    requires k < |events| && |path| == |events| + 1
  {
    path[k + 1] == Step(path[k], events[k], caps)
  }

  ghost predicate IsPath(path: seq<State>, events: seq<Event>, caps: Caps) {
    |path| == |events| + 1 && forall k: nat :: k < |events| ==> Leads(path, events, k, caps)
  }

  /** The path of the fold. */
  lemma RunPath(events: seq<Event>, caps: Caps) returns (path: seq<State>)
    ensures IsPath(path, events, caps) && path[0] == START && path[|events|] == Run(events, |events|, caps)
  {
    path := seq(|events| + 1, k requires 0 <= k <= |events| => Run(events, k, caps));
    forall k: nat | k < |events| ensures Leads(path, events, k, caps) {
      RunNext(events, k, caps);
    }
  }

  lemma RunNext(events: seq<Event>, n: nat, caps: Caps)
    requires n < |events|
    ensures Run(events, n + 1, caps) == Step(Run(events, n, caps), events[n], caps)
  {
  }

  /** The events of the first m ops are a prefix of the events of more ops. */
  lemma {:induction false} EventsGrow(ops: seq<TraceOp>, m: nat, n: nat)
    requires m <= n <= |ops|
    ensures Events(ops, m) <= Events(ops, n)
    decreases n
  {
    if m < n {
      EventsGrow(ops, m, n - 1);
    }
  }

  /** The events from start on are the accesses of op i. */
  ghost predicate OpAt(op: TraceOp, i: nat, events: seq<Event>, start: nat) {
    && start + |op.inputs| + |op.outputs| <= |events|
    && (forall j :: 0 <= j < |op.inputs| ==> events[start + j] == Event(i, j, true, op.inputs[j]))
    && (forall j :: 0 <= j < |op.outputs| ==> events[start + |op.inputs| + j] == Event(i, j, false, op.outputs[j]))
  }

  ghost predicate At(ops: seq<TraceOp>, events: seq<Event>, i: nat)
    requires i < |ops|
  {
    OpAt(ops[i], i, events, StartOf(ops, i))
  }

  ghost predicate AllAt(ops: seq<TraceOp>, events: seq<Event>) {
    forall i: nat :: i < |ops| ==> At(ops, events, i)
  }

  lemma TakeOpAt(ops: seq<TraceOp>, events: seq<Event>, i: nat)
    requires AllAt(ops, events) && i < |ops|
    ensures OpAt(ops[i], i, events, StartOf(ops, i)) && StartOf(ops, i + 1) <= |events|
  {
    assert At(ops, events, i);
  }

  lemma EventsAt(ops: seq<TraceOp>, i: nat)
    requires i < |ops|
    ensures OpAt(ops[i], i, Events(ops, |ops|), StartOf(ops, i))
  {
    EventsGrow(ops, i + 1, |ops|);
    CountEvents(ops, i);
    SliceAt(Events(ops, i), EventsOf(i, ops[i]), Events(ops, |ops|), ops[i], i);
  }

  lemma SliceAt(before: seq<Event>, own: seq<Event>, events: seq<Event>, op: TraceOp, i: nat)
    requires own == EventsOf(i, op) && before + own <= events
    ensures OpAt(op, i, events, |before|)
  {
    assert forall k :: 0 <= k < |own| ==> events[|before| + k] == (before + own)[|before| + k] == own[k];
  }

  lemma AllOpsAt(ops: seq<TraceOp>)
    ensures AllAt(ops, Events(ops, |ops|))
  {
    forall i: nat | i < |ops| ensures At(ops, Events(ops, |ops|), i) {
      EventsAt(ops, i);
    }
  }
}
