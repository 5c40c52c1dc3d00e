/**
 * From a trace to its memory plan: the slots of the trace builder go to the
 * planner, and the plan keeps the tensors of every op of the trace apart.
 */
module TracePlan {
  import opened PlanLayout
  import opened TraceSpec
  import opened TraceFill
  import opened TraceStorage
  import opened TraceSlots
  import MemoryPlanner
  import MetaLog
  import opened Basics
  import TraceBuilder

  /** The planner's view of a slot of the trace. */
  function Planning(info: SlotInfo): TensorSlot {
    TensorSlot(info.nbytes, info.birth, info.death, info.external, 0)
  }

  function PlanningAll(infos: seq<SlotInfo>): (r: seq<TensorSlot>)
    ensures |r| == |infos|
  {
    seq(|infos|, i requires 0 <= i < |infos| => Planning(infos[i]))
  }

  // ------------------------------------------------------------ total size

  /** The rounded bytes of the first n accesses. */
  ghost function AccessBytes(events: seq<Event>, n: nat): nat
    requires n <= |events|
  {
    if n == 0 then 0 else AccessBytes(events, n - 1) + Ceil256(events[n - 1].tensor.nbytes)
  }

  ghost function SlotBytes(infos: seq<SlotInfo>): nat {
    if infos == [] then 0 else SlotBytes(infos[..|infos| - 1]) + Ceil256(infos[|infos| - 1].nbytes)
  }

  lemma {:induction false} SlotBytesUpdate(infos: seq<SlotInfo>, id: nat, info: SlotInfo)
    requires id < |infos|
    ensures SlotBytes(infos[id := info]) + Ceil256(infos[id].nbytes) == SlotBytes(infos) + Ceil256(info.nbytes)
  {
    var last := |infos| - 1;
    if id == last {
      assert infos[id := info][..last] == infos[..last];
    } else {
      SlotBytesUpdate(infos[..last], id, info);
      assert infos[id := info][..last] == infos[..last][id := info];
    }
  }

  lemma TouchedBytes(infos: seq<SlotInfo>, id: nat, op: nat, nbytes: nat)
    ensures SlotBytes(Touched(infos, id, op, nbytes)) <= SlotBytes(infos) + Ceil256(nbytes)
  {
    if id < |infos| {
      SlotBytesUpdate(infos, id, Touched(infos, id, op, nbytes)[id]);
    }
  }

  /** The slots of a build never need more bytes than its accesses. */
  lemma {:induction false} SlotBytesBounded(events: seq<Event>, n: nat, caps: Caps)
    requires n <= |events|
    ensures SlotBytes(Run(events, n, caps).slots) <= AccessBytes(events, n)
  {
    if n > 0 {
      SlotBytesBounded(events, n - 1, caps);
      StepBytes(Run(events, n - 1, caps), events[n - 1], caps);
    }
  }

  lemma StepBytes(st: State, e: Event, caps: Caps)
    ensures SlotBytes(Step(st, e, caps).slots) <= SlotBytes(st.slots) + Ceil256(e.tensor.nbytes)
  {
    match Classify(st, e, caps)
    case Follow(w) => TouchedBytes(st.slots, w.slot, e.op, 0);
    case Over(w) => TouchedBytes(st.slots, w.slot, e.op, e.tensor.nbytes);
    case Fresh =>
      assert NextSlots(st, e, caps)[..|st.slots|] == st.slots;
    case Skip =>
  }

  lemma {:induction false} SlotBytesCover(infos: seq<SlotInfo>, i: nat)
    requires i < |infos|
    ensures Ceil256(infos[i].nbytes) <= SlotBytes(infos)
  {
    if i < |infos| - 1 {
      SlotBytesCover(infos[..|infos| - 1], i);
    }
  }

  lemma {:induction false} PlanBytes(infos: seq<SlotInfo>, n: nat)
    requires n <= |infos| && SlotBytes(infos) <= U64 - ALIGNMENT
    ensures Bytes(Ranges(PlanningAll(infos)), Internal(PlanningAll(infos)), n) <= SlotBytes(infos[..n])
  {
    if n > 0 {
      PlanBytes(infos, n - 1);
      SlotBytesCover(infos, n - 1);
      AlignedSizeCovers(infos[n - 1].nbytes);
      assert infos[..n][..n - 1] == infos[..n - 1];
    }
  }

  lemma PlanFits(infos: seq<SlotInfo>)
    requires SlotBytes(infos) <= U64 - ALIGNMENT
    ensures Fits(PlanningAll(infos))
  {
    var slots := PlanningAll(infos);
    forall i | 0 <= i < |slots| ensures slots[i].nbytes <= U64 - ALIGNMENT {
      SlotBytesCover(infos, i);
    }
    PlanBytes(infos, |infos|);
    assert infos[..|infos|] == infos;
  }

  // ------------------------------------------------------------- the plan

  /** What a build hands to the planner. */
  ghost function Handed(ops: seq<TraceOp>, caps: Caps): seq<TensorSlot> {
    PlanningAll(Run(Events(ops, |ops|), |Events(ops, |ops|)|, caps).slots)
  }

  ghost predicate Plannable(ops: seq<TraceOp>) {
    |ops| <= MAX_DEATH_OP + 1 && AccessBytes(Events(ops, |ops|), |Events(ops, |ops|)|) <= U64 - ALIGNMENT
  }

  /** The slots of a build have the sizes and the lifetimes that the planner asks for. */
  lemma ReadyToPlan(ops: seq<TraceOp>, caps: Caps)
    requires caps.slots > 0 && Plannable(ops)
    ensures Fits(Handed(ops, caps))
    ensures forall i :: 0 <= i < |Handed(ops, caps)| ==> MemoryPlanner.LifetimeOk(Handed(ops, caps)[i])
  {
    var events := Events(ops, |ops|);
    EventsOrdered(ops, |ops|);
    AlwaysAlive(events, |events|, caps);
    SlotBytesBounded(events, |events|, caps);
    PlanFits(Run(events, |events|, caps).slots);
  }

  /**
   * Builds a trace and plans its memory.  The planner never meets a slot that
   * breaks its lifetime rule, every slot is what the accesses that carry its id
   * make it, and every pair of tensors that one op touches in two slots of the
   * pool is apart.
   */
  method PlanTrace(builder: TraceBuilder.Builder, ops: seq<TraceOp>, totalInputs: nat, totalOutputs: nat)
    returns (slots: array<TensorSlot>, plan: Option<MemoryPlanner.MemoryPlan>)
    requires builder.table.Stamped() && totalInputs + totalOutputs <= MetaLog.CAPACITY
    requires totalInputs == TraceBuilder.CountInputs(ops, |ops|) && totalOutputs == TraceBuilder.CountOutputs(ops, |ops|)
    requires Plannable(ops)
    modifies builder, builder.table, builder.table.slots, builder.slots, builder.edges
    ensures builder.Valid() && builder.model == Run(Events(ops, |ops|), |Events(ops, |ops|)|, builder.Room())
    ensures plan.Some? && fresh(slots) && SameShape(slots[..], PlanningAll(builder.model.slots))
    ensures Planned(slots[..], plan.value.poolBytes)
    ensures OpsApart(Events(ops, |ops|), builder.model.ids, slots[..], plan.value.poolBytes)
    ensures SlotsPlanned(Events(ops, |ops|), builder.model.ids, slots[..])
  {
    builder.BuildTrace(ops, totalInputs, totalOutputs);
    slots := CopySlots(builder);
    plan := PlanHanded(slots, ops, builder.Room());
  }

  /** Plans the slots that a build hands over. */
  method PlanHanded(slots: array<TensorSlot>, ghost ops: seq<TraceOp>, ghost caps: Caps)
    returns (plan: Option<MemoryPlanner.MemoryPlan>)
    requires 0 < caps.slots <= NO_SLOT && Plannable(ops) && slots[..] == Handed(ops, caps)
    requires TraceBuilder.CountInputs(ops, |ops|) + TraceBuilder.CountOutputs(ops, |ops|) <= MetaLog.CAPACITY
    modifies slots
    ensures plan.Some? && SameShape(slots[..], Handed(ops, caps)) && Planned(slots[..], plan.value.poolBytes)
    ensures var ids := Run(Events(ops, |ops|), |Events(ops, |ops|)|, caps).ids;
            && OpsApart(Events(ops, |ops|), ids, slots[..], plan.value.poolBytes)
            && SlotsPlanned(Events(ops, |ops|), ids, slots[..])
  {
    ReadyToPlan(ops, caps);
    var planned, _ := MemoryPlanner.ComputeMemoryPlan(slots);
    TraceApart(ops, caps, slots[..], planned.value.poolBytes);
    PlannedAsMade(Events(ops, |ops|), caps, slots[..]);
    return planned;
  }

  /** The slot as the build knew it, before it had an offset. */
  function Unplanned(slot: TensorSlot): SlotInfo {
    SlotInfo(slot.nbytes, slot.birth, slot.death, slot.external)
  }

  /** Every planned slot is what the accesses that carry its id make it. */
  ghost predicate SlotsPlanned(events: seq<Event>, ids: seq<nat>, slots: seq<TensorSlot>) {
    forall s :: 0 <= s < |slots| ==> HasMaker(events, ids, |events|, s, Unplanned(slots[s]))
  }

  lemma PlannedAsMade(events: seq<Event>, caps: Caps, slots: seq<TensorSlot>)
    requires 0 < caps.slots <= NO_SLOT && SameShape(slots, PlanningAll(Run(events, |events|, caps).slots))
    ensures SlotsPlanned(events, Run(events, |events|, caps).ids, slots)
  {
    SlotsAreMade(events, |events|, caps);
    MadeStays(events, Run(events, |events|, caps), slots);
  }

  lemma MadeStays(events: seq<Event>, st: State, slots: seq<TensorSlot>)
    requires SlotsMade(events, |events|, st) && SameShape(slots, PlanningAll(st.slots))
    ensures SlotsPlanned(events, st.ids, slots)
  {
    forall s | 0 <= s < |slots| ensures HasMaker(events, st.ids, |events|, s, Unplanned(slots[s])) {
      UnplannedIs(st.slots, slots, s);
      assert HasMaker(events, st.ids, |events|, s, st.slots[s]);
    }
  }

  lemma UnplannedIs(infos: seq<SlotInfo>, slots: seq<TensorSlot>, s: nat)
    requires SameShape(slots, PlanningAll(infos)) && s < |slots|
    ensures Unplanned(slots[s]) == infos[s]
  {
  }

  /** A plan of the slots that a build hands over keeps the ops of the trace apart. */
  lemma TraceApart(ops: seq<TraceOp>, caps: Caps, slots: seq<TensorSlot>, pool: nat)
    requires caps.slots > 0 && Plannable(ops)
    requires TraceBuilder.CountInputs(ops, |ops|) + TraceBuilder.CountOutputs(ops, |ops|) <= MetaLog.CAPACITY
    requires SameShape(slots, Handed(ops, caps)) && Planned(slots, pool)
    ensures OpsApart(Events(ops, |ops|), Run(Events(ops, |ops|), |Events(ops, |ops|)|, caps).ids, slots, pool)
  {
    ReadyToPlan(ops, caps);
    TraceBuilder.CountEvents(ops, |ops|);
    EventsOrdered(ops, |ops|);
    AllOpsApart(Events(ops, |ops|), caps, slots, pool);
  }

  /** The planner's slots, copied from the scratch of the builder. */
  method CopySlots(builder: TraceBuilder.Builder) returns (slots: array<TensorSlot>)
    requires builder.Valid()
    ensures fresh(slots) && slots[..] == PlanningAll(builder.model.slots)
  {
    slots := new TensorSlot[builder.nextSlot](_ => TensorSlot(0, 0, 0, false, 0));
    for i := 0 to builder.nextSlot
      invariant forall k :: 0 <= k < i ==> slots[k] == Planning(builder.slots[k])
    {
      slots[i] := Planning(builder.slots[i]);
    }
    assert forall k :: 0 <= k < slots.Length ==> slots[k] == Planning(builder.model.slots[k]);
  }

  /** The bytes of the pool that two slots hold do not meet, and both lie inside the pool. */
  ghost predicate Disjoint(slots: seq<TensorSlot>, pool: nat, s: nat, t: nat) {
    && s < |slots| && t < |slots|
    && slots[s].offset + slots[s].nbytes <= pool && slots[t].offset + slots[t].nbytes <= pool
    && (slots[s].offset + slots[s].nbytes <= slots[t].offset || slots[t].offset + slots[t].nbytes <= slots[s].offset)
  }

  /** The access has a slot in the pool. */
  ghost predicate Pooled(slots: seq<TensorSlot>, id: nat) {
    id < |slots| && !slots[id].external
  }

  /** Accesses e and f of one op take two slots of the pool. */
  ghost predicate OnePair(events: seq<Event>, ids: seq<nat>, slots: seq<TensorSlot>, e: nat, f: nat)
    requires |ids| == |events| && e < |events| && f < |events|
  {
    events[e].op == events[f].op && ids[e] != ids[f] && Pooled(slots, ids[e]) && Pooled(slots, ids[f])
  }

  ghost predicate OpsApart(events: seq<Event>, ids: seq<nat>, slots: seq<TensorSlot>, pool: nat) {
    && |ids| == |events|
    && (forall e, f :: 0 <= e < |events| && 0 <= f < |events| && OnePair(events, ids, slots, e, f) ==>
          Disjoint(slots, pool, ids[e], ids[f]))
  }

  lemma FitsShape(slots: seq<TensorSlot>, shape: seq<TensorSlot>)
    requires SameShape(slots, shape) && Fits(shape)
    ensures Fits(slots)
  {
    assert Internal(slots) == Internal(shape);
    MemoryPlanner.RangesShape(slots, shape);
    BytesMoved(Ranges(slots), Ranges(shape), Internal(shape), |slots|);
  }

  /** Two accesses of one op that land in two pool slots never share a byte. */
  lemma {:induction false} OpApart(events: seq<Event>, caps: Caps, slots: seq<TensorSlot>, pool: nat, e: nat, f: nat)
    requires Ordered(events) && caps.slots > 0 && e < |events| && f < |events|
    requires var st := Run(events, |events|, caps);
             && SameShape(slots, PlanningAll(st.slots)) && Fits(PlanningAll(st.slots))
             && Planned(slots, pool) && |st.slots| < NO_SLOT
    requires var ids := Run(events, |events|, caps).ids;
             |ids| == |events| && OnePair(events, ids, slots, e, f)
    ensures var ids := Run(events, |events|, caps).ids;
            Disjoint(slots, pool, ids[e], ids[f])
  {
    var st := Run(events, |events|, caps);
    AlwaysAlive(events, |events|, caps);
    var s, t, op := st.ids[e], st.ids[f], events[e].op;
    assert LiveFor(st.slots, s, op) && LiveFor(st.slots, t, op);
    FitsShape(slots, PlanningAll(st.slots));
    MemoryPlanner.PlanIsSafe(slots, pool, s, t, op);
    MemoryPlanner.PlanIsSafe(slots, pool, t, s, op);
  }

  lemma {:induction false} AllOpsApart(events: seq<Event>, caps: Caps, slots: seq<TensorSlot>, pool: nat)
    requires Ordered(events) && 0 < caps.slots && |events| < NO_SLOT
    requires var shape := PlanningAll(Run(events, |events|, caps).slots);
             SameShape(slots, shape) && Fits(shape) && Planned(slots, pool)
    ensures OpsApart(events, Run(events, |events|, caps).ids, slots, pool)
  {
    EdgesBounded(events, |events|, caps);
    var ids := Run(events, |events|, caps).ids;
    forall e, f | 0 <= e < |events| && 0 <= f < |events| && OnePair(events, ids, slots, e, f)
      ensures Disjoint(slots, pool, ids[e], ids[f])
    {
      OpApart(events, caps, slots, pool, e, f);
    }
  }

  /**
   * When the slots are as many as the accesses ask for, two pointers that one op
   * touches are two storages: when both are in the pool they never share a byte,
   * and a write never runs past the end of its slot.
   */
  lemma {:induction false} PointersApart(events: seq<Event>, caps: Caps, slots: seq<TensorSlot>, pool: nat, e: nat, f: nat)
    requires Numbered(events) && Need(events, caps.ptrs) <= caps.slots <= NO_SLOT && |events| < NO_SLOT
    requires var shape := PlanningAll(Run(events, |events|, caps).slots);
             SameShape(slots, shape) && Fits(shape) && Planned(slots, pool)
    requires e < |events| && f < |events| && events[e].op == events[f].op
    requires events[e].tensor.ptr != 0 && events[f].tensor.ptr != 0 && events[e].tensor.ptr != events[f].tensor.ptr
    ensures var ids := Run(events, |events|, caps).ids;
            && |ids| == |events| && ids[e] < |slots| && ids[f] < |slots|
            && (!slots[ids[e]].external && !slots[ids[f]].external ==> Disjoint(slots, pool, ids[e], ids[f]))
            && (!events[e].isInput ==> events[e].tensor.nbytes <= slots[ids[e]].nbytes)
  {
    StoragesIff(events, caps);
    FillIsExact(events, |events|, caps);
    UsedBounds(events, |events|, |events|, caps);
    AlwaysAlive(events, |events|, caps);
    EdgesBounded(events, |events|, caps);
    var st := Run(events, |events|, caps);
    assert st.ids[e] != st.ids[f];
    assert slots[st.ids[e]].nbytes == st.slots[st.ids[e]].nbytes;
    if !slots[st.ids[e]].external && !slots[st.ids[f]].external {
      OpApart(events, caps, slots, pool, e, f);
    }
  }
}
