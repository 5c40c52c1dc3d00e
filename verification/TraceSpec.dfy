/**
 * The meaning of a trace build, on values: each tensor access of a trace is one
 * event, and a build is a fold of the events over a pointer map, the storage
 * slots and the edges found so far.  The relations that the graph must show,
 * the last writer of a pointer and the lifetime of a storage, are defined from
 * the events alone.
 */
module TraceSpec {
  import opened PtrMap
  import opened Basics

  /** The value of a slot id that names no slot. */
  const NO_SLOT := 0xFFFF_FFFF

  datatype Tensor = Tensor(ptr: nat, nbytes: nat)

  datatype TraceOp = TraceOp(inputs: seq<Tensor>, outputs: seq<Tensor>)

  /** One access: input or output number port of an op. */
  datatype Event = Event(op: nat, port: nat, isInput: bool, tensor: Tensor)

  datatype EdgeKind = DataFlow | Alias

  datatype Edge = Edge(src: nat, dst: nat, srcPort: nat, dstPort: nat, kind: EdgeKind)

  datatype SlotInfo = SlotInfo(nbytes: nat, birth: nat, death: nat, external: bool)

  /** ids and sources hold, for each event, its storage slot and the op that wrote it. */
  datatype State = State(m: map<nat, Entry>, slots: seq<SlotInfo>, edges: seq<Edge>, ids: seq<nat>, sources: seq<nat>)

  /** The capacities of a build: pointers in the map, and storage slots. */
  datatype Caps = Caps(ptrs: nat, slots: nat)

  const START := State(map[], [], [], [], [])

  /** The ports of a map entry and of an edge have eight bits. */
  function Port8(port: nat): nat {
    port % 256
  }

  // ------------------------------------------------------------ the events

  /** The accesses of op i to its inputs or to its outputs. */
  function Accesses(i: nat, isInput: bool, tensors: seq<Tensor>): (r: seq<Event>)
    ensures |r| == |tensors|
  {
    seq(|tensors|, j requires 0 <= j < |tensors| => Event(i, j, isInput, tensors[j]))
  }

  function EventsOf(i: nat, op: TraceOp): (r: seq<Event>)
    ensures |r| == |op.inputs| + |op.outputs|
  {
    Accesses(i, true, op.inputs) + Accesses(i, false, op.outputs)
  }

  /** The events of the first n ops, in the order of the build. */
  function Events(ops: seq<TraceOp>, n: nat): seq<Event>
    requires n <= |ops|
  {
    if n == 0 then [] else Events(ops, n - 1) + EventsOf(n - 1, ops[n - 1])
  }

  /** Accesses in the order of ops, inputs before outputs, and by port. */
  ghost predicate Precedes(a: Event, b: Event) {
    || a.op < b.op
    || (a.op == b.op && a.isInput && !b.isInput)
    || (a.op == b.op && a.isInput == b.isInput && a.port < b.port)
  }

  ghost predicate Ordered(events: seq<Event>) {
    forall e, f :: 0 <= e < f < |events| ==> Precedes(events[e], events[f])
  }

  /** The events come in trace order, each op of the trace is below n. */
  lemma {:induction false} EventsOrdered(ops: seq<TraceOp>, n: nat)
    requires n <= |ops|
    ensures Ordered(Events(ops, n))
    ensures forall e :: 0 <= e < |Events(ops, n)| ==> Events(ops, n)[e].op < n
  {
    if n > 0 {
      EventsOrdered(ops, n - 1);
      var before, now := Events(ops, n - 1), EventsOf(n - 1, ops[n - 1]);
      forall e | 0 <= e < |Events(ops, n)| ensures Events(ops, n)[e] == if e < |before| then before[e] else now[e - |before|] {
      }
    }
  }

  /** The last of the first n events that wrote a pointer. */
  function LastWrite(events: seq<Event>, n: nat, ptr: nat): (r: Option<nat>)
    requires n <= |events|
    ensures r.Some? ==> r.value < n && !events[r.value].isInput && events[r.value].tensor.ptr == ptr
  {
    if n == 0 then None
    else if !events[n - 1].isInput && events[n - 1].tensor.ptr == ptr then Some(n - 1)
    else LastWrite(events, n - 1, ptr)
  }

  /** LastWrite is the greatest event that wrote the pointer, and None means there is none. */
  lemma {:induction false} LastWriteIsLast(events: seq<Event>, n: nat, ptr: nat)
    requires n <= |events|
    ensures forall k :: 0 <= k < n && !events[k].isInput && events[k].tensor.ptr == ptr ==>
              LastWrite(events, n, ptr).Some? && k <= LastWrite(events, n, ptr).value
  {
    if n > 0 {
      LastWriteIsLast(events, n - 1, ptr);
    }
  }

  /** The non-null pointers of the first n events. */
  function Pointers(events: seq<Event>, n: nat): set<nat>
    requires n <= |events|
  {
    if n == 0 then {} else WithPointer(Pointers(events, n - 1), events[n - 1].tensor.ptr)
  }

  function WithPointer(pointers: set<nat>, ptr: nat): set<nat> {
    if ptr != 0 then pointers + {ptr} else pointers
  }

  // ------------------------------------------------------------- the build

  /** The slots after an access of slot id at an op, with nbytes bytes. */
  function Touched(slots: seq<SlotInfo>, id: nat, op: nat, nbytes: nat): seq<SlotInfo> {
    if id < |slots| then
      slots[id := slots[id].(death := Max(slots[id].death, op), nbytes := Max(slots[id].nbytes, nbytes))]
    else slots
  }

  /**
   * What an access does to the storage slots: it follows the write that it
   * reads, it lands over a storage that the map holds, it makes a fresh slot,
   * or it takes none.
   */
  datatype Access = Follow(w: Entry) | Over(w: Entry) | Fresh | Skip

  function Classify(st: State, e: Event, caps: Caps): Access {
    var ptr := e.tensor.ptr;
    if ptr == 0 then Skip
    else if e.isInput && ptr in st.m && st.m[ptr].op != NO_OP then Follow(st.m[ptr])
    else if !e.isInput && ptr in st.m && st.m[ptr].op != e.op then Over(st.m[ptr])
    else if |st.slots| < caps.slots then Fresh
    else Skip
  }

  function NextMap(st: State, e: Event, caps: Caps): map<nat, Entry> {
    var ptr := e.tensor.ptr;
    if ptr == 0 then st.m
    else if e.isInput then
      if Classify(st, e, caps) == Fresh then Inserted(st.m, caps.ptrs, ptr, NO_OP, 0, |st.slots|) else st.m
    else
      var m := Inserted(st.m, caps.ptrs, ptr, e.op, Port8(e.port), 0);
      if Classify(st, e, caps) == Fresh && ptr in m then m[ptr := m[ptr].(slot := |st.slots|)] else m
  }

  function NextSlots(st: State, e: Event, caps: Caps): seq<SlotInfo> {
    match Classify(st, e, caps)
    case Follow(w) => Touched(st.slots, w.slot, e.op, 0)
    case Over(w) => Touched(st.slots, w.slot, e.op, e.tensor.nbytes)
    case Fresh => st.slots + [SlotInfo(e.tensor.nbytes, if e.isInput then 0 else e.op, e.op, e.isInput)]
    case Skip => st.slots
  }

  function NewEdges(st: State, e: Event, caps: Caps): (r: seq<Edge>)
    ensures |r| <= 1
  {
    match Classify(st, e, caps)
    case Follow(w) => [Edge(w.op, e.op, w.port, Port8(e.port), DataFlow)]
    case Over(w) => if w.op != NO_OP then [Edge(w.op, e.op, w.port, Port8(e.port), Alias)] else []
    case _ => []
  }

  function TakenId(st: State, e: Event, caps: Caps): nat {
    match Classify(st, e, caps)
    case Follow(w) => w.slot
    case Over(w) => w.slot
    case Fresh => |st.slots|
    case Skip => NO_SLOT
  }

  function SourceOf(st: State, e: Event, caps: Caps): nat {
    match Classify(st, e, caps)
    case Follow(w) => w.op
    case _ => NO_OP
  }

  function Step(st: State, e: Event, caps: Caps): State {
    State(NextMap(st, e, caps), NextSlots(st, e, caps), st.edges + NewEdges(st, e, caps),
          st.ids + [TakenId(st, e, caps)], st.sources + [SourceOf(st, e, caps)])
  }

  function Run(events: seq<Event>, n: nat, caps: Caps): State
    requires n <= |events|
  {
    if n == 0 then START else Step(Run(events, n - 1, caps), events[n - 1], caps)
  }

  // ---------------------------------------------------- the edges, from the events

  /** The edge that an event calls for: from the last writer of its pointer. */
  function EdgeFor(events: seq<Event>, n: nat): Option<Edge>
    requires n < |events|
  {
    var e := events[n];
    match LastWrite(events, n, e.tensor.ptr)
    case None => None
    case Some(k) =>
      if e.tensor.ptr == 0 || (!e.isInput && events[k].op == e.op) then None
      else Some(Edge(events[k].op, e.op, Port8(events[k].port), Port8(e.port), if e.isInput then DataFlow else Alias))
  }

  /** The edges that the first n events call for, in order. */
  function LastWriterEdges(events: seq<Event>, n: nat): (r: seq<Edge>)
    requires n <= |events|
    ensures |r| <= n
  {
    if n == 0 then []
    else LastWriterEdges(events, n - 1) + match EdgeFor(events, n - 1) case None => [] case Some(x) => [x]
  }

  ghost predicate Numbered(events: seq<Event>) {
    Ordered(events) && forall e :: 0 <= e < |events| ==> events[e].op < NO_OP
  }

  /** The map entry of a pointer names its last writer, or no op when nothing wrote it. */
  ghost predicate TracksPtr(events: seq<Event>, n: nat, m: map<nat, Entry>, ptr: nat)
    requires n <= |events|
  {
    match LastWrite(events, n, ptr)
    case None => ptr !in m || m[ptr].op == NO_OP
    case Some(k) => ptr in m && m[ptr].op == events[k].op && m[ptr].port == Port8(events[k].port)
  }

  /** No build records more edges than events, so the fatal bound on edges is out of reach. */
  lemma {:induction false} EdgesBounded(events: seq<Event>, n: nat, caps: Caps)
    requires n <= |events|
    ensures |Run(events, n, caps).edges| <= n
    ensures |Run(events, n, caps).ids| == n == |Run(events, n, caps).sources|
    ensures |Run(events, n, caps).slots| <= n
  {
    if n > 0 {
      EdgesBounded(events, n - 1, caps);
    }
  }

  // ------------------------------------------------------- slot lifetimes

  ghost predicate LiveFor(slots: seq<SlotInfo>, id: nat, op: nat) {
    id < |slots| && slots[id].birth <= op <= slots[id].death
  }

  /**
   * Every slot has a lifetime that ends by the newest op, every event finds its
   * slot alive and every write finds it large enough.
   */
  ghost predicate Alive(events: seq<Event>, n: nat, st: State, now: nat)
    requires n <= |events|
  {
    && |st.ids| == n
    && (forall s :: 0 <= s < |st.slots| ==> st.slots[s].birth <= st.slots[s].death <= now)
    && (forall ptr :: ptr in st.m ==> st.m[ptr].slot < |st.slots|)
    && (forall e :: 0 <= e < n && st.ids[e] != NO_SLOT ==> LiveFor(st.slots, st.ids[e], events[e].op))
    && (forall e :: 0 <= e < n && st.ids[e] != NO_SLOT && !events[e].isInput ==>
          st.slots[st.ids[e]].nbytes >= events[e].tensor.nbytes)
  }

  /** Slots only grow: births stay, deaths and sizes never shrink. */
  ghost predicate Extends(slots: seq<SlotInfo>, more: seq<SlotInfo>) {
    && |slots| <= |more|
    && (forall s :: 0 <= s < |slots| ==>
          more[s].birth == slots[s].birth && more[s].death >= slots[s].death && more[s].nbytes >= slots[s].nbytes)
  }

  lemma StepSlots(st: State, e: Event, caps: Caps, now: nat)
    requires caps.slots > 0 && now <= e.op
    requires forall s :: 0 <= s < |st.slots| ==> st.slots[s].birth <= st.slots[s].death <= now
    requires forall ptr :: ptr in st.m ==> st.m[ptr].slot < |st.slots|
    ensures var after := Step(st, e, caps);
            && Extends(st.slots, after.slots)
            && (forall s :: 0 <= s < |after.slots| ==> after.slots[s].birth <= after.slots[s].death <= e.op)
            && |after.ids| == |st.ids| + 1 && after.ids[..|st.ids|] == st.ids
            && (after.ids[|st.ids|] == NO_SLOT || LiveFor(after.slots, after.ids[|st.ids|], e.op))
            && (after.ids[|st.ids|] != NO_SLOT && !e.isInput ==> after.slots[after.ids[|st.ids|]].nbytes >= e.tensor.nbytes)
  {
  }

  lemma StepMapSlots(st: State, e: Event, caps: Caps)
    requires caps.slots > 0
    requires forall ptr :: ptr in st.m ==> st.m[ptr].slot < |st.slots|
    ensures forall ptr :: ptr in Step(st, e, caps).m ==> Step(st, e, caps).m[ptr].slot < |Step(st, e, caps).slots|
  {
  }

  lemma AliveStep(events: seq<Event>, n: nat, st: State, after: State, now: nat)
    requires n < |events| && Alive(events, n, st, now)
    requires Extends(st.slots, after.slots)
    requires forall s :: 0 <= s < |after.slots| ==> after.slots[s].birth <= after.slots[s].death <= events[n].op
    requires |after.ids| == n + 1 && after.ids[..n] == st.ids
    requires after.ids[n] == NO_SLOT || LiveFor(after.slots, after.ids[n], events[n].op)
    requires after.ids[n] != NO_SLOT && !events[n].isInput ==> after.slots[after.ids[n]].nbytes >= events[n].tensor.nbytes
    requires forall ptr :: ptr in after.m ==> after.m[ptr].slot < |after.slots|
    ensures Alive(events, n + 1, after, events[n].op)
  {
    assert forall e :: 0 <= e < n ==> after.ids[e] == after.ids[..n][e];
  }

  lemma StepAlive(events: seq<Event>, n: nat, st: State, caps: Caps, now: nat)
    requires n < |events| && Alive(events, n, st, now) && now <= events[n].op && caps.slots > 0
    ensures Alive(events, n + 1, Step(st, events[n], caps), events[n].op)
  {
    StepSlots(st, events[n], caps, now);
    StepMapSlots(st, events[n], caps);
    AliveStep(events, n, st, Step(st, events[n], caps), now);
  }

  /** Every slot of a build is alive at every op that reads or writes it, at any fill of the map and the slots. */
  lemma {:induction false} AlwaysAlive(events: seq<Event>, n: nat, caps: Caps)
    requires n <= |events| && Ordered(events) && caps.slots > 0
    ensures Alive(events, n, Run(events, n, caps), if n == 0 then 0 else events[n - 1].op)
  {
    if n > 0 {
      AlwaysAlive(events, n - 1, caps);
      assert n > 1 ==> Precedes(events[n - 2], events[n - 1]);
      StepAlive(events, n - 1, Run(events, n - 1, caps), caps, if n == 1 then 0 else events[n - 2].op);
    }
  }

  // ------------------------------------------------- one event of a build

  lemma {:induction false} IdsKept(events: seq<Event>, m: nat, n: nat, caps: Caps)
    requires m <= n <= |events|
    ensures |Run(events, m, caps).ids| == |Run(events, m, caps).sources| == m
    ensures Run(events, m, caps).ids <= Run(events, n, caps).ids
    ensures Run(events, m, caps).sources <= Run(events, n, caps).sources
    decreases n
  {
    EdgesBounded(events, m, caps);
    if m < n {
      IdsKept(events, m, n - 1, caps);
    }
  }

  /** One event of a build read off the whole build. */
  lemma EventOfRun(events: seq<Event>, e: nat, caps: Caps)
    requires e < |events|
    ensures var all, st := Run(events, |events|, caps), Run(events, e, caps);
            var step := Step(st, events[e], caps);
            && |all.ids| == |all.sources| == |events| && |st.ids| == |st.sources| == e
            && |step.ids| == |step.sources| == e + 1
            && all.ids[e] == step.ids[e] && all.sources[e] == step.sources[e]
            && forall k :: 0 <= k < e ==> all.ids[k] == st.ids[k]
  {
    IdsKept(events, e, |events|, caps);
    IdsKept(events, e + 1, |events|, caps);
    IdsKept(events, |events|, |events|, caps);
    assert Run(events, e + 1, caps) == Step(Run(events, e, caps), events[e], caps);
  }
}
