/**
 * The edges of a build at any fill of the pointer map and of the slots.  Which
 * pointers the map comes to hold, and how many slots a build uses, follow from
 * the accesses and the capacities alone.  The edges are the last-writer edges of
 * those pointers, and no others.
 */
module TraceFill {
  import opened Basics
  import opened PtrMap
  import opened TraceSpec

  /** The last-writer edges of the first n events, for the pointers of a set. */
  function KeptEdges(events: seq<Event>, n: nat, kept: set<nat>): seq<Edge>
    requires n <= |events|
  {
    if n == 0 then [] else KeptEdges(events, n - 1, kept) + KeptEdge(events, n - 1, kept)
  }

  function KeptEdge(events: seq<Event>, n: nat, kept: set<nat>): (r: seq<Edge>)
    requires n < |events|
    ensures |r| <= 1
  {
    match EdgeFor(events, n)
    case None => []
    case Some(x) => if events[n].tensor.ptr in kept then [x] else []
  }

  /** The map tracks the last writer of every pointer that it holds, and has refused a written pointer only when full. */
  ghost predicate TracksHeld(events: seq<Event>, n: nat, m: map<nat, Entry>, cap: nat)
    requires n <= |events|
  {
    && 0 !in m
    && (forall ptr: nat :: ptr in m ==> TracksPtr(events, n, m, ptr))
    && (forall ptr: nat :: ptr != 0 && ptr !in m && LastWrite(events, n, ptr).Some? ==> |m| >= cap)
  }

  /** What one event does to the map, at any fill. */
  lemma StepMapAnyFill(st: State, e: Event, caps: Caps)
    requires 0 !in st.m
    ensures var m := Step(st, e, caps).m;
            var ptr := e.tensor.ptr;
            && 0 !in m && st.m.Keys <= m.Keys
            && (forall q :: q != ptr ==> (q in m <==> q in st.m) && (q in m ==> m[q] == st.m[q]))
            && (ptr != 0 && !e.isInput && ptr in m ==> m[ptr].op == e.op && m[ptr].port == Port8(e.port))
            && (ptr != 0 && !e.isInput && ptr !in m ==> |m| >= caps.ptrs)
            && (ptr != 0 && e.isInput && ptr in st.m ==> ptr in m && m[ptr].op == st.m[ptr].op)
            && (ptr != 0 && e.isInput && ptr in st.m && st.m[ptr].op != NO_OP ==> m == st.m)
            && (ptr != 0 && e.isInput && ptr !in st.m && ptr in m ==> m[ptr].op == NO_OP)
  {
  }

  lemma KeysSize(m: map<nat, Entry>, m': map<nat, Entry>)
    requires m.Keys <= m'.Keys
    ensures |m| <= |m'|
  {
    PartSize(m.Keys, m'.Keys);
  }

  lemma TracksHeldStep(events: seq<Event>, n: nat, caps: Caps, st: State)
    requires n < |events| && Numbered(events) && TracksHeld(events, n, st.m, caps.ptrs)
    ensures TracksHeld(events, n + 1, Step(st, events[n], caps).m, caps.ptrs)
  {
    var e, m, next := events[n], Step(st, events[n], caps).m, n + 1;
    StepMapAnyFill(st, e, caps);
    KeysSize(st.m, m);
    forall q: nat | q in m ensures TracksPtr(events, next, m, q) {
      assert q in st.m ==> TracksPtr(events, n, st.m, q);
      assert q != e.tensor.ptr || e.isInput ==> LastWrite(events, next, q) == LastWrite(events, n, q);
      NotWritten(events, n, caps.ptrs, st.m, q);
    }
    forall q: nat | q != 0 && q !in m && LastWrite(events, next, q).Some? ensures |m| >= caps.ptrs {
      assert q != e.tensor.ptr || e.isInput ==> LastWrite(events, next, q) == LastWrite(events, n, q);
    }
  }

  lemma NotWritten(events: seq<Event>, n: nat, cap: nat, m: map<nat, Entry>, q: nat)
    requires n <= |events| && TracksHeld(events, n, m, cap)
    ensures q != 0 && q !in m && |m| < cap ==> LastWrite(events, n, q).None?
  {
  }

  /** The edge of an event, at any fill: the last-writer edge when the map holds the pointer. */
  lemma EdgeAnyFill(events: seq<Event>, n: nat, caps: Caps, st: State)
    requires n < |events| && Numbered(events) && TracksHeld(events, n, st.m, caps.ptrs)
    ensures NewEdges(st, events[n], caps) == KeptEdge(events, n, st.m.Keys)
  {
    var e := events[n];
    if e.tensor.ptr in st.m {
      assert TracksPtr(events, n, st.m, e.tensor.ptr);
    }
  }

  lemma {:induction false} HeldAlways(events: seq<Event>, n: nat, caps: Caps)
    requires n <= |events| && Numbered(events)
    ensures TracksHeld(events, n, Run(events, n, caps).m, caps.ptrs)
  {
    var k, m := 0, START.m;
    while k < n
      invariant k <= n && m == Run(events, k, caps).m && TracksHeld(events, k, m, caps.ptrs)
    {
      TracksHeldStep(events, k, caps, Run(events, k, caps));
      k := k + 1;
      m := Run(events, k, caps).m;
    }
  }

  // ------------------------------------------------ the fill, from the events

  /** The pointers that the map holds, and the slots in use. */
  datatype Fill = Fill(held: set<nat>, used: nat)

  /**
   * Access n asks for a slot of its own: its pointer is not held, or it reads a
   * held pointer that nothing wrote, or it writes a pointer that its own op wrote.
   */
  predicate NeedsSlot(events: seq<Event>, n: nat, held: set<nat>)
    requires n < |events|
  {
    var e := events[n];
    var ptr := e.tensor.ptr;
    ptr != 0 && (ptr !in held || match LastWrite(events, n, ptr)
                                 case None => e.isInput
                                 case Some(k) => !e.isInput && events[k].op == e.op)
  }

  /** The fill after one more access.  A write always asks for a map entry, a read only with a new slot. */
  function FillStep(events: seq<Event>, n: nat, caps: Caps, f: Fill): Fill
    requires n < |events|
  {
    var e := events[n];
    var ptr := e.tensor.ptr;
    var placed := NeedsSlot(events, n, f.held) && f.used < caps.slots;
    var enters := ptr != 0 && |f.held| < caps.ptrs && (!e.isInput || placed);
    Fill(if enters then f.held + {ptr} else f.held, if placed then f.used + 1 else f.used)
  }

  /** The fill after n accesses, from the accesses and the capacities alone. */
  function FillAfter(events: seq<Event>, n: nat, caps: Caps): Fill
    requires n <= |events|
  {
    if n == 0 then Fill({}, 0) else FillStep(events, n - 1, caps, FillAfter(events, n - 1, caps))
  }

  ghost predicate FillFits(st: State, f: Fill) {
    st.m.Keys == f.held && |st.slots| == f.used
  }

  lemma FreshIsNeed(events: seq<Event>, n: nat, caps: Caps, st: State)
    requires n < |events| && Numbered(events) && TracksHeld(events, n, st.m, caps.ptrs)
    ensures Classify(st, events[n], caps) == Fresh <==> NeedsSlot(events, n, st.m.Keys) && |st.slots| < caps.slots
    ensures Classify(st, events[n], caps) == Skip <==>
              events[n].tensor.ptr == 0 || (NeedsSlot(events, n, st.m.Keys) && |st.slots| >= caps.slots)
  {
    var ptr := events[n].tensor.ptr;
    if ptr in st.m {
      assert TracksPtr(events, n, st.m, ptr);
    }
  }

  lemma {:induction false} FillStepFits(events: seq<Event>, n: nat, caps: Caps, st: State, f: Fill)
    requires n < |events| && Numbered(events) && TracksHeld(events, n, st.m, caps.ptrs) && FillFits(st, f)
    ensures FillFits(Step(st, events[n], caps), FillStep(events, n, caps, f))
  {
    FreshIsNeed(events, n, caps, st);
    StepFills(st, events[n], caps);
  }

  lemma KeysAfterInsert(m: map<nat, Entry>, cap: nat, ptr: nat, op: nat, port: nat, slot: nat)
    ensures Inserted(m, cap, ptr, op, port, slot).Keys == if |m.Keys| < cap then m.Keys + {ptr} else m.Keys
  {
    assert |m| == |m.Keys|;
  }

  lemma KeysAfter(st: State, e: Event, caps: Caps, taken: bool)
    requires taken <==> Classify(st, e, caps) == Fresh
    ensures var enters := e.tensor.ptr != 0 && |st.m.Keys| < caps.ptrs && (!e.isInput || taken);
            NextMap(st, e, caps).Keys == if enters then st.m.Keys + {e.tensor.ptr} else st.m.Keys
  {
    if e.isInput {
      KeysAfterInsert(st.m, caps.ptrs, e.tensor.ptr, NO_OP, 0, |st.slots|);
    } else {
      KeysAfterInsert(st.m, caps.ptrs, e.tensor.ptr, e.op, Port8(e.port), 0);
    }
  }

  lemma SlotsAfter(st: State, e: Event, caps: Caps)
    ensures |NextSlots(st, e, caps)| == |st.slots| + if Classify(st, e, caps) == Fresh then 1 else 0
  {
  }

  /** What one access adds to the keys of the map and to the slots. */
  lemma StepFills(st: State, e: Event, caps: Caps)
    ensures var after, taken := Step(st, e, caps), Classify(st, e, caps) == Fresh;
            var enters := e.tensor.ptr != 0 && |st.m.Keys| < caps.ptrs && (!e.isInput || taken);
            && after.m.Keys == (if enters then st.m.Keys + {e.tensor.ptr} else st.m.Keys)
            && |after.slots| == |st.slots| + if taken then 1 else 0
  {
    KeysAfter(st, e, caps, Classify(st, e, caps) == Fresh);
    SlotsAfter(st, e, caps);
  }

  /** The map and the slots of a build are filled exactly as the accesses and the capacities say. */
  lemma FillIsExact(events: seq<Event>, n: nat, caps: Caps)
    requires n <= |events| && Numbered(events)
    ensures FillFits(Run(events, n, caps), FillAfter(events, n, caps))
  {
    var k, st, f := 0, START, Fill({}, 0);
    while k < n
      invariant k <= n && st == Run(events, k, caps) && f == FillAfter(events, k, caps) && FillFits(st, f)
    {
      HeldAlways(events, k, caps);
      FillStepFits(events, k, caps, st, f);
      st, f := Step(st, events[k], caps), FillStep(events, k, caps, f);
      k := k + 1;
    }
  }

  /** The pointers that the map holds after the whole trace. */
  function Held(events: seq<Event>, caps: Caps): set<nat> {
    FillAfter(events, |events|, caps).held
  }

  /** A pointer that is held stays held, and a full map takes no other. */
  ghost predicate Stays(before: set<nat>, after: set<nat>, ptr: nat, cap: nat) {
    && (ptr in before ==> ptr in after)
    && (|before| >= cap ==> |after| >= cap && (ptr in after ==> ptr in before))
  }

  lemma StepStays(events: seq<Event>, n: nat, caps: Caps, f: Fill, before: set<nat>, ptr: nat)
    requires n < |events| && Stays(before, f.held, ptr, caps.ptrs)
    ensures Stays(before, FillStep(events, n, caps, f).held, ptr, caps.ptrs)
  {
  }

  lemma {:induction false} HeldStays(events: seq<Event>, m: nat, n: nat, caps: Caps, ptr: nat)
    requires m <= n <= |events|
    ensures Stays(FillAfter(events, m, caps).held, FillAfter(events, n, caps).held, ptr, caps.ptrs)
    decreases n
  {
    if m < n {
      HeldStays(events, m, n - 1, caps, ptr);
      StepStays(events, n - 1, caps, FillAfter(events, n - 1, caps), FillAfter(events, m, caps).held, ptr);
    }
  }

  /** A pointer with an edge is held at its event exactly when it is held at the end. */
  lemma HeldToTheEnd(events: seq<Event>, n: nat, caps: Caps)
    requires n < |events| && Numbered(events)
    ensures KeptEdge(events, n, Run(events, n, caps).m.Keys) == KeptEdge(events, n, Run(events, |events|, caps).m.Keys)
  {
    HeldAlways(events, n, caps);
    FillIsExact(events, n, caps);
    FillIsExact(events, |events|, caps);
    HeldStays(events, n, |events|, caps, events[n].tensor.ptr);
  }

  lemma {:induction false} EdgeOfRun(events: seq<Event>, n: nat, caps: Caps)
    requires n < |events| && Numbered(events)
    ensures Run(events, n + 1, caps).edges == Run(events, n, caps).edges + KeptEdge(events, n, Run(events, |events|, caps).m.Keys)
  {
    HeldAlways(events, n, caps);
    EdgeAnyFill(events, n, caps, Run(events, n, caps));
    HeldToTheEnd(events, n, caps);
  }

  lemma {:induction false} EdgesUpTo(events: seq<Event>, n: nat, caps: Caps)
    requires n <= |events| && Numbered(events)
    ensures Run(events, n, caps).edges == KeptEdges(events, n, Run(events, |events|, caps).m.Keys)
  {
    var kept := Run(events, |events|, caps).m.Keys;
    var k, edges := 0, [];
    while k < n
      invariant k <= n && edges == Run(events, k, caps).edges && edges == KeptEdges(events, k, kept)
    {
      EdgeOfRun(events, k, caps);
      edges := edges + KeptEdge(events, k, kept);
      k := k + 1;
    }
  }

  // ------------------------------------------------------ edges, exactly

  /** The map comes to hold the pointer of every event that calls for an edge. */
  ghost predicate HoldsAllEdges(events: seq<Event>, n: nat, kept: set<nat>)
    requires n <= |events|
  {
    forall e: nat :: e < n && EdgeFor(events, e).Some? ==> events[e].tensor.ptr in kept
  }

  lemma HoldsOneMore(events: seq<Event>, n: nat, kept: set<nat>)
    requires n < |events|
    ensures HoldsAllEdges(events, n + 1, kept) <==>
              HoldsAllEdges(events, n, kept) && (EdgeFor(events, n).Some? ==> events[n].tensor.ptr in kept)
  {
  }

  ghost predicate KeptFits(kept: seq<Edge>, all: seq<Edge>, holdsAll: bool) {
    |kept| <= |all| && (holdsAll ==> kept == all) && (|kept| == |all| ==> holdsAll)
  }

  lemma {:induction false} KeptIsAll(events: seq<Event>, n: nat, kept: set<nat>)
    requires n <= |events|
    ensures KeptFits(KeptEdges(events, n, kept), LastWriterEdges(events, n), HoldsAllEdges(events, n, kept))
  {
    if n > 0 {
      var k := n - 1;
      KeptIsAll(events, k, kept);
      HoldsOneMore(events, k, kept);
      KeptOneMore(KeptEdges(events, k, kept), LastWriterEdges(events, k), HoldsAllEdges(events, k, kept), EdgeFor(events, k),
                  events[k].tensor.ptr in kept);
    }
  }

  lemma KeptOneMore(kept: seq<Edge>, all: seq<Edge>, holdsAll: bool, edge: Option<Edge>, holds: bool)
    requires KeptFits(kept, all, holdsAll)
    ensures KeptFits(kept + (if edge.Some? && holds then [edge.value] else []),
                     all + (if edge.Some? then [edge.value] else []), holdsAll && (edge.Some? ==> holds))
  {
  }

  /**
   * At any fill, a build records only last-writer edges, those of the pointers
   * that the map comes to hold.  It records all of them exactly when the map
   * comes to hold every pointer that an edge needs, which the accesses and the
   * capacities tell before the build.
   */
  lemma EdgesExactIff(events: seq<Event>, caps: Caps)
    requires Numbered(events)
    ensures var edges := Run(events, |events|, caps).edges;
            && edges == KeptEdges(events, |events|, Held(events, caps))
            && (edges == LastWriterEdges(events, |events|) <==> HoldsAllEdges(events, |events|, Held(events, caps)))
  {
    EdgesUpTo(events, |events|, caps);
    FillIsExact(events, |events|, caps);
    KeptIsAll(events, |events|, Held(events, caps));
  }

  lemma {:induction false} KeptForward(events: seq<Event>, n: nat, kept: set<nat>)
    requires n <= |events| && Ordered(events)
    ensures forall k :: 0 <= k < |KeptEdges(events, n, kept)| ==>
              KeptEdges(events, n, kept)[k].src < KeptEdges(events, n, kept)[k].dst
  {
    if n > 0 {
      KeptForward(events, n - 1, kept);
      var w := LastWrite(events, n - 1, events[n - 1].tensor.ptr);
      if w.Some? {
        assert Precedes(events[w.value], events[n - 1]);
      }
    }
  }

  /** At any fill of the map, every recorded edge goes from an earlier op to a later one. */
  lemma EdgesGoForward(events: seq<Event>, caps: Caps)
    requires Numbered(events)
    ensures var edges := Run(events, |events|, caps).edges;
            forall k :: 0 <= k < |edges| ==> edges[k].src < edges[k].dst
  {
    EdgesUpTo(events, |events|, caps);
    KeptForward(events, |events|, Run(events, |events|, caps).m.Keys);
  }

  /**
   * The edge goes from write w to access e, the next access of the same pointer to
   * be told: its ports are the ports of the two accesses exactly when those are
   * below 256.
   */
  ghost predicate Joins(events: seq<Event>, w: nat, e: nat, x: Edge) {
    && w < e < |events| && LastWrite(events, e, events[e].tensor.ptr) == Some(w)
    && x.src == events[w].op && x.dst == events[e].op && (x.kind == DataFlow <==> events[e].isInput)
    && x.srcPort < 256 && x.dstPort < 256
    && (x.srcPort == events[w].port <==> events[w].port < 256)
    && (x.dstPort == events[e].port <==> events[e].port < 256)
  }

  lemma EdgeJoins(events: seq<Event>, n: nat)
    requires n < |events| && EdgeFor(events, n).Some?
    ensures Joins(events, LastWrite(events, n, events[n].tensor.ptr).value, n, EdgeFor(events, n).value)
  {
    PortKept(events[n].port);
    PortKept(events[LastWrite(events, n, events[n].tensor.ptr).value].port);
  }

  lemma PortKept(port: nat)
    ensures Port8(port) < 256 && (Port8(port) == port <==> port < 256)
  {
  }

  ghost predicate AllJoin(events: seq<Event>, edges: seq<Edge>) {
    forall k :: 0 <= k < |edges| ==> IsJoined(events, edges[k])
  }

  ghost predicate IsJoined(events: seq<Event>, x: Edge) {
    exists w: nat, e: nat :: Joins(events, w, e, x)
  }

  lemma {:induction false} KeptJoin(events: seq<Event>, n: nat, kept: set<nat>)
    requires n <= |events|
    ensures AllJoin(events, KeptEdges(events, n, kept))
  {
    if n > 0 {
      KeptJoin(events, n - 1, kept);
      if EdgeFor(events, n - 1).Some? {
        EdgeJoins(events, n - 1);
        JoinMore(events, KeptEdges(events, n - 1, kept), LastWrite(events, n - 1, events[n - 1].tensor.ptr).value, n - 1,
                 EdgeFor(events, n - 1).value);
      }
    }
  }

  lemma JoinMore(events: seq<Event>, edges: seq<Edge>, w: nat, e: nat, x: Edge)
    requires AllJoin(events, edges) && Joins(events, w, e, x)
    ensures AllJoin(events, edges + [x])
  {
    assert IsJoined(events, x);
  }

  /**
   * At any fill, every recorded edge joins an access to the last write of its
   * pointer, with the ports of both when those are below 256.
   */
  lemma EdgesJoin(events: seq<Event>, caps: Caps)
    requires Numbered(events)
    ensures AllJoin(events, Run(events, |events|, caps).edges)
  {
    EdgesUpTo(events, |events|, caps);
    KeptJoin(events, |events|, Run(events, |events|, caps).m.Keys);
  }

  // --------------------------------------------------- with room for slots

  /** The slots that the accesses ask for when no slot is refused. */
  function Need(events: seq<Event>, ptrs: nat): nat {
    FillAfter(events, |events|, Caps(ptrs, |events|)).used
  }

  /** Access n asks for a slot and finds none. */
  predicate Exhausts(events: seq<Event>, n: nat, caps: Caps)
    requires n < |events|
  {
    var f := FillAfter(events, n, caps);
    NeedsSlot(events, n, f.held) && f.used >= caps.slots
  }

  lemma {:induction false} UsedBounds(events: seq<Event>, m: nat, n: nat, caps: Caps)
    requires m <= n <= |events|
    ensures FillAfter(events, m, caps).used <= FillAfter(events, n, caps).used <= Min(n, caps.slots)
    decreases n
  {
    if m < n {
      UsedBounds(events, m, n - 1, caps);
    } else if n > 0 {
      UsedBounds(events, n - 1, n - 1, caps);
    }
  }

  lemma SameStep(events: seq<Event>, n: nat, caps: Caps, free: Caps, f: Fill)
    requires n < |events| && free.ptrs == caps.ptrs && f.used < free.slots
    requires NeedsSlot(events, n, f.held) ==> f.used < caps.slots
    ensures FillStep(events, n, caps, f) == FillStep(events, n, free, f)
  {
  }

  /** No access of the first n is refused a slot. */
  ghost predicate NoneExhausts(events: seq<Event>, n: nat, caps: Caps)
    requires n <= |events|
  {
    forall k: nat :: k < n ==> !Exhausts(events, k, caps)
  }

  /** Up to the first refusal, a build fills as if no slot were ever refused. */
  lemma {:induction false} FillWithoutLimit(events: seq<Event>, n: nat, caps: Caps)
    requires n <= |events| && NoneExhausts(events, n, caps)
    ensures FillAfter(events, n, caps) == FillAfter(events, n, Caps(caps.ptrs, |events|))
  {
    var free := Caps(caps.ptrs, |events|);
    var k, f := 0, Fill({}, 0);
    while k < n
      invariant k <= n && f.used <= k && f == FillAfter(events, k, caps) && f == FillAfter(events, k, free)
    {
      assert !Exhausts(events, k, caps);
      SameStep(events, k, caps, free, f);
      f := FillStep(events, k, caps, f);
      k := k + 1;
    }
  }

  /** No access is refused a slot exactly when the slots are as many as the accesses ask for. */
  lemma {:induction false} NoneExhaustsIff(events: seq<Event>, caps: Caps)
    ensures NoneExhausts(events, |events|, caps) <==> Need(events, caps.ptrs) <= caps.slots
  {
    var n := 0;
    while n < |events| && !Exhausts(events, n, caps)
      invariant n <= |events| && NoneExhausts(events, n, caps)
    {
      n := n + 1;
    }
    if n < |events| {
      FillWithoutLimit(events, n, caps);
      OneMoreNeeded(events, n, caps.ptrs, FillAfter(events, n, caps));
    } else {
      NonePlacedBeyond(events, caps);
    }
  }

  lemma NonePlacedBeyond(events: seq<Event>, caps: Caps)
    requires NoneExhausts(events, |events|, caps)
    ensures Need(events, caps.ptrs) <= caps.slots
  {
    FillWithoutLimit(events, |events|, caps);
    UsedBounds(events, |events|, |events|, caps);
  }

  lemma {:induction false} OneMoreNeeded(events: seq<Event>, n: nat, ptrs: nat, f: Fill)
    requires n < |events| && f == FillAfter(events, n, Caps(ptrs, |events|)) && NeedsSlot(events, n, f.held)
    ensures Need(events, ptrs) > f.used
  {
    var free := Caps(ptrs, |events|);
    UsedBounds(events, n, n, free);
    UsedNext(events, n, free, f);
    UsedBounds(events, n + 1, |events|, free);
  }

  lemma UsedNext(events: seq<Event>, n: nat, caps: Caps, f: Fill)
    requires n < |events| && f == FillAfter(events, n, caps) && NeedsSlot(events, n, f.held) && f.used < caps.slots
    ensures FillAfter(events, n + 1, caps).used == f.used + 1
  {
  }

  /** The first distinct non-null pointers of n accesses, at most cap of them. */
  function FirstPointers(events: seq<Event>, n: nat, cap: nat): set<nat>
    requires n <= |events|
  {
    if n == 0 then {} else WithRoom(FirstPointers(events, n - 1, cap), events[n - 1].tensor.ptr, cap)
  }

  function WithRoom(first: set<nat>, ptr: nat, cap: nat): set<nat> {
    if |first| < cap then WithPointer(first, ptr) else first
  }

  /** While no slot is refused, the map holds the first distinct pointers of the trace. */
  lemma {:induction false} HeldAreFirst(events: seq<Event>, n: nat, caps: Caps)
    requires n <= |events| && NoneExhausts(events, n, caps)
    ensures FillAfter(events, n, caps).held == FirstPointers(events, n, caps.ptrs)
  {
    var k, f := 0, Fill({}, 0);
    while k < n
      invariant k <= n && f == FillAfter(events, k, caps) && f.held == FirstPointers(events, k, caps.ptrs)
    {
      assert !Exhausts(events, k, caps);
      HeldStep(events, k, caps, f);
      f := FillStep(events, k, caps, f);
      k := k + 1;
    }
  }

  /** An access that is not refused a slot puts its pointer in the map, when the map has room. */
  lemma HeldStep(events: seq<Event>, n: nat, caps: Caps, f: Fill)
    requires n < |events| && (NeedsSlot(events, n, f.held) ==> f.used < caps.slots)
    ensures FillStep(events, n, caps, f).held == WithRoom(f.held, events[n].tensor.ptr, caps.ptrs)
  {
    var ptr := events[n].tensor.ptr;
    assert ptr in f.held ==> f.held + {ptr} == f.held;
  }

  lemma {:induction false} PointersGrow(events: seq<Event>, m: nat, n: nat)
    requires m <= n <= |events|
    ensures Pointers(events, m) <= Pointers(events, n)
    decreases n
  {
    if m < n {
      PointersGrow(events, m, n - 1);
    }
  }

  lemma OneMoreFits(first: set<nat>, ptr: nat, all: set<nat>, cap: nat)
    requires WithPointer(first, ptr) <= all && |all| <= cap
    ensures WithRoom(first, ptr, cap) == WithPointer(first, ptr)
  {
    if ptr != 0 && ptr !in first {
      PartSize(first + {ptr}, all);
    }
  }

  /** Every pointer that was written is held, and nothing is held that was not accessed. */
  ghost predicate WrittenHeld(events: seq<Event>, n: nat, held: set<nat>)
    requires n <= |events|
  {
    && held <= Pointers(events, n)
    && (forall ptr: nat :: ptr != 0 && IsWritten(events, n, ptr) ==> ptr in held)
  }

  ghost predicate IsWritten(events: seq<Event>, n: nat, ptr: nat)
    requires n <= |events|
  {
    LastWrite(events, n, ptr).Some?
  }

  lemma WrittenHeldStep(events: seq<Event>, n: nat, caps: Caps, f: Fill)
    requires n < |events| && |Pointers(events, |events|)| <= caps.ptrs && WrittenHeld(events, n, f.held)
    ensures WrittenHeld(events, n + 1, FillStep(events, n, caps, f).held)
  {
    var ptr, next := events[n].tensor.ptr, n + 1;
    PointersGrow(events, next, |events|);
    if ptr != 0 && ptr !in f.held {
      PartSize(f.held + {ptr}, Pointers(events, |events|));
    }
    forall q: nat | q != 0 && IsWritten(events, next, q) ensures q in FillStep(events, n, caps, f).held {
      assert q != ptr || events[n].isInput ==> IsWritten(events, n, q);
    }
  }

  /** A map with room for every pointer holds every pointer that was written, whatever happens to the slots. */
  lemma {:induction false} WrittenAreHeld(events: seq<Event>, n: nat, caps: Caps)
    requires n <= |events| && |Pointers(events, |events|)| <= caps.ptrs
    ensures WrittenHeld(events, n, FillAfter(events, n, caps).held)
  {
    var k, f := 0, Fill({}, 0);
    while k < n
      invariant k <= n && f == FillAfter(events, k, caps) && WrittenHeld(events, k, f.held)
    {
      WrittenHeldStep(events, k, caps, f);
      f := FillStep(events, k, caps, f);
      k := k + 1;
    }
  }

  lemma {:induction false} WrittenStays(events: seq<Event>, m: nat, n: nat, ptr: nat)
    requires m <= n <= |events| && IsWritten(events, m, ptr)
    ensures IsWritten(events, n, ptr)
    decreases n
  {
    if m < n {
      WrittenStays(events, m, n - 1, ptr);
    }
  }

  /** When the map has room for the pointers of the trace, the edges are exactly the last-writer edges. */
  lemma EdgesExact(events: seq<Event>, caps: Caps)
    requires Numbered(events) && |Pointers(events, |events|)| <= caps.ptrs
    ensures Run(events, |events|, caps).edges == LastWriterEdges(events, |events|)
  {
    WrittenAreHeld(events, |events|, caps);
    forall e: nat | e < |events| && EdgeFor(events, e).Some? ensures events[e].tensor.ptr in Held(events, caps) {
      WrittenStays(events, e, |events|, events[e].tensor.ptr);
    }
    EdgesExactIff(events, caps);
  }

  /** The accesses that ask for a slot when every pointer is held from its first access on. */
  ghost function SlotCount(events: seq<Event>, n: nat): (r: nat)
    requires n <= |events|
    ensures r <= n
  {
    if n == 0 then 0
    else SlotCount(events, n - 1) + if NeedsSlot(events, n - 1, Pointers(events, n - 1)) then 1 else 0
  }

  lemma CountStep(events: seq<Event>, n: nat, caps: Caps, f: Fill, all: set<nat>)
    requires n < |events| && |all| <= caps.ptrs && f.used < caps.slots
    requires WithPointer(f.held, events[n].tensor.ptr) <= all
    ensures FillStep(events, n, caps, f) == Fill(WithPointer(f.held, events[n].tensor.ptr),
                                                 f.used + if NeedsSlot(events, n, f.held) then 1 else 0)
  {
    OneMoreFits(f.held, events[n].tensor.ptr, all, caps.ptrs);
    assert events[n].tensor.ptr in f.held ==> f.held + {events[n].tensor.ptr} == f.held;
  }

  lemma {:induction false} CountNext(events: seq<Event>, n: nat, caps: Caps, f: Fill)
    requires n < |events| && |Pointers(events, |events|)| <= caps.ptrs && f.used < caps.slots
    requires f == Fill(Pointers(events, n), SlotCount(events, n))
    ensures FillStep(events, n, caps, f) == Fill(Pointers(events, n + 1), SlotCount(events, n + 1))
  {
    PointersGrow(events, n + 1, |events|);
    CountStep(events, n, caps, f, Pointers(events, |events|));
  }

  lemma {:induction false} Counted(events: seq<Event>, n: nat, caps: Caps)
    requires n <= |events| <= caps.slots && |Pointers(events, |events|)| <= caps.ptrs
    ensures FillAfter(events, n, caps) == Fill(Pointers(events, n), SlotCount(events, n))
  {
    if n > 0 {
      Counted(events, n - 1, caps);
      CountNext(events, n - 1, caps, FillAfter(events, n - 1, caps));
    }
  }

  /** With room for every pointer, the slots a trace needs are counted from its accesses alone. */
  lemma {:induction false} NeedIsCount(events: seq<Event>, ptrs: nat)
    requires |Pointers(events, |events|)| <= ptrs
    ensures Need(events, ptrs) == SlotCount(events, |events|)
  {
    Counted(events, |events|, Caps(ptrs, |events|));
  }
}
