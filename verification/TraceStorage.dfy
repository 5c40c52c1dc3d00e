/**
 * The storage slots of a build at any fill: which accesses share a slot, and
 * when every slot is the storage of one pointer.
 */
module TraceStorage {
  import opened Basics
  import opened PtrMap
  import opened TraceSpec
  import opened TraceFill

  /** The pointer whose access made each slot. */
  ghost function Owners(events: seq<Event>, n: nat, caps: Caps): seq<nat>
    requires n <= |events|
  {
    if n == 0 then []
    else if |Run(events, n, caps).slots| > |Run(events, n - 1, caps).slots| then
      Owners(events, n - 1, caps) + [events[n - 1].tensor.ptr]
    else Owners(events, n - 1, caps)
  }

  /** Each access to a pointer, and each map entry, holds a slot that its own pointer made. */
  ghost predicate Owned(events: seq<Event>, n: nat, st: State, owners: seq<nat>)
    requires n <= |events|
  {
    && |st.ids| == n && |owners| == |st.slots|
    && (forall e :: 0 <= e < n && events[e].tensor.ptr == 0 ==> st.ids[e] == NO_SLOT)
    && (forall e :: 0 <= e < n && events[e].tensor.ptr != 0 ==>
          st.ids[e] < |owners| && owners[st.ids[e]] == events[e].tensor.ptr)
    && (forall ptr :: ptr in st.m ==> st.m[ptr].slot < |owners| && owners[st.m[ptr].slot] == ptr)
  }

  /** Every slot is the storage of one pointer. */
  ghost predicate Storages(events: seq<Event>, n: nat, caps: Caps)
    requires n <= |events|
  {
    Owned(events, n, Run(events, n, caps), Owners(events, n, caps))
  }

  /** The slot of a placed access: a new slot, or the slot that the map holds for its pointer. */
  lemma StepIdentity(st: State, e: Event, caps: Caps)
    requires e.tensor.ptr != 0 && Classify(st, e, caps) != Skip
    ensures var after, ptr := Step(st, e, caps), e.tensor.ptr;
            var id := after.ids[|st.ids|];
            && |after.ids| == |st.ids| + 1 && after.ids[..|st.ids|] == st.ids
            && (id == |st.slots| || (ptr in st.m && id == st.m[ptr].slot))
            && |after.slots| == |st.slots| + (if Classify(st, e, caps) == Fresh then 1 else 0)
            && (Classify(st, e, caps) == Fresh ==> id == |st.slots|)
            && (Classify(st, e, caps) != Fresh ==> ptr in st.m && id == st.m[ptr].slot)
            && (forall q :: q != ptr && q in after.m ==> q in st.m && after.m[q] == st.m[q])
            && (ptr in after.m ==> after.m[ptr].slot == id || (ptr in st.m && after.m[ptr].slot == st.m[ptr].slot))
            && (!e.isInput && ptr in after.m ==> after.m[ptr].slot == id)
            && (e.isInput && ptr in st.m ==> ptr in after.m && after.m[ptr].slot == st.m[ptr].slot)
  {
  }

  lemma StepNull(st: State, e: Event, caps: Caps)
    requires e.tensor.ptr == 0
    ensures var after := Step(st, e, caps);
            && after.m == st.m && after.slots == st.slots && after.ids == st.ids + [NO_SLOT]
  {
  }

  lemma OwnedStep(events: seq<Event>, n: nat, caps: Caps, st: State, owners: seq<nat>)
    requires n < |events| && Owned(events, n, st, owners)
    requires events[n].tensor.ptr != 0 ==> Classify(st, events[n], caps) != Skip
    ensures var after := Step(st, events[n], caps);
            var more := if |after.slots| > |st.slots| then owners + [events[n].tensor.ptr] else owners;
            Owned(events, n + 1, after, more)
  {
    var e, after := events[n], Step(st, events[n], caps);
    if e.tensor.ptr == 0 {
      StepNull(st, e, caps);
      NullOwned(events, n, st, after, owners);
    } else {
      StepIdentity(st, e, caps);
      PlacedOwned(events, n, st, after, owners, Classify(st, e, caps) == Fresh);
    }
  }

  lemma NullOwned(events: seq<Event>, n: nat, st: State, after: State, owners: seq<nat>)
    requires n < |events| && Owned(events, n, st, owners) && events[n].tensor.ptr == 0
    requires after.m == st.m && after.slots == st.slots && after.ids == st.ids + [NO_SLOT]
    ensures Owned(events, n + 1, after, owners)
  {
  }

  lemma PlacedOwned(events: seq<Event>, n: nat, st: State, after: State, owners: seq<nat>, isNew: bool)
    requires n < |events| && Owned(events, n, st, owners) && events[n].tensor.ptr != 0
    requires var ptr := events[n].tensor.ptr;
             && |after.ids| == |st.ids| + 1 && after.ids[..|st.ids|] == st.ids
             && |after.slots| == |st.slots| + (if isNew then 1 else 0)
             && (isNew ==> after.ids[|st.ids|] == |st.slots|)
             && (!isNew ==> ptr in st.m && after.ids[|st.ids|] == st.m[ptr].slot)
             && (forall q :: q != ptr && q in after.m ==> q in st.m && after.m[q] == st.m[q])
             && (ptr in after.m ==>
                   after.m[ptr].slot == after.ids[|st.ids|] || (ptr in st.m && after.m[ptr].slot == st.m[ptr].slot))
    ensures Owned(events, n + 1, after, if isNew then owners + [events[n].tensor.ptr] else owners)
  {
    assert forall k :: 0 <= k < n ==> after.ids[k] == after.ids[..n][k] == st.ids[k];
  }

  /** As long as no access is refused a slot, every slot is the storage of one pointer. */
  lemma StoragesWhilePlaced(events: seq<Event>, n: nat, caps: Caps)
    requires n <= |events| && Numbered(events) && NoneExhausts(events, n, caps)
    ensures Storages(events, n, caps)
  {
    var k := 0;
    var kept := Storages(events, 0, caps);
    while k < n
      invariant k <= n && kept && kept == Storages(events, k, caps)
    {
      assert !Exhausts(events, k, caps);
      StoragesStep(events, k, caps);
      k := k + 1;
    }
  }

  lemma StoragesStep(events: seq<Event>, n: nat, caps: Caps)
    requires n < |events| && Numbered(events) && !Exhausts(events, n, caps)
    ensures Storages(events, n, caps) ==> Storages(events, n + 1, caps)
  {
    if Storages(events, n, caps) {
      var st, owners := Run(events, n, caps), Owners(events, n, caps);
      PlacedIff(events, n, caps);
      OwnedStep(events, n, caps, st, owners);
      var after := Run(events, n + 1, caps);
      assert after == Step(st, events[n], caps);
      assert Owners(events, n + 1, caps) == if |after.slots| > |st.slots| then owners + [events[n].tensor.ptr] else owners;
    }
  }

  /** An access to a pointer is refused a slot exactly when the fill says so. */
  lemma PlacedIff(events: seq<Event>, n: nat, caps: Caps)
    requires n < |events| && Numbered(events)
    ensures events[n].tensor.ptr != 0 ==>
              (Classify(Run(events, n, caps), events[n], caps) == Skip <==> Exhausts(events, n, caps))
  {
    HeldAlways(events, n, caps);
    FillIsExact(events, n, caps);
    FreshIsNeed(events, n, caps, Run(events, n, caps));
  }

  /** A refused access has no slot. */
  lemma RefusedHasNone(events: seq<Event>, n: nat, caps: Caps)
    requires n < |events| && Numbered(events) && Exhausts(events, n, caps)
    ensures |Run(events, |events|, caps).ids| == |events| && Run(events, |events|, caps).ids[n] == NO_SLOT
  {
    PlacedIff(events, n, caps);
    EventOfRun(events, n, caps);
  }

  /**
   * At any fill of the map, every slot is the storage of one pointer exactly when
   * the slots are as many as the accesses ask for.
   */
  lemma StoragesIff(events: seq<Event>, caps: Caps)
    requires Numbered(events) && caps.slots <= NO_SLOT
    ensures Storages(events, |events|, caps) <==> Need(events, caps.ptrs) <= caps.slots
  {
    NoneExhaustsIff(events, caps);
    if NoneExhausts(events, |events|, caps) {
      StoragesWhilePlaced(events, |events|, caps);
    } else {
      var n: nat :| n < |events| && Exhausts(events, n, caps);
      RefusedHasNone(events, n, caps);
      FillIsExact(events, |events|, caps);
      UsedBounds(events, |events|, |events|, caps);
    }
  }

  // --------------------------------------------------------- readers

  /** The entry of a written pointer holds the slot of its last write, when that write has a slot. */
  ghost predicate HoldsLast(events: seq<Event>, n: nat, st: State)
    requires n <= |events|
  {
    |st.ids| == n && forall ptr: nat :: ptr in st.m ==> HoldsLastOf(events, n, st, ptr)
  }

  ghost predicate HoldsLastOf(events: seq<Event>, n: nat, st: State, ptr: nat)
    requires n <= |events| && |st.ids| == n && ptr in st.m
  {
    match LastWrite(events, n, ptr)
    case None => true
    case Some(k) => st.ids[k] == NO_SLOT || st.m[ptr].slot == st.ids[k]
  }

  /** What an access to a pointer does to the map and the ids, at any fill. */
  lemma StepAnyFill(st: State, e: Event, caps: Caps)
    requires e.tensor.ptr != 0
    ensures var after, ptr := Step(st, e, caps), e.tensor.ptr;
            && |after.ids| == |st.ids| + 1 && after.ids[..|st.ids|] == st.ids
            && (forall q :: q != ptr && q in after.m ==> q in st.m && after.m[q] == st.m[q])
            && (!e.isInput && ptr in after.m ==> after.ids[|st.ids|] == NO_SLOT || after.m[ptr].slot == after.ids[|st.ids|])
            && (e.isInput && ptr in st.m ==> ptr in after.m && after.m[ptr].slot == st.m[ptr].slot)
            && (e.isInput && ptr !in st.m && |st.m| >= caps.ptrs ==> ptr !in after.m)
  {
  }

  lemma {:induction false} HoldsLastStep(events: seq<Event>, n: nat, caps: Caps, st: State)
    requires n < |events| && TracksHeld(events, n, st.m, caps.ptrs) && HoldsLast(events, n, st)
    ensures HoldsLast(events, n + 1, Step(st, events[n], caps))
  {
    var e, after, next := events[n], Step(st, events[n], caps), n + 1;
    if e.tensor.ptr == 0 {
      StepNull(st, e, caps);
    } else {
      StepAnyFill(st, e, caps);
    }
    forall q: nat | q in after.m ensures HoldsLastOf(events, next, after, q) {
      if q != e.tensor.ptr || e.isInput {
        assert LastWrite(events, next, q) == LastWrite(events, n, q);
        assert q in st.m ==> HoldsLastOf(events, n, st, q);
        assert forall k :: 0 <= k < n ==> after.ids[k] == after.ids[..n][k] == st.ids[k];
      }
    }
  }

  lemma {:induction false} HoldsLastAlways(events: seq<Event>, n: nat, caps: Caps)
    requires n <= |events| && Numbered(events)
    ensures HoldsLast(events, n, Run(events, n, caps))
  {
    var k, st := 0, START;
    while k < n
      invariant k <= n && st == Run(events, k, caps) && HoldsLast(events, k, st)
    {
      HeldAlways(events, k, caps);
      HoldsLastStep(events, k, caps, st);
      st := Step(st, events[k], caps);
      k := k + 1;
    }
  }

  /** An access to a pointer has a slot exactly when it is not refused one. */
  lemma {:induction false} HasSlotIff(events: seq<Event>, n: nat, caps: Caps)
    requires n < |events| && Numbered(events) && 0 < caps.slots <= NO_SLOT && events[n].tensor.ptr != 0
    ensures |Run(events, |events|, caps).ids| == |events|
    ensures Run(events, |events|, caps).ids[n] == NO_SLOT <==> Exhausts(events, n, caps)
  {
    var st := Run(events, n, caps);
    PlacedIff(events, n, caps);
    EventOfRun(events, n, caps);
    AlwaysAlive(events, n, caps);
    FillIsExact(events, n, caps);
    UsedBounds(events, n, n, caps);
  }

  /**
   * At any fill, an input whose pointer the map comes to hold names the op of its
   * last writer, and both carry one slot id exactly when that write was not
   * refused a slot.  Any other input names no op.
   */
  lemma {:induction false} ReaderSharesSlot(events: seq<Event>, e: nat, caps: Caps)
    requires e < |events| && Numbered(events) && 0 < caps.slots <= NO_SLOT
    requires events[e].isInput && events[e].tensor.ptr != 0
    ensures var st := Run(events, |events|, caps);
            && |st.ids| == |st.sources| == |events|
            && match LastWrite(events, e, events[e].tensor.ptr)
               case None => st.sources[e] == NO_OP
               case Some(k) =>
                 if events[e].tensor.ptr !in Held(events, caps) then st.sources[e] == NO_OP
                 else st.sources[e] == events[k].op && (st.ids[e] == st.ids[k] <==> !Exhausts(events, k, caps))
  {
    var ptr := events[e].tensor.ptr;
    EventOfRun(events, e, caps);
    HeldAlways(events, e, caps);
    var w, st := LastWrite(events, e, ptr), Run(events, e, caps);
    if w.Some? {
      WrittenHeldToTheEnd(events, e, caps);
    }
    if ptr in st.m {
      assert TracksPtr(events, e, st.m, ptr);
      if w.Some? {
        ReaderTakes(events, e, caps);
        HasSlotIff(events, w.value, caps);
      }
    }
  }

  /**
   * At any fill, an output over a held pointer that another op wrote last lands in the
   * storage of that write: both carry one slot id exactly when that write was not
   * refused a slot.
   */
  lemma {:induction false} OverwriteSharesSlot(events: seq<Event>, e: nat, caps: Caps)
    requires e < |events| && Numbered(events) && 0 < caps.slots <= NO_SLOT
    requires !events[e].isInput && events[e].tensor.ptr != 0 && events[e].tensor.ptr in Held(events, caps)
    requires LastWrite(events, e, events[e].tensor.ptr).Some?
    requires events[LastWrite(events, e, events[e].tensor.ptr).value].op != events[e].op
    ensures var ids, k := Run(events, |events|, caps).ids, LastWrite(events, e, events[e].tensor.ptr).value;
            |ids| == |events| && (ids[e] == ids[k] <==> !Exhausts(events, k, caps))
  {
    var k := LastWrite(events, e, events[e].tensor.ptr).value;
    WrittenHeldToTheEnd(events, e, caps);
    WriterTakes(events, e, caps);
    HasSlotIff(events, k, caps);
  }

  lemma {:induction false} WriterTakes(events: seq<Event>, e: nat, caps: Caps)
    requires e < |events| && Numbered(events) && 0 < caps.slots <= NO_SLOT
    requires !events[e].isInput && events[e].tensor.ptr != 0 && events[e].tensor.ptr in Run(events, e, caps).m
    requires LastWrite(events, e, events[e].tensor.ptr).Some?
    requires events[LastWrite(events, e, events[e].tensor.ptr).value].op != events[e].op
    ensures var all, k := Run(events, |events|, caps), LastWrite(events, e, events[e].tensor.ptr).value;
            |all.ids| == |events| && all.ids[e] != NO_SLOT && (all.ids[k] == NO_SLOT || all.ids[e] == all.ids[k])
  {
    var st, ptr := Run(events, e, caps), events[e].tensor.ptr;
    EventOfRun(events, e, caps);
    HeldAlways(events, e, caps);
    HoldsLastAlways(events, e, caps);
    AlwaysAlive(events, e, caps);
    FillIsExact(events, e, caps);
    UsedBounds(events, e, e, caps);
    assert TracksPtr(events, e, st.m, ptr) && HoldsLastOf(events, e, st, ptr);
  }

  /** A written pointer is held at a read exactly when it is held at the end. */
  lemma {:induction false} WrittenHeldToTheEnd(events: seq<Event>, n: nat, caps: Caps)
    requires n < |events| && Numbered(events) && events[n].tensor.ptr != 0
    requires LastWrite(events, n, events[n].tensor.ptr).Some?
    ensures events[n].tensor.ptr in Run(events, n, caps).m <==> events[n].tensor.ptr in Held(events, caps)
  {
    HeldAlways(events, n, caps);
    FillIsExact(events, n, caps);
    FillIsExact(events, |events|, caps);
    HeldStays(events, n, |events|, caps, events[n].tensor.ptr);
  }

  /** A read of a written and held pointer takes the slot of the entry, which is the slot of the write if it has one. */
  lemma {:induction false} ReaderTakes(events: seq<Event>, e: nat, caps: Caps)
    requires e < |events| && Numbered(events) && 0 < caps.slots <= NO_SLOT
    requires events[e].isInput && events[e].tensor.ptr != 0 && events[e].tensor.ptr in Run(events, e, caps).m
    requires LastWrite(events, e, events[e].tensor.ptr).Some?
    ensures var all, k := Run(events, |events|, caps), LastWrite(events, e, events[e].tensor.ptr).value;
            |all.ids| == |events| && all.ids[e] != NO_SLOT && (all.ids[k] == NO_SLOT || all.ids[e] == all.ids[k])
  {
    var st, ptr := Run(events, e, caps), events[e].tensor.ptr;
    EventOfRun(events, e, caps);
    HeldAlways(events, e, caps);
    HoldsLastAlways(events, e, caps);
    AlwaysAlive(events, e, caps);
    FillIsExact(events, e, caps);
    UsedBounds(events, e, e, caps);
    assert TracksPtr(events, e, st.m, ptr) && HoldsLastOf(events, e, st, ptr);
  }
}
