/**
 * What each storage slot of a build is, from the accesses that carry its id: who
 * made it, when it begins and ends, how large it is, and whether it is external.
 */
module TraceSlots {
  import opened Basics
  import opened PtrMap
  import opened TraceSpec

  /** Access e of the first n carries slot s. */
  ghost predicate Carries(ids: seq<nat>, n: nat, s: nat, e: nat) {
    e < n <= |ids| && ids[e] == s
  }

  /** Access e gives slot s its size: it made the slot, or it wrote over it. */
  ghost predicate Sizes(events: seq<Event>, ids: seq<nat>, n: nat, s: nat, maker: nat, e: nat)
    requires n <= |events|
  {
    Carries(ids, n, s, e) && (e == maker || !events[e].isInput)
  }

  /** No access before the maker carries the slot. */
  ghost predicate FirstCarrier(ids: seq<nat>, n: nat, s: nat, maker: nat) {
    Carries(ids, n, s, maker) && forall e: nat :: e < maker ==> !Carries(ids, n, s, e)
  }

  /** The slot ends at the last op that carries it. */
  ghost predicate EndsAt(events: seq<Event>, ids: seq<nat>, n: nat, s: nat, death: nat)
    requires n <= |events|
  {
    && (forall e: nat :: Carries(ids, n, s, e) ==> events[e].op <= death)
    && (exists e: nat :: Carries(ids, n, s, e) && events[e].op == death)
  }

  /** The slot is as large as the largest tensor that made it or was written to it. */
  ghost predicate LargeAs(events: seq<Event>, ids: seq<nat>, n: nat, s: nat, maker: nat, nbytes: nat)
    requires n <= |events|
  {
    && (forall e: nat :: Sizes(events, ids, n, s, maker, e) ==> events[e].tensor.nbytes <= nbytes)
    && (exists e: nat :: Sizes(events, ids, n, s, maker, e) && events[e].tensor.nbytes == nbytes)
  }

  /**
   * What slot s is, from the accesses: it is external exactly when an input made
   * it, an external slot is there from the start and any other from the op of its
   * maker.
   */
  ghost predicate IsSlot(events: seq<Event>, ids: seq<nat>, n: nat, s: nat, maker: nat, info: SlotInfo)
    requires n <= |events|
  {
    && FirstCarrier(ids, n, s, maker)
    && (info.external <==> events[maker].isInput)
    && info.birth == (if events[maker].isInput then 0 else events[maker].op)
    && EndsAt(events, ids, n, s, info.death) && LargeAs(events, ids, n, s, maker, info.nbytes)
  }

  ghost predicate HasMaker(events: seq<Event>, ids: seq<nat>, n: nat, s: nat, info: SlotInfo)
    requires n <= |events|
  {
    exists maker: nat :: IsSlot(events, ids, n, s, maker, info)
  }

  /** Every slot is what its accesses say, and no access or map entry names another slot. */
  ghost predicate SlotsMade(events: seq<Event>, n: nat, st: State)
    requires n <= |events|
  {
    && |st.ids| == n && (forall ptr :: ptr in st.m ==> st.m[ptr].slot < |st.slots|)
    && (forall e :: 0 <= e < n ==> st.ids[e] == NO_SLOT || st.ids[e] < |st.slots|)
    && (forall s :: 0 <= s < |st.slots| ==> HasMaker(events, st.ids, n, s, st.slots[s]))
  }

  // ------------------------------------------------------------- one access

  /** An access to another slot, or to none. */
  lemma PassedBy(events: seq<Event>, ids: seq<nat>, n: nat, s: nat, maker: nat, info: SlotInfo, id: nat)
    requires n < |events| && |ids| == n && IsSlot(events, ids, n, s, maker, info) && id != s
    ensures IsSlot(events, ids + [id], n + 1, s, maker, info)
  {
    var more, next := ids + [id], n + 1;
    assert forall e: nat :: Carries(more, next, s, e) <==> Carries(ids, n, s, e);
    assert forall e: nat :: Sizes(events, more, next, s, maker, e) <==> Sizes(events, ids, n, s, maker, e);
  }

  /** The slot after an access that carries it. */
  function Grown(info: SlotInfo, e: Event): SlotInfo {
    info.(death := Max(info.death, e.op), nbytes := Max(info.nbytes, if e.isInput then 0 else e.tensor.nbytes))
  }

  lemma EndGrows(events: seq<Event>, ids: seq<nat>, n: nat, s: nat, death: nat)
    requires n < |events| && |ids| == n && EndsAt(events, ids, n, s, death)
    ensures EndsAt(events, ids + [s], n + 1, s, Max(death, events[n].op))
  {
    var more, next := ids + [s], n + 1;
    assert forall e: nat :: e < n ==> (Carries(more, next, s, e) <==> Carries(ids, n, s, e));
    var last: nat :| Carries(ids, n, s, last) && events[last].op == death;
    assert Carries(more, next, s, last) && Carries(more, next, s, n);
  }

  lemma SizeGrows(events: seq<Event>, ids: seq<nat>, n: nat, s: nat, maker: nat, nbytes: nat)
    requires n < |events| && |ids| == n && LargeAs(events, ids, n, s, maker, nbytes) && maker < n
    ensures LargeAs(events, ids + [s], n + 1, s, maker, Max(nbytes, if events[n].isInput then 0 else events[n].tensor.nbytes))
  {
    var more, next := ids + [s], n + 1;
    assert forall e: nat :: e < n ==> (Sizes(events, more, next, s, maker, e) <==> Sizes(events, ids, n, s, maker, e));
    var large: nat :| Sizes(events, ids, n, s, maker, large) && events[large].tensor.nbytes == nbytes;
    assert Sizes(events, more, next, s, maker, large);
    assert Sizes(events, more, next, s, maker, n) <==> !events[n].isInput;
  }

  lemma Carried(events: seq<Event>, ids: seq<nat>, n: nat, s: nat, maker: nat, info: SlotInfo)
    requires n < |events| && |ids| == n && IsSlot(events, ids, n, s, maker, info)
    ensures IsSlot(events, ids + [s], n + 1, s, maker, Grown(info, events[n]))
  {
    EndGrows(events, ids, n, s, info.death);
    SizeGrows(events, ids, n, s, maker, info.nbytes);
    var more, next := ids + [s], n + 1;
    assert forall e: nat :: e < n ==> (Carries(more, next, s, e) <==> Carries(ids, n, s, e));
    assert Carries(more, next, s, maker);
  }

  /** The slot that an access makes. */
  function NewSlot(e: Event): SlotInfo {
    SlotInfo(e.tensor.nbytes, if e.isInput then 0 else e.op, e.op, e.isInput)
  }

  lemma Made(events: seq<Event>, ids: seq<nat>, n: nat, s: nat)
    requires n < |events| && |ids| == n && s !in ids
    ensures IsSlot(events, ids + [s], n + 1, s, n, NewSlot(events[n]))
  {
    var more, next := ids + [s], n + 1;
    assert Carries(more, next, s, n) && Sizes(events, more, next, s, n, n);
    assert forall e: nat :: e < n ==> !Carries(more, next, s, e);
  }

  /** What an access does to the slots: it makes one, it carries one, or it carries none. */
  lemma SlotsOfAccess(st: State, e: Event, caps: Caps)
    requires caps.slots > 0 && (forall ptr :: ptr in st.m ==> st.m[ptr].slot < |st.slots|)
    ensures var after, id := Step(st, e, caps), TakenId(st, e, caps);
            && after.ids == st.ids + [id]
            && (forall ptr :: ptr in after.m ==> after.m[ptr].slot < |after.slots|)
            && (|| (id == |st.slots| < caps.slots && after.slots == st.slots + [NewSlot(e)])
                || (id < |st.slots| && after.slots == st.slots[id := Grown(st.slots[id], e)])
                || (id == NO_SLOT && after.slots == st.slots))
  {
    StepMapSlots(st, e, caps);
  }

  lemma OneSlot(events: seq<Event>, n: nat, st: State, slots: seq<SlotInfo>, id: nat, s: nat)
    requires n < |events| && SlotsMade(events, n, st) && s < |slots|
    requires || (id == |st.slots| < NO_SLOT && slots == st.slots + [NewSlot(events[n])])
             || (id < |st.slots| && slots == st.slots[id := Grown(st.slots[id], events[n])])
             || (id == NO_SLOT >= |st.slots| && slots == st.slots)
    ensures HasMaker(events, st.ids + [id], n + 1, s, slots[s])
  {
    if s < |st.slots| {
      assert HasMaker(events, st.ids, n, s, st.slots[s]);
      var maker: nat :| IsSlot(events, st.ids, n, s, maker, st.slots[s]);
      if id == s {
        Carried(events, st.ids, n, s, maker, st.slots[s]);
      } else {
        PassedBy(events, st.ids, n, s, maker, st.slots[s], id);
      }
    } else {
      Made(events, st.ids, n, s);
    }
  }

  lemma SlotsStep(events: seq<Event>, n: nat, st: State, caps: Caps)
    requires n < |events| && SlotsMade(events, n, st) && 0 < caps.slots <= NO_SLOT && |st.slots| <= caps.slots
    ensures SlotsMade(events, n + 1, Step(st, events[n], caps)) && |Step(st, events[n], caps).slots| <= caps.slots
  {
    var after, id := Step(st, events[n], caps), TakenId(st, events[n], caps);
    SlotsOfAccess(st, events[n], caps);
    forall s | 0 <= s < |after.slots| ensures HasMaker(events, after.ids, n + 1, s, after.slots[s]) {
      OneSlot(events, n, st, after.slots, id, s);
    }
  }

  /**
   * At any fill of the map and of the slots, every slot of a build is external
   * exactly when an input made it, begins with its maker, ends at the last op that
   * carries its id, and is as large as the largest tensor that made it or was
   * written to it.
   */
  lemma {:induction false} SlotsAreMade(events: seq<Event>, n: nat, caps: Caps)
    requires n <= |events| && 0 < caps.slots <= NO_SLOT
    ensures SlotsMade(events, n, Run(events, n, caps)) && |Run(events, n, caps).slots| <= caps.slots
  {
    if n > 0 {
      SlotsAreMade(events, n - 1, caps);
      SlotsStep(events, n - 1, Run(events, n - 1, caps), caps);
    }
  }
}
