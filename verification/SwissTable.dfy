/**
 * A hash table in groups of control bytes, with triangular probing over the
 * groups.  A control byte is empty or holds the tag of the hash in its slot.
 */
module SwissTable {
  import opened Basics
  import opened TriangularProbe

  const EMPTY := -128
  const TAG_UNIT := 0x200_0000_0000_0000

  /** The top seven bits of a 64-bit hash. */
  function Tag(h: nat): (tag: int)
    ensures 0 <= tag < 128
  {
    h / TAG_UNIT % 128
  }

  /** The first slot of a group of w slots. */
  function Start(g: nat, w: nat): nat {
    if g == 0 then 0 else Start(g - 1, w) + w
  }

  /** The group of a slot. */
  function GroupAt(i: nat, w: nat): nat
    requires w > 0
  {
    if i < w then 0 else 1 + GroupAt(i - w, w)
  }

  lemma {:induction false} StartGrows(g: nat, k: nat, w: nat)
    requires g < k
    ensures Start(g, w) + w == Start(g + 1, w) <= Start(k, w)
  {
    if g + 1 < k {
      StartGrows(g, k - 1, w);
    }
  }

  /** A slot lies in its group, and in no other. */
  lemma {:induction false} InOwnGroup(i: nat, w: nat)
    requires w > 0
    ensures Start(GroupAt(i, w), w) <= i < Start(GroupAt(i, w), w) + w
  {
    if i >= w {
      InOwnGroup(i - w, w);
    }
  }

  lemma GroupUnique(i: nat, g: nat, w: nat)
    requires w > 0 && Start(g, w) <= i < Start(g, w) + w
    ensures GroupAt(i, w) == g
  {
    var own := GroupAt(i, w);
    InOwnGroup(i, w);
    if own < g {
      StartGrows(own, g, w);
    } else if g < own {
      StartGrows(g, own, w);
    }
  }

  /** A group of the table lies inside it, and the group of a slot is one of the table. */
  lemma GroupInside(i: nat, n: nat, w: nat)
    requires w > 0 && i < Start(n, w)
    ensures GroupAt(i, w) < n && Start(GroupAt(i, w), w) <= i < Start(GroupAt(i, w) + 1, w) <= Start(n, w)
  {
    InOwnGroup(i, w);
    if n <= GroupAt(i, w) {
      if n < GroupAt(i, w) {
        StartGrows(n, GroupAt(i, w), w);
      }
    } else {
      StartGrows(GroupAt(i, w), n, w);
    }
  }

  predicate GroupFull(ctrl: seq<int>, g: nat, w: nat) {
    forall i :: Start(g, w) <= i < Start(g, w) + w && i < |ctrl| ==> ctrl[i] != EMPTY
  }

  /** The group that a probe of a hash looks at. */
  function GroupOf(h: nat, probe: nat, m: nat): (g: nat)
    requires probe < Pow2(m)
    ensures g < Pow2(m)
  {
    Group(Slot(Pow2(m), h), probe, Pow2(m))
  }

  /** Every group before a probe is full. */
  ghost predicate Passed(ctrl: seq<int>, h: nat, probe: nat, m: nat, w: nat)
    requires probe <= Pow2(m)
  {
    forall q: nat :: q < probe ==> GroupFull(ctrl, GroupOf(h, q, m), w)
  }

  ghost predicate HasEmpty(ctrl: seq<int>) {
    exists i :: 0 <= i < |ctrl| && ctrl[i] == EMPTY
  }

  /** A slot in use: its tag is the tag of its hash, and its hash passed only full groups to get there. */
  ghost predicate SlotFits(ctrl: seq<int>, hashes: seq<nat>, probes: seq<nat>, i: nat, m: nat, w: nat)
    requires i < |ctrl| == |hashes| == |probes| && w > 0
  {
    ctrl[i] != EMPTY ==>
      && ctrl[i] == Tag(hashes[i]) && probes[i] < Pow2(m)
      && GroupOf(hashes[i], probes[i], m) == GroupAt(i, w) && Passed(ctrl, hashes[i], probes[i], m, w)
  }

  /** With an empty slot somewhere, no probe passes every group. */
  lemma ProbeStops(ctrl: seq<int>, h: nat, m: nat, w: nat)
    requires w > 0 && |ctrl| == Start(Pow2(m), w) && HasEmpty(ctrl)
    ensures !Passed(ctrl, h, Pow2(m), m, w)
  {
    var i :| 0 <= i < |ctrl| && ctrl[i] == EMPTY;
    var g := GroupAt(i, w);
    GroupInside(i, Pow2(m), w);
    EveryGroupMet(Slot(Pow2(m), h), m, g);
    var p: nat :| p < Pow2(m) && Group(Slot(Pow2(m), h), p, Pow2(m)) == g;
    assert GroupOf(h, p, m) == g && !GroupFull(ctrl, g, w);
  }

  /** Filling a slot keeps full groups full. */
  lemma PassedKept(ctrl: seq<int>, at: nat, tag: int, h: nat, probe: nat, m: nat, w: nat)
    requires probe <= Pow2(m) && at < |ctrl| && tag != EMPTY && Passed(ctrl, h, probe, m, w)
    ensures Passed(ctrl[at := tag], h, probe, m, w)
  {
    forall q: nat | q < probe ensures GroupFull(ctrl[at := tag], GroupOf(h, q, m), w) {
      assert GroupFull(ctrl, GroupOf(h, q, m), w);
    }
  }

  /** No slot in use of a group holds the hash. */
  ghost predicate Missing(ctrl: seq<int>, hashes: seq<nat>, h: nat, g: nat, w: nat)
    requires |ctrl| == |hashes|
  {
    forall i :: Start(g, w) <= i < Start(g, w) + w && i < |ctrl| && ctrl[i] != EMPTY ==> hashes[i] != h
  }

  /** The groups before a probe are full, and none holds the hash. */
  ghost predicate Searched(ctrl: seq<int>, hashes: seq<nat>, h: nat, probe: nat, m: nat, w: nat)
    requires |ctrl| == |hashes| && probe <= Pow2(m)
  {
    Passed(ctrl, h, probe, m, w) && forall q: nat :: q < probe ==> Missing(ctrl, hashes, h, GroupOf(h, q, m), w)
  }

  lemma SearchedNext(ctrl: seq<int>, hashes: seq<nat>, h: nat, probe: nat, m: nat, w: nat)
    requires |ctrl| == |hashes| && probe < Pow2(m) && Searched(ctrl, hashes, h, probe, m, w)
    requires GroupFull(ctrl, GroupOf(h, probe, m), w) && Missing(ctrl, hashes, h, GroupOf(h, probe, m), w)
    ensures Searched(ctrl, hashes, h, probe + 1, m, w)
  {
  }

  /** A slot that holds the hash is in no group that was searched, nor behind a group with an empty slot. */
  lemma NotThere(ctrl: seq<int>, hashes: seq<nat>, probes: seq<nat>, h: nat, probe: nat, m: nat, w: nat, i: nat)
    requires i < |ctrl| == |hashes| == |probes| && w > 0 && probe < Pow2(m) && Searched(ctrl, hashes, h, probe, m, w)
    requires !GroupFull(ctrl, GroupOf(h, probe, m), w) && Missing(ctrl, hashes, h, GroupOf(h, probe, m), w)
    requires SlotFits(ctrl, hashes, probes, i, m, w) && ctrl[i] != EMPTY
    ensures hashes[i] != h
  {
    InOwnGroup(i, w);
  }

  class Table {
    const m: nat
    const w: nat
    const ctrl: array<int>
    const hashes: array<nat>
    var count: nat
    ghost var probes: seq<nat>
    ghost var place: map<nat, nat>

    /** A table of 2 ^ m groups of w slots. */
    constructor (m: nat, w: nat)
      requires w > 0
      ensures this.m == m && this.w == w && Valid() && Contents() == {} && fresh(ctrl) && fresh(hashes)
      ensures HasEmpty(ctrl[..])
    {
      this.m, this.w := m, w;
      var capacity := Start(Pow2(m), w);
      StartGrows(0, Pow2(m), w);
      ctrl := new int[capacity](_ => EMPTY);
      hashes := new nat[capacity](_ => 0);
      count, place := 0, map[];
      probes := seq(capacity, _ => 0);
      new;
      assert ctrl[..][0] == EMPTY;
    }

    /** place holds one slot of every hash in the table. */
    ghost predicate Valid()
      reads this, ctrl, hashes
    {
      && w > 0 && ctrl.Length == hashes.Length == |probes| == Start(Pow2(m), w) && ctrl != hashes as object
      && (forall i: nat :: i < ctrl.Length ==> SlotFits(ctrl[..], hashes[..], probes, i, m, w))
      && (forall h :: h in place ==> place[h] < ctrl.Length && ctrl[place[h]] != EMPTY && hashes[place[h]] == h)
      && (forall i :: 0 <= i < ctrl.Length && ctrl[i] != EMPTY ==> hashes[i] in place)
    }

    /** The hashes in the table. */
    ghost function Contents(): set<nat>
      reads this
    {
      place.Keys
    }

    /** The first empty slot of a group. */
    method LowestEmpty(g: nat) returns (at: Option<nat>)
      requires w > 0 && Start(g, w) + w <= ctrl.Length
      ensures at.None? <==> GroupFull(ctrl[..], g, w)
      ensures at.Some? ==> at.value < ctrl.Length && GroupAt(at.value, w) == g && ctrl[at.value] == EMPTY
      ensures at.Some? ==> forall k :: Start(g, w) <= k < at.value ==> ctrl[k] != EMPTY
    {
      for i := Start(g, w) to Start(g, w) + w
        invariant forall k :: Start(g, w) <= k < i ==> ctrl[k] != EMPTY
      {
        if ctrl[i] == EMPTY {
          GroupUnique(i, g, w);
          assert !GroupFull(ctrl[..], g, w);
          return Some(i);
        }
      }
      return None;
    }

    /** Whether a slot of a group holds the hash: only slots with its tag are compared. */
    method InGroup(g: nat, h: nat) returns (found: bool)
      requires Valid() && g < Pow2(m)
      ensures found ==> h in Contents()
      ensures !found ==> Missing(ctrl[..], hashes[..], h, g, w)
    {
      var tag := Tag(h);
      StartGrows(g, Pow2(m), w);
      for i := Start(g, w) to Start(g, w) + w
        invariant forall k :: Start(g, w) <= k < i ==> ctrl[k] == EMPTY || hashes[k] != h
      {
        if ctrl[i] == tag && hashes[i] == h {
          return true;
        }
        assert SlotFits(ctrl[..], hashes[..], probes, i, m, w);
      }
      return false;
    }

    /** The first empty slot on the probe of a hash. */
    method FindSlot(h: nat) returns (at: nat, ghost probe: nat)
      requires Valid() && HasEmpty(ctrl[..])
      ensures at < ctrl.Length && ctrl[at] == EMPTY
      ensures probe < Pow2(m) && GroupOf(h, probe, m) == GroupAt(at, w) && Passed(ctrl[..], h, probe, m, w)
    {
      var g, step := Slot(Pow2(m), h), 0;
      while true
        invariant step < Pow2(m) && g == GroupOf(h, step, m) && Passed(ctrl[..], h, step, m, w)
        decreases Pow2(m) - step
      {
        StartGrows(g, Pow2(m), w);
        var slot := LowestEmpty(g);
        if slot.Some? {
          return slot.value, step;
        }
        step := step + 1;
        if step == Pow2(m) {
          ProbeStops(ctrl[..], h, m, w);
        }
        g := Next(g, step, Pow2(m));
      }
    }

    /** Adds a hash.  The caller leaves one slot empty. */
    method Insert(h: nat) returns (at: nat)
      requires Valid() && HasEmpty(ctrl[..])
      modifies this, ctrl, hashes
      ensures Valid() && Contents() == old(Contents()) + {h} && count == old(count) + 1
      ensures at < ctrl.Length && old(ctrl[at]) == EMPTY && ctrl[..] == old(ctrl[..])[at := Tag(h)]
      ensures hashes[..] == old(hashes[..])[at := h]
    {
      ghost var probe;
      at, probe := FindSlot(h);
      Fill(at, h, probe);
    }

    /** Puts a hash into an empty slot that its probe reached. */
    method Fill(at: nat, h: nat, ghost probe: nat)
      requires Valid() && at < ctrl.Length && ctrl[at] == EMPTY
      requires probe < Pow2(m) && GroupOf(h, probe, m) == GroupAt(at, w) && Passed(ctrl[..], h, probe, m, w)
      modifies this, ctrl, hashes
      ensures Valid() && Contents() == old(Contents()) + {h} && count == old(count) + 1
      ensures ctrl[..] == old(ctrl[..])[at := Tag(h)] && hashes[..] == old(hashes[..])[at := h]
    {
      ghost var was, wasHashes, wasProbes := ctrl[..], hashes[..], probes;
      ctrl[at] := Tag(h);
      hashes[at] := h;
      count, probes, place := count + 1, probes[at := probe], place[h := at];
      forall i: nat | i < ctrl.Length ensures SlotFits(ctrl[..], hashes[..], probes, i, m, w) {
        assert SlotFits(was, wasHashes, wasProbes, i, m, w);
        if i == at {
          PassedKept(was, at, Tag(h), h, probe, m, w);
        } else if was[i] != EMPTY {
          PassedKept(was, at, Tag(h), wasHashes[i], wasProbes[i], m, w);
        }
      }
    }

    /** Whether the table holds a hash. */
    method Find(h: nat) returns (found: bool)
      requires Valid() && HasEmpty(ctrl[..])
      ensures found <==> h in Contents()
    {
      var g, probe := Slot(Pow2(m), h), 0;
      while true
        invariant probe < Pow2(m) && g == GroupOf(h, probe, m) && Searched(ctrl[..], hashes[..], h, probe, m, w)
        decreases Pow2(m) - probe
      {
        found := InGroup(g, h);
        if found {
          return true;
        }
        StartGrows(g, Pow2(m), w);
        var slot := LowestEmpty(g);
        if slot.Some? {
          NotFound(h, probe);
          return false;
        }
        SearchedNext(ctrl[..], hashes[..], h, probe, m, w);
        probe := probe + 1;
        if probe == Pow2(m) {
          ProbeStops(ctrl[..], h, m, w);
        }
        g := Next(g, probe, Pow2(m));
      }
    }

    /** A probe that met no slot of the hash up to a group with an empty slot can stop there. */
    lemma NotFound(h: nat, probe: nat)
      requires Valid() && probe < Pow2(m) && Searched(ctrl[..], hashes[..], h, probe, m, w)
      requires !GroupFull(ctrl[..], GroupOf(h, probe, m), w) && Missing(ctrl[..], hashes[..], h, GroupOf(h, probe, m), w)
      ensures h !in place
    {
      if h in place {
        NotThere(ctrl[..], hashes[..], probes, h, probe, m, w, place[h]);
      }
    }
  }
}
