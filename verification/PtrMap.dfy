/**
 * The pointer map of the trace builder: open addressing with linear probing,
 * and a generation stamp on every slot so that one increment empties the map.
 */
module PtrMap {
  import opened Basics

  /** The value of an op index that names no op. */
  const NO_OP := 0xFFFF_FFFF

  /** What the map keeps for a pointer: the op and port that last wrote it, and its storage slot. */
  datatype Entry = Entry(op: nat, port: nat, slot: nat)

  datatype PtrSlot = PtrSlot(key: nat, entry: Entry, gen: nat)

  /** The slot of a map that was never used. */
  const BLANK := PtrSlot(0, Entry(NO_OP, 0, 0), 0)

  datatype InsertResult = InsertResult(at: Option<nat>, wasAlias: bool, was: Entry)

  /** The map after an insert, which a full map refuses. */
  function Inserted(m: map<nat, Entry>, cap: nat, ptr: nat, op: nat, port: nat, slot: nat): map<nat, Entry> {
    if ptr in m then m[ptr := Entry(op, port, m[ptr].slot)]
    else if |m| < cap then m[ptr := Entry(op, port, slot)]
    else m
  }

  // ------------------------------------------------------- probe sequences

  function HashPtr(key: nat): nat {
    (key * 0x9E37_79B9_7F4A_7C15) % 0x1_0000_0000_0000_0000 / 0x1_0000_0000
  }

  function Home(key: nat, cap: nat): (h: nat)
    requires cap > 0
    ensures h < cap
  {
    Slot(cap, HashPtr(key))
  }

  /** The bucket that probe p from home looks at. */
  function At(home: nat, p: nat, cap: nat): (i: nat)
    requires home < cap && p < cap
    ensures i < cap
  {
    if home + p < cap then home + p else home + p - cap
  }

  /** The probe from home that looks at bucket i. */
  function Dist(home: nat, i: nat, cap: nat): (p: nat)
    requires home < cap && i < cap
    ensures p < cap && At(home, p, cap) == i
  {
    if home <= i then i - home else i + cap - home
  }

  // -------------------------------------------- the finite map of a buffer

  ghost predicate Live(slots: seq<PtrSlot>, gen: nat, i: nat)
    requires i < |slots|
  {
    slots[i].gen == gen
  }

  /** Every bucket on the probe path of a live slot, up to the slot, is live. */
  ghost predicate PathLive(slots: seq<PtrSlot>, gen: nat, i: nat)
    requires i < |slots|
  {
    var home := Home(slots[i].key, |slots|);
    forall p: nat :: p < Dist(home, i, |slots|) ==> Live(slots, gen, At(home, p, |slots|))
  }

  /** The shape that linear probing keeps: unbroken paths, and one slot for each key. */
  ghost predicate Probed(slots: seq<PtrSlot>, gen: nat) {
    && |slots| > 0
    && (forall i: nat :: i < |slots| && Live(slots, gen, i) ==> PathLive(slots, gen, i))
    && (forall i: nat, j: nat :: i < |slots| && j < |slots| && i != j && Live(slots, gen, i) && Live(slots, gen, j) ==>
          slots[i].key != slots[j].key)
  }

  ghost predicate Holds(slots: seq<PtrSlot>, gen: nat, key: nat, i: nat) {
    i < |slots| && Live(slots, gen, i) && slots[i].key == key
  }

  /** The keys of the live slots below n. */
  ghost function KeysBelow(slots: seq<PtrSlot>, gen: nat, n: nat): set<nat>
    requires n <= |slots|
  {
    set i: nat | i < n && Live(slots, gen, i) :: slots[i].key
  }

  /** The finite map that a buffer stands for. */
  ghost function Model(slots: seq<PtrSlot>, gen: nat): map<nat, Entry> {
    map key | key in KeysBelow(slots, gen, |slots|) :: slots[Index(slots, gen, key)].entry
  }

  ghost function Index(slots: seq<PtrSlot>, gen: nat, key: nat): (i: nat)
    requires key in KeysBelow(slots, gen, |slots|)
    ensures Holds(slots, gen, key, i)
  {
    var i: nat :| i < |slots| && Live(slots, gen, i) && slots[i].key == key;
    i
  }

  lemma ModelAt(slots: seq<PtrSlot>, gen: nat, key: nat, i: nat)
    requires Probed(slots, gen) && Holds(slots, gen, key, i)
    ensures key in Model(slots, gen) && Model(slots, gen)[key] == slots[i].entry
  {
    assert key in KeysBelow(slots, gen, |slots|);
  }

  /** A probe that meets a dead bucket, or all buckets, before the key proves the key absent. */
  lemma Missing(slots: seq<PtrSlot>, gen: nat, key: nat, n: nat)
    requires Probed(slots, gen) && n <= |slots|
    requires var home := Home(key, |slots|);
             forall p: nat :: p < n ==> slots[At(home, p, |slots|)].key != key
    requires n < |slots| ==> !Live(slots, gen, At(Home(key, |slots|), n, |slots|))
    ensures key !in Model(slots, gen)
  {
    forall i: nat | i < |slots| && Live(slots, gen, i) ensures slots[i].key != key {
      assert PathLive(slots, gen, i);
      assert At(Home(slots[i].key, |slots|), Dist(Home(slots[i].key, |slots|), i, |slots|), |slots|) == i;
    }
  }

  /** Claiming the first dead bucket of the path of an absent key adds the key. */
  lemma Claimed(slots: seq<PtrSlot>, gen: nat, key: nat, e: Entry, n: nat)
    requires Probed(slots, gen) && n < |slots| && key !in Model(slots, gen)
    requires var home := Home(key, |slots|);
             forall p: nat :: p < n ==> Live(slots, gen, At(home, p, |slots|))
    requires !Live(slots, gen, At(Home(key, |slots|), n, |slots|))
    ensures var at := At(Home(key, |slots|), n, |slots|);
            var after := slots[at := PtrSlot(key, e, gen)];
            Probed(after, gen) && Model(after, gen) == Model(slots, gen)[key := e]
  {
    var home := Home(key, |slots|);
    var at := At(home, n, |slots|);
    var after := slots[at := PtrSlot(key, e, gen)];
    assert Dist(home, at, |slots|) == n;
    forall i: nat | i < |after| && Live(after, gen, i) ensures PathLive(after, gen, i) {
      if i != at {
        assert PathLive(slots, gen, i);
      }
    }
    forall i: nat | i < |slots| && Live(slots, gen, i) ensures slots[i].key != key {
      if slots[i].key == key {
        ModelAt(slots, gen, key, i);
      }
    }
    SameModel(slots, after, gen, key, e, at);
  }

  /** Rewriting the entry of a key that is present changes that entry alone. */
  lemma Rewritten(slots: seq<PtrSlot>, gen: nat, key: nat, e: Entry, at: nat)
    requires Probed(slots, gen) && Holds(slots, gen, key, at)
    ensures var after := slots[at := PtrSlot(key, e, gen)];
            Probed(after, gen) && Model(after, gen) == Model(slots, gen)[key := e]
  {
    var after := slots[at := PtrSlot(key, e, gen)];
    forall i: nat | i < |after| && Live(after, gen, i) ensures PathLive(after, gen, i) {
      assert PathLive(slots, gen, i);
    }
    SameModel(slots, after, gen, key, e, at);
  }

  lemma SameModel(slots: seq<PtrSlot>, after: seq<PtrSlot>, gen: nat, key: nat, e: Entry, at: nat)
    requires Probed(slots, gen) && Probed(after, gen) && at < |slots|
    requires after == slots[at := PtrSlot(key, e, gen)]
    requires forall i: nat :: i < |slots| && i != at && Live(slots, gen, i) ==> slots[i].key != key
    requires Live(slots, gen, at) ==> slots[at].key == key
    ensures Model(after, gen) == Model(slots, gen)[key := e]
  {
    var want := Model(slots, gen)[key := e];
    forall k ensures k in Model(after, gen) <==> k in want {
      if k in Model(after, gen) {
        var i := Index(after, gen, k);
        if i != at { ModelAt(slots, gen, k, i); }
      }
      if k in want {
        if k == key { ModelAt(after, gen, key, at); }
        else { ModelAt(after, gen, k, Index(slots, gen, k)); }
      }
    }
    forall k | k in want ensures Model(after, gen)[k] == want[k] {
      if k == key { ModelAt(after, gen, key, at); }
      else {
        var i := Index(slots, gen, k);
        ModelAt(slots, gen, k, i);
        ModelAt(after, gen, k, i);
      }
    }
  }

  /** A buffer with no slot of the generation stands for the empty map. */
  lemma EmptyModel(slots: seq<PtrSlot>, gen: nat)
    requires |slots| > 0 && forall i: nat :: i < |slots| ==> slots[i].gen != gen
    ensures Probed(slots, gen) && Model(slots, gen) == map[]
  {
    assert forall i: nat :: i < |slots| ==> !Live(slots, gen, i);
  }

  lemma {:induction false} CountKeys(slots: seq<PtrSlot>, gen: nat, n: nat)
    requires Probed(slots, gen) && n <= |slots|
    requires forall i: nat :: i < n ==> Live(slots, gen, i)
    ensures |KeysBelow(slots, gen, n)| == n
  {
    if n > 0 {
      CountKeys(slots, gen, n - 1);
      var key := slots[n - 1].key;
      assert key !in KeysBelow(slots, gen, n - 1);
      assert KeysBelow(slots, gen, n) == KeysBelow(slots, gen, n - 1) + {key};
    } else {
      assert KeysBelow(slots, gen, 0) == {};
    }
  }

  /** A buffer whose every bucket is live holds as many keys as buckets. */
  lemma FullModel(slots: seq<PtrSlot>, gen: nat)
    requires Probed(slots, gen) && forall i: nat :: i < |slots| ==> Live(slots, gen, i)
    ensures |Model(slots, gen)| == |slots|
  {
    CountKeys(slots, gen, |slots|);
    assert Model(slots, gen).Keys == KeysBelow(slots, gen, |slots|);
  }

  // --------------------------------------------------------------- the map

  class PtrTable {
    var slots: array<PtrSlot>
    var gen: nat
    /** The finite map that the buffer stands for. */
    ghost var contents: map<nat, Entry>

    /** A new table of blank slots, before its first generation. */
    constructor (cap: nat)
      requires cap > 0
      ensures fresh(slots) && slots.Length == cap && gen == 0 && Stamped()
    {
      slots := new PtrSlot[cap](_ => BLANK);
      gen := 0;
      contents := map[];
    }

    /** No slot carries a stamp of a later generation. */
    ghost predicate Stamped()
      reads this, slots
    {
      slots.Length > 0 && gen < 256 && forall i :: 0 <= i < slots.Length ==> slots[i].gen <= gen
    }

    ghost predicate Valid()
      reads this, slots
    {
      Stamped() && gen > 0 && Probed(slots[..], gen) && contents == Model(slots[..], gen)
    }

    /** A new buffer for a larger capacity: the fresh slots carry the stamp zero. */
    method Regrow(cap: nat)
      requires cap > 0
      modifies this
      ensures fresh(slots) && slots.Length == cap && gen == 0 && Stamped()
    {
      slots := new PtrSlot[cap](_ => BLANK);
      gen := 0;
      contents := map[];
    }

    /** Empties the map by a new generation.  After 255 generations the stamp wraps, and the slots are wiped. */
    method NextGeneration()
      requires Stamped()
      modifies this`gen, this`contents, slots
      ensures Valid() && contents == map[]
      ensures slots == old(slots) && gen == if old(gen) == 255 then 1 else old(gen) + 1
    {
      gen := (gen + 1) % 256;
      if gen == 0 {
        for i := 0 to slots.Length
          invariant forall k :: 0 <= k < i ==> slots[k] == BLANK
          invariant gen == 0
        {
          slots[i] := BLANK;
        }
        gen := 1;
      }
      EmptyModel(slots[..], gen);
      contents := map[];
    }

    /** Claims a slot for an absent key, or rewrites the op and the port of a present one. */
    method Insert(key: nat, op: nat, port: nat, slot: nat) returns (r: InsertResult)
      requires Valid()
      modifies this`contents, slots
      ensures Valid()
      ensures contents == Inserted(old(contents), slots.Length, key, op, port, slot)
      ensures r.at.Some? <==> key in contents
      ensures r.wasAlias <==> key in old(contents) && old(contents)[key].op != op
      ensures key in old(contents) ==> r.was == old(contents)[key]
      ensures r.at.Some? ==> Holds(slots[..], gen, key, r.at.value)
    {
      var cap := slots.Length;
      var home := Home(key, cap);
      ghost var before := slots[..];
      for probe := 0 to cap
        invariant slots[..] == before && Valid() && contents == old(contents)
        invariant forall p: nat :: p < probe ==> Live(before, gen, At(home, p, cap)) && before[At(home, p, cap)].key != key
      {
        var i := At(home, probe, cap);
        if slots[i].gen != gen {
          Missing(before, gen, key, probe);
          Claimed(before, gen, key, Entry(op, port, slot), probe);
          NotFull(before, gen, i);
          slots[i] := PtrSlot(key, Entry(op, port, slot), gen);
          contents := contents[key := Entry(op, port, slot)];
          assert slots[..] == before[i := slots[i]];
          return InsertResult(Some(i), false, Entry(NO_OP, 0, 0));
        }
        if slots[i].key == key {
          ModelAt(before, gen, key, i);
          var was := slots[i].entry;
          Rewritten(before, gen, key, Entry(op, port, was.slot), i);
          slots[i] := PtrSlot(key, Entry(op, port, was.slot), gen);
          contents := contents[key := Entry(op, port, was.slot)];
          assert slots[..] == before[i := slots[i]];
          return InsertResult(Some(i), was.op != op, was);
        }
      }
      Missing(before, gen, key, cap);
      AllProbed(before, gen, home);
      FullModel(before, gen);
      r := InsertResult(None, false, Entry(NO_OP, 0, 0));
    }

    /** Gives the claimed slot of a key its storage slot. */
    method SetSlot(at: nat, slot: nat)
      requires Valid() && at < slots.Length && slots[at].gen == gen
      modifies this`contents, slots
      ensures Valid()
      ensures old(slots[at].key) in old(contents)
      ensures contents == old(contents)[old(slots[at].key) := old(contents)[old(slots[at].key)].(slot := slot)]
    {
      ghost var before := slots[..];
      var s := slots[at];
      ModelAt(before, gen, s.key, at);
      Rewritten(before, gen, s.key, s.entry.(slot := slot), at);
      slots[at] := PtrSlot(s.key, s.entry.(slot := slot), gen);
      contents := contents[s.key := s.entry.(slot := slot)];
      assert slots[..] == before[at := slots[at]];
    }

    /** The entry of a key.  The null pointer is never found. */
    method Lookup(key: nat) returns (r: Option<Entry>)
      requires Valid()
      ensures r == if key != 0 && key in contents then Some(contents[key]) else None
    {
      if key == 0 {
        return None;
      }
      var cap := slots.Length;
      var home := Home(key, cap);
      ghost var now := slots[..];
      for probe := 0 to cap
        invariant forall p: nat :: p < probe ==> Live(now, gen, At(home, p, cap)) && now[At(home, p, cap)].key != key
      {
        var i := At(home, probe, cap);
        if slots[i].gen == gen && slots[i].key == key {
          ModelAt(now, gen, key, i);
          return Some(slots[i].entry);
        }
        if slots[i].gen != gen {
          Missing(now, gen, key, probe);
          return None;
        }
      }
      Missing(now, gen, key, cap);
      r := None;
    }
  }

  lemma AllProbed(slots: seq<PtrSlot>, gen: nat, home: nat)
    requires home < |slots| && forall p: nat :: p < |slots| ==> Live(slots, gen, At(home, p, |slots|))
    ensures forall i: nat :: i < |slots| ==> Live(slots, gen, i)
  {
    forall i: nat | i < |slots| ensures Live(slots, gen, i) {
      assert At(home, Dist(home, i, |slots|), |slots|) == i;
    }
  }

  /** A buffer with a dead bucket holds fewer keys than buckets. */
  lemma NotFull(slots: seq<PtrSlot>, gen: nat, dead: nat)
    requires dead < |slots| && !Live(slots, gen, dead)
    ensures |Model(slots, gen)| < |slots|
  {
    KeysAtMost(slots, gen, dead, |slots|);
    assert Model(slots, gen).Keys == KeysBelow(slots, gen, |slots|);
  }

  lemma {:induction false} KeysAtMost(slots: seq<PtrSlot>, gen: nat, dead: nat, n: nat)
    requires n <= |slots| && dead < |slots| && !Live(slots, gen, dead)
    ensures |KeysBelow(slots, gen, n)| <= if dead < n then n - 1 else n
  {
    if n > 0 {
      KeysAtMost(slots, gen, dead, n - 1);
      var fewer := KeysBelow(slots, gen, n - 1);
      if Live(slots, gen, n - 1) {
        assert KeysBelow(slots, gen, n) == fewer + {slots[n - 1].key};
      } else {
        assert KeysBelow(slots, gen, n) == fewer;
      }
    } else {
      assert KeysBelow(slots, gen, 0) == {};
    }
  }
}
