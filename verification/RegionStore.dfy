/**
 * The region store of the publish stage: the memory of each live region in a
 * fixed table, the queue of the regions that no backend compiled yet, and the
 * sweep that releases a region when no holder names it.  A region is named by
 * the address of its node.
 */
module RegionStore {
  import opened Basics

  const STORE_CAP := 128
  const QUEUE_CAP := 64
  const MARK_CAP := 32

  /** The left generation of a region that did not leave the view of the foreground. */
  const NOT_LEFT := 0xFFFF_FFFF_FFFF_FFFF

  /** A slot of the table.  left is the generation at the first sweep that found the region out of view. */
  datatype Memory = Free | Used(node: nat, left: nat)

  /** What the owner of the pipeline holds at a sweep. */
  datatype Marks = Marks(held: seq<nat>, handed: Option<nat>, hasForeground: bool, generation: nat)

  const NO_MARKS := Marks([], None, false, 0)

  // ------------------------------------------------- the sweep, on values

  predicate InView(node: nat, last: Option<nat>, marks: Marks) {
    Some(node) == last || Some(node) == marks.handed
  }

  predicate Stays(node: nat, left: nat, last: Option<nat>, marks: Marks, queue: seq<nat>) {
    || InView(node, last, marks)
    || (marks.hasForeground && left == NOT_LEFT)
    || node in marks.held || node in queue
    || (marks.hasForeground && marks.generation <= left)
  }

  function NewLeft(node: nat, left: nat, last: Option<nat>, marks: Marks): nat {
    if InView(node, last, marks) then NOT_LEFT
    else if marks.hasForeground && left == NOT_LEFT then marks.generation
    else left
  }

  /** The store after a sweep: which regions stay, and with which left generation. */
  function Swept(store: map<nat, nat>, last: Option<nat>, marks: Marks, queue: seq<nat>): map<nat, nat> {
    map n | n in store && Stays(n, store[n], last, marks, queue) :: NewLeft(n, store[n], last, marks)
  }

  function Kept(store: map<nat, nat>, region: nat): map<nat, nat> {
    if region in store then store[region := NOT_LEFT] else store
  }

  /** The last regions of all pushes, at most QUEUE_CAP. */
  function Recent(pushed: seq<nat>): seq<nat> {
    if |pushed| < QUEUE_CAP then pushed else pushed[|pushed| - QUEUE_CAP..]
  }

  lemma IsRecent(pushed: seq<nat>, k: nat)
    requires |pushed| - QUEUE_CAP <= k < |pushed|
    ensures pushed[k] in Recent(pushed)
  {
    assert Recent(pushed)[k - (|pushed| - |Recent(pushed)|)] == pushed[k];
  }

  lemma NotRecent(pushed: seq<nat>, region: nat)
    requires forall k :: 0 <= k < |pushed| && |pushed| - QUEUE_CAP <= k ==> pushed[k] != region
    ensures region !in Recent(pushed)
  {
  }

  // ------------------------------------------------------------ the table

  predicate InTable(table: seq<Memory>, node: nat) {
    exists i :: 0 <= i < |table| && table[i].Used? && table[i].node == node
  }

  /** The table holds exactly the regions of the store, each in one slot. */
  ghost predicate Models(table: seq<Memory>, store: map<nat, nat>) {
    && (forall i :: 0 <= i < |table| && table[i].Used? ==> table[i].node in store && store[table[i].node] == table[i].left)
    && (forall i, j :: 0 <= i < j < |table| && table[i].Used? && table[j].Used? ==> table[i].node != table[j].node)
    && (forall n :: n in store ==> InTable(table, n))
  }

  lemma ModelsMiss(table: seq<Memory>, store: map<nat, nat>, node: nat)
    requires Models(table, store) && forall k :: 0 <= k < |table| && table[k].Used? ==> table[k].node != node
    ensures node !in store
  {
    assert !InTable(table, node);
  }

  function CountUsed(table: seq<Memory>): nat {
    if table == [] then 0 else CountUsed(table[..|table| - 1]) + if table[|table| - 1].Used? then 1 else 0
  }

  lemma ModelsRest(table: seq<Memory>, store: map<nat, nat>)
    requires Models(table, store) && table != []
    ensures var rest, top := table[..|table| - 1], table[|table| - 1];
            Models(rest, if top.Used? then store - {top.node} else store)
  {
    var rest, top := table[..|table| - 1], table[|table| - 1];
    forall n | n in (if top.Used? then store - {top.node} else store) ensures InTable(rest, n) {
      assert InTable(table, n);
      var i :| 0 <= i < |table| && table[i].Used? && table[i].node == n;
      assert rest[i] == table[i];
    }
  }

  /** The store has as many regions as the table has used slots. */
  lemma {:induction false} ModelsCount(table: seq<Memory>, store: map<nat, nat>)
    requires Models(table, store)
    ensures |store| == CountUsed(table)
  {
    if table == [] {
      assert store.Keys == {};
    } else {
      var rest, top := table[..|table| - 1], table[|table| - 1];
      if top.Used? {
        var less := store - {top.node};
        ModelsRest(table, store);
        ModelsCount(rest, less);
        assert store.Keys == less.Keys + {top.node};
      } else {
        ModelsRest(table, store);
        ModelsCount(rest, store);
      }
    }
  }

  lemma {:induction false} CountFull(table: seq<Memory>)
    ensures CountUsed(table) <= |table|
    ensures CountUsed(table) == |table| <==> forall i :: 0 <= i < |table| ==> table[i].Used?
  {
    if table != [] {
      var rest := table[..|table| - 1];
      CountFull(rest);
      assert forall i :: 0 <= i < |rest| ==> rest[i] == table[i];
    }
  }

  lemma ModelsAdd(table: seq<Memory>, store: map<nat, nat>, at: nat, node: nat)
    requires Models(table, store) && at < |table| && table[at].Free? && node !in store
    ensures Models(table[at := Used(node, NOT_LEFT)], store[node := NOT_LEFT])
  {
    var table' := table[at := Used(node, NOT_LEFT)];
    forall n | n in store[node := NOT_LEFT] ensures InTable(table', n) {
      if n == node {
        assert table'[at].node == n;
      } else {
        assert InTable(table, n);
        var i :| 0 <= i < |table| && table[i].Used? && table[i].node == n;
        assert table'[i] == table[i];
      }
    }
  }

  lemma ModelsKeep(table: seq<Memory>, store: map<nat, nat>, at: nat)
    requires Models(table, store) && at < |table| && table[at].Used?
    ensures Models(table[at := table[at].(left := NOT_LEFT)], Kept(store, table[at].node))
  {
    var table' := table[at := table[at].(left := NOT_LEFT)];
    forall n | n in Kept(store, table[at].node) ensures InTable(table', n) {
      assert InTable(table, n);
      var i :| 0 <= i < |table| && table[i].Used? && table[i].node == n;
      assert table'[i].node == n;
    }
  }

  /** What the sweep makes of one slot. */
  function Fate(memory: Memory, last: Option<nat>, marks: Marks, queue: seq<nat>): Memory {
    if memory.Free? then Free
    else if Stays(memory.node, memory.left, last, marks, queue) then
      Used(memory.node, NewLeft(memory.node, memory.left, last, marks))
    else Free
  }

  lemma ModelsSweep(table: seq<Memory>, table': seq<Memory>, store: map<nat, nat>, last: Option<nat>, marks: Marks,
                    queue: seq<nat>)
    requires Models(table, store) && |table'| == |table|
    requires forall i :: 0 <= i < |table| ==> table'[i] == Fate(table[i], last, marks, queue)
    ensures Models(table', Swept(store, last, marks, queue))
  {
    forall n | n in Swept(store, last, marks, queue) ensures InTable(table', n) {
      assert InTable(table, n);
      var i :| 0 <= i < |table| && table[i].Used? && table[i].node == n;
      assert table'[i].Used? && table'[i].node == n;
    }
  }

  class Store {
    const table: array<Memory>
    const slots: array<nat>
    var total: nat
    var last: Option<nat>
    var marks: Marks
    var droppedFull: nat
    ghost var contents: map<nat, nat>
    ghost var pushed: seq<nat>

    constructor ()
      ensures Valid() && contents == map[] && pushed == [] && last == None && droppedFull == 0
      ensures fresh(table) && fresh(slots)
    {
      table := new Memory[STORE_CAP](_ => Free);
      slots := new nat[QUEUE_CAP](_ => 0);
      total, last, marks, droppedFull, contents, pushed := 0, None, NO_MARKS, 0, map[], [];
    }

    ghost predicate Valid()
      reads this, table, slots
    {
      && table.Length == STORE_CAP && slots.Length == QUEUE_CAP && table != slots as object
      && Models(table[..], contents) && Queued()
    }

    /** The slots of the queue hold the last of all pushes. */
    ghost predicate Queued()
      reads this, slots
    {
      && slots.Length == QUEUE_CAP && total == |pushed|
      && (forall k: nat :: total - QUEUE_CAP <= k < total ==> slots[Slot(QUEUE_CAP, k)] == pushed[k])
    }

    /** Adds a region to the queue.  A full queue forgets its oldest region. */
    method Push(region: nat)
      requires Valid()
      modifies this`total, this`pushed, slots
      ensures Valid() && pushed == old(pushed) + [region]
    {
      forall k: nat | total - QUEUE_CAP < k < total ensures Slot(QUEUE_CAP, k) != Slot(QUEUE_CAP, total) {
        SlotsDiffer(QUEUE_CAP, k, total);
      }
      slots[Slot(QUEUE_CAP, total)] := region;
      total := total + 1;
      pushed := pushed + [region];
    }

    /** The region of an age, where age 0 is the newest. */
    method At(age: nat) returns (region: nat)
      requires Queued() && age < |Recent(pushed)|
      ensures region == pushed[|pushed| - 1 - age]
    {
      var k := total - 1 - age;
      region := slots[Slot(QUEUE_CAP, k + QUEUE_CAP)];
      assert Slot(QUEUE_CAP, k + QUEUE_CAP) == Slot(QUEUE_CAP, k);
    }

    /** True when the marks of the owner or the queue name the region. */
    method IsHeld(region: nat) returns (held: bool)
      requires Queued()
      ensures held <==> region in marks.held || region in Recent(pushed)
    {
      for i := 0 to |marks.held|
        invariant region !in marks.held[..i]
      {
        if marks.held[i] == region {
          return true;
        }
      }
      var queued := if total < QUEUE_CAP then total else QUEUE_CAP;
      var n := |pushed|;
      for age := 0 to queued
        invariant forall k :: n - age <= k < n ==> pushed[k] != region
      {
        var seen := At(age);
        if seen == region {
          IsRecent(pushed, n - 1 - age);
          return true;
        }
      }
      NotRecent(pushed, region);
      return false;
    }

    method FindFree() returns (at: nat)
      requires Valid()
      ensures at <= STORE_CAP
      ensures at < STORE_CAP ==> table[at].Free?
      ensures at == STORE_CAP <==> |contents| == STORE_CAP
    {
      ModelsCount(table[..], contents);
      CountFull(table[..]);
      at := 0;
      while at < STORE_CAP
        invariant at <= STORE_CAP && forall i :: 0 <= i < at ==> table[i].Used?
      {
        if table[at].Free? {
          return;
        }
        at := at + 1;
      }
    }

    /**
     * Puts the memory of a region into the store.  Ok is false when the table
     * is full, and the region is then dropped.
     */
    method Add(region: nat) returns (ok: bool)
      requires Valid() && region !in contents
      modifies this, table, slots
      ensures Valid() && ok == (old(|contents|) < STORE_CAP)
      ensures ok ==> contents == old(contents)[region := NOT_LEFT] && last == Some(region)
                     && pushed == old(pushed) + [region] && marks == NO_MARKS && droppedFull == old(droppedFull)
      ensures !ok ==> contents == old(contents) && last == old(last) && pushed == old(pushed) && marks == old(marks)
                      && droppedFull == old(droppedFull) + 1
    {
      var at := FindFree();
      CountFull(table[..]);
      ModelsCount(table[..], contents);
      if at == STORE_CAP {
        droppedFull := droppedFull + 1;
        return false;
      }
      ModelsAdd(table[..], contents, at, region);
      table[at] := Used(region, NOT_LEFT);
      contents := contents[region := NOT_LEFT];
      last := Some(region);
      Push(region);
      marks := NO_MARKS;
      return true;
    }

    /** Releases each region that no holder names. */
    method Sweep()
      requires Valid()
      modifies this`contents, table
      ensures Valid() && contents == Swept(old(contents), last, marks, Recent(pushed))
    {
      ghost var before, queue := table[..], Recent(pushed);
      ghost var store := contents;
      for i := 0 to STORE_CAP
        invariant forall k :: 0 <= k < i ==> table[k] == Fate(before[k], last, marks, queue)
        invariant forall k :: i <= k < STORE_CAP ==> table[k] == before[k]
        invariant table.Length == STORE_CAP && contents == store
        invariant Queued()
      {
        SweepSlot(i);
      }
      ModelsSweep(before, table[..], contents, last, marks, queue);
      contents := Swept(contents, last, marks, queue);
    }

    method SweepSlot(i: nat)
      requires i < table.Length && Queued() && table != slots as object
      modifies table
      ensures table[..] == old(table[..])[i := Fate(old(table[i]), last, marks, Recent(pushed))]
    {
      if table[i].Free? {
        return;
      }
      var region := table[i].node;
      if Some(region) == last || Some(region) == marks.handed {
        table[i] := table[i].(left := NOT_LEFT);
        return;
      }
      if marks.hasForeground && table[i].left == NOT_LEFT {
        table[i] := table[i].(left := marks.generation);
        return;
      }
      var held := IsHeld(region);
      if held {
        return;
      }
      if marks.hasForeground && marks.generation <= table[i].left {
        return;
      }
      table[i] := Free;
    }

    /**
     * Publishes a region: it joins the store, the callback gives the marks of
     * the owner, and the sweep follows.  A callback that gives none leaves the
     * owner without a foreground.  False is the drop of a region by a full
     * store.
     */
    method Publish(region: nat, given: Option<Marks>) returns (ok: bool)
      requires Valid() && region !in contents
      modifies this, table, slots
      ensures Valid() && ok == (old(|contents|) < STORE_CAP)
      ensures ok ==> last == Some(region) && pushed == old(pushed) + [region]
                     && marks == (if given.Some? then given.value else NO_MARKS)
                     && contents == Swept(old(contents)[region := NOT_LEFT], last, marks, Recent(pushed))
      ensures !ok ==> contents == old(contents) && last == old(last) && pushed == old(pushed)
    {
      ok := Add(region);
      if ok {
        if given.Some? {
          marks := given.value;
        }
        Sweep();
      }
    }

    /** The foreground gets a region outside the publication slot, so the region did not leave its view. */
    method KeepRegion(region: nat)
      requires Valid()
      modifies this`contents, table
      ensures Valid() && contents == Kept(old(contents), region)
    {
      for i := 0 to STORE_CAP
        invariant Valid() && contents == old(contents)
        invariant forall k :: 0 <= k < i && table[k].Used? ==> table[k].node != region
      {
        if table[i].Used? && table[i].node == region {
          ModelsKeep(table[..], contents, i);
          table[i] := table[i].(left := NOT_LEFT);
          contents := Kept(contents, region);
          return;
        }
      }
      ModelsMiss(table[..], contents, region);
    }
  }
}
