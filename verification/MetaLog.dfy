/**
 * The metadata log: a ring of tensor records.  The foreground appends the
 * records of each op, the build stage copies runs of records, and the publish
 * stage moves the tail to give records back.
 */
module MetaLog {
  import opened Basics

  const CAPACITY := 0x10_0000

  datatype Meta = Meta(ptr: nat, nbytes: nat)

  const NO_META := Meta(0, 0)

  /** Slot p of the ring after n records were stored from slot start on, around the end of the ring. */
  function StoredAt(ring: seq<Meta>, start: nat, metas: seq<Meta>, p: nat): Meta
    requires |ring| == CAPACITY && start < CAPACITY && p < CAPACITY && |metas| <= CAPACITY
  {
    if start <= p < start + |metas| then metas[p - start]
    else if p + CAPACITY < start + |metas| then metas[p + CAPACITY - start]
    else ring[p]
  }

  /** The ring holds the newest records, each in the slot of its number. */
  ghost predicate Holds(ring: seq<Meta>, records: seq<Meta>) {
    |ring| == CAPACITY
    && forall k: nat :: |records| - CAPACITY <= k < |records| ==> ring[Slot(CAPACITY, k)] == records[k]
  }

  lemma HoldsAppend(ring: seq<Meta>, records: seq<Meta>, metas: seq<Meta>, ring': seq<Meta>)
    requires Holds(ring, records) && |metas| <= CAPACITY == |ring'|
    requires forall p: nat :: p < CAPACITY ==> ring'[p] == StoredAt(ring, Slot(CAPACITY, |records|), metas, p)
    ensures Holds(ring', records + metas)
  {
    var h, all := |records|, records + metas;
    forall k: nat | |all| - CAPACITY <= k < |all| ensures ring'[Slot(CAPACITY, k)] == all[k] {
      SlotsMeet(h, |metas|, k);
      if k < h {
        assert ring[Slot(CAPACITY, k)] == records[k];
        OldStays(ring, Slot(CAPACITY, h), metas, Slot(CAPACITY, k));
      } else {
        NewIsStored(ring, Slot(CAPACITY, h), metas, Slot(CAPACITY, k), k - h);
      }
    }
  }

  lemma OldStays(ring: seq<Meta>, start: nat, metas: seq<Meta>, p: nat)
    requires |ring| == CAPACITY && start < CAPACITY && p < CAPACITY && |metas| <= CAPACITY
    requires start + |metas| <= p + CAPACITY && (start <= p ==> start + |metas| <= p)
    ensures StoredAt(ring, start, metas, p) == ring[p]
  {
  }

  lemma NewIsStored(ring: seq<Meta>, start: nat, metas: seq<Meta>, p: nat, i: nat)
    requires |ring| == CAPACITY && start < CAPACITY && p < CAPACITY && i < |metas| <= CAPACITY
    requires p - start == i || p + CAPACITY - start == i
    ensures StoredAt(ring, start, metas, p) == metas[i]
  {
  }

  /** Where the slot of record k is, when count records are stored from record h on. */
  lemma SlotsMeet(h: nat, count: nat, k: nat)
    requires count <= CAPACITY && h + count - CAPACITY <= k < h + count
    ensures var start, p := Slot(CAPACITY, h), Slot(CAPACITY, k);
            && (h <= k ==> p - start == k - h || p + CAPACITY - start == k - h)
            && (k < h && start <= p ==> start + count <= p)
            && (k < h ==> start + count <= p + CAPACITY)
  {
    if h <= k {
      SlotAhead(CAPACITY, h, k - h);
    } else if h < k + CAPACITY {
      SlotAhead(CAPACITY, k, h - k);
    }
  }

  class Log {
    const entries: array<Meta>
    var head: nat
    var tail: nat
    var cachedTail: nat
    ghost var records: seq<Meta>

    constructor ()
      ensures Valid() && fresh(entries) && records == [] && tail == 0
    {
      entries := new Meta[CAPACITY](_ => NO_META);
      head, tail, cachedTail, records := 0, 0, 0, [];
    }

    /** The records from the tail on are all in the ring. */
    ghost predicate Valid()
      reads this, entries
    {
      && entries.Length == CAPACITY && head == |records| && Holds(entries[..], records)
      && cachedTail <= tail <= head <= tail + CAPACITY
    }

    /** Stores records in slots that do not pass the end of the ring. */
    method StoreChunk(at: nat, metas: seq<Meta>)
      requires at + |metas| <= entries.Length
      modifies entries
      ensures forall p: nat :: p < entries.Length ==>
                entries[p] == if at <= p < at + |metas| then metas[p - at] else old(entries[p])
    {
      for i := 0 to |metas|
        invariant forall p: nat :: p < entries.Length ==>
                    entries[p] == if at <= p < at + i then metas[p - at] else old(entries[p])
      {
        entries[at + i] := metas[i];
      }
    }

    /**
     * Appends the records of one op and returns the number of the first.  None
     * means that there is no record, or that the log has no room for them.
     */
    method TryAppend(metas: seq<Meta>) returns (start: Option<nat>)
      requires Valid() && |metas| <= CAPACITY
      modifies this`head, this`cachedTail, this`records, entries
      ensures Valid() && tail == old(tail)
      ensures start.None? <==> metas == [] || old(head) + |metas| > tail + CAPACITY
      ensures start.None? ==> records == old(records)
      ensures start.Some? ==> start.value == old(head) && records == old(records) + metas
    {
      if |metas| == 0 {
        return None;
      }
      if head - cachedTail + |metas| > CAPACITY {
        cachedTail := tail;
        if head - cachedTail + |metas| > CAPACITY {
          return None;
        }
      }
      StoreRun(metas);
      start := Some(head);
      head, records := head + |metas|, records + metas;
    }

    /** Stores records from the slot of the head on, in one piece or around the end of the ring. */
    method StoreRun(metas: seq<Meta>)
      requires Valid() && |metas| <= CAPACITY
      modifies entries
      ensures Holds(entries[..], records + metas)
    {
      ghost var before := entries[..];
      var startPos := Slot(CAPACITY, head);
      if startPos + |metas| <= CAPACITY {
        StoreChunk(startPos, metas);
      } else {
        var firstChunk := CAPACITY - startPos;
        StoreChunk(startPos, metas[..firstChunk]);
        StoreChunk(0, metas[firstChunk..]);
      }
      HoldsAppend(before, records, metas, entries[..]);
    }

    /** Copies a run of records that the tail has not passed: exactly the records that were appended. */
    method CopyRun(start: nat, count: nat) returns (run: seq<Meta>)
      requires Valid() && tail <= start && start + count <= head
      ensures run == records[start..start + count]
    {
      var startPos := Slot(CAPACITY, start);
      var firstChunk := if count <= CAPACITY - startPos then count else CAPACITY - startPos;
      run := entries[startPos..startPos + firstChunk] + entries[..count - firstChunk];
      forall i | 0 <= i < count ensures run[i] == records[start + i] {
        var k := start + i;
        assert entries[..][Slot(CAPACITY, k)] == records[k];
        if i < CAPACITY {
          SlotAhead(CAPACITY, start, i);
        }
      }
    }

    /** Gives the records before newTail back to the foreground.  The tail only moves forward. */
    method AdvanceTail(newTail: nat)
      requires Valid() && tail < newTail <= head
      modifies this`tail
      ensures Valid() && tail == newTail
    {
      tail := newTail;
    }
  }
}
