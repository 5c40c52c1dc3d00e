/**
 * The positions that the iteration detector keeps, and the detect stage that
 * drops the ops which no boundary can claim any more.  What the keys of the ops
 * decide is abstract: any square may be found, and any period may break.
 */
module Detector {
  import opened Basics
  import opened PendingOps

  const MAX_PERIOD := (HISTORY_MAX_CAPACITY - K - 1) / 2

  /** A square that the search finds: its period, and the phase at which iterations begin. */
  datatype Square = Square(period: nat, phase: nat)

  /** What the keys say at one op: whether the accepted period holds, and what a search finds. */
  datatype Seen = Seen(holds: bool, found: Option<Square>)

  /**
   * pos ops came since the restart, and the history holds those from base on.
   * period is zero while the detector searches.  window is the number of keys of
   * the window of the newest op.
   */
  datatype Detector = Detector(pos: nat, base: nat, period: nat, nextBoundary: nat, capacity: nat, window: nat)

  /** A restart keeps the slots of the history. */
  function Restarted(capacity: nat): Detector {
    Detector(0, 0, 0, 0, capacity, 0)
  }

  /** The ring of the history also holds the op before base. */
  function HeldFrom(d: Detector): nat {
    SubSat(d.base, 1)
  }

  ghost predicate PeriodFits(d: Detector) {
    d.period != 0 ==>
      && K <= d.period <= MAX_PERIOD && d.base + 2 * d.period <= d.nextBoundary
      && d.pos < d.nextBoundary + K <= d.pos + d.period
  }

  ghost predicate Fits(d: Detector) {
    && Capacity(d.capacity) && (d.capacity == 0 ==> d.pos == 0)
    && d.base <= d.pos <= HeldFrom(d) + d.capacity
    && d.window == Min(K, d.pos) && (d.pos < K ==> d.period == 0)
    && PeriodFits(d)
  }

  /** Room in the history for one more op: the ring grows, and at the limit the oldest op leaves. */
  function MakeRoom(d: Detector): Detector
    requires Fits(d)
  {
    if d.capacity == 0 then d.(capacity := MIN_CAPACITY)
    else if d.pos + 1 <= HeldFrom(d) + d.capacity then d
    else if d.capacity < HISTORY_MAX_CAPACITY then d.(capacity := 2 * d.capacity)
    else d.(base := d.pos + 2 - d.capacity)
  }

  /** The search tests only a square inside the history, with a period of at least K. */
  predicate Possible(d: Detector, q: Square) {
    K <= q.period && q.phase < q.period && d.base + 2 * q.period + K <= d.pos
  }

  /** A report of a boundary drops the history before the completed iteration. */
  function Fire(d: Detector): Detector
    requires d.period <= d.nextBoundary
  {
    d.(nextBoundary := d.nextBoundary + d.period, base := Max(d.base, d.nextBoundary - d.period))
  }

  function Arrived(d: Detector): Detector
    requires Fits(d)
  {
    MakeRoom(d).(pos := d.pos + 1, window := Min(K, d.window + 1))
  }

  /** The detector when one more op is in the history and its window is not looked at yet. */
  ghost predicate ArrivalFits(a: Detector) {
    && Capacity(a.capacity) && a.capacity > 0 && a.base <= a.pos <= HeldFrom(a) + a.capacity
    && a.window == Min(K, a.pos) && (a.pos < K ==> a.period == 0)
    && (a.period != 0 ==>
          && K <= a.period <= MAX_PERIOD && a.base + 2 * a.period <= a.nextBoundary
          && a.pos <= a.nextBoundary + K <= a.pos + a.period)
  }

  /** When the boundary of a period arrives, the two iterations that it compares are still in the history. */
  lemma ArrivedFits(d: Detector)
    requires Fits(d)
    ensures ArrivalFits(Arrived(d)) && d.base <= Arrived(d).base
  {
  }

  function Decide(a: Detector, seen: Seen): (Detector, Option<nat>)
    requires ArrivalFits(a)
  {
    if a.window < K then (a, None)
    else if a.period != 0 then
      if a.pos != a.nextBoundary + K then (a, None)
      else if seen.holds then (Fire(a), Some(a.period))
      else (a.(period := 0), None)
    else if seen.found.None? || !Possible(a, seen.found.value) then (a, None)
    else Accept(a, seen.found.value)
  }

  /** Accepts a period, and reports a boundary at once when its phase is zero. */
  function Accept(a: Detector, q: Square): (Detector, Option<nat>)
    requires Possible(a, q)
  {
    var b := a.(period := q.period, nextBoundary := a.pos - K + q.phase);
    if q.phase == 0 then (Fire(b), Some(q.period)) else (b, None)
  }

  /** One op: the detector after it, and the length of the iteration that it completes. */
  function Check(d: Detector, seen: Seen): (Detector, Option<nat>)
    requires Fits(d)
  {
    ArrivedFits(d);
    Decide(Arrived(d), seen)
  }

  /** The history never outgrows its largest ring, and an accepted period is at most MAX_PERIOD. */
  lemma CheckFits(d: Detector, seen: Seen)
    requires Fits(d)
    ensures Fits(Check(d, seen).0)
  {
    ArrivedFits(d);
    DecideFits(Arrived(d), seen);
  }

  lemma DecideFits(a: Detector, seen: Seen)
    requires ArrivalFits(a)
    ensures Fits(Decide(a, seen).0)
  {
  }

  // ----------------------------------------------------- what can be claimed

  function SearchFloor(d: Detector): nat {
    var newest := SubSat(d.pos, K);
    if newest > d.base then d.base + (newest - d.base) / 2 else d.base
  }

  /** The oldest op that a later boundary can put in its iteration. */
  function OldestClaimable(d: Detector): nat {
    if d.period == 0 then SearchFloor(d) else Min(SubSat(d.nextBoundary, d.period), SearchFloor(d))
  }

  /** The claimable ops are at most half of the history, and K more. */
  lemma ClaimableBound(d: Detector)
    requires Fits(d)
    ensures OldestClaimable(d) <= d.pos <= OldestClaimable(d) + HISTORY_MAX_CAPACITY / 2 + K
  {
  }

  lemma FloorGrows(d: Detector, a: Detector)
    requires a.pos == d.pos + 1 && d.base <= a.base
    ensures SearchFloor(d) <= SearchFloor(a)
  {
  }

  /** Without a boundary, what can be claimed only shrinks. */
  lemma ClaimableGrows(d: Detector, seen: Seen)
    requires Fits(d) && Check(d, seen).1.None?
    ensures OldestClaimable(d) <= OldestClaimable(Check(d, seen).0)
  {
    var a := Arrived(d);
    ArrivedFits(d);
    FloorGrows(d, a);
    if seen.found.Some? && Possible(a, seen.found.value) && a.period == 0 {
      SquareIsClaimable(d, a, seen.found.value.period);
    }
  }

  /** The iteration of a square that an op completes was claimable before the op. */
  lemma SquareIsClaimable(d: Detector, a: Detector, period: nat)
    requires a.pos == d.pos + 1 && d.base <= a.base && a.base + 2 * period + K <= a.pos
    ensures SearchFloor(d) + period + K <= a.pos
  {
  }

  /** The iteration of a boundary was claimable before its op. */
  lemma BoundaryIsClaimable(d: Detector, seen: Seen)
    requires Fits(d) && Check(d, seen).1.Some?
    ensures var len := Check(d, seen).1.value;
            K <= len && OldestClaimable(d) + len + K <= d.pos + 1
  {
    var a := Arrived(d);
    ArrivedFits(d);
    if a.period == 0 {
      SquareIsClaimable(d, a, seen.found.value.period);
    }
  }

  // ------------------------------------------------------- the detect stage

  lemma SuffixSlice(pushed: seq<Op>, front: seq<Op>, held: seq<Op>, i: nat, j: nat)
    requires front + held == pushed && i <= j <= |held|
    ensures held[i..j] == pushed[|front| + i..|front| + j]
  {
  }

  /** The detect stage: the detector, the pending ops, and where the last cut since the restart ended. */
  class Stage {
    const pending: Ring
    var detector: Detector
    ghost var started: nat
    ghost var cut: nat

    constructor ()
      ensures Valid() && pending.pushed == [] && fresh(pending) && fresh(pending.ring)
    {
      pending := new Ring();
      detector, started, cut := Restarted(0), 0, 0;
    }

    /** The stage holds the ops that can be claimed and were not cut, and no other. */
    ghost predicate Valid()
      reads this, pending, pending.ring
    {
      && pending.Valid() && Fits(detector) && cut <= SubSat(detector.pos, K)
      && |pending.pushed| == started + detector.pos
      && |pending.held| == detector.pos - Max(OldestClaimable(detector), cut)
      && OldestClaimable(detector) <= detector.pos
    }

    /** A reset after a divergence. */
    method Reset()
      requires Valid()
      modifies this, pending
      ensures Valid() && pending.held == [] && pending.pushed == old(pending.pushed) && cut == 0
      ensures detector.capacity == old(detector).capacity && detector.pos == 0 && detector.period == 0
      ensures started == |pending.pushed|
    {
      detector := Restarted(detector.capacity);
      pending.Clear();
      started, cut := |pending.pushed|, 0;
    }

    /** Cuts the iteration that ends at a position, K ops before the newest. */
    method CutIteration(len: nat, hasLog: bool, ghost oldest: nat, ghost end: nat) returns (work: Option<seq<Op>>)
      requires pending.Valid() && |pending.pushed| == started + end + K
      requires oldest + len <= end && cut <= end && |pending.held| == end + K - Max(oldest, cut)
      modifies this`cut, pending`head, pending`count, pending`held, pending`gone
      ensures pending.Valid() && |pending.held| == K && cut == end
      ensures var from := Max(end - len, old(cut));
              && (work.Some? <==> hasLog && from < end)
              && (work.Some? ==> work.value == pending.pushed[started + from..started + end])
    {
      ghost var from, last, front := Max(end - len, cut), |pending.held| - K, Flat(pending.gone);
      SuffixSlice(pending.pushed, front, pending.held, SubSat(last, len), last);
      assert |front| + last == started + end && |front| + SubSat(last, len) == started + from;
      work := pending.PrepareWork(len, hasLog);
      cut := end;
    }

    /** What one op leads to, after its push: a cut at a boundary, and the drop of the ops that nothing can claim. */
    method Settle(pos: nat, len: Option<nat>, hasLog: bool, ghost before: nat, claimable: nat) returns (work: Option<seq<Op>>)
      requires pending.Valid() && claimable <= pos && cut <= SubSat(pos, K)
      requires |pending.pushed| == started + pos && |pending.held| == pos - Max(before, cut)
      requires if len.Some? then before + len.value + K <= pos else before <= claimable
      modifies this`cut, pending`head, pending`count, pending`held, pending`gone
      ensures pending.Valid() && |pending.held| == pos - Max(claimable, cut) && cut <= SubSat(pos, K)
      ensures Cuts(len, pos, hasLog, old(cut), work)
    {
      work := None;
      if len.Some? {
        work := CutIteration(len.value, hasLog, before, pos - K);
      }
      pending.DropUnclaimable(pos, claimable);
    }

    /**
     * What is cut at an op: nothing without a boundary, and at a boundary the
     * completed iteration without the ops that the last work cut.
     */
    ghost predicate Cuts(len: Option<nat>, pos: nat, hasLog: bool, cutBefore: nat, work: Option<seq<Op>>)
      reads this`cut, this`started, pending`pushed
    {
      if len.None? then work.None? && cut == cutBefore
      else
        && len.value + K <= pos && started + pos <= |pending.pushed| && cut == pos - K
        && var from := Max(pos - K - len.value, cutBefore);
           && from <= cut
           && (work.Some? <==> hasLog && from < cut)
           && (work.Some? ==> work.value == pending.pushed[started + from..started + cut])
    }

    /** The op joins the pending ops, and leads to a cut and a drop. */
    method Advance(op: Op, pos: nat, len: Option<nat>, hasLog: bool, ghost before: nat, claimable: nat)
      returns (work: Option<seq<Op>>)
      requires pending.Valid() && |pending.pushed| == started + pos - 1 && |pending.held| == pos - 1 - Max(before, cut)
      requires before < pos <= before + HISTORY_MAX_CAPACITY && claimable <= pos && cut <= SubSat(pos - 1, K)
      requires if len.Some? then before + len.value + K <= pos else before <= claimable
      modifies this`cut, pending, pending.ring
      ensures pending.Valid() && pending.pushed == old(pending.pushed) + [op]
      ensures |pending.held| == pos - Max(claimable, cut) && cut <= SubSat(pos, K)
      ensures pending.ring == old(pending.ring) || fresh(pending.ring)
      ensures Cuts(len, pos, hasLog, old(cut), work)
    {
      var ok := pending.Push(op);
      assert ok;
      work := Settle(pos, len, hasLog, before, claimable);
    }

    /**
     * Takes one op.  The push is never the fatal one, and what was dropped before
     * does not change any work.
     */
    method Feed(op: Op, seen: Seen, hasLog: bool) returns (work: Option<seq<Op>>)
      requires Valid()
      modifies this, pending, pending.ring
      ensures Valid() && pending.pushed == old(pending.pushed) + [op] && started == old(started)
      ensures detector == Check(old(detector), seen).0
      ensures Cuts(Check(old(detector), seen).1, detector.pos, hasLog, old(cut), work)
    {
      FeedFacts(detector, seen);
      ghost var before := OldestClaimable(detector);
      var (next, len) := Check(detector, seen);
      detector := next;
      work := Advance(op, next.pos, len, hasLog, before, OldestClaimable(next));
    }
  }

  lemma FeedFacts(d: Detector, seen: Seen)
    requires Fits(d)
    ensures var (next, len) := Check(d, seen);
            && Fits(next) && next.pos == d.pos + 1 && OldestClaimable(next) <= next.pos
            && d.pos < OldestClaimable(d) + HISTORY_MAX_CAPACITY
            && if len.Some? then OldestClaimable(d) + len.value + K <= next.pos else OldestClaimable(d) <= OldestClaimable(next)
  {
    CheckFits(d, seen);
    ClaimableBound(d);
    ClaimableBound(Check(d, seen).0);
    if Check(d, seen).1.Some? {
      BoundaryIsClaimable(d, seen);
    } else {
      ClaimableGrows(d, seen);
    }
  }
}
