/**
 * When the iteration detector reports boundaries: an accepted square sets the
 * period, and while the period holds there is one boundary every period ops.
 */
module DetectorRuns {
  import opened Basics
  import opened PendingOps
  import opened Detector

  /** The ops that are left until the boundary that the detector expects. */
  function Until(d: Detector): int {
    d.nextBoundary + K - d.pos
  }

  /** One op while the period holds: a boundary of one period exactly at the expected op. */
  lemma InPeriod(d: Detector, seen: Seen)
    requires Fits(d) && d.period != 0 && seen.holds
    ensures var (next, len) := Check(d, seen);
            && next.period == d.period && next.pos == d.pos + 1
            && len == (if Until(d) == 1 then Some(d.period) else None)
            && Until(next) == (if Until(d) == 1 then d.period else Until(d) - 1)
  {
    ArrivedFits(d);
  }

  /** At the expected op, a period that does not hold ends without a boundary, and the search goes on. */
  lemma PeriodBreaks(d: Detector, seen: Seen)
    requires Fits(d) && d.period != 0 && !seen.holds && Until(d) == 1
    ensures Check(d, seen).1.None? && Check(d, seen).0.period == 0
  {
    ArrivedFits(d);
  }

  /**
   * A square that the search finds is accepted: it sets the period.  A boundary comes
   * at once when the phase is zero, and else after as many ops as the phase.
   */
  lemma SquareAccepted(d: Detector, seen: Seen)
    requires Fits(d) && d.period == 0 && d.pos + 1 >= K && seen.found.Some? && Possible(Arrived(d), seen.found.value)
    ensures var q := seen.found.value;
            var (next, len) := Check(d, seen);
            && next.period == q.period && next.pos == d.pos + 1
            && len == (if q.phase == 0 then Some(q.period) else None)
            && Until(next) == (if q.phase == 0 then q.period else q.phase)
  {
    ArrivedFits(d);
  }

  /** A search that finds no square reports nothing and goes on. */
  lemma NothingFound(d: Detector, seen: Seen)
    requires Fits(d) && d.period == 0
    requires seen.found.None? || !Possible(Arrived(d), seen.found.value) || d.pos + 1 < K
    ensures Check(d, seen).1.None? && Check(d, seen).0.period == 0
  {
    ArrivedFits(d);
  }

  ghost function After(d: Detector, seen: seq<Seen>): (r: Detector)
    requires Fits(d)
    ensures Fits(r)
  {
    if seen == [] then d
    else
      CheckFits(After(d, seen[..|seen| - 1]), seen[|seen| - 1]);
      Check(After(d, seen[..|seen| - 1]), seen[|seen| - 1]).0
  }

  /** The report at op n. */
  ghost function ReportAt(d: Detector, seen: seq<Seen>, n: nat): Option<nat>
    requires Fits(d) && n < |seen|
  {
    Check(After(d, seen[..n]), seen[n]).1
  }

  /** Op n is the boundary op of the period: the first comes after Until ops, and one more after each period. */
  ghost predicate IsBoundaryOp(d: Detector, n: nat) {
    exists j: nat :: n + 1 == Until(d) + Times(j, d.period)
  }

  function Times(j: nat, period: nat): nat {
    if j == 0 then 0 else Times(j - 1, period) + period
  }

  /** How the expected op moves on, after some ops of the period. */
  ghost predicate OnSchedule(d: Detector, a: Detector, n: nat) {
    && a.period == d.period && a.pos == d.pos + n && 1 <= Until(a)
    && exists j: nat :: Expects(d, a, n, j)
  }

  ghost predicate Expects(d: Detector, a: Detector, n: nat, j: nat) {
    n + Until(a) == Until(d) + Times(j, d.period) && (j > 0 ==> Until(a) <= d.period)
  }

  lemma {:induction false} StaysOnSchedule(d: Detector, seen: seq<Seen>, n: nat)
    requires Fits(d) && d.period != 0 && n <= |seen| && forall i :: 0 <= i < |seen| ==> seen[i].holds
    ensures OnSchedule(d, After(d, seen[..n]), n)
  {
    if n == 0 {
      assert Expects(d, d, 0, 0);
    } else {
      StaysOnSchedule(d, seen, n - 1);
      AfterNext(d, seen, n - 1);
      InPeriod(After(d, seen[..n - 1]), seen[n - 1]);
      NextOnSchedule(d, After(d, seen[..n - 1]), After(d, seen[..n]), n - 1);
    }
  }

  lemma AfterNext(d: Detector, seen: seq<Seen>, n: nat)
    requires Fits(d) && n < |seen|
    ensures After(d, seen[..n + 1]) == Check(After(d, seen[..n]), seen[n]).0
  {
    assert seen[..n + 1][..n] == seen[..n];
  }

  lemma NextOnSchedule(d: Detector, a: Detector, b: Detector, n: nat)
    requires OnSchedule(d, a, n) && b.period == a.period && b.pos == a.pos + 1 && d.period > 0
    requires Until(b) == if Until(a) == 1 then a.period else Until(a) - 1
    ensures OnSchedule(d, b, n + 1)
  {
    var j: nat :| Expects(d, a, n, j);
    assert Expects(d, b, n + 1, if Until(a) == 1 then j + 1 else j);
  }

  lemma {:induction false} TimesGrow(i: nat, j: nat, period: nat)
    requires i < j
    ensures Times(i, period) + period <= Times(j, period)
  {
    if i < j - 1 {
      TimesGrow(i, j - 1, period);
    }
  }

  /**
   * While the period holds, there is a boundary of one period exactly at the expected
   * op and at every period-th op after it, and no other.
   */
  lemma BoundaryEveryPeriod(d: Detector, seen: seq<Seen>, n: nat)
    requires Fits(d) && d.period != 0 && n < |seen| && forall i :: 0 <= i < |seen| ==> seen[i].holds
    ensures ReportAt(d, seen, n) == if IsBoundaryOp(d, n) then Some(d.period) else None
  {
    StaysOnSchedule(d, seen, n);
    var a := After(d, seen[..n]);
    var j: nat :| Expects(d, a, n, j);
    InPeriod(a, seen[n]);
    if Until(a) == 1 {
      assert n + 1 == Until(d) + Times(j, d.period);
    } else {
      forall i: nat ensures n + 1 != Until(d) + Times(i, d.period) {
        NotBetween(d, a, n, i, j);
      }
    }
  }

  lemma NotBetween(d: Detector, a: Detector, n: nat, i: nat, j: nat)
    requires Expects(d, a, n, j) && Until(a) > 1
    ensures n + 1 != Until(d) + Times(i, d.period)
  {
    if i < j {
      TimesGrow(i, j, d.period);
    } else if i > j {
      TimesGrow(j, i, d.period);
    }
  }
}
