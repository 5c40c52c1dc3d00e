/**
 * Which kernel a lookup of the kernel cache finds.  An insert of a pair is solo
 * when no other insert of the pair runs beside it or begins after it.
 */
module KernelSolo {
  import opened Basics
  import opened KernelCache

  predicate Active(th: Thread, c: nat, r: nat) {
    th.Insert? && th.content == c && th.row == r
  }

  /** No thread but t inserts the pair. */
  ghost predicate NoOther(s: State, t: nat, c: nat, r: nat) {
    forall u :: 0 <= u < |s.threads| && u != t ==> !Active(s.threads[u], c, r)
  }

  /** A taken entry that a lookup of the pair goes past. */
  predicate Unmatched(e: Entry, c: nat, r: nat) {
    e.content != 0 && (e.content != c || e.kernel == 0 || e.row != r)
  }

  ghost predicate Clear(table: seq<Entry>, c: nat, r: nat, d: nat)
    requires table != []
  {
    forall p: nat :: p < d ==> Unmatched(table[At(table, c, p)], c, r)
  }

  /** The first published entry of the pair is at probe d, with the kernel. */
  ghost predicate Holds(table: seq<Entry>, c: nat, r: nat, k: nat, d: nat) {
    d < |table| && Clear(table, c, r, d) && table[At(table, c, d)] == Entry(c, r, k)
  }

  /** The solo insert runs, or ended, and then the table holds its kernel when it ended well. */
  ghost predicate Solo(s: State, t: nat, c: nat, r: nat, k: nat) {
    && s.table != [] && t < |s.threads| && NoOther(s, t, c, r) && k != 0
    && match s.threads[t]
       case Insert(c', r', k', probe, _) => c' == c && r' == r && k' == k && Clear(s.table, c, r, probe)
       case Ended(c', r', k', ok) => c' == c && r' == r && k' == k && (ok ==> exists d :: Holds(s.table, c, r, k, d))
       case _ => false
  }

  /** A step keeps what a lookup of the pair goes past, and the published entries of the pair. */
  ghost predicate Untouched(table: seq<Entry>, table': seq<Entry>, c: nat, r: nat) {
    && |table| == |table'|
    && (forall i :: 0 <= i < |table| && Unmatched(table[i], c, r) ==> Unmatched(table'[i], c, r))
    && (forall i :: 0 <= i < |table| && table[i].content == c && table[i].row == r && table[i].kernel != 0 ==>
          table'[i] == table[i])
  }

  lemma OtherStep(s: State, u: nat, giveUp: bool, c: nat, r: nat)
    requires Inv(s) && Enabled(s, Step(u, giveUp)) && !Active(s.threads[u], c, r)
    ensures Untouched(s.table, Apply(s, Step(u, giveUp)).table, c, r)
  {
    assert ThreadFits(s.table, s.supplied, s.found, s.threads[u]);
  }

  lemma ClearKept(table: seq<Entry>, table': seq<Entry>, c: nat, r: nat, d: nat)
    requires table != [] && Untouched(table, table', c, r)
    ensures Clear(table, c, r, d) ==> Clear(table', c, r, d)
  {
    if Clear(table, c, r, d) {
      forall p: nat | p < d ensures Unmatched(table'[At(table', c, p)], c, r) {
        assert Unmatched(table[At(table, c, p)], c, r);
      }
    }
  }

  lemma HoldsKept(table: seq<Entry>, table': seq<Entry>, c: nat, r: nat, k: nat, d: nat)
    requires table != [] && Untouched(table, table', c, r) && k != 0
    ensures Holds(table, c, r, k, d) ==> Holds(table', c, r, k, d)
  {
    ClearKept(table, table', c, r, d);
  }

  /** A change at a probe does not reach the probes before it. */
  lemma ClearBefore(table: seq<Entry>, c: nat, r: nat, d: nat, e: Entry)
    requires table != [] && d < |table| && Clear(table, c, r, d)
    ensures var table' := table[At(table, c, d) := e];
            Clear(table', c, r, d) && (Unmatched(e, c, r) ==> Clear(table', c, r, d + 1))
  {
    var table', next := table[At(table, c, d) := e], d + 1;
    forall p: nat | p < d ensures Unmatched(table'[At(table', c, p)], c, r) {
      SlotsDiffer(|table|, c + p, c + d);
      assert Unmatched(table[At(table, c, p)], c, r);
    }
    if Unmatched(e, c, r) {
      forall p: nat | p < next ensures Unmatched(table'[At(table', c, p)], c, r) {
      }
    }
  }

  /** A step of the solo insert itself. */
  lemma OwnStep(s: State, t: nat, giveUp: bool, c: nat, r: nat, k: nat)
    requires Inv(s) && Solo(s, t, c, r, k) && Enabled(s, Step(t, giveUp))
    ensures Solo(Apply(s, Step(t, giveUp)), t, c, r, k)
  {
    var th, after := s.threads[t], Apply(s, Step(t, giveUp));
    assert ThreadFits(s.table, s.supplied, s.found, th);
    var (e, th', _) := InsertStep(s, t, giveUp);
    ClearBefore(s.table, c, r, th.probe, e);
    if th'.Ended? && th'.ok {
      assert Holds(after.table, c, r, k, th.probe);
    }
  }

  /** Any other action keeps the solo insert, when it begins no insert of the pair. */
  lemma SoloStep(s: State, t: nat, a: Action, c: nat, r: nat, k: nat)
    requires Inv(s) && Solo(s, t, c, r, k) && Enabled(s, a)
    requires a.BeginInsert? ==> a.content != c || a.row != r
    ensures Solo(Apply(s, a), t, c, r, k)
  {
    if a.Step? && a.thread == t {
      OwnStep(s, t, a.giveUp, c, r, k);
    } else if a.Step? {
      var table' := Apply(s, a).table;
      OtherStep(s, a.thread, a.giveUp, c, r);
      if s.threads[t].Insert? {
        ClearKept(s.table, table', c, r, s.threads[t].probe);
      } else if s.threads[t].ok {
        var d :| Holds(s.table, c, r, k, d);
        HoldsKept(s.table, table', c, r, k, d);
      }
    }
  }

  /** No action begins an insert of the pair. */
  ghost predicate Quiet(run: seq<Action>, c: nat, r: nat) {
    forall i :: 0 <= i < |run| && run[i].BeginInsert? ==> run[i].content != c || run[i].row != r
  }

  lemma ExecLast(capacity: nat, run: seq<Action>, more: seq<Action>)
    requires more != []
    ensures var s, a := Exec(capacity, run + more[..|more| - 1]), more[|more| - 1];
            Exec(capacity, run + more) == if Enabled(s, a) then Apply(s, a) else s
  {
    assert (run + more)[..|run + more| - 1] == run + more[..|more| - 1];
  }

  lemma {:induction false} SoloRun(capacity: nat, run: seq<Action>, more: seq<Action>, t: nat, c: nat, r: nat, k: nat)
    requires Solo(Exec(capacity, run), t, c, r, k) && Quiet(more, c, r)
    ensures Solo(Exec(capacity, run + more), t, c, r, k)
    decreases |more|
  {
    if more == [] {
      assert run + more == run;
    } else {
      var less, a := more[..|more| - 1], more[|more| - 1];
      SoloRun(capacity, run, less, t, c, r, k);
      ExecLast(capacity, run, more);
      AlwaysInv(capacity, run + less);
      if Enabled(Exec(capacity, run + less), a) {
        SoloStep(Exec(capacity, run + less), t, a, c, r, k);
      }
    }
  }

  // ------------------------------------------------------------- a lookup

  /** Thread u looks the pair up, no insert of the pair runs, and the table holds the kernel at probe d. */
  ghost predicate Watched(s: State, u: nat, c: nat, r: nat, k: nat, d: nat) {
    && s.table != [] && u < |s.threads| && k != 0 && NoOther(s, |s.threads|, c, r) && Holds(s.table, c, r, k, d)
    && match s.threads[u]
       case Lookup(c', r', _, probe, pc) => c' == c && r' == r && probe <= d && (probe == d && pc.LoadRow? ==> pc.seen == k)
       case LookedUp(c', r', _, result) => c' == c && r' == r && result == k
       case _ => false
  }

  lemma LookupStepWatched(s: State, u: nat, giveUp: bool, c: nat, r: nat, k: nat, d: nat)
    requires Inv(s) && Watched(s, u, c, r, k, d) && Enabled(s, Step(u, giveUp))
    ensures Watched(Apply(s, Step(u, giveUp)), u, c, r, k, d)
  {
    var th := s.threads[u];
    assert ThreadFits(s.table, s.supplied, s.found, th);
    if th.probe < d {
      assert Unmatched(s.table[At(s.table, c, th.probe)], c, r);
    }
  }

  lemma WatchedStep(s: State, u: nat, a: Action, c: nat, r: nat, k: nat, d: nat)
    requires Inv(s) && Watched(s, u, c, r, k, d) && Enabled(s, a)
    requires a.BeginInsert? ==> a.content != c || a.row != r
    ensures Watched(Apply(s, a), u, c, r, k, d)
  {
    if a.Step? && a.thread == u {
      LookupStepWatched(s, u, a.giveUp, c, r, k, d);
    } else if a.Step? {
      OtherStepWatched(s, u, a.thread, a.giveUp, c, r, k, d);
    }
  }

  lemma OtherStepWatched(s: State, u: nat, v: nat, giveUp: bool, c: nat, r: nat, k: nat, d: nat)
    requires Inv(s) && Watched(s, u, c, r, k, d) && Enabled(s, Step(v, giveUp)) && v != u
    ensures Watched(Apply(s, Step(v, giveUp)), u, c, r, k, d)
  {
    OtherStep(s, v, giveUp, c, r);
    HoldsKept(s.table, Apply(s, Step(v, giveUp)).table, c, r, k, d);
  }

  lemma {:induction false} WatchedRun(capacity: nat, run: seq<Action>, more: seq<Action>, u: nat, c: nat, r: nat, k: nat, d: nat)
    requires Watched(Exec(capacity, run), u, c, r, k, d) && Quiet(more, c, r)
    ensures Watched(Exec(capacity, run + more), u, c, r, k, d)
    decreases |more|
  {
    if more == [] {
      assert run + more == run;
    } else {
      var less, a := more[..|more| - 1], more[|more| - 1];
      WatchedRun(capacity, run, less, u, c, r, k, d);
      ExecLast(capacity, run, more);
      AlwaysInv(capacity, run + less);
      if Enabled(Exec(capacity, run + less), a) {
        WatchedStep(Exec(capacity, run + less), u, a, c, r, k, d);
      }
    }
  }

  /** The insert begins when no insert of the pair runs. */
  lemma SoloBegins(s: State, c: nat, r: nat, k: nat)
    requires NoOther(s, |s.threads|, c, r) && Enabled(s, BeginInsert(c, r, k))
    ensures Solo(Apply(s, BeginInsert(c, r, k)), |s.threads|, c, r, k)
  {
  }

  lemma LookupBegins(s: State, t: nat, c: nat, r: nat, k: nat) returns (d: nat)
    requires Solo(s, t, c, r, k) && s.threads[t].Ended? && s.threads[t].ok && c != 0
    ensures Watched(Apply(s, BeginLookup(c, r)), |s.threads|, c, r, k, d)
  {
    d :| Holds(s.table, c, r, k, d);
  }

  /**
   * In every run, when an insert of a pair begins while no other insert of the
   * pair runs, ends well, and no insert of the pair begins after it, a lookup of
   * the pair that begins after its end finds its kernel, whatever else runs.
   */
  lemma SoloInsertIsFound(capacity: nat, before: seq<Action>, c: nat, r: nat, k: nat, during: seq<Action>, after: seq<Action>)
    requires capacity > 0 && c != 0 && k != 0 && Quiet(during, c, r) && Quiet(after, c, r)
    requires NoOther(Exec(capacity, before), |Exec(capacity, before).threads|, c, r)
    requires var t, s := |Exec(capacity, before).threads|, Exec(capacity, before + [BeginInsert(c, r, k)] + during);
             t < |s.threads| && s.threads[t].Ended? && s.threads[t].ok
    ensures var inserted := before + [BeginInsert(c, r, k)] + during;
            var u, s := |Exec(capacity, inserted).threads|, Exec(capacity, inserted + [BeginLookup(c, r)] + after);
            u < |s.threads| && (s.threads[u].LookedUp? ==> s.threads[u].result == k)
  {
    var t, begun := |Exec(capacity, before).threads|, before + [BeginInsert(c, r, k)];
    TableKept(capacity, before);
    assert begun[..|before|] == before;
    SoloBegins(Exec(capacity, before), c, r, k);
    SoloRun(capacity, begun, during, t, c, r, k);
    var inserted := begun + during;
    var looking := inserted + [BeginLookup(c, r)];
    assert looking[..|inserted|] == inserted;
    var u := |Exec(capacity, inserted).threads|;
    var d := LookupBegins(Exec(capacity, inserted), t, c, r, k);
    WatchedRun(capacity, looking, after, u, c, r, k, d);
  }
}
