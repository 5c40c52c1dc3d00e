/**
 * Every call of the kernel cache that runs alone ends, and a lone insert ends well
 * when the table has a free entry.
 */
module KernelProgress {
  import opened Basics
  import opened KernelCache

  /** The longer run is the run with steps of thread t alone, and the thread gives up every wait. */
  ghost predicate Alone(run: seq<Action>, longer: seq<Action>, t: nat) {
    run <= longer && forall k :: |run| <= k < |longer| ==> longer[k] == Step(t, true)
  }

  /** A probe from the given one on looks at a free entry. */
  ghost predicate FreeFrom(table: seq<Entry>, content: nat, probe: nat) {
    exists p: nat :: probe <= p < |table| && IsFree(table, content, p)
  }

  predicate IsFree(table: seq<Entry>, content: nat, p: nat) {
    table != [] && table[At(table, content, p)].content == 0
  }

  /** The insert has an entry of its own or of its pair, or there is a free entry before it. */
  ghost predicate WillSucceed(s: State, th: Thread) {
    th.Insert? && (th.ipc.StoreRow? || th.ipc.StoreKernel? || th.ipc.Overwrite? || FreeFrom(s.table, th.content, th.probe))
  }

  function InsertRank(pc: InsertPc): nat {
    match pc
    case Claim => 3
    case StoreRow => 2
    case StoreKernel => 1
    case Await => 2
    case LoadOldRow => 1
    case Overwrite => 0
  }

  function LookupRank(pc: LookupPc): nat {
    match pc
    case LoadKey => 2
    case LoadKernel => 1
    case LoadRow(_) => 0
  }

  /** How many steps a call that runs alone has left, at most. */
  function StepsLeft(capacity: nat, th: Thread): int {
    match th
    case Insert(_, _, _, probe, pc) => 4 * (capacity - probe) + InsertRank(pc)
    case Lookup(_, _, _, probe, pc) => 4 * (capacity - probe) + LookupRank(pc)
    case _ => 0
  }

  predicate Runs(th: Thread) {
    th.Insert? || th.Lookup?
  }

  lemma FreeAhead(table: seq<Entry>, content: nat, probe: nat)
    requires FreeFrom(table, content, probe) && table != [] && table[At(table, content, probe)].content != 0
    ensures FreeFrom(table, content, probe + 1) && probe + 1 < |table|
  {
    var p: nat :| probe <= p < |table| && IsFree(table, content, p);
    assert p != probe;
  }

  lemma LookupAdvances(s: State, t: nat)
    requires Enabled(s, Step(t, true)) && s.threads[t].Lookup? && s.threads[t].probe < |s.table|
    ensures var after := Apply(s, Step(t, true));
            Runs(after.threads[t]) ==> 0 <= StepsLeft(|s.table|, after.threads[t]) < StepsLeft(|s.table|, s.threads[t])
  {
  }

  lemma InsertAdvances(s: State, t: nat)
    requires Enabled(s, Step(t, true)) && s.threads[t].Insert? && s.threads[t].probe < |s.table|
    ensures var th := Apply(s, Step(t, true)).threads[t];
            && (Runs(th) ==> 0 <= StepsLeft(|s.table|, th) < StepsLeft(|s.table|, s.threads[t]))
            && (th.Insert? || th.Ended?)
  {
  }

  /** A step toward a free entry, or in an entry of its own. */
  lemma StepSucceeds(s: State, t: nat)
    requires Inv(s) && Enabled(s, Step(t, true)) && WillSucceed(s, s.threads[t])
    ensures var after := Apply(s, Step(t, true));
            WillSucceed(after, after.threads[t]) || (after.threads[t].Ended? && after.threads[t].ok)
  {
    var th := s.threads[t];
    assert ThreadFits(s.table, s.supplied, s.found, th);
    var i := At(s.table, th.content, th.probe);
    if th.ipc.Claim? || th.ipc.Await? || th.ipc.LoadOldRow? {
      if s.table[i].content != 0 {
        FreeAhead(s.table, th.content, th.probe);
        assert Apply(s, Step(t, true)).table == s.table;
      }
    }
  }

  lemma ExecNext(capacity: nat, run: seq<Action>, a: Action)
    ensures var s := Exec(capacity, run); Exec(capacity, run + [a]) == if Enabled(s, a) then Apply(s, a) else s
  {
    assert (run + [a])[..|run|] == run;
  }

  /** A call that runs alone ends.  An insert with a free entry before it ends well. */
  lemma CallEnds(capacity: nat, run: seq<Action>, t: nat) returns (longer: seq<Action>)
    requires t < |Exec(capacity, run).threads| && Runs(Exec(capacity, run).threads[t])
    ensures Alone(run, longer, t) && t < |Exec(capacity, longer).threads| && !Runs(Exec(capacity, longer).threads[t])
    ensures var s, th := Exec(capacity, run), Exec(capacity, longer).threads[t];
            WillSucceed(s, s.threads[t]) ==> th.Ended? && th.ok
    decreases StepsLeft(capacity, Exec(capacity, run).threads[t])
  {
    var s, next := Exec(capacity, run), run + [Step(t, true)];
    AlwaysInv(capacity, run);
    TableKept(capacity, run);
    ThreadHasTable(capacity, run, t);
    assert ThreadFits(s.table, s.supplied, s.found, s.threads[t]);
    ExecNext(capacity, run, Step(t, true));
    if s.threads[t].Lookup? {
      LookupAdvances(s, t);
    } else {
      InsertAdvances(s, t);
      if WillSucceed(s, s.threads[t]) {
        StepSucceeds(s, t);
      }
    }
    longer := next;
    if Runs(Exec(capacity, next).threads[t]) {
      longer := CallEnds(capacity, next, t);
    }
  }

  lemma {:induction false} ThreadHasTable(capacity: nat, run: seq<Action>, t: nat)
    requires t < |Exec(capacity, run).threads|
    ensures capacity > 0
  {
    if run != [] {
      TableKept(capacity, run[..|run| - 1]);
      if t < |Exec(capacity, run[..|run| - 1]).threads| {
        ThreadHasTable(capacity, run[..|run| - 1], t);
      }
    }
  }

  /** The probes of a content hash reach every entry. */
  lemma ProbesReach(table: seq<Entry>, content: nat, i: nat) returns (p: nat)
    requires i < |table|
    ensures p < |table| && At(table, content, p) == i
  {
    var home := Slot(|table|, content);
    p := if i >= home then i - home else i + |table| - home;
    SlotAhead(|table|, content, p);
  }

  /**
   * In every run, an insert that begins while an entry is free, and then runs alone,
   * ends well.
   */
  lemma LoneInsertSucceeds(capacity: nat, run: seq<Action>, c: nat, r: nat, k: nat, i: nat) returns (longer: seq<Action>)
    requires c != 0 && k != 0 && i < |Exec(capacity, run).table| && Exec(capacity, run).table[i].content == 0
    ensures var t := |Exec(capacity, run).threads|;
            && Alone(run + [BeginInsert(c, r, k)], longer, t) && t < |Exec(capacity, longer).threads|
            && Exec(capacity, longer).threads[t].Ended? && Exec(capacity, longer).threads[t].ok
  {
    var t, begun := |Exec(capacity, run).threads|, run + [BeginInsert(c, r, k)];
    ExecNext(capacity, run, BeginInsert(c, r, k));
    var p := ProbesReach(Exec(capacity, run).table, c, i);
    assert IsFree(Exec(capacity, begun).table, c, p);
    longer := CallEnds(capacity, begun, t);
  }
}
