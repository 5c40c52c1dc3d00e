/**
 * The lock-free kernel cache as a transition system: any number of threads run
 * lookups and inserts over one open-addressing table, one atomic access a step.
 * A content hash of zero is a free entry and a kernel of zero is none.
 */
module KernelCache {
  import opened Basics

  datatype Entry = Entry(content: nat, row: nat, kernel: nat)

  /** Where a lookup and an insert are in the entry that they probe. */
  datatype LookupPc = LoadKey | LoadKernel | LoadRow(seen: nat)
  datatype InsertPc = Claim | StoreRow | StoreKernel | Await | LoadOldRow | Overwrite

  /**
   * One call.  sure says that an insert of the pair had succeeded when the
   * lookup began.
   */
  datatype Thread =
    | Lookup(content: nat, row: nat, sure: bool, probe: nat, lpc: LookupPc)
    | LookedUp(content: nat, row: nat, sure: bool, result: nat)
    | Insert(content: nat, row: nat, kernel: nat, probe: nat, ipc: InsertPc)
    | Ended(content: nat, row: nat, kernel: nat, ok: bool)

  /**
   * supplied holds the pair and the kernel of every insert that began, and found
   * the probe at which the first insert of a pair succeeded.
   */
  datatype State = State(table: seq<Entry>, threads: seq<Thread>, supplied: set<(nat, nat, nat)>, found: map<(nat, nat), nat>)

  datatype Action =
    | BeginLookup(content: nat, row: nat)
    | BeginInsert(content: nat, row: nat, kernel: nat)
    // One atomic step of a thread.  A thread that waits for a claimed entry may give up.
    | Step(thread: nat, giveUp: bool)

  /** A table of a size, every entry free. */
  function Initial(capacity: nat): State {
    State(seq(capacity, _ => Entry(0, 0, 0)), [], {}, map[])
  }

  /** The entry that a probe of a content hash looks at. */
  function At(table: seq<Entry>, content: nat, probe: nat): (i: nat)
    requires table != []
    ensures i < |table|
  {
    Slot(|table|, content + probe)
  }

  // --------------------------------------------------------------- actions

  predicate Enabled(s: State, a: Action) {
    s.table != [] &&
    match a
    case BeginLookup(c, _) => c != 0
    case BeginInsert(c, _, k) => c != 0 && k != 0
    case Step(t, _) => t < |s.threads| && (s.threads[t].Lookup? || s.threads[t].Insert?)
  }

  /** The next entry, or the end of the table. */
  function NextLookup(th: Thread, capacity: nat): Thread
    requires th.Lookup?
  {
    if th.probe + 1 < capacity then th.(probe := th.probe + 1, lpc := LoadKey) else LookedUp(th.content, th.row, th.sure, 0)
  }

  function NextInsert(th: Thread, capacity: nat): Thread
    requires th.Insert?
  {
    if th.probe + 1 < capacity then th.(probe := th.probe + 1, ipc := Claim) else Ended(th.content, th.row, th.kernel, false)
  }

  function LookupStep(s: State, t: nat, giveUp: bool): Thread
    requires s.table != [] && t < |s.threads| && s.threads[t].Lookup?
  {
    var th := s.threads[t];
    var e := s.table[At(s.table, th.content, th.probe)];
    match th.lpc
    case LoadKey =>
      if e.content == 0 then LookedUp(th.content, th.row, th.sure, 0)
      else if e.content != th.content then NextLookup(th, |s.table|)
      else th.(lpc := LoadKernel)
    case LoadKernel =>
      if e.kernel != 0 then th.(lpc := LoadRow(e.kernel)) else if giveUp then NextLookup(th, |s.table|) else th
    case LoadRow(seen) =>
      if e.row == th.row then LookedUp(th.content, th.row, th.sure, seen) else NextLookup(th, |s.table|)
  }

  function Succeed(s: State, th: Thread): map<(nat, nat), nat>
    requires th.Insert?
  {
    if (th.content, th.row) in s.found then s.found else s.found[(th.content, th.row) := th.probe]
  }

  /** The entry, the thread and the found pairs after a step of an insert. */
  function InsertStep(s: State, t: nat, giveUp: bool): (Entry, Thread, map<(nat, nat), nat>)
    requires s.table != [] && t < |s.threads| && s.threads[t].Insert?
  {
    var th := s.threads[t];
    var e := s.table[At(s.table, th.content, th.probe)];
    match th.ipc
    case Claim =>
      if e.content == 0 then (e.(content := th.content), th.(ipc := StoreRow), s.found)
      else if e.content == th.content then (e, th.(ipc := Await), s.found)
      else (e, NextInsert(th, |s.table|), s.found)
    case StoreRow => (e.(row := th.row), th.(ipc := StoreKernel), s.found)
    case StoreKernel => (e.(kernel := th.kernel), Ended(th.content, th.row, th.kernel, true), Succeed(s, th))
    case Await =>
      if e.kernel != 0 then (e, th.(ipc := LoadOldRow), s.found)
      else if giveUp then (e, NextInsert(th, |s.table|), s.found)
      else (e, th, s.found)
    case LoadOldRow =>
      if e.row == th.row then (e, th.(ipc := Overwrite), s.found) else (e, NextInsert(th, |s.table|), s.found)
    case Overwrite => (e.(kernel := th.kernel), Ended(th.content, th.row, th.kernel, true), Succeed(s, th))
  }

  function Apply(s: State, a: Action): State
    requires Enabled(s, a)
  {
    match a
    case BeginLookup(c, r) => s.(threads := s.threads + [Lookup(c, r, (c, r) in s.found, 0, LoadKey)])
    case BeginInsert(c, r, k) =>
      s.(threads := s.threads + [Insert(c, r, k, 0, Claim)], supplied := s.supplied + {(c, r, k)})
    case Step(t, giveUp) =>
      if s.threads[t].Lookup? then s.(threads := s.threads[t := LookupStep(s, t, giveUp)])
      else
        var (e, th, found) := InsertStep(s, t, giveUp);
        var i := At(s.table, s.threads[t].content, s.threads[t].probe);
        s.(table := s.table[i := e], threads := s.threads[t := th], found := found)
  }

  /** The state after a run.  An action that is not enabled does nothing. */
  function Exec(capacity: nat, run: seq<Action>): State {
    if run == [] then Initial(capacity)
    else
      var s, a := Exec(capacity, run[..|run| - 1]), run[|run| - 1];
      if Enabled(s, a) then Apply(s, a) else s
  }

  // ------------------------------------------------------------- invariant

  /** A published entry holds a kernel that an insert supplied for its pair. */
  ghost predicate TableFits(table: seq<Entry>, supplied: set<(nat, nat, nat)>) {
    forall i :: 0 <= i < |table| && table[i].kernel != 0 ==>
      table[i].content != 0 && (table[i].content, table[i].row, table[i].kernel) in supplied
  }

  /** Every entry before a probe is taken. */
  ghost predicate Passed(table: seq<Entry>, content: nat, probe: nat)
    requires table != []
  {
    forall p: nat :: p < probe ==> table[At(table, content, p)].content != 0
  }

  /** The entry at a probe is published for the pair. */
  ghost predicate PublishedAt(table: seq<Entry>, content: nat, row: nat, probe: nat)
    requires table != []
  {
    var e := table[At(table, content, probe)];
    e.content == content && e.row == row && e.kernel != 0
  }

  ghost predicate FoundFits(table: seq<Entry>, found: map<(nat, nat), nat>)
    requires table != []
  {
    forall c: nat, r: nat :: (c, r) in found ==>
      c != 0 && found[(c, r)] < |table| && Passed(table, c, found[(c, r)]) && PublishedAt(table, c, r, found[(c, r)])
  }

  /** The thread claimed the entry that it probes, and has not published it. */
  predicate Owns(th: Thread) {
    th.Insert? && (th.ipc.StoreRow? || th.ipc.StoreKernel?)
  }

  ghost predicate ThreadFits(table: seq<Entry>, supplied: set<(nat, nat, nat)>, found: map<(nat, nat), nat>, th: Thread)
    requires table != []
  {
    match th
    case Lookup(c, r, sure, probe, pc) =>
      var e := table[At(table, c, probe)];
      && c != 0 && probe < |table| && (sure ==> (c, r) in found && probe <= found[(c, r)])
      && (match pc
          case LoadKey => true
          case LoadKernel => e.content == c
          case LoadRow(seen) => seen != 0 && e.content == c && e.kernel != 0 && (c, e.row, seen) in supplied)
    case LookedUp(c, r, sure, result) => (sure ==> result != 0) && (result != 0 ==> (c, r, result) in supplied)
    case Insert(c, r, k, probe, pc) =>
      var e := table[At(table, c, probe)];
      && c != 0 && k != 0 && probe < |table| && Passed(table, c, probe) && (c, r, k) in supplied
      && (match pc
          case Claim => true
          case StoreRow => e.content == c && e.kernel == 0
          case StoreKernel => e.content == c && e.row == r && e.kernel == 0
          case Await => e.content == c
          case LoadOldRow => e.content == c && e.kernel != 0
          case Overwrite => e.content == c && e.row == r && e.kernel != 0)
    case Ended(c, r, k, ok) => c != 0 && (ok ==> (c, r) in found)
  }

  ghost predicate OwnersApart(table: seq<Entry>, threads: seq<Thread>)
    requires table != []
  {
    forall t, u :: 0 <= t < u < |threads| && Owns(threads[t]) && Owns(threads[u]) ==>
      At(table, threads[t].content, threads[t].probe) != At(table, threads[u].content, threads[u].probe)
  }

  ghost predicate Inv(s: State) {
    s.table != [] ==>
      && TableFits(s.table, s.supplied) && FoundFits(s.table, s.found) && OwnersApart(s.table, s.threads)
      && (forall t :: 0 <= t < |s.threads| ==> ThreadFits(s.table, s.supplied, s.found, s.threads[t]))
  }

  /** A taken entry keeps its content hash, and a published entry keeps its row and stays published. */
  ghost predicate Grows(table: seq<Entry>, table': seq<Entry>) {
    && |table| == |table'|
    && (forall i :: 0 <= i < |table| ==> table[i].content != 0 ==> table'[i].content == table[i].content)
    && (forall i :: 0 <= i < |table| ==> table[i].kernel != 0 ==> table'[i].kernel != 0 && table'[i].row == table[i].row)
  }

  ghost predicate Extends(found: map<(nat, nat), nat>, found': map<(nat, nat), nat>) {
    forall p :: p in found ==> p in found' && found'[p] == found[p]
  }

  lemma PassedKept(table: seq<Entry>, table': seq<Entry>, content: nat, probe: nat)
    requires table != [] && Grows(table, table') && Passed(table, content, probe)
    ensures Passed(table', content, probe)
  {
    forall p: nat | p < probe ensures table'[At(table', content, p)].content != 0 {
      assert table[At(table, content, p)].content != 0;
    }
  }

  lemma FoundKept(table: seq<Entry>, table': seq<Entry>, found: map<(nat, nat), nat>)
    requires table != [] && Grows(table, table') && FoundFits(table, found)
    ensures FoundFits(table', found)
  {
    forall c: nat, r: nat | (c, r) in found
      ensures c != 0 && found[(c, r)] < |table'| && Passed(table', c, found[(c, r)]) && PublishedAt(table', c, r, found[(c, r)])
    {
      PassedKept(table, table', c, found[(c, r)]);
      assert PublishedAt(table, c, r, found[(c, r)]);
    }
  }

  /** A step of another thread does not disturb a thread, unless it changes an entry that the thread owns. */
  lemma ThreadKept(s: State, table': seq<Entry>, supplied': set<(nat, nat, nat)>, found': map<(nat, nat), nat>, th: Thread)
    requires s.table != [] && Grows(s.table, table') && s.supplied <= supplied' && Extends(s.found, found')
    requires ThreadFits(s.table, s.supplied, s.found, th)
    requires Owns(th) ==> table'[At(s.table, th.content, th.probe)] == s.table[At(s.table, th.content, th.probe)]
    ensures ThreadFits(table', supplied', found', th)
  {
    if th.Insert? {
      PassedKept(s.table, table', th.content, th.probe);
    }
  }

  lemma LookupFits(s: State, t: nat, giveUp: bool)
    requires s.table != [] && TableFits(s.table, s.supplied) && FoundFits(s.table, s.found)
    requires t < |s.threads| && s.threads[t].Lookup? && ThreadFits(s.table, s.supplied, s.found, s.threads[t])
    ensures ThreadFits(s.table, s.supplied, s.found, LookupStep(s, t, giveUp))
  {
    var th := s.threads[t];
    if th.sure {
      var d := s.found[(th.content, th.row)];
      assert PublishedAt(s.table, th.content, th.row, d) && Passed(s.table, th.content, d);
    }
  }

  lemma PassedNext(table: seq<Entry>, content: nat, probe: nat)
    requires table != [] && Passed(table, content, probe) && table[At(table, content, probe)].content != 0
    ensures Passed(table, content, probe + 1)
  {
    forall p: nat | p < probe + 1 ensures table[At(table, content, p)].content != 0 {
      if p < probe {
        assert table[At(table, content, p)].content != 0;
      }
    }
  }

  /** What a step of an insert does to the table and to its own thread. */
  lemma InsertFits(s: State, t: nat, giveUp: bool)
    requires s.table != [] && TableFits(s.table, s.supplied) && FoundFits(s.table, s.found)
    requires t < |s.threads| && s.threads[t].Insert? && ThreadFits(s.table, s.supplied, s.found, s.threads[t])
    ensures var (e, th, found) := InsertStep(s, t, giveUp);
            var table := s.table[At(s.table, s.threads[t].content, s.threads[t].probe) := e];
            && Grows(s.table, table) && Extends(s.found, found) && TableFits(table, s.supplied)
            && ThreadFits(table, s.supplied, found, th) && FoundFits(table, found)
  {
    var th := s.threads[t];
    var (e, th', found) := InsertStep(s, t, giveUp);
    var i := At(s.table, th.content, th.probe);
    var table := s.table[i := e];
    assert Grows(s.table, table);
    PassedKept(s.table, table, th.content, th.probe);
    if e.content != 0 {
      PassedNext(table, th.content, th.probe);
    }
    FoundKept(s.table, table, s.found);
    if th'.Ended? && th'.ok {
      assert PublishedAt(table, th.content, th.row, th.probe);
    }
  }

  lemma OthersFit(s: State, t: nat, giveUp: bool, u: nat)
    requires Inv(s) && Enabled(s, Step(t, giveUp)) && s.threads[t].Insert? && u < |s.threads| && u != t
    ensures var (e, _, found) := InsertStep(s, t, giveUp);
            var table := s.table[At(s.table, s.threads[t].content, s.threads[t].probe) := e];
            ThreadFits(table, s.supplied, found, s.threads[u])
  {
    var (e, _, found) := InsertStep(s, t, giveUp);
    var th, other := s.threads[t], s.threads[u];
    var i := At(s.table, th.content, th.probe);
    InsertFits(s, t, giveUp);
    assert ThreadFits(s.table, s.supplied, s.found, other) && ThreadFits(s.table, s.supplied, s.found, th);
    ThreadKept(s, s.table[i := e], s.supplied, found, other);
  }

  lemma OwnersStayApart(s: State, t: nat, giveUp: bool)
    requires Inv(s) && Enabled(s, Step(t, giveUp)) && s.threads[t].Insert?
    ensures OwnersApart(Apply(s, Step(t, giveUp)).table, Apply(s, Step(t, giveUp)).threads)
  {
    var after := Apply(s, Step(t, giveUp));
    assert ThreadFits(s.table, s.supplied, s.found, s.threads[t]);
    forall u | 0 <= u < |s.threads| && u != t && Owns(s.threads[u]) && Owns(after.threads[t])
      ensures At(s.table, s.threads[t].content, s.threads[t].probe) != At(s.table, s.threads[u].content, s.threads[u].probe)
    {
      assert ThreadFits(s.table, s.supplied, s.found, s.threads[u]);
    }
    var th := after.threads[t];
    assert Owns(th) ==> th.content == s.threads[t].content && th.probe == s.threads[t].probe;
    OneMoves(s.table, after.table, s.threads, t, th);
  }

  lemma OneMoves(table: seq<Entry>, table': seq<Entry>, threads: seq<Thread>, t: nat, th: Thread)
    requires table != [] && |table| == |table'| && t < |threads| && OwnersApart(table, threads)
    requires Owns(th) ==> forall u :: 0 <= u < |threads| && u != t && Owns(threads[u]) ==>
               At(table, th.content, th.probe) != At(table, threads[u].content, threads[u].probe)
    ensures OwnersApart(table', threads[t := th])
  {
  }

  lemma StepKeeps(s: State, t: nat, giveUp: bool)
    requires Inv(s) && Enabled(s, Step(t, giveUp))
    ensures Inv(Apply(s, Step(t, giveUp)))
  {
    if s.threads[t].Lookup? {
      LookupFits(s, t, giveUp);
    } else {
      InsertFits(s, t, giveUp);
      OwnersStayApart(s, t, giveUp);
      forall u | 0 <= u < |s.threads| && u != t
        ensures var after := Apply(s, Step(t, giveUp)); ThreadFits(after.table, after.supplied, after.found, s.threads[u])
      {
        OthersFit(s, t, giveUp, u);
      }
    }
  }

  lemma BeginKeeps(s: State, a: Action)
    requires Inv(s) && Enabled(s, a) && !a.Step?
    ensures Inv(Apply(s, a))
  {
    var after := Apply(s, a);
    forall u | 0 <= u < |s.threads| ensures ThreadFits(after.table, after.supplied, after.found, s.threads[u]) {
      ThreadKept(s, s.table, after.supplied, s.found, s.threads[u]);
    }
  }

  lemma {:induction false} AlwaysInv(capacity: nat, run: seq<Action>)
    ensures Inv(Exec(capacity, run))
  {
    if run != [] {
      var s, a := Exec(capacity, run[..|run| - 1]), run[|run| - 1];
      AlwaysInv(capacity, run[..|run| - 1]);
      if Enabled(s, a) {
        if a.Step? {
          StepKeeps(s, a.thread, a.giveUp);
        } else {
          BeginKeeps(s, a);
        }
      }
    }
  }

  // -------------------------------------------------------------- theorems

  /** In every run, a lookup that finds a kernel finds one that an insert supplied for exactly its pair. */
  lemma LookupIsSound(capacity: nat, run: seq<Action>, t: nat)
    requires var s := Exec(capacity, run); s.table != [] && t < |s.threads| && s.threads[t].LookedUp?
    ensures var th := Exec(capacity, run).threads[t];
            th.result != 0 ==> (th.content, th.row, th.result) in Exec(capacity, run).supplied
  {
    AlwaysInv(capacity, run);
    var s := Exec(capacity, run);
    assert ThreadFits(s.table, s.supplied, s.found, s.threads[t]);
  }

  /** Thread u looks the pair up, and was sure of it when it began. */
  ghost predicate SureOf(s: State, u: nat, content: nat, row: nat) {
    && u < |s.threads| && (s.threads[u].Lookup? || s.threads[u].LookedUp?)
    && s.threads[u].content == content && s.threads[u].row == row && s.threads[u].sure
  }

  lemma {:induction false} SureStays(capacity: nat, run: seq<Action>, more: seq<Action>, u: nat, content: nat, row: nat)
    requires SureOf(Exec(capacity, run), u, content, row)
    ensures SureOf(Exec(capacity, run + more), u, content, row)
    decreases |more|
  {
    if more == [] {
      assert run + more == run;
    } else {
      var less := more[..|more| - 1];
      SureStays(capacity, run, less, u, content, row);
      assert (run + more)[..|run + more| - 1] == run + less;
    }
  }

  /**
   * In every run, once an insert of a pair has ended well, a lookup of the pair
   * that begins later never comes back empty, whatever runs beside it.
   */
  lemma LaterLookupFinds(capacity: nat, run: seq<Action>, t: nat, more: seq<Action>)
    requires var s := Exec(capacity, run); s.table != [] && t < |s.threads| && s.threads[t].Ended? && s.threads[t].ok
    ensures var s := Exec(capacity, run);
            var (c, r) := (s.threads[t].content, s.threads[t].row);
            var u, after := |s.threads|, Exec(capacity, run + [BeginLookup(c, r)] + more);
            SureOf(after, u, c, r) && (after.threads[u].LookedUp? ==> after.threads[u].result != 0)
  {
    var s := Exec(capacity, run);
    var c, r, u := s.threads[t].content, s.threads[t].row, |s.threads|;
    AlwaysInv(capacity, run);
    assert ThreadFits(s.table, s.supplied, s.found, s.threads[t]);
    var begun := run + [BeginLookup(c, r)];
    assert begun[..|run|] == run;
    SureStays(capacity, begun, more, u, c, r);
    AlwaysInv(capacity, begun + more);
    var after := Exec(capacity, begun + more);
    TableKept(capacity, begun + more);
    TableKept(capacity, run);
    assert ThreadFits(after.table, after.supplied, after.found, after.threads[u]);
  }

  lemma {:induction false} TableKept(capacity: nat, run: seq<Action>)
    ensures |Exec(capacity, run).table| == capacity
  {
    if run != [] {
      TableKept(capacity, run[..|run| - 1]);
    }
  }
}
