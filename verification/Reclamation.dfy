/**
 * The reclamation of regions as a transition system.  The publish stage adds a
 * region to the store, gives it to the transaction log and to the publication
 * slot, reads the marks of the foreground and sweeps.  The foreground works
 * between any two of these steps: it takes the region in the slot, reads the
 * active region, restores a region of the transaction log, forgets regions, and
 * writes the regions that it holds.  A rollback is a job of the stage, and then a
 * store of the foreground, so publications can come between the two.
 */
module Reclamation {
  import opened Basics
  import opened RegionStore

  /** Where the stage is in a publication, and what it has read of the marks so far. */
  datatype Phase = Idle | Stored | InSlot | Observed(handed: Option<nat>) | Marked(marks: Marks)

  /**
   * readable is every region that the foreground can read.  cells is what its
   * last write named, and generation counts its writes.  active is the active
   * region, and loose says that a write left it out when it was not the last
   * published one.  restored is the region of a rollback whose job is done.
   */
  datatype State = State(store: map<nat, nat>, last: Option<nat>, pushed: seq<nat>, log: seq<nat>, slot: Option<nat>,
                         readable: set<nat>, cells: seq<nat>, generation: nat, phase: Phase,
                         active: Option<nat>, loose: bool, restored: Option<nat>)

  const INITIAL := State(map[], None, [], [], None, {}, [], 0, Idle, None, false, None)

  datatype Action =
    | Publish(region: nat) | Callback(log: seq<nat>) | Observe | Mark | Sweep
    | Rollback(region: nat) | Restore | Consume | Peek | Forget(kept: set<nat>) | Write(cells: seq<nat>)

  /** The active region is not the last published one. */
  predicate Stale(s: State) {
    s.active.Some? && s.active != s.last
  }

  function Regions(s: seq<nat>): set<nat> {
    set n | n in s
  }

  predicate Enabled(s: State, a: Action) {
    match a
    // A new region has an address that no live region has.
    case Publish(r) => s.phase.Idle? && r !in s.store
    // The transaction log drops old regions and adds the new one.
    case Callback(log) => s.phase.Stored? && s.last.Some? && forall n :: n in log ==> n in s.log || n == s.last.value
    case Observe => s.phase.InSlot?
    case Mark => s.phase.Observed?
    case Sweep => s.phase.Marked?
    // The job of a rollback is a job of the stage, so no publication is in progress.
    case Rollback(r) => s.phase.Idle? && r in s.log && s.restored.None?
    // The foreground does nothing else between the job of a rollback and its store.
    case Restore => s.restored.Some?
    case Consume => s.slot.Some? && s.restored.None?
    case Peek => s.active.Some? && !s.loose && s.restored.None?
    case Forget(kept) => kept <= s.readable && s.restored.None?
    // A write names every region that the foreground can read from then on.
    case Write(cells) => Regions(cells) <= s.readable && s.generation + 1 < NOT_LEFT && s.restored.None?
  }

  function Apply(s: State, a: Action): State
    requires Enabled(s, a)
  {
    match a
    case Publish(r) =>
      if |s.store| == STORE_CAP then s
      else
        s.(store := s.store[r := NOT_LEFT], last := Some(r), pushed := s.pushed + [r], phase := Stored,
           active := Some(r), loose := false)
    case Callback(log) => s.(log := log, slot := s.last, phase := InSlot)
    case Observe => s.(phase := Observed(s.slot))
    case Mark => s.(phase := Marked(Marks(s.log + s.cells, s.phase.handed, true, s.generation)))
    case Sweep => s.(store := Swept(s.store, s.last, s.phase.marks, Recent(s.pushed)), phase := Idle)
    case Rollback(r) => s.(store := Kept(s.store, r), readable := s.readable + {r}, restored := Some(r))
    case Restore => s.(active := s.restored, loose := false, restored := None)
    case Consume => s.(slot := None, readable := s.readable + {s.slot.value})
    case Peek => s.(readable := s.readable + {s.active.value})
    case Forget(kept) => s.(readable := kept)
    case Write(cells) =>
      s.(readable := Regions(cells), cells := cells, generation := s.generation + 1,
         loose := s.loose || (Stale(s) && s.active.value !in cells))
  }

  /** The state after a run.  An action that is not enabled does nothing. */
  function Exec(run: seq<Action>): State {
    if run == [] then INITIAL
    else
      var s, a := Exec(run[..|run| - 1]), run[|run| - 1];
      if Enabled(s, a) then Apply(s, a) else s
  }

  // ------------------------------------------------------------- invariant

  /** The regions that the foreground can read, now or through the active region. */
  function Watched(s: State): set<nat> {
    if Stale(s) && !s.loose then s.readable + {s.active.value} else s.readable
  }

  /** A region that a holder names has its memory in the store. */
  ghost predicate NamedStored(s: State) {
    && Watched(s) <= s.store.Keys && (s.restored.Some? ==> s.restored.value in s.readable)
    && (forall n :: n in s.cells ==> n in s.store)
    && (forall n :: n in s.log ==> n in s.store)
    && (forall n :: n in Recent(s.pushed) ==> n in s.store)
    && (s.last.Some? ==> s.last.value in s.store && s.store[s.last.value] == NOT_LEFT)
    && (s.slot.Some? ==> s.slot.value in s.store && s.store[s.slot.value] == NOT_LEFT)
  }

  /** A region that the foreground can read left its view only if no write came since, or if the last write names it. */
  ghost predicate LeftInTime(s: State) {
    && s.generation < NOT_LEFT
    && (forall n :: n in Watched(s) && n in s.store ==> s.generation <= s.store[n] || n in s.cells)
  }

  /** During a publication, what the stage read is still good for every region but the last published one. */
  ghost predicate ReadInTime(s: State) {
    match s.phase
    case Idle => true
    case Stored => s.last.Some?
    case InSlot => s.last.Some? && (s.slot.Some? ==> s.slot == s.last)
    case Observed(handed) => s.last.Some? && (s.slot.Some? ==> s.slot == s.last == handed)
    case Marked(m) =>
      && s.last.Some? && (s.slot.Some? ==> s.slot == s.last == m.handed)
      && m.hasForeground && m.generation <= s.generation
      && (forall n :: n in s.log ==> n in m.held)
      && (forall n :: (n in Watched(s) || n in s.cells) && Some(n) != s.last && n in s.store ==>
            && (m.generation == s.generation || n in s.cells)
            && (m.generation <= s.store[n] || n in m.held))
  }

  ghost predicate Inv(s: State) {
    NamedStored(s) && LeftInTime(s) && ReadInTime(s)
  }

  lemma RecentPush(pushed: seq<nat>, r: nat, n: nat)
    requires n in Recent(pushed + [r])
    ensures n == r || n in Recent(pushed)
  {
  }

  lemma PublishKeeps(s: State, a: Action)
    requires Inv(s) && Enabled(s, a) && a.Publish?
    ensures Inv(Apply(s, a))
  {
    forall n | n in Recent(s.pushed + [a.region]) ensures n == a.region || n in Recent(s.pushed) {
      RecentPush(s.pushed, a.region, n);
    }
  }

  lemma SweepKeeps(s: State, a: Action)
    requires Inv(s) && Enabled(s, a) && a.Sweep?
    ensures Inv(Apply(s, a))
  {
  }

  lemma StageKeeps(s: State, a: Action)
    requires Inv(s) && Enabled(s, a) && (a.Callback? || a.Observe? || a.Mark? || a.Rollback?)
    ensures Inv(Apply(s, a))
  {
  }

  lemma ForegroundKeeps(s: State, a: Action)
    requires Inv(s) && Enabled(s, a) && (a.Restore? || a.Consume? || a.Peek? || a.Forget? || a.Write?)
    ensures Inv(Apply(s, a))
  {
  }

  lemma {:induction false} AlwaysInv(run: seq<Action>)
    ensures Inv(Exec(run))
  {
    if run != [] {
      var s, a := Exec(run[..|run| - 1]), run[|run| - 1];
      AlwaysInv(run[..|run| - 1]);
      if Enabled(s, a) {
        if a.Publish? {
          PublishKeeps(s, a);
        } else if a.Sweep? {
          SweepKeeps(s, a);
        } else if a.Callback? || a.Observe? || a.Mark? || a.Rollback? {
          StageKeeps(s, a);
        } else {
          ForegroundKeeps(s, a);
        }
      }
    }
  }

  // -------------------------------------------------------------- theorems

  /**
   * The regions that a holder names: the foreground, the active region unless it
   * is loose, the slot, the stage, the transaction log and the queue.
   */
  ghost function Named(s: State): set<nat> {
    Watched(s) + Regions(s.cells) + Regions(s.log) + Regions(Recent(s.pushed))
    + (if s.slot.Some? then {s.slot.value} else {}) + if s.last.Some? then {s.last.value} else {}
  }

  /**
   * In every run, every region that the foreground can read, now or by its next
   * step, and every region that any holder names has its memory in the store.
   */
  lemma NamedRegionsLive(run: seq<Action>)
    ensures Named(Exec(run)) <= Exec(run).store.Keys
  {
    AlwaysInv(run);
    NamedIsStored(Exec(run));
  }

  /**
   * In every run, the active region is in the store, unless a write of the
   * foreground left it out while it was not the last published region.
   */
  lemma ActiveRegionLive(run: seq<Action>)
    ensures var s := Exec(run); s.active.Some? && !s.loose ==> s.active.value in s.store
  {
    AlwaysInv(run);
  }

  /** In every run, a sweep frees no region that a holder names. */
  lemma SweepFreesUnnamed(run: seq<Action>, n: nat)
    requires Enabled(Exec(run), Sweep) && n in Exec(run).store && n !in Apply(Exec(run), Sweep).store
    ensures n !in Named(Exec(run))
  {
    AlwaysInv(run);
    SweepFrees(Exec(run), n);
  }

  lemma NamedIsStored(s: State)
    requires Inv(s)
    ensures Named(s) <= s.store.Keys
  {
  }

  lemma SweepFrees(s: State, n: nat)
    requires Inv(s) && Enabled(s, Sweep) && n !in Apply(s, Sweep).store
    ensures n !in Named(s)
  {
    var t := Apply(s, Sweep);
    SweepKeeps(s, Sweep);
    NamedIsStored(t);
    SameNamed(s, t);
  }

  lemma SameNamed(s: State, t: State)
    requires t == s.(store := t.store, phase := t.phase)
    ensures Named(s) == Named(t)
  {
  }

  /** The address of a new region is one that no holder names, so a freed address can come back. */
  lemma NewRegionUnnamed(run: seq<Action>, r: nat)
    requires Enabled(Exec(run), Publish(r))
    ensures r !in Named(Exec(run))
  {
    NamedRegionsLive(run);
  }

  /**
   * The store does not keep what nobody names: a region that two sweeps find out
   * of view and unheld is gone after the second, when the foreground wrote its
   * holders between them.
   */
  lemma TwoSweepsFree(store: map<nat, nat>, n: nat, last1: Option<nat>, marks1: Marks, queue1: seq<nat>,
                      last2: Option<nat>, marks2: Marks, queue2: seq<nat>)
    requires marks1.hasForeground && marks2.hasForeground && marks1.generation < marks2.generation < NOT_LEFT
    requires n in store ==> store[n] == NOT_LEFT || store[n] <= marks1.generation
    requires !InView(n, last1, marks1)
    requires !InView(n, last2, marks2) && n !in marks2.held && n !in queue2
    ensures n !in Swept(Swept(store, last1, marks1, queue1), last2, marks2, queue2)
  {
    var once := Swept(store, last1, marks1, queue1);
    if n in once {
      assert once[n] <= marks1.generation;
    }
  }

  // ------------------------------------------------- without a foreground

  /** One publication, with the marks that the owner gives. */
  datatype Publication = Publication(region: nat, marks: Marks)

  datatype Alone = Alone(store: map<nat, nat>, pushed: seq<nat>, dropped: nat)

  /** The owner has no foreground and marks as many regions as fit, and a new region has a new address. */
  predicate EnabledAlone(s: Alone, p: Publication) {
    !p.marks.hasForeground && |p.marks.held| <= MARK_CAP && p.region !in s.store
  }

  function PublishAlone(s: Alone, p: Publication): Alone {
    if |s.store| == STORE_CAP then s.(dropped := s.dropped + 1)
    else
      var pushed := s.pushed + [p.region];
      Alone(Swept(s.store[p.region := NOT_LEFT], Some(p.region), p.marks, Recent(pushed)), pushed, s.dropped)
  }

  function ExecAlone(run: seq<Publication>): Alone {
    if run == [] then Alone(map[], [], 0)
    else
      var s, p := ExecAlone(run[..|run| - 1]), run[|run| - 1];
      if EnabledAlone(s, p) then PublishAlone(s, p) else s
  }

  /** In every run without a foreground the store never fills, so no publication is dropped. */
  lemma {:induction false} AloneNeverDrops(run: seq<Publication>)
    ensures ExecAlone(run).dropped == 0 && |ExecAlone(run).store| <= 2 + MARK_CAP + QUEUE_CAP < STORE_CAP
  {
    if run != [] {
      var s, p := ExecAlone(run[..|run| - 1]), run[|run| - 1];
      AloneNeverDrops(run[..|run| - 1]);
      if EnabledAlone(s, p) {
        NoForegroundBound(s.store[p.region := NOT_LEFT], Some(p.region), p.marks, s.pushed + [p.region]);
      }
    }
  }

  /** With no foreground a sweep leaves only named regions, at most 98. */
  lemma NoForegroundBound(store: map<nat, nat>, last: Option<nat>, marks: Marks, pushed: seq<nat>)
    requires !marks.hasForeground && |marks.held| <= MARK_CAP
    ensures |Swept(store, last, marks, Recent(pushed))| <= 2 + MARK_CAP + QUEUE_CAP < STORE_CAP
  {
    var queue := Recent(pushed);
    var view := (if last.Some? then {last.value} else {}) + if marks.handed.Some? then {marks.handed.value} else {};
    var all := view + Regions(marks.held) + Regions(queue);
    RegionsSmall(marks.held);
    RegionsSmall(queue);
    assert Swept(store, last, marks, queue).Keys <= all;
    PartSize(Swept(store, last, marks, queue).Keys, all);
  }

  lemma {:induction false} RegionsSmall(s: seq<nat>)
    ensures |Regions(s)| <= |s|
  {
    if s != [] {
      RegionsSmall(s[1..]);
      assert Regions(s) == Regions(s[1..]) + {s[0]};
    }
  }
}
