/**
 * Runs of the reclamation with a foreground: how full the region store gets when
 * the foreground writes its holders between the sweeps, and how the active
 * region can lose its memory.
 */
module ReclamationRuns {
  import opened Basics
  import opened RegionStore
  import opened Reclamation

  const LOG_CAP := 16
  const CELL_CAP := 10

  /** The most regions that a sweep leaves: the view, the holders, the queue, and what left the view. */
  const LIVE_CAP := 2 + (LOG_CAP + CELL_CAP) + QUEUE_CAP + 2 + LOG_CAP

  /**
   * A run with its history.  swept is the generation of the last sweep and view
   * the regions in view at it.  earlier is the log before the publication in
   * progress.  dropped counts the publications that found the store full.
   */
  datatype History = History(s: State, swept: Option<nat>, view: set<nat>, earlier: seq<nat>, dropped: nat)

  function InViewNow(s: State): set<nat>
    requires s.phase.Marked?
  {
    (if s.last.Some? then {s.last.value} else {}) + if s.phase.marks.handed.Some? then {s.phase.marks.handed.value} else {}
  }

  function Advance(h: History, a: Action): History
    requires Enabled(h.s, a)
  {
    var t := Apply(h.s, a);
    match a
    case Publish(_) => h.(s := t, earlier := h.s.log, dropped := if |h.s.store| == STORE_CAP then h.dropped + 1 else h.dropped)
    case Sweep => h.(s := t, swept := Some(h.s.phase.marks.generation), view := InViewNow(h.s))
    case _ => h.(s := t)
  }

  function Record(run: seq<Action>): History {
    if run == [] then History(INITIAL, None, {}, [], 0)
    else
      var h, a := Record(run[..|run| - 1]), run[|run| - 1];
      if Enabled(h.s, a) then Advance(h, a) else h
  }

  lemma {:induction false} RecordIsExec(run: seq<Action>)
    ensures Record(run).s == Exec(run)
  {
    if run != [] {
      RecordIsExec(run[..|run| - 1]);
    }
  }

  /** The foreground wrote its holders since the last sweep, and the log and the cells have their sizes. */
  predicate Paced(h: History, a: Action) {
    match a
    case Mark => h.swept.None? || h.swept.value < h.s.generation
    case Callback(log) => |log| <= LOG_CAP
    case Write(cells) => |cells| <= CELL_CAP
    case _ => true
  }

  ghost predicate PacedRun(run: seq<Action>)
    decreases |run|
  {
    run == [] || (PacedRun(run[..|run| - 1]) && Paced(Record(run[..|run| - 1]), run[|run| - 1]))
  }

  // ------------------------------------------------------------- invariant

  /** A region that did not leave was in view at the last sweep, is the last published one, or was kept by a rollback. */
  ghost predicate NotLeftFits(store: map<nat, nat>, view: set<nat>, last: Option<nat>, log: seq<nat>) {
    forall n :: n in store && store[n] == NOT_LEFT ==> n in view || Some(n) == last || n in log
  }

  ghost predicate LeftFits(store: map<nat, nat>, swept: Option<nat>) {
    forall n :: n in store && store[n] != NOT_LEFT ==> swept.Some? && store[n] <= swept.value
  }

  ghost predicate PaceInv(h: History) {
    var s := h.s;
    && |h.view| <= 2 && |s.log| <= LOG_CAP && |s.cells| <= CELL_CAP && |h.earlier| <= LOG_CAP && h.dropped == 0
    && s.generation < NOT_LEFT && (h.swept.Some? ==> h.swept.value < NOT_LEFT)
    && |s.store| <= (if s.phase.Idle? then LIVE_CAP else LIVE_CAP + 1)
    && LeftFits(s.store, h.swept)
    && NotLeftFits(s.store, h.view, s.last, if s.phase.Idle? then s.log else h.earlier)
    && (s.phase.Idle? && s.last.Some? ==> s.last.value in h.view)
    && (s.phase.Stored? ==> h.earlier == s.log)
    && (s.phase.Marked? ==> MarksFit(s.phase.marks, h.swept))
  }

  ghost predicate MarksFit(m: Marks, swept: Option<nat>) {
    m.hasForeground && |m.held| <= LOG_CAP + CELL_CAP && m.generation < NOT_LEFT && (swept.Some? ==> swept.value < m.generation)
  }

  /** A sweep after a write keeps only what is in view, held or queued, and what it finds out of view for the first time. */
  lemma SweepBound(store: map<nat, nat>, last: Option<nat>, m: Marks, pushed: seq<nat>, swept: Option<nat>, view: set<nat>,
                   log: seq<nat>)
    requires LeftFits(store, swept) && NotLeftFits(store, view, last, log) && MarksFit(m, swept)
    requires |view| <= 2 && |log| <= LOG_CAP
    ensures |Swept(store, last, m, Recent(pushed))| <= LIVE_CAP
  {
    var queue := Recent(pushed);
    var now := (if last.Some? then {last.value} else {}) + if m.handed.Some? then {m.handed.value} else {};
    var held, queued, logged := Regions(m.held), Regions(queue), Regions(log);
    RegionsSmall(m.held);
    RegionsSmall(queue);
    RegionsSmall(log);
    var left := Swept(store, last, m, queue);
    forall n | n in left ensures n in now + held + queued + view + logged {
      StaysWhere(n, store, last, m, queue, swept, view, log);
    }
    UnionSize(left.Keys, now, held, queued, view, logged);
    assert |left| == |left.Keys|;
  }

  lemma StaysWhere(n: nat, store: map<nat, nat>, last: Option<nat>, m: Marks, queue: seq<nat>, swept: Option<nat>, view: set<nat>,
                   log: seq<nat>)
    requires LeftFits(store, swept) && NotLeftFits(store, view, last, log) && MarksFit(m, swept)
    requires n in store && Stays(n, store[n], last, m, queue)
    ensures InView(n, last, m) || n in m.held || n in queue || n in view || n in log
  {
  }

  lemma UnionSize(s: set<nat>, a: set<nat>, b: set<nat>, c: set<nat>, d: set<nat>, e: set<nat>)
    requires s <= a + b + c + d + e
    ensures |s| <= |a| + |b| + |c| + |d| + |e|
  {
    PartSize(s, a + b + c + d + e);
  }

  /** What a sweep does to the left generations. */
  lemma SweepLefts(store: map<nat, nat>, last: Option<nat>, m: Marks, queue: seq<nat>, swept: Option<nat>)
    requires LeftFits(store, swept) && MarksFit(m, swept)
    ensures var after := Swept(store, last, m, queue);
            && LeftFits(after, Some(m.generation))
            && forall n :: n in after && after[n] == NOT_LEFT ==> InView(n, last, m)
  {
  }

  lemma SweepPaced(h: History)
    requires PaceInv(h) && Enabled(h.s, Sweep)
    ensures PaceInv(Advance(h, Sweep))
  {
    var s := h.s;
    SweepBound(s.store, s.last, s.phase.marks, s.pushed, h.swept, h.view, h.earlier);
    SweepLefts(s.store, s.last, s.phase.marks, Recent(s.pushed), h.swept);
  }

  lemma PublishPaced(h: History, r: nat)
    requires PaceInv(h) && Enabled(h.s, Publish(r))
    ensures PaceInv(Advance(h, Publish(r)))
  {
  }

  lemma StagePaced(h: History, a: Action)
    requires PaceInv(h) && Enabled(h.s, a) && Paced(h, a) && (a.Callback? || a.Observe? || a.Mark? || a.Rollback?)
    ensures PaceInv(Advance(h, a))
  {
  }

  lemma ForegroundPaced(h: History, a: Action)
    requires PaceInv(h) && Enabled(h.s, a) && Paced(h, a)
    requires a.Restore? || a.Consume? || a.Peek? || a.Forget? || a.Write?
    ensures PaceInv(Advance(h, a))
  {
  }

  lemma {:induction false} AlwaysPaced(run: seq<Action>)
    requires PacedRun(run)
    ensures PaceInv(Record(run))
    decreases |run|
  {
    if run != [] {
      var h, a := Record(run[..|run| - 1]), run[|run| - 1];
      AlwaysPaced(run[..|run| - 1]);
      if Enabled(h.s, a) {
        match a
        case Publish(r) => PublishPaced(h, r);
        case Sweep => SweepPaced(h);
        case Callback(_) => StagePaced(h, a);
        case Observe => StagePaced(h, a);
        case Mark => StagePaced(h, a);
        case Rollback(_) => StagePaced(h, a);
        case _ => ForegroundPaced(h, a);
      }
    }
  }

  /**
   * In every run in which the foreground writes its holders between any two
   * sweeps, the store never fills, so no publication is dropped.
   */
  lemma PacedNeverDrops(run: seq<Action>)
    requires PacedRun(run)
    ensures Record(run).s == Exec(run) && Record(run).dropped == 0
    ensures |Exec(run).store| <= LIVE_CAP + 1 < STORE_CAP
  {
    RecordIsExec(run);
    AlwaysPaced(run);
  }

  // ------------------------------------------------ what the foreground gets

  lemma ExecNext(run: seq<Action>, a: Action)
    ensures Exec(run + [a]) == if Enabled(Exec(run), a) then Apply(Exec(run), a) else Exec(run)
  {
    assert (run + [a])[..|run|] == run;
  }

  /** The foreground gets every region that is published: it takes it from the slot, and the region has its memory. */
  lemma PublishedIsGot(run: seq<Action>, r: nat)
    requires var s := Exec(run); s.phase.Idle? && r !in s.store && |s.store| < STORE_CAP && s.restored.None?
    ensures var s := Exec(run + [Publish(r)] + [Callback([r])] + [Consume]);
            r in s.readable && r in s.store && s.slot.None? && s.active == Some(r) && r in s.log
  {
    ExecNext(run, Publish(r));
    ExecNext(run + [Publish(r)], Callback([r]));
    ExecNext(run + [Publish(r)] + [Callback([r])], Consume);
  }

  /** The foreground gets the region of a rollback, and it is the active one. */
  lemma RollbackIsGot(run: seq<Action>, r: nat)
    requires Enabled(Exec(run), Rollback(r))
    ensures var s := Exec(run + [Rollback(r)] + [Restore]); r in s.readable && r in s.store && s.active == Some(r) && !s.loose
  {
    ExecNext(run, Rollback(r));
    ExecNext(run + [Rollback(r)], Restore);
    AlwaysInv(run + [Rollback(r)] + [Restore]);
  }

  /** The foreground can read the active region. */
  lemma ActiveIsGot(run: seq<Action>)
    requires Enabled(Exec(run), Peek)
    ensures var s := Exec(run + [Peek]); s.active == Exec(run).active && s.active.Some? && s.active.value in s.readable
  {
    ExecNext(run, Peek);
  }

  /** A region that the foreground gives up, and that nothing else names, is named by nobody. */
  lemma ForgottenIsUnnamed(run: seq<Action>, kept: set<nat>, r: nat)
    requires Enabled(Exec(run), Forget(kept)) && r !in kept
    requires Named(Exec(run).(readable := Exec(run).readable - {r})) == Named(Exec(run)) - {r}
    ensures r !in Named(Exec(run + [Forget(kept)]))
  {
    ExecNext(run, Forget(kept));
  }

  ghost predicate NoWrite(more: seq<Action>) {
    forall k :: 0 <= k < |more| ==> !more[k].Write?
  }

  lemma {:induction false} CellsStay(run: seq<Action>, more: seq<Action>)
    requires NoWrite(more)
    ensures Exec(run + more).cells == Exec(run).cells
    decreases |more|
  {
    if more == [] {
      assert run + more == run;
    } else {
      ExecNext(run, more[0]);
      CellsStay(run + [more[0]], more[1..]);
      assert run + more == run + [more[0]] + more[1..];
    }
  }

  /**
   * A region that the foreground names in a write keeps its memory until the next
   * write, whatever the stage publishes and sweeps.
   */
  lemma WrittenIsKept(run: seq<Action>, cells: seq<nat>, r: nat, more: seq<Action>)
    requires Enabled(Exec(run), Write(cells)) && r in cells && NoWrite(more)
    ensures r in Exec(run + [Write(cells)] + more).store
  {
    ExecNext(run, Write(cells));
    CellsStay(run + [Write(cells)], more);
    AlwaysInv(run + [Write(cells)] + more);
  }

  // ---------------------------------------------------- a lost active region

  function ExecFrom(s: State, more: seq<Action>): State
    decreases |more|
  {
    if more == [] then s else ExecFrom(if Enabled(s, more[0]) then Apply(s, more[0]) else s, more[1..])
  }

  lemma {:induction false} ExecConcat(run: seq<Action>, more: seq<Action>)
    ensures Exec(run + more) == ExecFrom(Exec(run), more)
    decreases |more|
  {
    if more == [] {
      assert run + more == run;
    } else {
      var next := run + [more[0]];
      assert next[..|run|] == run && next + more[1..] == run + more;
      ExecConcat(next, more[1..]);
    }
  }

  /** One publication, after which only the new region is in the log. */
  function Publication(r: nat): seq<Action> {
    [Publish(r), Callback([r]), Observe, Mark, Sweep]
  }

  function Publications(n: nat): seq<Action> {
    if n == 0 then [] else Publications(n - 1) + Publication(n + 1)
  }

  /** The regions 1 to n, in order. */
  ghost predicate Counts(pushed: seq<nat>, n: nat) {
    |pushed| == n && forall i :: 0 <= i < n ==> pushed[i] == i + 1
  }

  /** After the job of a rollback to region 1 and n publications since, without a write of the foreground. */
  ghost predicate Waiting(s: State, n: nat) {
    && s.phase.Idle? && s.restored == Some(1) && s.readable == {1} && s.cells == [] && s.generation == 0
    && Counts(s.pushed, n + 1) && StoreWaits(s.store, n)
  }

  /** The state after one publication. */
  function Published(s: State, r: nat): State {
    var pushed := s.pushed + [r];
    var marks := Marks([r] + s.cells, Some(r), true, s.generation);
    s.(store := Swept(s.store[r := NOT_LEFT], Some(r), marks, Recent(pushed)), last := Some(r), pushed := pushed,
       log := [r], slot := Some(r), active := Some(r), loose := false)
  }

  lemma PublicationRuns(s: State, r: nat)
    requires s.phase.Idle? && r !in s.store && |s.store| < STORE_CAP
    ensures ExecFrom(s, Publication(r)) == Published(s, r)
  {
    var s1 := Apply(s, Publish(r));
    StepFrom(s, Publication(r), 0);
    assert Publication(r)[0..] == Publication(r) && Publication(r)[1..] == Ending(r);
    EndingRuns(s1, r);
  }

  lemma StepFrom(s: State, acts: seq<Action>, i: nat)
    requires i < |acts| && Enabled(s, acts[i])
    ensures ExecFrom(s, acts[i..]) == ExecFrom(Apply(s, acts[i]), acts[i + 1..])
  {
    assert acts[i..][1..] == acts[i + 1..];
  }

  ghost predicate StoreWaits(store: map<nat, nat>, n: nat) {
    && |store.Keys| <= n + 1 && (forall r :: r in store ==> r <= n + 1)
    && 1 in store && store[1] == if n == 0 then NOT_LEFT else 0
  }

  /** A sweep without a write since keeps region 1, with the generation of the first sweep. */
  lemma StoreStillWaits(store: map<nat, nat>, n: nat, held: seq<nat>, queue: seq<nat>)
    requires StoreWaits(store, n)
    ensures var r, next := n + 2, n + 1;
            StoreWaits(Swept(store[r := NOT_LEFT], Some(r), Marks(held, Some(r), true, 0), queue), next)
  {
    var r := n + 2;
    var more := store[r := NOT_LEFT];
    var after := Swept(more, Some(r), Marks(held, Some(r), true, 0), queue);
    assert more.Keys == store.Keys + {r};
    assert after.Keys <= more.Keys;
    PartSize(after.Keys, more.Keys);
  }

  lemma PublicationWaits(s: State, n: nat)
    requires Waiting(s, n) && n + 1 < STORE_CAP
    ensures Waiting(Published(s, n + 2), n + 1)
  {
    StoreStillWaits(s.store, n, [n + 2] + s.cells, Recent(s.pushed + [n + 2]));
  }

  /** The run up to the store of the rollback: region 1, the job of a rollback to it, and n publications. */
  function Waited(n: nat): seq<Action> {
    Publication(1) + [Rollback(1)] + Publications(n)
  }

  lemma {:induction false} WaitedWaits(n: nat)
    requires n < STORE_CAP
    ensures Waiting(Exec(Waited(n)), n)
  {
    if n == 0 {
      FirstWaits();
    } else {
      WaitedWaits(n - 1);
      WaitedMore(n - 1);
      NextWaits(Waited(n - 1), n - 1);
    }
  }

  lemma WaitedMore(n: nat)
    ensures Waited(n + 1) == Waited(n) + Publication(n + 2)
  {
  }

  lemma NextWaits(run: seq<Action>, n: nat)
    requires Waiting(Exec(run), n) && n + 1 < STORE_CAP
    ensures Waiting(Exec(run + Publication(n + 2)), n + 1)
  {
    ExecConcat(run, Publication(n + 2));
    OneMoreWaits(Exec(run), n);
  }

  lemma OneMoreWaits(s: State, n: nat)
    requires Waiting(s, n) && n + 1 < STORE_CAP
    ensures Waiting(ExecFrom(s, Publication(n + 2)), n + 1)
  {
    RoomForNext(s.store, n);
    PublicationRuns(s, n + 2);
    PublicationWaits(s, n);
  }

  lemma RoomForNext(store: map<nat, nat>, n: nat)
    requires StoreWaits(store, n)
    ensures n + 2 !in store && |store| <= n + 1
  {
    assert |store| == |store.Keys|;
  }

  lemma FirstWaits()
    ensures Waiting(Exec(Waited(0)), 0)
  {
    ExecConcat([], Publication(1));
    assert [] + Publication(1) == Publication(1);
    ExecConcat(Publication(1), [Rollback(1)]);
    assert Waited(0) == Publication(1) + [Rollback(1)];
    PublicationRuns(INITIAL, 1);
    RollbackWaits(Published(INITIAL, 1));
  }

  lemma RollbackWaits(s: State)
    requires s == Published(INITIAL, 1)
    ensures Waiting(ExecFrom(s, [Rollback(1)]), 0)
  {
    assert s.store.Keys == {1};
    assert ExecFrom(s, [Rollback(1)]) == ExecFrom(Apply(s, Rollback(1)), []);
    assert Kept(s.store, 1).Keys == {1};
  }

  /** The end of the run: during a publication the foreground stores the active region, and writes no holder. */
  function Handover(r: nat): seq<Action> {
    [Publish(r), Restore, Write([])]
  }

  function Ending(r: nat): seq<Action> {
    [Callback([r]), Observe, Mark, Sweep]
  }

  lemma HandoverRuns(s: State, r: nat)
    requires s.phase.Idle? && r !in s.store && |s.store| < STORE_CAP && s.generation == 0
    requires s.restored.Some? && s.restored.value != r
    ensures ExecFrom(s, Handover(r)) ==
            s.(store := s.store[r := NOT_LEFT], last := Some(r), pushed := s.pushed + [r], phase := Stored, active := s.restored,
               restored := None, readable := {}, cells := [], generation := 1, loose := true)
  {
    var acts := Handover(r);
    var s1 := Apply(s, Publish(r));
    var s2 := Apply(s1, Restore);
    StepFrom(s, acts, 0);
    StepFrom(s1, acts, 1);
    StepFrom(s2, acts, 2);
    assert acts[0..] == acts && acts[3..] == [];
    assert Regions([]) == {};
  }

  lemma EndingRuns(s: State, r: nat)
    requires s.phase.Stored? && s.last == Some(r)
    ensures var marks := Marks([r] + s.cells, Some(r), true, s.generation);
            ExecFrom(s, Ending(r)) ==
            s.(store := Swept(s.store, Some(r), marks, Recent(s.pushed)), log := [r], slot := Some(r), phase := Idle)
  {
    var acts := Ending(r);
    var s1 := Apply(s, Callback([r]));
    var s2 := Apply(s1, Observe);
    var s3 := Apply(s2, Mark);
    StepFrom(s, acts, 0);
    StepFrom(s1, acts, 1);
    StepFrom(s2, acts, 2);
    StepFrom(s3, acts, 3);
    assert acts[0..] == acts && acts[4..] == [];
  }

  lemma LostRuns(s: State, n: nat)
    requires Waiting(s, n) && QUEUE_CAP <= n && n + 1 < STORE_CAP
    ensures var t := ExecFrom(ExecFrom(s, Handover(n + 2)), Ending(n + 2)); t.active == Some(1) && 1 !in t.store && t.loose
  {
    var r := n + 2;
    RoomForNext(s.store, n);
    HandoverRuns(s, r);
    EndingRuns(ExecFrom(s, Handover(r)), r);
    NotRecent(s.pushed + [r], n);
  }

  lemma NotRecent(pushed: seq<nat>, n: nat)
    requires Counts(pushed, n + 2) && QUEUE_CAP <= n
    ensures 1 !in Recent(pushed)
  {
  }

  /**
   * The active region can lose its memory: 64 publications come between the job
   * of a rollback and its store, and the write after the store does not name the
   * region.
   */
  lemma ActiveRegionLost()
    ensures var r := QUEUE_CAP + 2;
            var s := Exec(Waited(QUEUE_CAP) + Handover(r) + Ending(r)); s.active == Some(1) && 1 !in s.store && s.loose
  {
    var run, r := Waited(QUEUE_CAP), QUEUE_CAP + 2;
    WaitedWaits(QUEUE_CAP);
    ExecConcat(run, Handover(r));
    ExecConcat(run + Handover(r), Ending(r));
    LostRuns(Exec(run), QUEUE_CAP);
  }
}
