/**
 * The owner mailbox of the publish stage, as a transition system: any number of
 * calls of run_on_publish_stage, a stage that starts and stops any number of
 * times, and one atomic word between them.  Each action is one atomic access or
 * one call boundary, and a compare-and-swap may fail for no reason.
 */
module Mailbox {
  datatype Box = Closed | Inline | Empty | Job(call: nat)

  /** Where a call is.  Saw* is between the load of the mailbox and the compare-and-swap. */
  datatype Pc = Start | SawNull | SawClosed | Waiting | RunningInline | RanInline | Returned

  /** One call and its job record: how often the job began and ended, and the done flag. */
  datatype Call = Call(pc: Pc, began: nat, ended: nat, done: bool)

  /** Where the publish stage is.  Failed is a violated assertion of the stage. */
  datatype Stage =
    | Down | Opening | Idle | Publishing
    | Serving(job: nat) | Running(job: nat) | Ran(job: nat) | Cleared(job: nat)
    | Closing | LastTaken(job: nat) | LastRunning(job: nat) | LastRan(job: nat)
    | Failed

  /**
   * owner is the call that claimed the mailbox last, and late says that the
   * stage touched the record of a job that was done.  No action reads them.
   */
  datatype State = State(box: Box, stage: Stage, calls: seq<Call>, owner: nat, late: bool)

  const INITIAL := State(Closed, Down, [], 0, false)

  datatype Action =
    | NewCall
    | Load(c: nat) | Post(c: nat, weak: bool) | Claim(c: nat, weak: bool) | EndInline(c: nat) | Release(c: nat) | Return(c: nat)
    | StageUp | StageOpen(weak: bool) | StageLoad | StagePublish | StagePublished
    | StageBegin | StageEnd | StageClear | StageDone | StageLeave | StageClose

  // --------------------------------------------------------------- actions

  /** The place of the call that takes part in an action. */
  predicate At(s: State, c: nat, pc: Pc) {
    c < |s.calls| && s.calls[c].pc == pc
  }

  predicate Enabled(s: State, a: Action) {
    match a
    case NewCall => true
    case Load(c) => At(s, c, Start)
    case Post(c, _) => At(s, c, SawNull)
    case Claim(c, _) => At(s, c, SawClosed)
    case EndInline(c) => At(s, c, RunningInline)
    case Release(c) => At(s, c, RanInline)
    case Return(c) => At(s, c, Waiting) && s.calls[c].done
    case StageUp => s.stage.Down?
    case StageOpen(_) => s.stage.Opening?
    case StageLoad => s.stage.Idle?
    case StagePublish => s.stage.Idle?
    case StagePublished => s.stage.Publishing?
    case StageBegin => (s.stage.Serving? || s.stage.LastTaken?) && s.stage.job < |s.calls|
    case StageEnd => (s.stage.Running? || s.stage.LastRunning?) && s.stage.job < |s.calls|
    case StageClear => s.stage.Ran?
    case StageDone => (s.stage.Cleared? || s.stage.LastRan?) && s.stage.job < |s.calls|
    case StageLeave => s.stage.Idle?
    case StageClose => s.stage.Closing?
  }

  function Moved(s: State, c: nat, pc: Pc): State
    requires c < |s.calls|
  {
    s.(calls := s.calls[c := s.calls[c].(pc := pc)])
  }

  function Begun(s: State, c: nat): State
    requires c < |s.calls|
  {
    s.(calls := s.calls[c := s.calls[c].(began := s.calls[c].began + 1)], late := s.late || Dead(s, c))
  }

  function Ended(s: State, c: nat): State
    requires c < |s.calls|
  {
    s.(calls := s.calls[c := s.calls[c].(ended := s.calls[c].ended + 1)])
  }

  /** The record of the call may be gone. */
  predicate Dead(s: State, c: nat)
    requires c < |s.calls|
  {
    s.calls[c].done || s.calls[c].pc == Returned
  }

  function CallerStep(s: State, a: Action): State
    requires Enabled(s, a)
  {
    match a
    case NewCall => s.(calls := s.calls + [Call(Start, 0, 0, false)])
    case Load(c) => Moved(s, c, if s.box == Empty then SawNull else if s.box == Closed then SawClosed else Start)
    case Post(c, weak) =>
      if s.box == Empty && !weak then Moved(s, c, Waiting).(box := Job(c)) else Moved(s, c, Start)
    case Claim(c, weak) =>
      if s.box == Closed && !weak then Begun(Moved(s, c, RunningInline), c).(box := Inline, owner := c) else Moved(s, c, Start)
    case EndInline(c) => Moved(Ended(s, c), c, RanInline)
    case Release(c) => Moved(s, c, Returned).(box := Closed)
    case Return(c) => Moved(s, c, Returned)
    case _ => s
  }

  function StageStep(s: State, a: Action): State
    requires Enabled(s, a)
  {
    match a
    case StageUp => s.(stage := Opening)
    case StageOpen(weak) =>
      if s.box == Closed && !weak then s.(box := Empty, stage := Idle)
      else if s.box.Inline? || s.box.Closed? then s else s.(stage := Failed)
    case StageLoad =>
      (match s.box
       case Empty => s
       case Job(c) => s.(stage := Serving(c))
       case _ => s.(stage := Failed))
    case StagePublish => s.(stage := Publishing)
    case StagePublished => s.(stage := Idle)
    case StageBegin =>
      Begun(s, s.stage.job).(stage := if s.stage.Serving? then Running(s.stage.job) else LastRunning(s.stage.job))
    case StageEnd => Ended(s, s.stage.job).(stage := if s.stage.Running? then Ran(s.stage.job) else LastRan(s.stage.job))
    case StageClear => s.(box := Empty, stage := Cleared(s.stage.job))
    case StageDone =>
      var c := s.stage.job;
      s.(calls := s.calls[c := s.calls[c].(done := true)], late := s.late || Dead(s, c),
         stage := if s.stage.Cleared? then Idle else Down)
    case StageLeave => s.(stage := Closing)
    case StageClose =>
      (match s.box
       case Empty => s.(box := Closed, stage := Down)
       case Job(c) => s.(box := Closed, stage := LastTaken(c))
       case _ => s.(box := Closed, stage := Failed))
    case _ => s
  }

  predicate OfCaller(a: Action) {
    a.NewCall? || a.Load? || a.Post? || a.Claim? || a.EndInline? || a.Release? || a.Return?
  }

  function Apply(s: State, a: Action): State
    requires Enabled(s, a)
  {
    if OfCaller(a) then CallerStep(s, a) else StageStep(s, a)
  }

  /** The state after a run.  An action that is not enabled does nothing. */
  function Exec(run: seq<Action>): State {
    if run == [] then INITIAL
    else
      var s, a := Exec(run[..|run| - 1]), run[|run| - 1];
      if Enabled(s, a) then Apply(s, a) else s
  }

  // ------------------------------------------------------------- invariant

  /** The stage has the job of call c in hand. */
  predicate Holds(stage: Stage, c: nat) {
    match stage
    case Serving(j) => j == c
    case Running(j) => j == c
    case Ran(j) => j == c
    case Cleared(j) => j == c
    case LastTaken(j) => j == c
    case LastRunning(j) => j == c
    case LastRan(j) => j == c
    case _ => false
  }

  /** The mailbox holds no sentinel exactly while the stage has it open. */
  predicate BoxFits(s: State) {
    match s.stage
    case Failed => false
    case Down => s.box.Closed? || s.box.Inline?
    case Opening => s.box.Closed? || s.box.Inline?
    case LastTaken(_) => s.box.Closed? || s.box.Inline?
    case LastRunning(_) => s.box.Closed? || s.box.Inline?
    case LastRan(_) => s.box.Closed? || s.box.Inline?
    case Serving(j) => s.box == Job(j)
    case Running(j) => s.box == Job(j)
    case Ran(j) => s.box == Job(j)
    case _ => s.box.Empty? || s.box.Job?
  }

  /** How often a job that waits has begun, and how often it has ended. */
  function Begins(stage: Stage, c: nat): nat {
    if Holds(stage, c) && !stage.Serving? && !stage.LastTaken? then 1 else 0
  }

  function Ends(stage: Stage, c: nat): nat {
    if Holds(stage, c) && (stage.Ran? || stage.Cleared? || stage.LastRan?) then 1 else 0
  }

  predicate CallFits(s: State, c: nat)
    requires c < |s.calls|
  {
    var call := s.calls[c];
    match call.pc
    case Waiting =>
      if call.done then call.began == call.ended == 1 && s.box != Job(c) && !Holds(s.stage, c)
      else
        && (s.box == Job(c) || Holds(s.stage, c))
        && (s.box == Job(c) ==> !s.stage.Cleared? || s.stage.job != c)
        && call.began == Begins(s.stage, c) && call.ended == Ends(s.stage, c)
    case RunningInline => s.box.Inline? && s.owner == c && call.began == 1 && call.ended == 0 && !call.done && !Holds(s.stage, c)
    case RanInline => s.box.Inline? && s.owner == c && call.began == call.ended == 1 && !call.done && !Holds(s.stage, c)
    case Returned => call.began == call.ended == 1 && s.box != Job(c) && !Holds(s.stage, c)
    case _ => call.began == call.ended == 0 && !call.done && s.box != Job(c) && !Holds(s.stage, c)
  }

  ghost predicate Inv(s: State) {
    && BoxFits(s) && !s.late
    && (forall c: nat :: c < |s.calls| ==> CallFits(s, c))
    && (s.box.Job? ==> s.box.call < |s.calls| && s.calls[s.box.call].pc == Waiting)
    && (forall c: nat :: Holds(s.stage, c) ==> c < |s.calls| && s.calls[c].pc == Waiting)
  }

  /** A call that takes no part in an action keeps its place. */
  ghost predicate Undisturbed(s: State, t: State, actor: nat) {
    && |s.calls| <= |t.calls|
    && (forall c: nat :: c < |s.calls| && c != actor ==>
          t.calls[c] == s.calls[c] && (CallFits(s, c) ==> CallFits(t, c)))
  }

  lemma LoadKeeps(s: State, a: Action)
    requires Inv(s) && Enabled(s, a) && (a.Load? || a.Return?)
    ensures Inv(Apply(s, a))
  {
    var t := Apply(s, a);
    assert CallFits(s, a.c);
    assert Undisturbed(s, t, a.c);
  }

  lemma PostKeeps(s: State, a: Action)
    requires Inv(s) && Enabled(s, a) && a.Post?
    ensures Inv(Apply(s, a))
  {
    var t := Apply(s, a);
    assert CallFits(s, a.c);
    assert Undisturbed(s, t, a.c);
  }

  lemma ClaimKeeps(s: State, a: Action)
    requires Inv(s) && Enabled(s, a) && a.Claim?
    ensures Inv(CallerStep(s, a))
  {
    var t := CallerStep(s, a);
    assert CallFits(s, a.c);
    assert Undisturbed(s, t, a.c);
  }

  lemma InlineKeeps(s: State, a: Action)
    requires Inv(s) && Enabled(s, a) && (a.EndInline? || a.Release?)
    ensures Inv(CallerStep(s, a))
  {
    var t := CallerStep(s, a);
    assert CallFits(s, a.c);
    assert Undisturbed(s, t, a.c);
  }

  lemma CallerKeeps(s: State, a: Action)
    requires Inv(s) && Enabled(s, a) && OfCaller(a)
    ensures Inv(Apply(s, a))
  {
    match a
    case NewCall =>
      assert Undisturbed(s, Apply(s, a), |s.calls|);
    case Load(_) => LoadKeeps(s, a);
    case Return(_) => LoadKeeps(s, a);
    case Post(_, _) => PostKeeps(s, a);
    case Claim(_, _) => ClaimKeeps(s, a);
    case _ => InlineKeeps(s, a);
  }

  /** The stage begins, ends or finishes a job. */
  lemma JobKeeps(s: State, a: Action)
    requires Inv(s) && Enabled(s, a) && (a.StageBegin? || a.StageEnd? || a.StageDone?)
    ensures Inv(StageStep(s, a))
  {
    var t := StageStep(s, a);
    assert CallFits(s, s.stage.job) && Holds(s.stage, s.stage.job);
    forall c: nat | c < |t.calls| ensures CallFits(t, c) {
      assert CallFits(s, c);
    }
  }

  /** The stage moves on without touching a job. */
  lemma StageMoves(s: State, a: Action)
    requires Inv(s) && Enabled(s, a) && !OfCaller(a) && !a.StageBegin? && !a.StageEnd? && !a.StageDone?
    ensures Inv(StageStep(s, a))
  {
    var t := StageStep(s, a);
    if s.box.Job? {
      assert CallFits(s, s.box.call);
    }
    forall c: nat | c < |t.calls| ensures CallFits(t, c) {
      assert CallFits(s, c);
    }
  }

  lemma StageKeeps(s: State, a: Action)
    requires Inv(s) && Enabled(s, a) && !OfCaller(a)
    ensures Inv(Apply(s, a))
  {
    if a.StageBegin? || a.StageEnd? || a.StageDone? {
      JobKeeps(s, a);
    } else {
      StageMoves(s, a);
    }
  }

  /** Every run keeps the protocol. */
  lemma {:induction false} AlwaysInv(run: seq<Action>)
    ensures Inv(Exec(run))
  {
    if run != [] {
      var s, a := Exec(run[..|run| - 1]), run[|run| - 1];
      AlwaysInv(run[..|run| - 1]);
      if Enabled(s, a) {
        if OfCaller(a) {
          CallerKeeps(s, a);
        } else {
          StageKeeps(s, a);
        }
      }
    }
  }

  // -------------------------------------------------------------- theorems

  /** The job of call c is running. */
  predicate JobRuns(s: State, c: nat) {
    c < |s.calls| && s.calls[c].began > s.calls[c].ended
  }

  /** The state of a call as the caller sees it: it has not returned. */
  predicate Active(s: State, c: nat) {
    c < |s.calls| && s.calls[c].pc != Returned
  }

  /**
   * In every run: a job begins at most once, and a call returns only after its
   * job ran from beginning to end.  No assertion of the stage fails, and the
   * stage never touches the record of a job that is done.
   */
  lemma RunsExactlyOnce(run: seq<Action>, c: nat)
    requires c < |Exec(run).calls|
    ensures var call := Exec(run).calls[c];
            && call.ended <= call.began <= 1
            && (call.pc == Returned ==> call.began == call.ended == 1)
    ensures !Exec(run).late && !Exec(run).stage.Failed?
  {
    AlwaysInv(run);
    assert CallFits(Exec(run), c);
  }

  /** In every run, no job runs while the stage publishes a region or is in a callback. */
  lemma NoJobWhilePublishing(run: seq<Action>, c: nat)
    requires Exec(run).stage.Publishing?
    ensures !JobRuns(Exec(run), c)
  {
    AlwaysInv(run);
    assert c < |Exec(run).calls| ==> CallFits(Exec(run), c);
  }

  /**
   * In every run, two jobs run at once exactly when one is the last job, which
   * the stage runs after it closed the mailbox, and the other is inline on a
   * caller that found the mailbox closed.
   */
  lemma OverlapOnlyAtClose(run: seq<Action>, c: nat, d: nat)
    requires c != d
    ensures var s := Exec(run);
            JobRuns(s, c) && JobRuns(s, d) <==>
            || (s.stage == LastRunning(c) && At(s, d, RunningInline))
            || (s.stage == LastRunning(d) && At(s, c, RunningInline))
  {
    AlwaysInv(run);
    var s := Exec(run);
    assert c < |s.calls| ==> CallFits(s, c);
    assert d < |s.calls| ==> CallFits(s, d);
    assert s.stage == LastRunning(c) ==> Holds(s.stage, c);
    assert s.stage == LastRunning(d) ==> Holds(s.stage, d);
  }

  /** With one call at a time, jobs never run at once. */
  lemma OnePosterExcludes(run: seq<Action>, c: nat, d: nat)
    requires c != d
    requires forall x, y :: Active(Exec(run), x) && Active(Exec(run), y) ==> x == y
    ensures !(JobRuns(Exec(run), c) && JobRuns(Exec(run), d))
  {
    OverlapOnlyAtClose(run, c, d);
    AlwaysInv(run);
    var s := Exec(run);
    if JobRuns(s, c) && JobRuns(s, d) {
      assert CallFits(s, c) && CallFits(s, d);
      assert Active(s, c) && Active(s, d);
    }
  }

  /** A run with one more action. */
  lemma Then(run: seq<Action>, a: Action) returns (longer: seq<Action>)
    requires Enabled(Exec(run), a)
    ensures longer == run + [a] && Exec(longer) == Apply(Exec(run), a)
  {
    longer := run + [a];
    assert longer[..|run|] == run;
  }

  lemma OneJobWaits() returns (run: seq<Action>)
    ensures Exec(run) == State(Job(0), Idle, [Call(Waiting, 0, 0, false), Call(Start, 0, 0, false)], 0, false)
  {
    var begun := Call(Start, 0, 0, false);
    run := Then([], NewCall);
    run := Then(run, NewCall);
    assert Exec(run) == State(Closed, Down, [begun, begun], 0, false);
    run := Then(run, StageUp);
    run := Then(run, StageOpen(false));
    assert Exec(run) == State(Empty, Idle, [begun, begun], 0, false);
    run := Then(run, Load(0));
    run := Then(run, Post(0, false));
  }

  /** Two jobs can run at once: the second caller finds the mailbox closed while the last job runs. */
  lemma OverlapHappens()
    ensures exists run :: JobRuns(Exec(run), 0) && JobRuns(Exec(run), 1)
  {
    var run := OneJobWaits();
    run := Then(run, StageLeave);
    run := Then(run, StageClose);
    run := Then(run, StageBegin);
    run := Then(run, Load(1));
    run := Then(run, Claim(1, false));
  }

  // -------------------------------------------------------------- progress

  /** The next action of the stage on its own. */
  function StageNext(s: State): Action {
    match s.stage
    case Idle => StageLoad
    case Publishing => StagePublished
    case Serving(_) => StageBegin
    case LastTaken(_) => StageBegin
    case Running(_) => StageEnd
    case LastRunning(_) => StageEnd
    case Ran(_) => StageClear
    case Cleared(_) => StageDone
    case LastRan(_) => StageDone
    case Closing => StageClose
    case _ => StageUp
  }

  /** How many actions of the stage are left until the job of a waiting call is done. */
  function StepsLeft(stage: Stage, c: nat): nat {
    match stage
    case Cleared(j) => if j == c then 1 else 6
    case Publishing => 6
    case Idle => 5
    case Closing => 4
    case Serving(_) => 4
    case LastTaken(_) => 3
    case Running(_) => 3
    case LastRunning(_) => 2
    case Ran(_) => 2
    case LastRan(_) => 1
    case _ => 0
  }

  lemma StageServes(s: State, c: nat)
    requires Inv(s) && At(s, c, Waiting) && !s.calls[c].done
    ensures Enabled(s, StageNext(s)) && !OfCaller(StageNext(s))
    ensures var t := Apply(s, StageNext(s));
            At(t, c, Waiting) && (t.calls[c].done || StepsLeft(t.stage, c) < StepsLeft(s.stage, c))
  {
    assert CallFits(s, c);
    assert forall j: nat :: Holds(s.stage, j) ==> j < |s.calls|;
  }

  predicate StageOnly(run: seq<Action>) {
    forall k :: 0 <= k < |run| ==> !OfCaller(run[k])
  }

  predicate IsDone(s: State, c: nat) {
    At(s, c, Waiting) && s.calls[c].done
  }

  /** A posted job is never lost: from any state of any run, at most six actions of the stage finish it. */
  lemma PostedJobFinishes(run: seq<Action>, c: nat)
    requires At(Exec(run), c, Waiting)
    ensures exists more :: |more| <= 6 && StageOnly(more) && IsDone(Exec(run + more), c)
  {
    var more := StageFinishes(run, c);
  }

  lemma StageFinishes(run: seq<Action>, c: nat) returns (more: seq<Action>)
    requires At(Exec(run), c, Waiting)
    ensures |more| <= StepsLeft(Exec(run).stage, c) <= 6 && StageOnly(more) && IsDone(Exec(run + more), c)
    decreases StepsLeft(Exec(run).stage, c)
  {
    var s := Exec(run);
    more := [];
    if s.calls[c].done {
      assert run + more == run;
    } else {
      AlwaysInv(run);
      StageServes(s, c);
      var a := StageNext(s);
      var longer := Then(run, a);
      if Exec(longer).calls[c].done {
        more := [a];
      } else {
        var rest := StageFinishes(longer, c);
        more := [a] + rest;
        assert run + more == longer + rest;
      }
    }
  }

  /** The longer run is the run with at most n actions more. */
  predicate Extends(run: seq<Action>, longer: seq<Action>, n: nat) {
    run <= longer && |longer| <= |run| + n
  }

  /** A mailbox that is claimed for an inline job has an owner that is in that job. */
  ghost predicate Owned(s: State) {
    s.box.Inline? ==> At(s, s.owner, RunningInline) || At(s, s.owner, RanInline)
  }

  lemma OwnedByCaller(s: State, a: Action)
    requires Owned(s) && Enabled(s, a) && OfCaller(a)
    ensures Owned(CallerStep(s, a))
  {
  }

  lemma OwnedByStage(s: State, a: Action)
    requires Owned(s) && Enabled(s, a) && !OfCaller(a)
    ensures Owned(StageStep(s, a))
  {
    StageMovesNoCall(s, a);
  }

  lemma {:induction false} AlwaysOwned(run: seq<Action>)
    ensures Owned(Exec(run))
  {
    if run != [] {
      var s, a := Exec(run[..|run| - 1]), run[|run| - 1];
      AlwaysOwned(run[..|run| - 1]);
      if Enabled(s, a) {
        if OfCaller(a) {
          OwnedByCaller(s, a);
        } else {
          OwnedByStage(s, a);
        }
      }
    }
  }

  /** The actions are the caller's own end of an inline job. */
  predicate OwnEnd(run: seq<Action>, longer: seq<Action>, c: nat) {
    Extends(run, longer, 2) && forall k :: |run| <= k < |longer| ==> longer[k] == EndInline(c) || longer[k] == Release(c)
  }

  /** An inline call returns after at most two actions of its own, and gives the mailbox back. */
  lemma InlineReturns(run: seq<Action>, c: nat) returns (longer: seq<Action>)
    requires At(Exec(run), c, RunningInline) || At(Exec(run), c, RanInline)
    ensures OwnEnd(run, longer, c)
    ensures At(Exec(longer), c, Returned) && Exec(longer).box == Closed && Exec(longer).stage == Exec(run).stage
    ensures |Exec(longer).calls| == |Exec(run).calls|
    ensures forall d: nat :: d != c && d < |Exec(run).calls| ==> Exec(longer).calls[d] == Exec(run).calls[d]
  {
    longer := run;
    if At(Exec(run), c, RunningInline) {
      longer := Then(longer, EndInline(c));
    }
    longer := Then(longer, Release(c));
  }

  /** A call whose job is done returns by one action of its own. */
  lemma DoneReturns(run: seq<Action>, c: nat) returns (longer: seq<Action>)
    requires IsDone(Exec(run), c)
    ensures longer == run + [Return(c)] && At(Exec(longer), c, Returned)
  {
    longer := Then(run, Return(c));
  }

  /** The calls are where they were. */
  predicate SamePlaces(s: State, t: State) {
    |t.calls| == |s.calls| && forall c :: 0 <= c < |s.calls| ==> t.calls[c].pc == s.calls[c].pc
  }

  lemma StageMovesNoCall(s: State, a: Action)
    requires Enabled(s, a) && !OfCaller(a)
    ensures SamePlaces(s, Apply(s, a))
  {
  }

  /** The stage alone empties or closes a mailbox that holds a job. */
  lemma StageFrees(run: seq<Action>) returns (longer: seq<Action>)
    requires Exec(run).box.Job?
    ensures Extends(run, longer, StepsLeft(Exec(run).stage, Exec(run).box.call))
    ensures !Exec(longer).box.Job? && !Exec(longer).box.Inline? && SamePlaces(Exec(run), Exec(longer))
    decreases StepsLeft(Exec(run).stage, Exec(run).box.call)
  {
    var s, a := Exec(run), StageNext(Exec(run));
    AlwaysInv(run);
    assert CallFits(s, s.box.call);
    StageServes(s, s.box.call);
    StageMovesNoCall(s, a);
    longer := Then(run, a);
    var t := Exec(longer);
    assert t.box == s.box || t.box.Empty? || t.box.Closed?;
    if t.box.Job? {
      AlwaysInv(longer);
      assert CallFits(t, t.box.call);
      longer := StageFrees(longer);
    }
  }

  lemma StepsAtMostSix(stage: Stage, c: nat)
    ensures StepsLeft(stage, c) <= 6
  {
  }

  /** The mailbox gets free without an action of a call that only looked at it. */
  lemma BoxFrees(run: seq<Action>, c: nat) returns (longer: seq<Action>)
    requires At(Exec(run), c, Start)
    ensures Extends(run, longer, 6) && At(Exec(longer), c, Start)
    ensures Exec(longer).box.Empty? || Exec(longer).box.Closed?
  {
    AlwaysOwned(run);
    longer := run;
    if Exec(run).box.Inline? {
      longer := InlineReturns(run, Exec(run).owner);
    } else if Exec(run).box.Job? {
      StepsAtMostSix(Exec(run).stage, Exec(run).box.call);
      longer := StageFrees(run);
    }
  }

  /** A call that has the mailbox free before it posts or claims, and returns. */
  lemma FreeReturns(run: seq<Action>, c: nat) returns (longer: seq<Action>)
    requires At(Exec(run), c, Start) && (Exec(run).box.Empty? || Exec(run).box.Closed?)
    ensures Extends(run, longer, 9) && At(Exec(longer), c, Returned)
  {
    longer := Then(run, Load(c));
    if Exec(run).box.Empty? {
      longer := Then(longer, Post(c, false));
      longer := WaitingReturns(longer, c);
    } else {
      longer := Then(longer, Claim(c, false));
      longer := InlineReturns(longer, c);
    }
  }

  lemma WaitingReturns(run: seq<Action>, c: nat) returns (longer: seq<Action>)
    requires At(Exec(run), c, Waiting)
    ensures Extends(run, longer, 7) && At(Exec(longer), c, Returned)
  {
    var more := StageFinishes(run, c);
    longer := DoneReturns(run + more, c);
  }

  /**
   * Every call can return: from any state of any run, at most sixteen actions of
   * the call, of the stage and of the owner of the mailbox bring the call home.
   */
  lemma CallReturns(run: seq<Action>, c: nat) returns (longer: seq<Action>)
    requires c < |Exec(run).calls|
    ensures Extends(run, longer, 16) && At(Exec(longer), c, Returned)
  {
    longer := run;
    match Exec(run).calls[c].pc
    case Returned =>
    case Waiting => longer := WaitingReturns(run, c);
    case RunningInline => longer := InlineReturns(run, c);
    case RanInline => longer := InlineReturns(run, c);
    case _ =>
      if At(Exec(run), c, SawNull) {
        longer := Then(longer, Post(c, true));
      } else if At(Exec(run), c, SawClosed) {
        longer := Then(longer, Claim(c, true));
      }
      longer := BoxFrees(longer, c);
      longer := FreeReturns(longer, c);
  }

  /** A stage that waits to open opens after at most three actions, two of them of a caller that runs inline. */
  lemma StageOpens(run: seq<Action>) returns (longer: seq<Action>)
    requires Exec(run).stage.Opening?
    ensures Extends(run, longer, 3) && Exec(longer).stage.Idle? && Exec(longer).box.Empty?
  {
    AlwaysInv(run);
    AlwaysOwned(run);
    longer := run;
    if Exec(run).box.Inline? {
      longer := InlineReturns(run, Exec(run).owner);
    }
    longer := Then(longer, StageOpen(false));
  }

  /** The next action of a stage that stops. */
  function StopNext(s: State): Action {
    if s.stage.Idle? then StageLeave else StageNext(s)
  }

  /** How many actions a stage that stops has left. */
  function StopLeft(stage: Stage): nat {
    match stage
    case Serving(_) => 9
    case Running(_) => 8
    case Ran(_) => 7
    case Cleared(_) => 6
    case Publishing => 6
    case Idle => 5
    case Closing => 4
    case LastTaken(_) => 3
    case LastRunning(_) => 2
    case LastRan(_) => 1
    case _ => 0
  }

  lemma StopsCloser(s: State)
    requires Inv(s) && !s.stage.Down? && !s.stage.Opening?
    ensures Enabled(s, StopNext(s)) && !OfCaller(StopNext(s))
    ensures var t := Apply(s, StopNext(s)); StopLeft(t.stage) < StopLeft(s.stage) && !t.stage.Opening?
  {
    if s.stage.Serving? || s.stage.Running? || s.stage.Ran? || s.stage.Cleared?
       || s.stage.LastTaken? || s.stage.LastRunning? || s.stage.LastRan? {
      assert Holds(s.stage, s.stage.job);
    }
  }

  /** A stage that runs can stop: at most nine actions of the stage finish what it has in hand, and close the mailbox. */
  lemma StageStops(run: seq<Action>) returns (longer: seq<Action>)
    requires !Exec(run).stage.Opening?
    ensures Extends(run, longer, StopLeft(Exec(run).stage))
    ensures Exec(longer).stage.Down? && (Exec(longer).box.Closed? || Exec(longer).box.Inline?)
    decreases StopLeft(Exec(run).stage)
  {
    AlwaysInv(run);
    longer := run;
    if !Exec(run).stage.Down? {
      StopsCloser(Exec(run));
      longer := Then(run, StopNext(Exec(run)));
      AlwaysInv(longer);
      longer := StageStops(longer);
    }
  }

  /** A job can wait while the stage publishes. */
  lemma JobWaitsForPublication()
    ensures exists run :: Exec(run).stage.Publishing? && At(Exec(run), 0, Waiting) && !IsDone(Exec(run), 0)
  {
    var run := OneJobWaits();
    run := Then(run, StagePublish);
  }
}
