/**
 * What the pipeline does over runs: the work that a boundary sends, what a reset
 * does to works in flight, and that the stages, left alone, process every op.
 */
module PipelineRuns {
  import opened Basics
  import opened Pipeline
  import PendingOps

  // ------------------------------------------------------------- the works

  /** One work was sent, and its ops are the completed part of the held ops. */
  ghost predicate Sends(s: State, t: State, parts: PendingOps.Parts<Op>) {
    && |t.items| == |s.items| + 1 && s.items <= t.items
    && var w := t.items[|s.items|];
       && w.Work? && w.epoch + 1 == |s.resetAt| && w.at == s.pos + 1
       && w.from == s.heldFrom + |parts.early| && w.to == w.from + |parts.completed| <= |s.ops|
       && s.ops[w.from..w.to] == parts.completed
  }

  /** The parts of the held ops at a boundary, with the op that is pushed. */
  ghost function BoundaryOf(s: State, len: nat): PendingOps.Parts<Op>
    requires s.heldFrom <= s.pos + 1 <= |s.ops|
  {
    PendingOps.Boundary(s.ops[s.heldFrom..s.pos + 1], len)
  }

  /** What a push does: what it sends, and what stays held. */
  ghost predicate Detects(s: State, t: State, boundary: Option<nat>, drop: nat) {
    && s.heldFrom <= s.pos + 1 <= |s.ops| && t.pos == s.pos + 1
    && match boundary
       case None => t.items == s.items && t.heldFrom == Min(s.heldFrom + drop, t.pos)
       case Some(len) =>
         var parts := BoundaryOf(s, len);
         && (if parts.completed == [] then t.items == s.items else Sends(s, t, parts))
         && t.heldFrom == Min(t.pos - |parts.kept| + drop, t.pos)
  }

  /** What a cut does, by its numbers. */
  lemma CutNumbers(s: State, len: nat, drop: nat, from: nat, to: nat)
    requires Enabled(s, Detect(Some(len), drop))
    requires to == CutTo(s.heldFrom, s.pos + 1) && from == CutFrom(s.heldFrom, to, len)
    ensures var t := Apply(s, Detect(Some(len), drop));
            && t.pos == s.pos + 1 && t.heldFrom == Min(to + drop, t.pos)
            && t.items == if from < to then s.items + [Work(from, to, |s.resetAt| - 1, s.pos + 1)] else s.items
  {
  }

  /** A cut by its numbers is a cut of the ops. */
  lemma NumbersSend(s: State, t: State, len: nat, drop: nat, from: nat, to: nat, parts: PendingOps.Parts<Op>)
    requires s.heldFrom <= from <= to <= s.pos + 1 <= |s.ops| && s.resetAt != []
    requires parts == BoundaryOf(s, len)
    requires parts == PendingOps.Parts(s.ops[s.heldFrom..from], s.ops[from..to], s.ops[to..s.pos + 1])
    requires t.pos == s.pos + 1 && t.heldFrom == Min(to + drop, t.pos)
    requires t.items == if from < to then s.items + [Work(from, to, |s.resetAt| - 1, s.pos + 1)] else s.items
    ensures Detects(s, t, Some(len), drop)
  {
    assert |parts.early| == from - s.heldFrom && |parts.completed| == to - from && |parts.kept| == s.pos + 1 - to;
  }

  lemma CutSends(s: State, len: nat, drop: nat)
    requires Enabled(s, Detect(Some(len), drop)) && s.heldFrom <= s.pos < |s.ops|
    ensures Detects(s, Apply(s, Detect(Some(len), drop)), Some(len), drop)
  {
    var from, to, parts := CutAtBoundary(s, len);
    CutNumbers(s, len, drop, from, to);
    NumbersSend(s, Apply(s, Detect(Some(len), drop)), len, drop, from, to, parts);
  }

  lemma CutAtBoundary(s: State, len: nat) returns (from: nat, to: nat, parts: PendingOps.Parts<Op>)
    requires s.heldFrom <= s.pos < |s.ops|
    ensures to == CutTo(s.heldFrom, s.pos + 1) && from == CutFrom(s.heldFrom, to, len) && s.heldFrom <= from <= to <= s.pos + 1
    ensures parts == BoundaryOf(s, len)
    ensures parts == PendingOps.Parts(s.ops[s.heldFrom..from], s.ops[from..to], s.ops[to..s.pos + 1])
  {
    to := CutTo(s.heldFrom, s.pos + 1);
    from := CutFrom(s.heldFrom, to, len);
    parts := BoundaryOf(s, len);
    CutIsBoundary(s.ops, s.heldFrom, s.pos + 1, len, from, to);
  }

  lemma DetectDoes(s: State, boundary: Option<nat>, drop: nat)
    requires Enabled(s, Detect(boundary, drop)) && s.heldFrom <= s.pos < |s.ops|
    ensures Detects(s, Apply(s, Detect(boundary, drop)), boundary, drop)
  {
    if boundary.Some? {
      CutSends(s, boundary.value, drop);
    }
  }

  lemma HeldBelow(s: State, boundary: Option<nat>, drop: nat)
    requires DetectFits(s) && Enabled(s, Detect(boundary, drop))
    ensures s.heldFrom <= s.pos < |s.ops|
  {
  }

  /**
   * In every run, a boundary sends one work, which holds the completed iteration of
   * the held ops, and nothing when that is empty.  A push without a boundary sends
   * nothing.  What stays held is what the boundary keeps, without the given up ops.
   */
  lemma DetectSends(run: seq<Action>, boundary: Option<nat>, drop: nat)
    requires Enabled(Exec(run), Detect(boundary, drop))
    ensures Detects(Exec(run), Apply(Exec(run), Detect(boundary, drop)), boundary, drop)
  {
    AlwaysInv(run);
    HeldBelow(Exec(run), boundary, drop);
    DetectDoes(Exec(run), boundary, drop);
  }

  // ------------------------------------------------------------ the records

  /** An op that the log has room for gets the next records, and any other op gets none. */
  lemma RecordStores(s: State, n: nat, fits: bool)
    requires Enabled(s, Record(n, fits))
    ensures var t := Apply(s, Record(n, fits));
            && |t.ops| == |s.ops| + 1 && s.ops <= t.ops
            && var op := t.ops[|s.ops|];
               && op.tensors == n && (Lost(op) <==> n > 0 && !fits)
               && (op.meta.Some? <==> t.head != s.head) && (op.meta.Some? ==> op.meta.value == s.head && t.head == s.head + n)
  {
  }

  // ---------------------------------------------------- the fate of a work

  /** An op of the work lost its records. */
  ghost predicate LosesRecords(ops: seq<Op>) {
    exists i :: 0 <= i < |ops| && Lost(ops[i])
  }

  lemma OverflowIff(ops: seq<Op>)
    ensures Scan(ops).overflow <==> LosesRecords(ops)
  {
    var end := ScanFinds(ops);
  }

  /** A work that ended was released exactly when one of its ops lost its records. */
  ghost predicate FateFits(ops: seq<Op>, item: Item, fate: Fate) {
    item.Work? ==> item.from <= item.to <= |ops| && (fate == Released <==> LosesRecords(ops[item.from..item.to]))
  }

  ghost predicate FatesTold(s: State) {
    forall i :: i in s.fates ==> i < |s.items| && FateFits(s.ops, s.items[i], s.fates[i])
  }

  lemma FateKept(ops: seq<Op>, more: seq<Op>, item: Item, fate: Fate)
    requires FateFits(ops, item, fate) && ops <= more
    ensures FateFits(more, item, fate)
  {
    if item.Work? {
      assert more[item.from..item.to] == ops[item.from..item.to];
    }
  }

  lemma FatesKept(s: State, t: State)
    requires FatesTold(s) && s.ops <= t.ops && s.items <= t.items && t.fates == s.fates
    ensures FatesTold(t)
  {
    forall i | i in t.fates ensures i < |t.items| && FateFits(t.ops, t.items[i], t.fates[i]) {
      FateKept(s.ops, t.ops, s.items[i], s.fates[i]);
    }
  }

  lemma BuiltFate(s: State)
    requires Inv(s) && FatesTold(s) && Enabled(s, Build)
    ensures FatesTold(Apply(s, Build))
  {
    var item := s.items[s.built];
    if item.Work? {
      OverflowIff(s.ops[item.from..item.to]);
    }
  }

  lemma PublishedFate(s: State, full: bool)
    requires Inv(s) && FatesTold(s) && Enabled(s, Publish(full))
    ensures FatesTold(Apply(s, Publish(full)))
  {
    var m := s.messages[0];
    assert MessageFits(s.ops, s.items, m);
    var item := s.items[m.item];
    if item.Work? {
      OverflowIff(s.ops[item.from..item.to]);
    }
    PublishFields(s, full);
  }

  lemma OtherFate(s: State, a: Action)
    requires FatesTold(s) && Enabled(s, a) && !a.Build? && !a.Publish?
    ensures FatesTold(Apply(s, a))
  {
    FatesKept(s, Apply(s, a));
  }

  lemma {:induction false} AlwaysTold(run: seq<Action>)
    ensures FatesTold(Exec(run))
  {
    if run != [] {
      var less, a := run[..|run| - 1], run[|run| - 1];
      AlwaysTold(less);
      AlwaysInv(less);
      if Enabled(Exec(less), a) {
        match a
        case Build => BuiltFate(Exec(less));
        case Publish(full) => PublishedFate(Exec(less), full);
        case _ => OtherFate(Exec(less), a);
      }
    }
  }

  /**
   * In every run, a work that ended was released without a region exactly when one of
   * its ops lost its records.  Any other work is published, stale, or dropped by a
   * full store.
   */
  lemma ReleasedIff(run: seq<Action>, i: nat)
    requires i in Exec(run).fates && i < |Exec(run).items| && Exec(run).items[i].Work?
    ensures var s := Exec(run);
            && s.items[i].from <= s.items[i].to <= |s.ops| && s.fates[i] != Committed
            && (s.fates[i] == Released <==> LosesRecords(s.ops[s.items[i].from..s.items[i].to]))
  {
    AlwaysTold(run);
    FatesAlways(run);
  }

  // ------------------------------------------------------------ the release

  /** The records of the work end at or before the tail. */
  ghost predicate GivenBack(ops: seq<Op>, item: Item, tail: nat) {
    item.Work? ==> item.from <= item.to <= |ops| && Scan(ops[item.from..item.to]).metaEnd <= tail
  }

  /** Every work that the build stage took and that has no message has given its records back. */
  ghost predicate AllGivenBack(s: State) {
    forall i: nat :: i < s.built && i < |s.items| && !InMessages(s.messages, i) ==> GivenBack(s.ops, s.items[i], s.tail)
  }

  lemma BackKept(ops: seq<Op>, more: seq<Op>, item: Item, tail: nat, tail': nat)
    requires GivenBack(ops, item, tail) && ops <= more && tail <= tail'
    ensures GivenBack(more, item, tail')
  {
    if item.Work? {
      assert more[item.from..item.to] == ops[item.from..item.to];
    }
  }

  lemma BackOtherwise(s: State, t: State)
    requires AllGivenBack(s) && s.ops <= t.ops && s.items <= t.items && s.tail == t.tail && s.messages == t.messages
    requires s.built == t.built <= |s.items|
    ensures AllGivenBack(t)
  {
    forall i: nat | i < t.built && i < |t.items| && !InMessages(t.messages, i) ensures GivenBack(t.ops, t.items[i], t.tail) {
      BackKept(s.ops, t.ops, s.items[i], s.tail, t.tail);
    }
  }

  lemma MessageStays(messages: seq<Message>, more: seq<Message>, i: nat)
    requires messages <= more
    ensures InMessages(messages, i) ==> InMessages(more, i)
  {
    if InMessages(messages, i) {
      var k :| 0 <= k < |messages| && messages[k].item == i;
      assert more[k].item == i;
    }
  }

  lemma BackBuilt(s: State)
    requires Inv(s) && AllGivenBack(s) && Enabled(s, Build)
    ensures AllGivenBack(Apply(s, Build))
  {
    var t := Apply(s, Build);
    BuildFields(s);
    if t.messages != s.messages {
      assert t.messages[|s.messages|].item == s.built;
      assert InMessages(t.messages, s.built);
    }
    forall i: nat | i < s.built && i < |t.items| && !InMessages(t.messages, i) ensures GivenBack(t.ops, t.items[i], t.tail) {
      MessageStays(s.messages, t.messages, i);
    }
  }

  lemma BackPublished(s: State, full: bool)
    requires Inv(s) && AllGivenBack(s) && Enabled(s, Publish(full))
    ensures AllGivenBack(Apply(s, Publish(full)))
  {
    var t, m := Apply(s, Publish(full)), s.messages[0];
    PublishFields(s, full);
    FirstMessage(s);
    TailAfter(s, full);
    FirstGivesBack(s);
    forall i: nat | i < t.built && i < |t.items| && !InMessages(t.messages, i) ensures GivenBack(t.ops, t.items[i], t.tail) {
      NotFirst(s.messages, i);
      if i != m.item {
        assert GivenBack(s.ops, s.items[i], s.tail);
        BackKept(s.ops, s.ops, s.items[i], s.tail, t.tail);
      } else {
        BackKept(s.ops, s.ops, s.items[i], MetaEnd(m), t.tail);
      }
    }
  }

  lemma TailAfter(s: State, full: bool)
    requires Enabled(s, Publish(full))
    ensures Apply(s, Publish(full)).tail == if MetaEnd(s.messages[0]) > 0 then MetaEnd(s.messages[0]) else s.tail
  {
  }

  lemma NotFirst(messages: seq<Message>, i: nat)
    requires messages != []
    ensures messages[0].item != i && InMessages(messages, i) ==> InMessages(messages[1..], i)
  {
    if messages[0].item != i && InMessages(messages, i) {
      var k :| 0 <= k < |messages| && messages[k].item == i;
      assert messages[1..][k - 1].item == i;
    }
  }

  lemma FirstGivesBack(s: State)
    requires Inv(s) && s.messages != []
    ensures s.messages[0].item < |s.items|
    ensures GivenBack(s.ops, s.items[s.messages[0].item], MetaEnd(s.messages[0]))
  {
    assert MessageFits(s.ops, s.items, s.messages[0]);
  }

  lemma {:induction false} AlwaysGivenBack(run: seq<Action>)
    ensures AllGivenBack(Exec(run))
  {
    if run != [] {
      var less, a := run[..|run| - 1], run[|run| - 1];
      AlwaysGivenBack(less);
      AlwaysInv(less);
      if Enabled(Exec(less), a) {
        match a
        case Build => BackBuilt(Exec(less));
        case Publish(full) => BackPublished(Exec(less), full);
        case _ =>
          ItemsGrow(Exec(less), a);
          BackOtherwise(Exec(less), Apply(Exec(less), a));
      }
    }
  }

  /** In every run, the records of a work that the publish stage has handled are given back to the log. */
  lemma HandledIsGivenBack(run: seq<Action>, i: nat)
    requires i < Exec(run).handled && i < |Exec(run).items| && Exec(run).items[i].Work?
    ensures var s := Exec(run);
            && s.items[i].from <= s.items[i].to <= |s.ops|
            && Scan(s.ops[s.items[i].from..s.items[i].to]).metaEnd <= s.tail
  {
    AlwaysInv(run);
    AlwaysGivenBack(run);
    NoMessage(Exec(run), i);
  }

  lemma NoMessage(s: State, i: nat)
    requires QueueFits(s) && i < s.handled
    ensures !InMessages(s.messages, i) && i < s.built
  {
  }

  // -------------------------------------------------------------- the reset

  /** The work was cut before the current epoch, and was not published. */
  ghost predicate Outdated(s: State, i: nat) {
    && i < |s.items| && s.items[i].Work? && s.items[i].epoch + 1 < |s.resetAt|
    && (i in s.fates ==> s.fates[i] != Published)
  }

  lemma ItemsGrow(s: State, a: Action)
    requires Enabled(s, a)
    ensures s.items <= Apply(s, a).items && s.resetAt <= Apply(s, a).resetAt
  {
  }

  lemma FateOf(s: State, a: Action, i: nat)
    requires Inv(s) && Enabled(s, a) && Outdated(s, i)
    ensures var t := Apply(s, a); i in t.fates ==> t.fates[i] != Published
  {
    if a.Publish? && s.messages[0].Region? {
      RegionItem(s);
    }
  }

  lemma OutdatedStays(s: State, a: Action, i: nat)
    requires Inv(s) && Enabled(s, a) && Outdated(s, i)
    ensures Outdated(Apply(s, a), i)
  {
    ItemsGrow(s, a);
    FateOf(s, a, i);
  }

  lemma NextOutdated(run: seq<Action>, a: Action, i: nat)
    requires Outdated(Exec(run), i)
    ensures Outdated(Exec(run + [a]), i)
  {
    ExecNext(run, a);
    AlwaysInv(run);
    if Enabled(Exec(run), a) {
      OutdatedStays(Exec(run), a, i);
    }
  }

  lemma {:induction false} StaysOutdated(run: seq<Action>, more: seq<Action>, i: nat)
    requires Outdated(Exec(run), i)
    ensures Outdated(Exec(run + more), i)
    decreases |more|
  {
    if more == [] {
      assert run + more == run;
    } else {
      NextOutdated(run, more[0], i);
      RunSplits(run, more);
      StaysOutdated(run + [more[0]], more[1..], i);
    }
  }

  lemma RunSplits(run: seq<Action>, more: seq<Action>)
    requires more != []
    ensures run + more == run + [more[0]] + more[1..]
  {
  }

  lemma ExecNext(run: seq<Action>, a: Action)
    ensures Exec(run + [a]) == if Enabled(Exec(run), a) then Apply(Exec(run), a) else Exec(run)
  {
    assert (run + [a])[..|run|] == run;
  }

  /** A work that was cut before a reset and not published by then is never published. */
  lemma ResetIsFinal(run: seq<Action>, more: seq<Action>, i: nat)
    requires Enabled(Exec(run), Reset) && i < |Exec(run).items| && Exec(run).items[i].Work? && i !in Exec(run).fates
    ensures var s := Exec(run + [Reset] + more); i in s.fates ==> s.fates[i] != Published
  {
    AlwaysInv(run);
    assert ItemFits(Exec(run).items, i, Exec(run).pos, Exec(run).heldFrom, Exec(run).resetAt);
    ExecNext(run, Reset);
    StaysOutdated(run + [Reset], more, i);
  }

  // --------------------------------------------------------------- progress

  /** The batches reach to the last drained op. */
  ghost predicate Covered(s: State) {
    s.drained == if s.batches != [] then s.batches[|s.batches| - 1] else if s.batchEnd.Some? then s.batchEnd.value else s.pos
  }

  lemma {:induction false} AlwaysCovered(run: seq<Action>)
    ensures Covered(Exec(run))
  {
    if run != [] {
      AlwaysCovered(run[..|run| - 1]);
      AlwaysInv(run[..|run| - 1]);
      if Enabled(Exec(run[..|run| - 1]), run[|run| - 1]) {
        CoveredStep(Exec(run[..|run| - 1]), run[|run| - 1]);
      }
    }
  }

  lemma CoveredStep(s: State, a: Action)
    requires Covered(s) && DetectFits(s) && Enabled(s, a)
    ensures Covered(Apply(s, a))
  {
  }

  /** The next action of the stages on their own, or none when nothing is left to do. */
  function Next(s: State): Option<Action> {
    if s.messages != [] then Some(Publish(false))
    else if s.built < |s.items| then Some(Build)
    else if s.batchEnd.Some? then Some(if s.pos < s.batchEnd.value then Detect(None, 0) else EndBatch)
    else if s.batches != [] then Some(TakeBatch)
    else if s.drained < |s.ops| then Some(Drain(1))
    else None
  }

  /** The work that is left in the stages. */
  function Left(s: State): int {
    5 * (|s.ops| - s.drained) + 3 * (|s.ops| - s.pos) + 4 * |s.batches| + (if s.batchEnd.Some? then 3 else 0)
    + 2 * (|s.items| - s.built) + |s.messages|
  }

  lemma LeftBounded(s: State)
    requires DetectFits(s) && s.built <= |s.items|
    ensures Left(s) >= 0
  {
  }

  lemma NextEnabled(s: State)
    requires Inv(s) && Next(s).Some?
    ensures Enabled(s, Next(s).value)
  {
    if s.messages != [] {
      assert MessageFits(s.ops, s.items, s.messages[0]);
    } else if s.built < |s.items| {
      assert ItemFits(s.items, s.built, s.pos, s.heldFrom, s.resetAt);
    }
  }

  lemma NextDoes(s: State)
    requires Next(s).Some? && Enabled(s, Next(s).value)
    ensures Left(Apply(s, Next(s).value)) < Left(s) && Apply(s, Next(s).value).ops == s.ops
  {
  }

  /** When the stages have nothing left to do, every op is processed and every item has ended. */
  lemma QuietIsDone(s: State)
    requires Inv(s) && Covered(s) && Next(s).None?
    ensures s.processed == |s.ops| && forall i: nat :: i < |s.items| ==> i in s.fates
  {
    assert forall i: nat :: !InMessages(s.messages, i);
    NoCommitBetween(s, |s.items|);
  }

  lemma {:induction false} NoCommitBetween(s: State, n: nat)
    requires QueueFits(s) && s.messages == [] && s.handled <= n <= s.built
    ensures CommitEnd(s.items, n) == CommitEnd(s.items, s.handled)
  {
    if n > s.handled {
      NoCommitBetween(s, n - 1);
      assert !InMessages(s.messages, n - 1);
    }
  }

  predicate OfStages(a: Action) {
    a.Drain? || a.TakeBatch? || a.Detect? || a.EndBatch? || a.Build? || a.Publish?
  }

  /** The longer run is the run with actions of the stages alone. */
  ghost predicate StagesRun(run: seq<Action>, longer: seq<Action>) {
    run <= longer && forall k :: |run| <= k < |longer| ==> OfStages(longer[k])
  }

  lemma NextAction(run: seq<Action>, a: Action)
    requires Next(Exec(run)) == Some(a)
    ensures OfStages(a) && Exec(run + [a]).ops == Exec(run).ops && 0 <= Left(Exec(run + [a])) < Left(Exec(run))
  {
    AlwaysInv(run);
    NextEnabled(Exec(run));
    NextDoes(Exec(run));
    ExecNext(run, a);
    AlwaysInv(run + [a]);
    LeftBounded(Exec(run + [a]));
  }

  /**
   * A flush ends: from any state of any run, the stages alone process every op that
   * was recorded, and every work and commit that was sent ends.
   */
  lemma FlushEnds(run: seq<Action>) returns (longer: seq<Action>)
    ensures StagesRun(run, longer) && Exec(longer).ops == Exec(run).ops
    ensures Exec(longer).processed == |Exec(run).ops|
    ensures forall i: nat :: i < |Exec(longer).items| ==> i in Exec(longer).fates
    decreases Left(Exec(run))
  {
    AlwaysInv(run);
    AlwaysCovered(run);
    LeftBounded(Exec(run));
    longer := run;
    match Next(Exec(run))
    case None => QuietIsDone(Exec(run));
    case Some(a) =>
      NextAction(run, a);
      longer := FlushEnds(run + [a]);
  }
}
