/**
 * The four-stage pipeline as a transition system.  The foreground records ops
 * and their tensor records; the drain stage moves ops in batches; the detect
 * stage pushes each op, cuts works at iteration boundaries, drops ops that no
 * work can hold, resets, and ends each batch with a commit marker; the build
 * stage turns each work into a message; the publish stage handles the messages
 * in order.  The detector is abstract: it may report any boundary with any
 * length, and may give up any ops.
 */
module Pipeline {
  import opened Basics
  import MetaLog
  import PendingOps

  const BATCH_SIZE := 4096

  /** An op: the number of its first tensor record, if it has one, and its tensors. */
  datatype Op = Op(meta: Option<nat>, tensors: nat)

  /**
   * What the detect stage sends.  A work holds the ops from..to of the trace and
   * the epoch of its cut.  A commit covers the batch from..at.  at is the
   * number of ops that the stage had pushed.
   */
  datatype Item = Work(from: nat, to: nat, epoch: nat, at: nat) | Commit(from: nat, at: nat)

  /** What the build stage sends for an item. */
  datatype Message = Region(item: nat, metaEnd: nat, epoch: nat) | Marker(item: nat) | Release(item: nat, metaEnd: nat)

  /** How an item ended. */
  datatype Fate = Published | Stale | DroppedFull | Released | Committed

  /**
   * handled is one past the item of the last message that the publish stage
   * took, and front is the end of the ops of the last work among those.
   * resetAt holds the number of ops pushed when each epoch began.
   */
  datatype State = State(
    ops: seq<Op>, head: nat, tail: nat,
    drained: nat, batches: seq<nat>,
    batchEnd: Option<nat>, batchStart: nat, pos: nat, heldFrom: nat, resetAt: seq<nat>,
    items: seq<Item>, built: nat,
    messages: seq<Message>, handled: nat, front: nat, processed: nat, fates: map<nat, Fate>)

  const INITIAL := State([], 0, 0, 0, [], None, 0, 0, 0, [0], [], 0, [], 0, 0, 0, map[])

  datatype Action =
    | Record(tensors: nat, fits: bool) | Orphan(records: nat)
    | Drain(n: nat)
    | TakeBatch | Reset | Detect(boundary: Option<nat>, drop: nat) | EndBatch
    | Build
    | Publish(full: bool)

  // -------------------------------------------------- the scan of a work

  /** What the scan of a work finds: its first record, the end of its records, and whether an op lost its records. */
  datatype Scanned = Scanned(first: Option<nat>, metaEnd: nat, overflow: bool)

  function Scan(ops: seq<Op>): Scanned {
    if ops == [] then Scanned(None, 0, false)
    else
      var s, op := Scan(ops[..|ops| - 1]), ops[|ops| - 1];
      if s.overflow then s
      else if op.meta.None? then s.(overflow := op.tensors > 0)
      else
        var end := op.meta.value + op.tensors;
        Scanned(if s.first.Some? then s.first else op.meta, if end > s.metaEnd then end else s.metaEnd, false)
  }

  /** The op has tensors, and the log had no room for their records. */
  predicate Lost(op: Op) {
    op.meta.None? && op.tensors > 0
  }

  ghost predicate FirstRecord(ops: seq<Op>, first: Option<nat>) {
    match first
    case None => forall i :: 0 <= i < |ops| ==> ops[i].meta.None?
    case Some(_) => exists k :: 0 <= k < |ops| && ops[k].meta == first && forall j :: 0 <= j < k ==> ops[j].meta.None?
  }

  ghost predicate GreatestEnd(ops: seq<Op>, metaEnd: nat) {
    && (forall i :: 0 <= i < |ops| && ops[i].meta.Some? ==> ops[i].meta.value + ops[i].tensors <= metaEnd)
    && (metaEnd == 0 || exists i :: 0 <= i < |ops| && ops[i].meta.Some? && ops[i].meta.value + ops[i].tensors == metaEnd)
  }

  /**
   * What a scan finds up to the first op that lost its records, or the end: the
   * first record of the first op that has one, and the greatest end of records.
   */
  ghost predicate Finds(ops: seq<Op>, r: Scanned, end: nat) {
    && end <= |ops| && (forall i :: 0 <= i < end ==> !Lost(ops[i]))
    && (r.overflow <==> end < |ops|) && (end < |ops| ==> Lost(ops[end]))
    && FirstRecord(ops[..end], r.first) && GreatestEnd(ops[..end], r.metaEnd)
  }

  lemma FirstRecordStep(ops: seq<Op>, op: Op, first: Option<nat>)
    requires FirstRecord(ops, first)
    ensures FirstRecord(ops + [op], if first.Some? then first else op.meta)
  {
    var all := ops + [op];
    if first.Some? {
      var k :| 0 <= k < |ops| && ops[k].meta == first && forall j :: 0 <= j < k ==> ops[j].meta.None?;
      assert all[k].meta == first;
    } else {
      assert all[|ops|].meta == op.meta;
    }
  }

  lemma GreatestEndStep(ops: seq<Op>, op: Op, metaEnd: nat)
    requires GreatestEnd(ops, metaEnd)
    ensures GreatestEnd(ops + [op], if op.meta.None? then metaEnd else Max(op.meta.value + op.tensors, metaEnd))
  {
    var all := ops + [op];
    assert all[|ops|] == op;
    if metaEnd > 0 {
      var i :| 0 <= i < |ops| && ops[i].meta.Some? && ops[i].meta.value + ops[i].tensors == metaEnd;
      assert all[i] == ops[i];
    }
  }

  lemma {:induction false} ScanFinds(ops: seq<Op>) returns (end: nat)
    ensures Finds(ops, Scan(ops), end)
  {
    end := 0;
    if ops != [] {
      var less, op := ops[..|ops| - 1], ops[|ops| - 1];
      end := ScanFinds(less);
      assert ops == less + [op];
      if end == |less| {
        assert less[..end] == less;
        if !Lost(op) {
          FirstRecordStep(less, op, Scan(less).first);
          GreatestEndStep(less, op, Scan(less).metaEnd);
          end := |ops|;
          assert ops[..end] == ops;
        } else {
          assert ops[..end] == less;
        }
      } else {
        assert ops[..end] == less[..end];
      }
    }
  }

  /** The scan as the build stage does it: one loop that stops at the first op that lost its records. */
  method ScanWork(ops: seq<Op>) returns (r: Scanned)
    ensures r == Scan(ops) && exists end :: Finds(ops, r, end)
  {
    var _ := ScanFinds(ops);
    r := Scanned(None, 0, false);
    for i := 0 to |ops|
      invariant r == Scan(ops[..i]) && !r.overflow
    {
      assert ops[..i + 1][..i] == ops[..i];
      var op := ops[i];
      if op.meta.None? && op.tensors > 0 {
        OverflowStays(ops, i + 1);
        return r.(overflow := true);
      }
      if op.meta.Some? {
        var end := op.meta.value + op.tensors;
        r := Scanned(if r.first.Some? then r.first else op.meta, if end > r.metaEnd then end else r.metaEnd, false);
      }
    }
    assert ops[..|ops|] == ops;
  }

  lemma {:induction false} OverflowStays(ops: seq<Op>, n: nat)
    requires n <= |ops| && Scan(ops[..n]).overflow
    ensures Scan(ops) == Scan(ops[..n])
    decreases |ops|
  {
    if n == |ops| {
      assert ops[..n] == ops;
    } else {
      var less := ops[..|ops| - 1];
      assert less[..n] == ops[..n];
      OverflowStays(less, n);
    }
  }

  ghost predicate RecordsWithin(ops: seq<Op>, lo: nat, hi: nat) {
    forall i :: 0 <= i < |ops| && ops[i].meta.Some? ==>
      lo <= ops[i].meta.value && ops[i].tensors > 0 && ops[i].meta.value + ops[i].tensors <= hi
  }

  /** The run of records that a work reads lies where the records of its ops lie. */
  lemma {:induction false} ScanWithin(ops: seq<Op>, lo: nat, hi: nat)
    requires RecordsWithin(ops, lo, hi)
    ensures Scan(ops).first.Some? <==> Scan(ops).metaEnd > 0
    ensures Scan(ops).first.Some? ==> lo <= Scan(ops).first.value < Scan(ops).metaEnd <= hi
  {
    if ops != [] {
      ScanWithin(ops[..|ops| - 1], lo, hi);
    }
  }

  // --------------------------------------------------------------- actions

  predicate Enabled(s: State, a: Action) {
    match a
    case Record(n, fits) => n <= MetaLog.CAPACITY && (fits && n > 0 ==> s.head + n <= s.tail + MetaLog.CAPACITY)
    case Orphan(n) => s.head + n <= s.tail + MetaLog.CAPACITY
    case Drain(n) => 0 < n <= BATCH_SIZE && s.drained + n <= |s.ops|
    case TakeBatch => s.batchEnd.None? && s.batches != []
    case Reset => s.batchEnd.Some?
    case Detect(_, _) => s.batchEnd.Some? && s.pos < s.batchEnd.value && s.resetAt != []
    case EndBatch => s.batchEnd.Some? && s.pos == s.batchEnd.value
    case Build => s.built < |s.items| && (s.items[s.built].Work? ==> s.items[s.built].from <= s.items[s.built].to <= |s.ops|)
    case Publish(_) => s.messages != [] && s.messages[0].item < |s.items|
  }

  /** The foreground stores the records of an op and then the op.  An op without room for its records has none. */
  function Recorded(s: State, n: nat, fits: bool): State {
    if n > 0 && fits then s.(ops := s.ops + [Op(Some(s.head), n)], head := s.head + n) else s.(ops := s.ops + [Op(None, n)])
  }

  /** The ops that an iteration boundary cuts are from..to: at most iterLen ops, before the last K. */
  function CutTo(heldFrom: nat, pos: nat): nat {
    heldFrom + SubSat(SubSat(pos, heldFrom), PendingOps.K)
  }

  function CutFrom(heldFrom: nat, to: nat, iterLen: nat): nat {
    heldFrom + SubSat(SubSat(to, heldFrom), iterLen)
  }

  /** An iteration boundary: it sends the work, if the work has an op. */
  function CutAt(s: State, pos: nat, iterLen: nat): State
    requires s.resetAt != []
  {
    var to := CutTo(s.heldFrom, pos);
    var from := CutFrom(s.heldFrom, to, iterLen);
    if from < to then s.(items := s.items + [Work(from, to, |s.resetAt| - 1, pos)], heldFrom := to)
    else s.(heldFrom := to)
  }

  lemma SliceOfSlice<T>(a: seq<T>, lo: nat, hi: nat, i: nat, j: nat)
    requires lo <= hi <= |a| && i <= j <= hi - lo
    ensures a[lo..hi][i..j] == a[lo + i..lo + j]
  {
    forall k | 0 <= k < j - i ensures a[lo..hi][i..j][k] == a[lo + i..lo + j][k] {
    }
  }

  /** The cut of the pipeline is the cut of the ring of pending ops. */
  lemma CutIsBoundary(ops: seq<Op>, heldFrom: nat, pos: nat, iterLen: nat, from: nat, to: nat)
    requires heldFrom <= pos <= |ops| && to == CutTo(heldFrom, pos) && from == CutFrom(heldFrom, to, iterLen)
    ensures heldFrom <= from <= to <= pos
    ensures PendingOps.Boundary(ops[heldFrom..pos], iterLen) == PendingOps.Parts(ops[heldFrom..from], ops[from..to], ops[to..pos])
  {
    var held, start, end := ops[heldFrom..pos], from - heldFrom, to - heldFrom;
    SliceOfSlice(ops, heldFrom, pos, 0, start);
    SliceOfSlice(ops, heldFrom, pos, start, end);
    SliceOfSlice(ops, heldFrom, pos, end, |held|);
    assert held[..start] == held[0..start] && held[end..] == held[end..|held|];
  }

  function Detected(s: State, boundary: Option<nat>, drop: nat): State
    requires s.resetAt != []
  {
    var pos := s.pos + 1;
    var t := if boundary.Some? then CutAt(s, pos, boundary.value) else s;
    t.(pos := pos, heldFrom := Min(t.heldFrom + drop, pos))
  }

  function BuiltNext(s: State): State
    requires Enabled(s, Build)
  {
    var i := s.built;
    match s.items[i]
    case Commit(_, _) => s.(built := i + 1, messages := s.messages + [Marker(i)])
    case Work(from, to, epoch, _) =>
      var r := Scan(s.ops[from..to]);
      if r.overflow && r.metaEnd == 0 then s.(built := i + 1, fates := s.fates[i := Released])
      else if r.overflow then s.(built := i + 1, messages := s.messages + [Release(i, r.metaEnd)])
      else s.(built := i + 1, messages := s.messages + [Region(i, r.metaEnd, epoch)])
  }

  function ReleaseTo(s: State, metaEnd: nat): State {
    if metaEnd > 0 then s.(tail := metaEnd) else s
  }

  function PublishedNext(s: State, full: bool): State
    requires Enabled(s, Publish(full))
  {
    var m := s.messages[0];
    var item := s.items[m.item];
    var t := s.(messages := s.messages[1..], handled := m.item + 1, front := if item.Work? then item.to else s.front);
    match m
    case Marker(i) => t.(processed := s.processed + SubSat(item.at, item.from), fates := s.fates[i := Committed])
    case Release(i, end) => ReleaseTo(t, end).(fates := s.fates[i := Released])
    case Region(i, end, epoch) =>
      var fate := if epoch + 1 != |s.resetAt| then Stale else if full then DroppedFull else Published;
      ReleaseTo(t, end).(fates := s.fates[i := fate])
  }

  function Apply(s: State, a: Action): State
    requires Enabled(s, a)
  {
    match a
    case Record(n, fits) => Recorded(s, n, fits)
    case Orphan(n) => s.(head := s.head + n)
    case Drain(n) => s.(drained := s.drained + n, batches := s.batches + [s.drained + n])
    case TakeBatch => s.(batchEnd := Some(s.batches[0]), batches := s.batches[1..])
    case Reset => s.(heldFrom := s.pos, resetAt := s.resetAt + [s.pos])
    case Detect(boundary, drop) => Detected(s, boundary, drop)
    case EndBatch => s.(items := s.items + [Commit(s.batchStart, s.pos)], batchEnd := None, batchStart := s.pos)
    case Build => BuiltNext(s)
    case Publish(full) => PublishedNext(s, full)
  }

  /** The state after a run.  An action that is not enabled does nothing. */
  function Exec(run: seq<Action>): State {
    if run == [] then INITIAL
    else
      var s, a := Exec(run[..|run| - 1]), run[|run| - 1];
      if Enabled(s, a) then Apply(s, a) else s
  }

  // ------------------------------------------------------------- invariant

  ghost predicate RecordsOrdered(ops: seq<Op>) {
    forall i, j :: 0 <= i < j < |ops| && ops[i].meta.Some? && ops[j].meta.Some? ==>
      ops[i].meta.value + ops[i].tensors <= ops[j].meta.value
  }

  /** The records of an op come after those of every earlier op, and the log never holds more than it has room for. */
  ghost predicate LogFits(ops: seq<Op>, head: nat, tail: nat) {
    tail <= head <= tail + MetaLog.CAPACITY && RecordsWithin(ops, 0, head) && RecordsOrdered(ops)
  }

  /** The batches in the channel follow each other, after the batch in hand. */
  ghost predicate BatchesFit(batches: seq<nat>, low: nat, drained: nat) {
    && (forall i, j :: 0 <= i < j < |batches| ==> batches[i] < batches[j])
    && (forall i :: 0 <= i < |batches| ==> low < batches[i] <= drained)
  }

  /** The detect stage works inside one batch, and what it holds was pushed since the last reset. */
  ghost predicate DetectFits(s: State) {
    && s.batchStart <= s.pos <= s.drained <= |s.ops| && s.heldFrom <= s.pos
    && (s.batchEnd.Some? ==> s.pos <= s.batchEnd.value <= s.drained && s.batchStart < s.batchEnd.value)
    && (s.batchEnd.None? ==> s.pos == s.batchStart)
    && BatchesFit(s.batches, if s.batchEnd.Some? then s.batchEnd.value else s.pos, s.drained)
    && ResetsFit(s.resetAt, s.heldFrom)
  }

  ghost predicate ResetsFit(resetAt: seq<nat>, heldFrom: nat) {
    && resetAt != [] && resetAt[|resetAt| - 1] <= heldFrom
    && (forall i, j :: 0 <= i < j < |resetAt| ==> resetAt[i] <= resetAt[j])
  }

  /** The end of the last batch that the first n items commit. */
  function CommitEnd(items: seq<Item>, n: nat): nat
    requires n <= |items|
  {
    if n == 0 then 0 else if items[n - 1].Commit? then items[n - 1].at else CommitEnd(items, n - 1)
  }

  /** An item was sent in the batch that follows the commits before it; a work holds ops of one epoch. */
  ghost predicate ItemFits(items: seq<Item>, i: nat, pos: nat, heldFrom: nat, resetAt: seq<nat>)
    requires i < |items|
  {
    && CommitEnd(items, i) < items[i].at <= pos
    && match items[i]
       case Commit(from, at) => from == CommitEnd(items, i)
       case Work(from, to, epoch, at) =>
         && from < to <= heldFrom && to <= at
         && epoch < |resetAt| && resetAt[epoch] <= from
         && (epoch + 1 < |resetAt| ==> to <= resetAt[epoch + 1])
  }

  ghost predicate ItemsFit(items: seq<Item>, pos: nat, heldFrom: nat, resetAt: seq<nat>, batchStart: nat) {
    && (forall i: nat :: i < |items| ==> ItemFits(items, i, pos, heldFrom, resetAt))
    && WorksOrdered(items)
    && batchStart == CommitEnd(items, |items|)
  }

  ghost predicate WorksOrdered(items: seq<Item>) {
    forall i, j :: 0 <= i < j < |items| && items[i].Work? && items[j].Work? ==> items[i].to <= items[j].from
  }

  /** A message is what the build stage makes of its item. */
  ghost predicate MessageFits(ops: seq<Op>, items: seq<Item>, m: Message) {
    && m.item < |items|
    && match items[m.item]
       case Commit(_, _) => m == Marker(m.item)
       case Work(from, to, epoch, _) =>
         && from <= to <= |ops|
         && var r := Scan(ops[from..to]);
            if r.overflow then r.metaEnd > 0 && m == Release(m.item, r.metaEnd) else m == Region(m.item, r.metaEnd, epoch)
  }

  ghost predicate InMessages(messages: seq<Message>, i: nat) {
    exists k :: 0 <= k < |messages| && messages[k].item == i
  }

  /** The messages are in the order of their items. */
  ghost predicate MessagesFit(ops: seq<Op>, items: seq<Item>, messages: seq<Message>, handled: nat, built: nat) {
    && (forall k :: 0 <= k < |messages| ==> handled <= messages[k].item < built && MessageFits(ops, items, messages[k]))
    && (forall k, l :: 0 <= k < l < |messages| ==> messages[k].item < messages[l].item)
  }

  /** An item that the build stage took and that has no message has ended. */
  ghost predicate Ended(items: seq<Item>, messages: seq<Message>, handled: nat, built: nat, fates: set<nat>) {
    && handled <= built <= |items|
    && (forall i: nat :: i < handled ==> i in fates)
    && (forall i: nat :: handled <= i < built ==> InMessages(messages, i) || (items[i].Work? && i in fates))
  }

  ghost predicate QueueFits(s: State) {
    && Ended(s.items, s.messages, s.handled, s.built, s.fates.Keys)
    && MessagesFit(s.ops, s.items, s.messages, s.handled, s.built)
    && s.processed == CommitEnd(s.items, s.handled)
  }

  /** The tail is before every record of an op from the front on, and so is every work that is not handled. */
  ghost predicate FrontFits(ops: seq<Op>, items: seq<Item>, tail: nat, heldFrom: nat, front: nat, handled: nat) {
    && front <= heldFrom
    && (forall i: nat :: handled <= i < |items| && items[i].Work? ==> front <= items[i].from)
    && (forall o :: front <= o < |ops| && ops[o].meta.Some? ==> tail <= ops[o].meta.value)
  }

  ghost predicate Inv(s: State) {
    && LogFits(s.ops, s.head, s.tail)
    && DetectFits(s)
    && ItemsFit(s.items, s.pos, s.heldFrom, s.resetAt, s.batchStart)
    && QueueFits(s)
    && FrontFits(s.ops, s.items, s.tail, s.heldFrom, s.front, s.handled)
  }

  lemma {:induction false} CommitEndKept(items: seq<Item>, more: seq<Item>, n: nat)
    requires n <= |items| && items <= more
    ensures CommitEnd(items, n) == CommitEnd(more, n)
  {
    if n > 0 {
      CommitEndKept(items, more, n - 1);
    }
  }

  /** An item was sent after the batches that are committed before it. */
  ghost predicate SentLater(items: seq<Item>, i: nat)
    requires i < |items|
  {
    CommitEnd(items, i) < items[i].at
  }

  lemma {:induction false} CommitEndGrows(items: seq<Item>, m: nat, n: nat)
    requires m <= n <= |items| && forall i: nat :: i < |items| ==> SentLater(items, i)
    ensures CommitEnd(items, m) <= CommitEnd(items, n)
  {
    if m < n {
      CommitEndGrows(items, m, n - 1);
      assert SentLater(items, n - 1);
    }
  }

  lemma MessageKept(ops: seq<Op>, more: seq<Op>, items: seq<Item>, moreItems: seq<Item>, m: Message)
    requires MessageFits(ops, items, m) && ops <= more && items <= moreItems
    ensures MessageFits(more, moreItems, m)
  {
    if items[m.item].Work? {
      var from, to := items[m.item].from, items[m.item].to;
      assert more[from..to] == ops[from..to];
    }
  }

  lemma MessagesKept(ops: seq<Op>, more: seq<Op>, items: seq<Item>, moreItems: seq<Item>, messages: seq<Message>,
                     handled: nat, built: nat)
    requires MessagesFit(ops, items, messages, handled, built) && ops <= more && items <= moreItems
    ensures MessagesFit(more, moreItems, messages, handled, built)
  {
    forall k | 0 <= k < |messages| ensures MessageFits(more, moreItems, messages[k]) {
      MessageKept(ops, more, items, moreItems, messages[k]);
    }
  }

  // Each action keeps the invariant.

  /** The log after one more op, whose records, if it has any, are at the head. */
  lemma LogRecorded(ops: seq<Op>, head: nat, tail: nat, op: Op, more: nat)
    requires LogFits(ops, head, tail) && head + more <= tail + MetaLog.CAPACITY
    requires op.meta.Some? ==> op.meta.value == head && 0 < op.tensors == more
    ensures LogFits(ops + [op], head + more, tail)
  {
  }

  lemma FrontRecorded(ops: seq<Op>, items: seq<Item>, tail: nat, heldFrom: nat, front: nat, handled: nat, op: Op)
    requires FrontFits(ops, items, tail, heldFrom, front, handled) && (op.meta.Some? ==> tail <= op.meta.value)
    ensures FrontFits(ops + [op], items, tail, heldFrom, front, handled)
  {
  }

  lemma QueueRecorded(s: State, t: State)
    requires QueueFits(s) && s.ops <= t.ops && t == s.(ops := t.ops, head := t.head)
    ensures QueueFits(t)
  {
    MessagesKept(s.ops, t.ops, s.items, s.items, s.messages, s.handled, s.built);
  }

  lemma RecordKeeps(s: State, n: nat, fits: bool)
    requires Inv(s) && Enabled(s, Record(n, fits))
    ensures Inv(Apply(s, Record(n, fits)))
  {
    var op, more := if n > 0 && fits then Op(Some(s.head), n) else Op(None, n), if n > 0 && fits then n else 0;
    var t := s.(ops := s.ops + [op], head := s.head + more);
    LogRecorded(s.ops, s.head, s.tail, op, more);
    FrontRecorded(s.ops, s.items, s.tail, s.heldFrom, s.front, s.handled, op);
    QueueRecorded(s, t);
    assert DetectFits(t);
  }

  lemma OrphanKeeps(s: State, n: nat)
    requires Inv(s) && Enabled(s, Orphan(n))
    ensures Inv(Apply(s, Orphan(n)))
  {
    var t := s.(head := s.head + n);
    QueueRecorded(s, t);
    assert DetectFits(t);
  }

  lemma DrainKeeps(s: State, a: Action)
    requires Inv(s) && Enabled(s, a) && (a.Drain? || a.TakeBatch?)
    ensures Inv(Apply(s, a))
  {
    var t := Apply(s, a);
    assert DetectFits(t) && QueueFits(t);
  }

  /** Items stay in place while the detect stage moves on. */
  lemma ItemsKept(s: State, pos: nat, heldFrom: nat, resetAt: seq<nat>)
    requires ItemsFit(s.items, s.pos, s.heldFrom, s.resetAt, s.batchStart)
    requires s.heldFrom <= s.pos <= pos && s.heldFrom <= heldFrom
    requires resetAt == s.resetAt || (resetAt == s.resetAt + [s.pos])
    ensures ItemsFit(s.items, pos, heldFrom, resetAt, s.batchStart)
  {
    forall i: nat | i < |s.items| ensures ItemFits(s.items, i, pos, heldFrom, resetAt) {
      assert ItemFits(s.items, i, s.pos, s.heldFrom, s.resetAt);
    }
  }

  lemma ResetDetects(s: State)
    requires DetectFits(s) && Enabled(s, Reset)
    ensures DetectFits(Apply(s, Reset))
  {
  }

  lemma ResetKeeps(s: State)
    requires Inv(s) && Enabled(s, Reset)
    ensures Inv(Apply(s, Reset))
  {
    var t := s.(heldFrom := s.pos, resetAt := s.resetAt + [s.pos]);
    ItemsKept(s, t.pos, t.heldFrom, t.resetAt);
    ResetDetects(s);
    assert QueueFits(t);
  }

  /** What the detect stage may send next. */
  ghost predicate Sendable(item: Item, s: State, pos: nat, heldFrom: nat) {
    && s.pos <= pos && s.heldFrom <= heldFrom && s.batchStart < item.at <= pos && s.resetAt != []
    && match item
       case Commit(from, _) => from == s.batchStart
       case Work(from, to, epoch, at) => s.heldFrom <= from < to <= heldFrom && to <= at && epoch == |s.resetAt| - 1
  }

  lemma OldItemFits(items: seq<Item>, item: Item, i: nat, s: State, pos: nat, heldFrom: nat)
    requires i < |items| && s.pos <= pos && s.heldFrom <= heldFrom && ItemFits(items, i, s.pos, s.heldFrom, s.resetAt)
    ensures ItemFits(items + [item], i, pos, heldFrom, s.resetAt)
  {
    CommitEndKept(items, items + [item], i);
  }

  lemma NewItemFits(items: seq<Item>, item: Item, s: State, pos: nat, heldFrom: nat)
    requires Sendable(item, s, pos, heldFrom) && s.batchStart == CommitEnd(items, |items|)
    requires s.resetAt[|s.resetAt| - 1] <= s.heldFrom
    ensures ItemFits(items + [item], |items|, pos, heldFrom, s.resetAt)
    ensures CommitEnd(items + [item], |items| + 1) == if item.Commit? then item.at else s.batchStart
  {
    CommitEndKept(items, items + [item], |items|);
  }

  lemma WorkAdded(items: seq<Item>, item: Item, heldFrom: nat)
    requires WorksOrdered(items) && (item.Work? ==> heldFrom <= item.from)
    requires forall i :: 0 <= i < |items| && items[i].Work? ==> items[i].to <= heldFrom
    ensures WorksOrdered(items + [item])
  {
  }

  lemma WorkIsCut(items: seq<Item>, i: nat, pos: nat, heldFrom: nat, resetAt: seq<nat>)
    requires i < |items| && items[i].Work? && ItemFits(items, i, pos, heldFrom, resetAt)
    ensures items[i].to <= heldFrom
  {
  }

  /** The items after one more. */
  lemma ItemAdded(s: State, pos: nat, heldFrom: nat, item: Item)
    requires ItemsFit(s.items, s.pos, s.heldFrom, s.resetAt, s.batchStart) && Sendable(item, s, pos, heldFrom)
    requires s.resetAt[|s.resetAt| - 1] <= s.heldFrom
    ensures ItemsFit(s.items + [item], pos, heldFrom, s.resetAt, if item.Commit? then item.at else s.batchStart)
  {
    NewItemFits(s.items, item, s, pos, heldFrom);
    forall i: nat | i < |s.items| + 1 ensures ItemFits(s.items + [item], i, pos, heldFrom, s.resetAt) {
      if i < |s.items| {
        OldItemFits(s.items, item, i, s, pos, heldFrom);
      }
    }
    forall i: nat | i < |s.items| && s.items[i].Work? ensures s.items[i].to <= s.heldFrom {
      WorkIsCut(s.items, i, s.pos, s.heldFrom, s.resetAt);
    }
    WorkAdded(s.items, item, s.heldFrom);
  }

  /** The rest of the pipeline does not see a new item. */
  lemma QueueKept(s: State, t: State, item: Item)
    requires QueueFits(s) && t.items == s.items + [item]
    requires t.ops == s.ops && t.built == s.built && t.messages == s.messages && t.handled == s.handled
    requires t.fates == s.fates && t.processed == s.processed
    ensures QueueFits(t)
  {
    MessagesKept(s.ops, s.ops, s.items, t.items, s.messages, s.handled, s.built);
    CommitEndKept(s.items, t.items, s.handled);
  }

  lemma EndBatchKeeps(s: State)
    requires Inv(s) && Enabled(s, EndBatch)
    ensures Inv(Apply(s, EndBatch))
  {
    var item := Commit(s.batchStart, s.pos);
    ItemAdded(s, s.pos, s.heldFrom, item);
    QueueKept(s, Apply(s, EndBatch), item);
  }

  /** What pushing one op does, field by field. */
  lemma DetectFields(s: State, boundary: Option<nat>, drop: nat)
    requires DetectFits(s) && Enabled(s, Detect(boundary, drop))
    ensures var t := Apply(s, Detect(boundary, drop));
            && DetectFits(t) && t == s.(pos := t.pos, heldFrom := t.heldFrom, items := t.items)
            && t.pos == s.pos + 1 && s.heldFrom <= t.heldFrom
            && (t.items != s.items ==>
                  && |t.items| == |s.items| + 1 && s.items <= t.items
                  && var item := t.items[|s.items|];
                     && item.Work? && s.heldFrom <= item.from < item.to <= t.heldFrom && item.to <= t.pos
                     && item.epoch == |s.resetAt| - 1 && item.at == t.pos)
  {
  }

  lemma DetectKeeps(s: State, boundary: Option<nat>, drop: nat)
    requires Inv(s) && Enabled(s, Detect(boundary, drop))
    ensures Inv(Apply(s, Detect(boundary, drop)))
  {
    var t := Apply(s, Detect(boundary, drop));
    DetectFields(s, boundary, drop);
    if t.items != s.items {
      var item := t.items[|s.items|];
      assert t.items == s.items + [item];
      ItemAdded(s, t.pos, t.heldFrom, item);
      QueueKept(s, t, item);
    } else {
      ItemsKept(s, t.pos, t.heldFrom, t.resetAt);
      assert QueueFits(t);
    }
  }

  /** The build and publish stages leave the trace and the detect stage alone. */
  ghost predicate SameDetect(s: State, t: State) {
    t == s.(tail := t.tail, built := t.built, messages := t.messages, handled := t.handled, front := t.front,
            processed := t.processed, fates := t.fates)
  }

  lemma SameDetectKeeps(s: State, t: State)
    requires DetectFits(s) && ItemsFit(s.items, s.pos, s.heldFrom, s.resetAt, s.batchStart) && SameDetect(s, t)
    requires LogFits(t.ops, t.head, t.tail) && QueueFits(t)
    requires FrontFits(t.ops, t.items, t.tail, t.heldFrom, t.front, t.handled)
    ensures Inv(t)
  {
    assert DetectFits(t);
  }

  /** The build stage took one more item and sent a message for it. */
  lemma BuildSends(ops: seq<Op>, items: seq<Item>, messages: seq<Message>, handled: nat, built: nat, fates: set<nat>, m: Message)
    requires Ended(items, messages, handled, built, fates) && MessagesFit(ops, items, messages, handled, built)
    requires built < |items| && m.item == built && MessageFits(ops, items, m)
    ensures Ended(items, messages + [m], handled, built + 1, fates)
    ensures MessagesFit(ops, items, messages + [m], handled, built + 1)
  {
    var more := messages + [m];
    forall i: nat | handled <= i < built + 1 ensures InMessages(more, i) || (items[i].Work? && i in fates) {
      if i == built {
        assert more[|messages|].item == i;
      } else if InMessages(messages, i) {
        var k :| 0 <= k < |messages| && messages[k].item == i;
        assert more[k].item == i;
      }
    }
  }

  lemma BuildFields(s: State)
    requires Enabled(s, Build)
    ensures var t := Apply(s, Build);
            && t == s.(built := s.built + 1, messages := t.messages, fates := t.fates)
            && (t.messages != s.messages ==>
                  && t.fates == s.fates && |t.messages| == |s.messages| + 1 && s.messages <= t.messages
                  && t.messages[|s.messages|].item == s.built && MessageFits(s.ops, s.items, t.messages[|s.messages|]))
            && (t.messages == s.messages ==>
                  t.fates.Keys == s.fates.Keys + {s.built} && s.items[s.built].Work?)
  {
  }

  /** The build stage took one more item and gave it up. */
  lemma BuildEnds(ops: seq<Op>, items: seq<Item>, messages: seq<Message>, handled: nat, built: nat, fates: set<nat>)
    requires Ended(items, messages, handled, built, fates) && MessagesFit(ops, items, messages, handled, built)
    requires built < |items| && items[built].Work?
    ensures Ended(items, messages, handled, built + 1, fates + {built})
    ensures MessagesFit(ops, items, messages, handled, built + 1)
  {
  }

  lemma BuildQueue(s: State, t: State)
    requires QueueFits(s) && s.built < |s.items| && t == s.(built := s.built + 1, messages := t.messages, fates := t.fates)
    requires (t.messages == s.messages && t.fates.Keys == s.fates.Keys + {s.built} && s.items[s.built].Work?)
          || (&& t.fates == s.fates && |t.messages| == |s.messages| + 1 && s.messages <= t.messages
              && t.messages[|s.messages|].item == s.built && MessageFits(s.ops, s.items, t.messages[|s.messages|]))
    ensures QueueFits(t)
  {
    if t.messages == s.messages {
      BuildEnds(s.ops, s.items, s.messages, s.handled, s.built, s.fates.Keys);
    } else {
      var m := t.messages[|s.messages|];
      assert t.messages == s.messages + [m];
      BuildSends(s.ops, s.items, s.messages, s.handled, s.built, s.fates.Keys, m);
    }
  }

  lemma BuildKeeps(s: State)
    requires Inv(s) && Enabled(s, Build)
    ensures Inv(Apply(s, Build))
  {
    var t := Apply(s, Build);
    BuildFields(s);
    BuildQueue(s, t);
    SameDetectKeeps(s, t);
  }

  /** No commit is between the last handled item and the first message. */
  lemma {:induction false} CommitEndSame(s: State, n: nat)
    requires QueueFits(s) && s.messages != [] && s.handled <= n <= s.messages[0].item
    ensures CommitEnd(s.items, n) == CommitEnd(s.items, s.handled)
  {
    if n > s.handled {
      CommitEndSame(s, n - 1);
      assert !InMessages(s.messages, n - 1);
    }
  }

  /** The items that ended, after the first message is gone. */
  lemma PublishEnded(ops: seq<Op>, items: seq<Item>, messages: seq<Message>, handled: nat, built: nat, fates: set<nat>)
    requires MessagesFit(ops, items, messages, handled, built) && Ended(items, messages, handled, built, fates) && messages != []
    ensures var i := messages[0].item;
            && Ended(items, messages[1..], i + 1, built, fates + {i})
            && MessagesFit(ops, items, messages[1..], i + 1, built)
  {
    var first := messages[0].item;
    forall i: nat | i < first ensures i in fates {
      if i >= handled {
        assert !InMessages(messages, i);
      }
    }
    forall i: nat | first < i < built ensures InMessages(messages[1..], i) || (items[i].Work? && i in fates) {
      if InMessages(messages, i) {
        var k :| 0 <= k < |messages| && messages[k].item == i;
        assert messages[1..][k - 1].item == i;
      }
    }
  }

  /** The records that a work reads are the log's own: past the tail, before the head. */
  lemma WorkRecords(s: State, i: nat)
    requires Inv(s) && s.handled <= i < |s.items| && s.items[i].Work?
    ensures s.front <= s.items[i].from < s.items[i].to <= |s.ops|
    ensures var r := Scan(s.ops[s.items[i].from..s.items[i].to]);
            && (r.first.Some? <==> r.metaEnd > 0)
            && (r.first.Some? ==> s.tail <= r.first.value < r.metaEnd <= s.head)
  {
    assert ItemFits(s.items, i, s.pos, s.heldFrom, s.resetAt);
    ScanWithin(s.ops[s.items[i].from..s.items[i].to], s.tail, s.head);
  }

  /** The records of a work end before the records of every later op begin. */
  lemma WorkRecordsEnd(ops: seq<Op>, from: nat, to: nat, o: nat, head: nat)
    requires RecordsOrdered(ops) && RecordsWithin(ops, 0, head) && from <= to <= o < |ops| && ops[o].meta.Some?
    ensures Scan(ops[from..to]).metaEnd <= ops[o].meta.value
  {
    ScanWithin(ops[from..to], 0, ops[o].meta.value);
  }

  /** The end of the records that a message releases, or zero. */
  function MetaEnd(m: Message): nat {
    if m.Marker? then 0 else m.metaEnd
  }

  /** What the first message says of the log. */
  lemma FirstMessage(s: State)
    requires Inv(s) && s.messages != []
    ensures var m := s.messages[0];
            && s.handled <= m.item < |s.items|
            && (MetaEnd(m) > 0 ==> s.tail < MetaEnd(m) <= s.head)
            && (m.Marker? <==> s.items[m.item].Commit?)
            && (s.items[m.item].Work? ==> forall o :: s.items[m.item].to <= o < |s.ops| && s.ops[o].meta.Some? ==>
                  (if MetaEnd(m) > 0 then MetaEnd(m) else s.tail) <= s.ops[o].meta.value)
  {
    var m := s.messages[0];
    assert MessageFits(s.ops, s.items, m);
    if s.items[m.item].Work? {
      var from, to := s.items[m.item].from, s.items[m.item].to;
      WorkRecords(s, m.item);
      forall o | to <= o < |s.ops| && s.ops[o].meta.Some?
        ensures MetaEnd(m) <= s.ops[o].meta.value && s.tail <= s.ops[o].meta.value
      {
        WorkRecordsEnd(s.ops, from, to, o, s.head);
      }
    }
  }

  lemma PublishFront(s: State, full: bool)
    requires Inv(s) && Enabled(s, Publish(full))
    ensures var t := Apply(s, Publish(full));
            LogFits(t.ops, t.head, t.tail) && FrontFits(t.ops, t.items, t.tail, t.heldFrom, t.front, t.handled)
  {
    FirstMessage(s);
    assert ItemFits(s.items, s.messages[0].item, s.pos, s.heldFrom, s.resetAt);
  }

  lemma PublishProcessed(s: State, full: bool)
    requires Inv(s) && Enabled(s, Publish(full))
    ensures Apply(s, Publish(full)).processed == CommitEnd(s.items, s.messages[0].item + 1)
  {
    FirstMessage(s);
    CommitEndSame(s, s.messages[0].item);
    assert ItemFits(s.items, s.messages[0].item, s.pos, s.heldFrom, s.resetAt);
  }

  /** What a publish does to the queue, field by field. */
  lemma PublishFields(s: State, full: bool)
    requires Enabled(s, Publish(full))
    ensures var t, m := Apply(s, Publish(full)), s.messages[0];
            && SameDetect(s, t) && t.built == s.built
            && t.messages == s.messages[1..] && t.handled == m.item + 1 && t.fates.Keys == s.fates.Keys + {m.item}
  {
  }

  lemma PublishQueue(s: State, full: bool)
    requires Inv(s) && Enabled(s, Publish(full))
    ensures QueueFits(Apply(s, Publish(full)))
  {
    PublishFields(s, full);
    PublishProcessed(s, full);
    PublishEnded(s.ops, s.items, s.messages, s.handled, s.built, s.fates.Keys);
  }

  lemma PublishKeeps(s: State, full: bool)
    requires Inv(s) && Enabled(s, Publish(full))
    ensures Inv(Apply(s, Publish(full)))
  {
    PublishFields(s, full);
    PublishQueue(s, full);
    PublishFront(s, full);
    SameDetectKeeps(s, Apply(s, Publish(full)));
  }

  lemma StepKeeps(s: State, a: Action)
    requires Inv(s)
    ensures Enabled(s, a) ==> Inv(Apply(s, a))
  {
    if Enabled(s, a) {
      match a
      case Record(n, fits) => RecordKeeps(s, n, fits);
      case Orphan(n) => OrphanKeeps(s, n);
      case Drain(_) => DrainKeeps(s, a);
      case TakeBatch => DrainKeeps(s, a);
      case Reset => ResetKeeps(s);
      case Detect(boundary, drop) => DetectKeeps(s, boundary, drop);
      case EndBatch => EndBatchKeeps(s);
      case Build => BuildKeeps(s);
      case Publish(full) => PublishKeeps(s, full);
    }
  }

  /** Every run keeps the order of the pipeline. */
  lemma {:induction false} AlwaysInv(run: seq<Action>)
    ensures Inv(Exec(run))
  {
    if run != [] {
      AlwaysInv(run[..|run| - 1]);
      StepKeeps(Exec(run[..|run| - 1]), run[|run| - 1]);
    }
  }

  /** The fate of an item is one of its kind. */
  ghost predicate FatesFit(items: seq<Item>, fates: map<nat, Fate>) {
    forall i :: i in fates ==> i < |items| && (fates[i] == Committed <==> items[i].Commit?)
  }

  lemma FatesBuilt(s: State)
    requires FatesFit(s.items, s.fates) && Enabled(s, Build)
    ensures FatesFit(Apply(s, Build).items, Apply(s, Build).fates)
  {
  }

  lemma FatesPublished(s: State, full: bool)
    requires FatesFit(s.items, s.fates) && Enabled(s, Publish(full))
    requires s.messages[0].Marker? <==> s.items[s.messages[0].item].Commit?
    ensures FatesFit(Apply(s, Publish(full)).items, Apply(s, Publish(full)).fates)
  {
  }

  lemma FatesOtherwise(s: State, a: Action)
    requires FatesFit(s.items, s.fates) && Enabled(s, a) && !a.Build? && !a.Publish?
    ensures FatesFit(Apply(s, a).items, Apply(s, a).fates)
  {
    assert Apply(s, a).fates == s.fates && s.items <= Apply(s, a).items;
  }

  lemma FatesStep(s: State, a: Action)
    requires Inv(s) && FatesFit(s.items, s.fates) && Enabled(s, a)
    ensures FatesFit(Apply(s, a).items, Apply(s, a).fates)
  {
    match a
    case Build => FatesBuilt(s);
    case Publish(full) =>
      FirstMessage(s);
      FatesPublished(s, full);
    case _ => FatesOtherwise(s, a);
  }

  lemma {:induction false} FatesAlways(run: seq<Action>)
    ensures FatesFit(Exec(run).items, Exec(run).fates)
  {
    if run != [] {
      AlwaysInv(run[..|run| - 1]);
      FatesAlways(run[..|run| - 1]);
      if Enabled(Exec(run[..|run| - 1]), run[|run| - 1]) {
        FatesStep(Exec(run[..|run| - 1]), run[|run| - 1]);
      }
    }
  }

  // -------------------------------------------------------------- theorems

  /**
   * In every run, each release that the publish stage applies is past the tail
   * and not past the head, so the tail only moves forward.
   */
  lemma ReleasesIncrease(run: seq<Action>, full: bool)
    requires Enabled(Exec(run), Publish(full)) && MetaEnd(Exec(run).messages[0]) > 0
    ensures var s := Exec(run);
            s.tail < MetaEnd(s.messages[0]) <= s.head && Apply(s, Publish(full)).tail == MetaEnd(s.messages[0])
  {
    AlwaysInv(run);
    FirstMessage(Exec(run));
  }

  /**
   * In every run, the tail is not past the first record of a work that the
   * publish stage has not handled, and the run of records of that work has at
   * most CAPACITY records, all of them still in the log.
   */
  lemma UnreleasedRunFits(run: seq<Action>, i: nat)
    requires var s := Exec(run); s.handled <= i < |s.items| && s.items[i].Work?
    ensures var s := Exec(run);
            && s.items[i].from < s.items[i].to <= |s.ops|
            && var r := Scan(s.ops[s.items[i].from..s.items[i].to]);
               r.first.Some? ==>
                 s.tail <= r.first.value < r.metaEnd <= s.head && r.metaEnd - r.first.value <= MetaLog.CAPACITY
  {
    AlwaysInv(run);
    WorkRecords(Exec(run), i);
  }

  function TensorCount(ops: seq<Op>): nat {
    if ops == [] then 0 else TensorCount(ops[..|ops| - 1]) + ops[|ops| - 1].tensors
  }

  /** A work that lost no records has no more tensors than its run has records. */
  lemma {:induction false} TensorsFit(ops: seq<Op>, head: nat)
    requires RecordsOrdered(ops) && RecordsWithin(ops, 0, head) && !Scan(ops).overflow
    ensures var r := Scan(ops);
            if r.first.Some? then r.first.value + TensorCount(ops) <= r.metaEnd else TensorCount(ops) == 0
  {
    if ops != [] {
      var less, op := ops[..|ops| - 1], ops[|ops| - 1];
      TensorsFit(less, head);
      if op.meta.Some? {
        ScanWithin(less, 0, op.meta.value);
      }
    }
  }

  /** In every run, a work that the build stage can build has at most CAPACITY tensors. */
  lemma BuildableWorkFits(run: seq<Action>, i: nat)
    requires var s := Exec(run); s.handled <= i < |s.items| && s.items[i].Work?
    ensures var s := Exec(run);
            && s.items[i].from < s.items[i].to <= |s.ops|
            && var ops := s.ops[s.items[i].from..s.items[i].to];
               !Scan(ops).overflow ==> TensorCount(ops) <= MetaLog.CAPACITY
  {
    AlwaysInv(run);
    var s := Exec(run);
    WorkRecords(s, i);
    var ops := s.ops[s.items[i].from..s.items[i].to];
    if !Scan(ops).overflow {
      TensorsFit(ops, s.head);
    }
  }

  /**
   * In every run, when the processed count covers the point at which an item
   * was sent, the item has ended: every work cut by then is published, stale,
   * dropped by a full store or released, and every commit is committed.
   */
  lemma CommitCoversWorks(run: seq<Action>, i: nat)
    requires var s := Exec(run); i < |s.items| && s.items[i].at <= s.processed
    ensures var s := Exec(run); i in s.fates && (s.fates[i] == Committed <==> s.items[i].Commit?)
  {
    AlwaysInv(run);
    FatesAlways(run);
    var s := Exec(run);
    if i >= s.handled {
      forall j: nat | j < |s.items| ensures SentLater(s.items, j) {
        assert ItemFits(s.items, j, s.pos, s.heldFrom, s.resetAt);
      }
      assert SentLater(s.items, i);
      CommitEndGrows(s.items, s.handled, i);
    }
  }

  /**
   * In every run, the region that the publish stage publishes holds only ops
   * that were pushed after the last reset, and its epoch is the current one.
   */
  lemma PublishedIsFresh(run: seq<Action>, full: bool)
    requires Enabled(Exec(run), Publish(full)) && Exec(run).messages[0].Region?
    ensures PublishesFresh(Exec(run), Apply(Exec(run), Publish(full)), full)
  {
    AlwaysInv(run);
    RegionPublishes(Exec(run), full);
  }

  /** The first message is published exactly when its epoch is current and the store has room, and then its ops are fresh. */
  ghost predicate PublishesFresh(s: State, t: State, full: bool)
    requires s.messages != []
  {
    var i := s.messages[0].item;
    && i < |s.items| && s.items[i].Work? && s.resetAt != [] && i in t.fates
    && (t.fates[i] == Published <==> !full && s.items[i].epoch == |s.resetAt| - 1)
    && (t.fates[i] == Published ==> s.resetAt[|s.resetAt| - 1] <= s.items[i].from)
  }

  lemma RegionPublishes(s: State, full: bool)
    requires Inv(s) && Enabled(s, Publish(full)) && s.messages[0].Region?
    ensures PublishesFresh(s, Apply(s, Publish(full)), full)
  {
    RegionItem(s);
    RegionFate(s, full);
  }

  lemma RegionFate(s: State, full: bool)
    requires Enabled(s, Publish(full)) && s.messages[0].Region?
    ensures var i, fates := s.messages[0].item, Apply(s, Publish(full)).fates;
            i in fates && (fates[i] == Published <==> !full && s.messages[0].epoch == |s.resetAt| - 1)
  {
  }

  lemma RegionItem(s: State)
    requires Inv(s) && s.messages != [] && s.messages[0].Region? && s.messages[0].item < |s.items|
    ensures var item := s.items[s.messages[0].item];
            item.Work? && item.epoch == s.messages[0].epoch < |s.resetAt| && s.resetAt[item.epoch] <= item.from
  {
    assert MessageFits(s.ops, s.items, s.messages[0]);
    assert ItemFits(s.items, s.messages[0].item, s.pos, s.heldFrom, s.resetAt);
  }

  /** In every run, no op is in two works, and the works follow the order of the trace. */
  lemma WorksAreDisjoint(run: seq<Action>, i: nat, j: nat)
    requires var s := Exec(run); i < j < |s.items| && s.items[i].Work? && s.items[j].Work?
    ensures var s := Exec(run);
            s.items[i].from < s.items[i].to <= s.items[j].from < s.items[j].to <= |s.ops|
  {
    AlwaysInv(run);
    var s := Exec(run);
    assert ItemFits(s.items, i, s.pos, s.heldFrom, s.resetAt) && ItemFits(s.items, j, s.pos, s.heldFrom, s.resetAt);
  }
}
