/**
 * The cells in which the foreground names the regions that it holds.  A
 * sequence number is odd while the foreground writes, and the publish stage
 * takes its copy only between two equal even values of it.  Every access of a
 * cell or of the sequence is one step, in any interleaving.
 */
module HeldRegions {
  const CELLS := 10

  /** The write in progress: its target and the number of cells stored. */
  datatype Writer = Resting | Writing(target: seq<nat>, stored: nat)

  /** The read in progress: the first value of the sequence and the cells read. */
  datatype Reader = Waiting | Reading(before: nat, got: seq<nat>) | Accepted(copy: seq<nat>, generation: nat)

  /** written holds the target of every write that ended. */
  datatype State = State(sequence: nat, cells: seq<nat>, writer: Writer, reader: Reader, written: seq<seq<nat>>)

  const BLANK: seq<nat> := [0, 0, 0, 0, 0, 0, 0, 0, 0, 0]
  const INITIAL := State(0, BLANK, Resting, Waiting, [])

  datatype Action = BeginWrite(target: seq<nat>) | StoreCell | EndWrite | BeginRead | LoadCell | EndRead

  predicate Enabled(s: State, a: Action) {
    match a
    case BeginWrite(target) => s.writer.Resting? && |target| == CELLS
    case StoreCell => s.writer.Writing? && s.writer.stored < CELLS == |s.writer.target| && |s.cells| == CELLS
    case EndWrite => s.writer.Writing? && s.writer.stored == CELLS
    case BeginRead => !s.reader.Reading?
    case LoadCell => s.reader.Reading? && |s.reader.got| < |s.cells|
    case EndRead => s.reader.Reading? && |s.reader.got| == CELLS
  }

  function Apply(s: State, a: Action): State
    requires Enabled(s, a)
  {
    match a
    case BeginWrite(target) => s.(sequence := s.sequence + 1, writer := Writing(target, 0))
    case StoreCell =>
      var k := s.writer.stored;
      s.(cells := s.cells[k := s.writer.target[k]], writer := Writing(s.writer.target, k + 1))
    case EndWrite => s.(sequence := s.sequence + 1, writer := Resting, written := s.written + [s.writer.target])
    // An odd value sends the reader back to its first load.
    case BeginRead => s.(reader := if s.sequence % 2 == 0 then Reading(s.sequence, []) else Waiting)
    case LoadCell => s.(reader := Reading(s.reader.before, s.reader.got + [s.cells[|s.reader.got|]]))
    case EndRead => s.(reader := if s.sequence == s.reader.before then Accepted(s.reader.got, s.reader.before / 2) else Waiting)
  }

  function Exec(run: seq<Action>): State {
    if run == [] then INITIAL
    else
      var s, a := Exec(run[..|run| - 1]), run[|run| - 1];
      if Enabled(s, a) then Apply(s, a) else s
  }

  /** What the cells hold after a number of writes. */
  function After(written: seq<seq<nat>>, generation: nat): seq<nat>
    requires generation <= |written|
  {
    if generation == 0 then BLANK else written[generation - 1]
  }

  ghost predicate Inv(s: State) {
    && |s.cells| == CELLS && (forall w :: 0 <= w < |s.written| ==> |s.written[w]| == CELLS)
    && s.sequence == 2 * |s.written| + (if s.writer.Writing? then 1 else 0)
    && (s.writer.Resting? ==> s.cells == After(s.written, |s.written|))
    && (s.writer.Writing? ==>
          |s.writer.target| == CELLS && s.writer.stored <= CELLS
          && s.cells[..s.writer.stored] == s.writer.target[..s.writer.stored])
    && (match s.reader
        case Waiting => true
        case Reading(before, got) =>
          && before % 2 == 0 && before <= s.sequence && |got| <= CELLS
          && (before == s.sequence ==> got == s.cells[..|got|])
        case Accepted(copy, generation) =>
          generation <= |s.written| && copy == After(s.written, generation))
  }

  lemma WriterKeeps(s: State, a: Action)
    requires Inv(s) && Enabled(s, a) && (a.BeginWrite? || a.StoreCell? || a.EndWrite?)
    ensures Inv(Apply(s, a))
  {
  }

  lemma ReaderKeeps(s: State, a: Action)
    requires Inv(s) && Enabled(s, a) && (a.BeginRead? || a.LoadCell? || a.EndRead?)
    ensures Inv(Apply(s, a))
  {
  }

  lemma {:induction false} AlwaysInv(run: seq<Action>)
    ensures Inv(Exec(run))
  {
    if run != [] {
      var s, a := Exec(run[..|run| - 1]), run[|run| - 1];
      AlwaysInv(run[..|run| - 1]);
      if Enabled(s, a) {
        if a.BeginWrite? || a.StoreCell? || a.EndWrite? {
          WriterKeeps(s, a);
        } else {
          ReaderKeeps(s, a);
        }
      }
    }
  }

  /**
   * In every run, the step that accepts a copy does so while no write is in
   * progress, and the copy is what the cells hold at that step, with the number
   * of writes that ended: the whole read acts as one step.
   */
  lemma AcceptedReadIsAtomic(run: seq<Action>)
    requires Enabled(Exec(run), EndRead) && Apply(Exec(run), EndRead).reader.Accepted?
    ensures var s, r := Exec(run), Apply(Exec(run), EndRead).reader;
            s.writer.Resting? && r.copy == s.cells == After(s.written, |s.written|) && r.generation == |s.written|
  {
    AlwaysInv(run);
  }

  // -------------------------------------------------------------- progress

  lemma Then(run: seq<Action>, a: Action) returns (longer: seq<Action>)
    requires Enabled(Exec(run), a)
    ensures longer == run + [a] && Exec(longer) == Apply(Exec(run), a)
  {
    longer := run + [a];
    assert longer[..|run|] == run;
  }

  /**
   * While no write is in progress, a read of its own twelve steps is accepted, and its
   * copy is what the cells hold.
   */
  lemma ReadEnds(run: seq<Action>) returns (longer: seq<Action>)
    requires Exec(run).writer.Resting? && !Exec(run).reader.Reading?
    ensures run <= longer && |longer| == |run| + CELLS + 2
    ensures Exec(longer) == Exec(run).(reader := Accepted(Exec(run).cells, |Exec(run).written|))
  {
    var s := Exec(run);
    AlwaysInv(run);
    longer := Then(run, BeginRead);
    var k := 0;
    while k < CELLS
      invariant k <= CELLS && run <= longer && |longer| == |run| + 1 + k
      invariant Exec(longer) == s.(reader := Reading(s.sequence, s.cells[..k]))
    {
      longer := Then(longer, LoadCell);
      assert s.cells[..k] + [s.cells[k]] == s.cells[..k + 1];
      k := k + 1;
    }
    assert s.cells[..CELLS] == s.cells;
    longer := Then(longer, EndRead);
  }

  /** A write of its own twelve steps puts its target into the cells. */
  lemma WriteEnds(run: seq<Action>, target: seq<nat>) returns (longer: seq<Action>)
    requires Exec(run).writer.Resting? && |target| == CELLS
    ensures run <= longer && |longer| == |run| + CELLS + 2
    ensures var s, t := Exec(run), Exec(longer);
            t.cells == target && t.writer.Resting? && t.written == s.written + [target] && t.sequence == s.sequence + 2
  {
    var s := Exec(run);
    AlwaysInv(run);
    longer := Then(run, BeginWrite(target));
    var k := 0;
    while k < CELLS
      invariant k <= CELLS && run <= longer && |longer| == |run| + 1 + k
      invariant var t := Exec(longer);
                && t.writer == Writing(target, k) && t.written == s.written && t.sequence == s.sequence + 1
                && |t.cells| == CELLS && t.cells[..k] == target[..k]
    {
      var before := Exec(longer);
      longer := Then(longer, StoreCell);
      assert Exec(longer).cells[..k + 1] == before.cells[..k] + [target[k]];
      k := k + 1;
    }
    var last := Exec(longer);
    assert last.cells == last.cells[..CELLS] && target == target[..CELLS];
    longer := Then(longer, EndWrite);
  }
}
