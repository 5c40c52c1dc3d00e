/**
 * The session-event store: a batch of events goes to a file that its hash names,
 * and one line of the session's index names the batch.  Loading reads the index
 * line by line and takes each batch that is whole, valid and later than what it
 * has.
 */
module SessionEvents {
  import opened Basics
  import opened Text
  import opened Wire

  const MAX_PAYLOAD_BYTES := 0x400_0000
  const MAX_BATCH_EVENTS := MAX_PAYLOAD_BYTES / RECORD_BYTES

  /** The hash that names a batch, and the row hash of the batches of a store. */
  datatype Format = Format(hash: Bytes -> nat, row: nat)

  ghost predicate FormatFits(c: Format) {
    c.row < U64 && forall p: Bytes :: 0 < c.hash(p) < NO_HASH
  }

  /** The store names a batch by the hash of its payload. */
  lemma OwnFormatFits(row: nat)
    requires row < U64
    ensures FormatFits(Format(BatchHash, row))
  {
  }

  /** The directory of a session: its index, and its batch files by their hash. */
  datatype Dir = Dir(index: string, files: map<nat, Bytes>)

  // --------------------------------------------------------------- batches

  predicate OneSession(events: seq<Event>, session: nat) {
    forall i :: 0 <= i < |events| ==> events[i].session == session
  }

  predicate Follows(prev: Event, next: Event) {
    prev.step + 1 < U64 && next.step == prev.step + 1
  }

  predicate Consecutive(events: seq<Event>) {
    forall i :: 0 < i < |events| ==> Follows(events[i - 1], events[i])
  }

  predicate AllEvents(events: seq<Event>) {
    forall i :: 0 <= i < |events| ==> IsEvent(events[i])
  }

  predicate Batch(events: seq<Event>) {
    && 0 < |events| <= MAX_BATCH_EVENTS && AllEvents(events)
    && OneSession(events, events[0].session) && Consecutive(events)
  }

  function First(events: seq<Event>): nat
    requires events != []
  {
    events[0].step
  }

  function Last(events: seq<Event>): nat
    requires events != []
  {
    events[|events| - 1].step
  }

  /** The steps of a batch count up from its first. */
  lemma {:induction false} StepsCountUp(events: seq<Event>, i: nat)
    requires Consecutive(events) && i < |events|
    ensures events[i].step == events[0].step + i && (events[0].step < U64 ==> events[i].step < U64)
  {
    if i > 0 {
      StepsCountUp(events, i - 1);
      assert Follows(events[i - 1], events[i]);
    }
  }

  function Payload(events: seq<Event>): Bytes {
    if events == [] then [] else Payload(events[..|events| - 1]) + EncodeEvent(events[|events| - 1])
  }

  /** The events of a payload, record by record. */
  function DecodeLog(payload: Bytes): (r: Option<seq<Event>>)
    ensures r.Some? ==> |payload| == |r.value| * RECORD_BYTES
  {
    if payload == [] then Some([])
    else if |payload| < RECORD_BYTES then None
    else
      var cut := |payload| - RECORD_BYTES;
      var before, last := DecodeLog(payload[..cut]), DecodeEvent(payload[cut..]);
      if before.Some? && last.Some? then Some(before.value + [last.value]) else None
  }

  lemma {:induction false} DecodePayload(events: seq<Event>)
    requires AllEvents(events)
    ensures DecodeLog(Payload(events)) == Some(events) && |Payload(events)| == |events| * RECORD_BYTES
  {
    if events != [] {
      DecodePayload(events[..|events| - 1]);
      OneMoreDecodes(events);
    }
  }

  lemma OneMoreDecodes(events: seq<Event>)
    requires events != [] && IsEvent(events[|events| - 1])
    requires var before := events[..|events| - 1];
             DecodeLog(Payload(before)) == Some(before) && |Payload(before)| == |before| * RECORD_BYTES
    ensures DecodeLog(Payload(events)) == Some(events) && |Payload(events)| == |events| * RECORD_BYTES
  {
    var before, e := events[..|events| - 1], events[|events| - 1];
    assert events == before + [e];
    var record := RecordOf(e);
    PayloadNext(before, e, record);
    DecodeNext(Payload(before), before, record, e);
  }

  lemma RecordOf(e: Event) returns (record: Bytes)
    requires IsEvent(e)
    ensures record == EncodeEvent(e) && |record| == RECORD_BYTES && DecodeEvent(record) == Some(e)
  {
    EventReads(e);
    record := EncodeEvent(e);
  }

  lemma PayloadNext(before: seq<Event>, e: Event, record: Bytes)
    requires IsEvent(e) && record == EncodeEvent(e)
    ensures Payload(before + [e]) == Payload(before) + record
  {
    assert (before + [e])[..|before|] == before;
  }

  lemma DecodeNext(payload: Bytes, before: seq<Event>, record: Bytes, e: Event)
    requires DecodeLog(payload) == Some(before) && |record| == RECORD_BYTES && DecodeEvent(record) == Some(e)
    ensures DecodeLog(payload + record) == Some(before + [e])
  {
    assert (payload + record)[..|payload|] == payload && (payload + record)[|payload|..] == record;
  }

  // ------------------------------------------------------------- the index

  datatype IndexEntry = IndexEntry(first: nat, last: nat, count: nat, hash: nat)

  function IndexLine(e: IndexEntry): (r: string)
    ensures NoNewline(r)
  {
    Dec(e.first) + "," + Dec(e.last) + "," + Dec(e.count) + "," + Hex(e.hash, 16)
  }

  function ParseIndex(line: string): Option<IndexEntry> {
    var p1 := Find(line, ',', 0);
    if p1 == |line| then None
    else
      var p2 := Find(line, ',', p1 + 1);
      if p2 == |line| then None
      else
        var p3 := Find(line, ',', p2 + 1);
        if p3 == |line| then None
        else
          Assemble(ParseU64(line[..p1], 10), ParseU64(line[p1 + 1..p2], 10), ParseU64(line[p2 + 1..p3], 10),
                   ParseU64(line[p3 + 1..], 16))
  }

  function Assemble(first: Option<nat>, last: Option<nat>, count: Option<nat>, hash: Option<nat>): Option<IndexEntry> {
    if first.Some? && last.Some? && count.Some? && hash.Some? && first.value <= last.value then
      Some(IndexEntry(first.value, last.value, count.value, hash.value))
    else None
  }

  /** The fields of a line of four. */
  ghost predicate Fields(line: string, p1: nat, p2: nat, p3: nat, a: string, b: string, c: string, d: string) {
    && p1 < p2 < p3 < |line|
    && Find(line, ',', 0) == p1 && Find(line, ',', p1 + 1) == p2 && Find(line, ',', p2 + 1) == p3
    && line[..p1] == a && line[p1 + 1..p2] == b && line[p2 + 1..p3] == c && line[p3 + 1..] == d
  }

  lemma FourFields(line: string, a: string, b: string, c: string, d: string)
    requires NoComma(a) && NoComma(b) && NoComma(c) && line == a + "," + b + "," + c + "," + d
    ensures Fields(line, |a|, |a| + 1 + |b|, |a| + |b| + 2 + |c|, a, b, c, d)
  {
    FindUnique(line, ',', 0, |a|);
    FindUnique(line, ',', |a| + 1, |a| + 1 + |b|);
    FindUnique(line, ',', |a| + |b| + 2, |a| + |b| + 2 + |c|);
  }

  lemma ParseAt(line: string, p1: nat, p2: nat, p3: nat, a: string, b: string, c: string, d: string)
    requires Fields(line, p1, p2, p3, a, b, c, d)
    ensures ParseIndex(line) == Assemble(ParseU64(a, 10), ParseU64(b, 10), ParseU64(c, 10), ParseU64(d, 16))
  {
  }

  lemma ParseFour(a: string, b: string, c: string, d: string)
    requires NoComma(a) && NoComma(b) && NoComma(c)
    ensures ParseIndex(a + "," + b + "," + c + "," + d) ==
            Assemble(ParseU64(a, 10), ParseU64(b, 10), ParseU64(c, 10), ParseU64(d, 16))
  {
    var line := a + "," + b + "," + c + "," + d;
    FourFields(line, a, b, c, d);
    ParseAt(line, |a|, |a| + 1 + |b|, |a| + |b| + 2 + |c|, a, b, c, d);
  }

  predicate Indexable(e: IndexEntry) {
    e.first <= e.last < U64 && e.count < U64 && e.hash < U64
  }

  /** An index line reads back. */
  lemma IndexRoundTrip(e: IndexEntry)
    requires Indexable(e)
    ensures ParseIndex(IndexLine(e)) == Some(e)
  {
    ParseFour(Dec(e.first), Dec(e.last), Dec(e.count), Hex(e.hash, 16));
    DecRoundTrip(e.first);
    DecRoundTrip(e.last);
    DecRoundTrip(e.count);
    HexRoundTrip(e.hash);
  }

  // ------------------------------------------------------- a torn index line

  /** The entries that the lines of an index hold.  Other lines are skipped. */
  function Entries(lines: seq<string>): (r: seq<IndexEntry>)
    ensures |r| <= |lines|
  {
    if lines == [] then [] else Entries(lines[..|lines| - 1]) + OneEntry(lines[|lines| - 1])
  }

  function OneEntry(line: string): (r: seq<IndexEntry>)
    ensures |r| <= 1
  {
    match ParseIndex(line)
    case None => []
    case Some(e) => [e]
  }

  function IndexEntries(index: string): seq<IndexEntry> {
    Entries(Lines(index))
  }

  /** A line of more than four fields is no entry. */
  lemma ParseFiveFields(line: string, p: nat, q: nat, r: nat, s: nat)
    requires p < q < r < s < |line| && line[p] == line[q] == line[r] == line[s] == ','
    ensures ParseIndex(line) == None
  {
    var p1 := Find(line, ',', 0);
    var p2 := Find(line, ',', p1 + 1);
    var p3 := Find(line, ',', p2 + 1);
    assert p1 <= p && p2 <= q && p3 <= r;
    var hash := line[p3 + 1..];
    assert hash[s - p3 - 1] == ',' && !IsDigit(',', 16);
  }

  /** An index line behind other text reads back exactly when the text is zeros. */
  lemma ParseBehind(t: string, e: IndexEntry)
    requires Indexable(e)
    ensures ParseIndex(t + IndexLine(e)) == Some(e) <==> Zeros(t)
    ensures !NoComma(t) ==> ParseIndex(t + IndexLine(e)) == None
  {
    var a, b, c, d := Dec(e.first), Dec(e.last), Dec(e.count), Hex(e.hash, 16);
    if NoComma(t) {
      FieldsBehind(t, a, b, c, d);
      ParseFour(t + a, b, c, d);
      NumberBehind(t, e.first);
      DecRoundTrip(e.last);
      DecRoundTrip(e.count);
      HexRoundTrip(e.hash);
    } else {
      var p :| 0 <= p < |t| && t[p] == ',';
      var q := |t| + |a|;
      ParseFiveFields(t + IndexLine(e), p, q, q + 1 + |b|, q + |b| + |c| + 2);
    }
  }

  lemma FieldsBehind(t: string, a: string, b: string, c: string, d: string)
    ensures t + (a + "," + b + "," + c + "," + d) == (t + a) + "," + b + "," + c + "," + d
  {
  }

  lemma NoCommaNoEntry(t: string)
    requires NoComma(t)
    ensures OneEntry(t) == []
  {
    FindUnique(t, ',', 0, |t|);
  }

  lemma EntriesLast(lines: seq<string>, line: string)
    ensures Entries(lines + [line]) == Entries(lines) + OneEntry(line)
  {
    assert (lines + [line])[..|lines|] == lines;
  }

  lemma IndexAppend(index: string, line: string)
    requires NoNewline(line)
    ensures IndexEntries(index + line + "\n") == Entries(ClosedLines(index)) + OneEntry(LastLine(index) + line)
  {
    LinesAppend(index, line);
    EntriesLast(ClosedLines(index), LastLine(index) + line);
  }

  lemma IndexSplit(index: string)
    ensures IndexEntries(index) == Entries(ClosedLines(index)) + if LastLine(index) == [] then [] else OneEntry(LastLine(index))
  {
    LinesSplit(index);
    if LastLine(index) != [] {
      EntriesLast(ClosedLines(index), LastLine(index));
    } else {
      assert ClosedLines(index) + [] == ClosedLines(index);
    }
  }

  /**
   * A line appended to an index adds its entry exactly when the index ended in a
   * newline, was empty, or ended in a line of zeros.
   */
  lemma AppendIndexIff(index: string, e: IndexEntry)
    requires Indexable(e)
    ensures IndexEntries(index + IndexLine(e) + "\n") == IndexEntries(index) + [e] <==> Zeros(LastLine(index))
  {
    var t := LastLine(index);
    IndexAppend(index, IndexLine(e));
    IndexSplit(index);
    ParseBehind(t, e);
    if NoComma(t) {
      NoCommaNoEntry(t);
    }
    LastCompare(Entries(ClosedLines(index)), OneEntry(t + IndexLine(e)), if t == [] then [] else OneEntry(t), e);
  }

  lemma LastCompare(base: seq<IndexEntry>, glued: seq<IndexEntry>, torn: seq<IndexEntry>, e: IndexEntry)
    requires |glued| <= 1
    ensures base + glued == base + torn + [e] <==> torn == [] && glued == [e]
  {
    if base + glued == base + torn + [e] {
      assert |glued| == |torn| + 1;
      assert glued[0] == (base + glued)[|base|] == e;
    }
  }

  /**
   * A crash that leaves a first field and a comma of an index line: the line that
   * the next store of the batch appends is lost with it.
   */
  lemma TornLineLosesReappend(e: IndexEntry, n: nat)
    requires Indexable(e) && |Dec(e.first)| < n <= |IndexLine(e)|
    ensures IndexEntries(IndexLine(e)[..n] + IndexLine(e) + "\n") == []
  {
    var t := IndexLine(e)[..n];
    OneLine(t);
    IndexAppend(t, IndexLine(e));
    FirstComma(e, n);
    ParseBehind(t, e);
  }

  lemma FirstComma(e: IndexEntry, n: nat)
    requires |Dec(e.first)| < n <= |IndexLine(e)|
    ensures !NoComma(IndexLine(e)[..n])
  {
    assert IndexLine(e)[..n][|Dec(e.first)|] == ',';
  }

  // --------------------------------------------------------------- loading

  /** The index entry asks for events at or after a step, and its numbers agree. */
  predicate Wanted(e: IndexEntry, from: nat) {
    && from <= e.last && 0 < e.count <= MAX_BATCH_EVENTS && (e.last - e.first + 1) % U64 == e.count
  }

  /** The payload of a batch file, when the file is what its hash says. */
  function OpenBatch(c: Format, files: map<nat, Bytes>, hash: nat): Option<Bytes> {
    if hash !in files then None
    else
      var bytes := files[hash];
      if |bytes| < HEADER_BYTES || |bytes| > HEADER_BYTES + MAX_PAYLOAD_BYTES then None
      else
        var view := Deserialize(bytes);
        if view.None? || view.value.hash != hash || view.value.row != c.row || c.hash(view.value.payload) != hash then None
        else Some(view.value.payload)
  }

  /** The events of an index entry, when its batch is whole, of the session and with consecutive steps. */
  function ReadEntry(c: Format, files: map<nat, Bytes>, session: nat, from: nat, e: IndexEntry): Option<seq<Event>> {
    if !Wanted(e, from) then None
    else
      var payload := OpenBatch(c, files, e.hash);
      if payload.None? then None else ReadPayload(payload.value, session, e)
  }

  function ReadPayload(payload: Bytes, session: nat, e: IndexEntry): Option<seq<Event>> {
    if e.count == 0 || |payload| != e.count * RECORD_BYTES then None
    else
      var events := DecodeLog(payload);
      if events.None? || First(events.value) != e.first || Last(events.value) != e.last then None
      else if OneSession(events.value, session) && Consecutive(events.value) then events
      else None
  }

  function ReadLine(c: Format, files: map<nat, Bytes>, session: nat, from: nat, line: string): Option<seq<Event>> {
    var e := ParseIndex(line);
    if e.None? then None else ReadEntry(c, files, session, from, e.value)
  }

  function ReadAll(c: Format, files: map<nat, Bytes>, session: nat, from: nat, lines: seq<string>): (r: seq<Option<seq<Event>>>)
    ensures |r| == |lines|
  {
    seq(|lines|, i requires 0 <= i < |lines| => ReadLine(c, files, session, from, lines[i]))
  }

  /** What was loaded so far, and the last step of the last batch that was taken. */
  datatype Loaded = Loaded(events: seq<Event>, highest: Option<nat>)

  /** The events of a batch at or after a step. */
  function Suffix(events: seq<Event>, from: nat): seq<Event>
    requires events != []
  {
    events[Min(SubSat(from, First(events)), |events|)..]
  }

  predicate AllLater(events: seq<Event>, highest: Option<nat>) {
    highest.Some? ==> forall i :: 0 <= i < |events| ==> events[i].step > highest.value
  }

  function Accept(out: Loaded, batch: Option<seq<Event>>, from: nat): Loaded {
    if batch.None? || batch.value == [] || !AllLater(batch.value, out.highest) then out
    else Loaded(out.events + Suffix(batch.value, from), Some(Last(batch.value)))
  }

  function AcceptAll(batches: seq<Option<seq<Event>>>, from: nat): Loaded {
    if batches == [] then Loaded([], None)
    else Accept(AcceptAll(batches[..|batches| - 1], from), batches[|batches| - 1], from)
  }

  /** What a directory loads as. */
  function LoadDir(c: Format, dir: Dir, session: nat, from: nat): seq<Event> {
    AcceptAll(ReadAll(c, dir.files, session, from, Lines(dir.index)), from).events
  }

  /** The checks of one batch against the session and what is loaded, event by event. */
  method CheckBatch(events: seq<Event>, session: nat, highest: Option<nat>) returns (valid: bool)
    ensures valid <==> OneSession(events, session) && Consecutive(events) && AllLater(events, highest)
  {
    for i := 0 to |events|
      invariant OneSession(events[..i], session) && Consecutive(events[..i]) && AllLater(events[..i], highest)
    {
      var event := events[i];
      if event.session != session {
        return false;
      }
      if i != 0 && !Follows(events[i - 1], event) {
        assert !Consecutive(events);
        return false;
      }
      if highest.Some? && event.step <= highest.value {
        return false;
      }
      assert events[..i + 1] == events[..i] + [event];
    }
    assert events[..|events|] == events;
    return true;
  }

  /** Takes one index line. */
  method LoadLine(c: Format, files: map<nat, Bytes>, session: nat, from: nat, line: string, out: Loaded) returns (r: Loaded)
    ensures r == Accept(out, ReadLine(c, files, session, from, line), from)
  {
    var parsed := ParseIndex(line);
    if parsed.None? || !Wanted(parsed.value, from) {
      return out;
    }
    var e := parsed.value;
    var payload := OpenBatch(c, files, e.hash);
    if payload.None? || |payload.value| != e.count * RECORD_BYTES {
      return out;
    }
    var decoded := DecodeLog(payload.value);
    if decoded.None? || First(decoded.value) != e.first || Last(decoded.value) != e.last {
      return out;
    }
    var valid := CheckBatch(decoded.value, session, out.highest);
    if !valid {
      return out;
    }
    r := Loaded(out.events + Suffix(decoded.value, from), Some(Last(decoded.value)));
  }

  /** Loads the events of a session from a step on. */
  method LoadEvents(c: Format, dir: Dir, session: nat, from: nat) returns (events: seq<Event>)
    ensures events == LoadDir(c, dir, session, from)
  {
    var out := Loaded([], None);
    var rest := dir.index;
    ghost var read: seq<string> := [];
    while rest != []
      invariant read + Lines(rest) == Lines(dir.index)
      invariant out == AcceptAll(ReadAll(c, dir.files, session, from, read), from)
      decreases |rest|
    {
      LinesStep(rest, read);
      AcceptLast(c, dir.files, session, from, read, FirstLine(rest));
      out := LoadLine(c, dir.files, session, from, FirstLine(rest), out);
      read := read + [FirstLine(rest)];
      rest := AfterLine(rest);
    }
    assert read == Lines(dir.index);
    events := out.events;
  }

  lemma AcceptLast(c: Format, files: map<nat, Bytes>, session: nat, from: nat, lines: seq<string>, line: string)
    ensures AcceptAll(ReadAll(c, files, session, from, lines + [line]), from) ==
            Accept(AcceptAll(ReadAll(c, files, session, from, lines), from), ReadLine(c, files, session, from, line), from)
  {
    assert ReadAll(c, files, session, from, lines + [line])[..|lines|] == ReadAll(c, files, session, from, lines);
  }

  /** The events at or after a step, one by one. */
  ghost function AtOrAfter(events: seq<Event>, from: nat): seq<Event> {
    if events == [] then []
    else
      var n := |events| - 1;
      AtOrAfter(events[..n], from) + if events[n].step >= from then [events[n]] else []
  }

  lemma {:induction false} AtOrAfterConcat(a: seq<Event>, b: seq<Event>, from: nat)
    ensures AtOrAfter(a + b, from) == AtOrAfter(a, from) + AtOrAfter(b, from)
  {
    if b == [] {
      assert a + b == a;
    } else {
      AtOrAfterConcat(a, b[..|b| - 1], from);
      assert (a + b)[..|a + b| - 1] == a + b[..|b| - 1];
    }
  }

  /** An event is kept exactly when it is there and its step is at or after the step. */
  lemma {:induction false} AtOrAfterIff(events: seq<Event>, from: nat, e: Event)
    ensures e in AtOrAfter(events, from) <==> e in events && e.step >= from
  {
    if events != [] {
      AtOrAfterIff(events[..|events| - 1], from, e);
      assert events == events[..|events| - 1] + [events[|events| - 1]];
    }
  }

  /** When the steps count up, what the loader keeps of the first n events of a batch is one suffix. */
  lemma {:induction false} KeptOf(events: seq<Event>, from: nat, n: nat)
    requires events != [] && Consecutive(events) && n <= |events|
    ensures AtOrAfter(events[..n], from) == events[Min(SubSat(from, First(events)), n)..n]
  {
    if n > 0 {
      KeptOf(events, from, n - 1);
      StepsCountUp(events, n - 1);
      assert events[..n][..n - 1] == events[..n - 1];
    }
  }

  /** The suffix that the loader takes of a batch is its events at or after the step. */
  lemma SuffixIsFilter(events: seq<Event>, from: nat)
    requires events != [] && Consecutive(events)
    ensures Suffix(events, from) == AtOrAfter(events, from)
  {
    KeptOf(events, from, |events|);
    assert events[..|events|] == events;
  }

  /** The batches that the loader takes, whole: each read batch whose steps are all later than the last one taken. */
  ghost function TakenEvents(batches: seq<Option<seq<Event>>>): Loaded {
    if batches == [] then Loaded([], None)
    else
      var out, batch := TakenEvents(batches[..|batches| - 1]), batches[|batches| - 1];
      if batch.None? || batch.value == [] || !AllLater(batch.value, out.highest) then out
      else Loaded(out.events + batch.value, Some(Last(batch.value)))
  }

  lemma {:induction false} AcceptIsFilter(batches: seq<Option<seq<Event>>>, from: nat)
    requires forall i :: 0 <= i < |batches| && batches[i].Some? ==> Consecutive(batches[i].value)
    ensures AcceptAll(batches, from) == TakenEvents(batches).(events := AtOrAfter(TakenEvents(batches).events, from))
  {
    if batches != [] {
      var n := |batches| - 1;
      AcceptIsFilter(batches[..n], from);
      if batches[n].Some? && batches[n].value != [] {
        SuffixIsFilter(batches[n].value, from);
        AtOrAfterConcat(TakenEvents(batches[..n]).events, batches[n].value, from);
      }
    }
  }

  /**
   * Whatever the index and the batch files hold, the loaded events are those at or
   * after the step of the batches that the loader takes, event by event.
   */
  lemma LoadIsFilter(c: Format, dir: Dir, session: nat, from: nat)
    ensures var taken := TakenEvents(ReadAll(c, dir.files, session, from, Lines(dir.index))).events;
            LoadDir(c, dir, session, from) == AtOrAfter(taken, from)
  {
    AcceptIsFilter(ReadAll(c, dir.files, session, from, Lines(dir.index)), from);
  }

  // --------------------------------------------------- whatever is on disk

  ghost predicate StrictlyIncreasing(events: seq<Event>) {
    forall i, j :: 0 <= i < j < |events| ==> events[i].step < events[j].step
  }

  /** What holds of the loaded events at any time. */
  ghost predicate LoadedFits(out: Loaded, session: nat, from: nat) {
    && StrictlyIncreasing(out.events) && OneSession(out.events, session)
    && (forall i :: 0 <= i < |out.events| ==> out.events[i].step >= from)
    && (out.highest.None? <==> out.events == [])
    && (out.highest.Some? ==> out.events[|out.events| - 1].step == out.highest.value)
  }

  /** A batch that the loader can take. */
  ghost predicate Takeable(batch: Option<seq<Event>>, session: nat, from: nat) {
    batch.Some? ==>
      batch.value != [] && OneSession(batch.value, session) && Consecutive(batch.value) && from <= Last(batch.value)
  }

  lemma SuffixFits(events: seq<Event>, session: nat, from: nat)
    requires events != [] && OneSession(events, session) && Consecutive(events) && from <= Last(events)
    ensures var s := Suffix(events, from);
            && s != [] && Last(s) == Last(events) && StrictlyIncreasing(s) && OneSession(s, session)
            && forall i :: 0 <= i < |s| ==> s[i].step >= from && s[i].step >= First(events)
  {
    forall i: nat | i < |events| ensures events[i].step == First(events) + i {
      StepsCountUp(events, i);
    }
  }

  lemma AcceptKeeps(out: Loaded, batch: Option<seq<Event>>, session: nat, from: nat)
    requires LoadedFits(out, session, from) && Takeable(batch, session, from)
    ensures LoadedFits(Accept(out, batch, from), session, from)
  {
    if batch.Some? && AllLater(batch.value, out.highest) {
      SuffixFits(batch.value, session, from);
      var s := Suffix(batch.value, from);
      assert out.highest.Some? ==> First(batch.value) > out.highest.value;
      assert forall i :: 0 <= i < |out.events| ==> out.events[i].step < s[0].step;
    }
  }

  lemma {:induction false} AcceptAllFits(batches: seq<Option<seq<Event>>>, session: nat, from: nat)
    requires forall i :: 0 <= i < |batches| ==> Takeable(batches[i], session, from)
    ensures LoadedFits(AcceptAll(batches, from), session, from)
  {
    if batches != [] {
      AcceptAllFits(batches[..|batches| - 1], session, from);
      AcceptKeeps(AcceptAll(batches[..|batches| - 1], from), batches[|batches| - 1], session, from);
    }
  }

  /**
   * Whatever the index and the batch files hold, the loaded events are of one
   * session, at or after the step asked for, and in strictly increasing order.
   */
  lemma LoadAlwaysFits(c: Format, dir: Dir, session: nat, from: nat)
    ensures var events := LoadDir(c, dir, session, from);
            && StrictlyIncreasing(events) && OneSession(events, session)
            && forall i :: 0 <= i < |events| ==> events[i].step >= from
  {
    AcceptAllFits(ReadAll(c, dir.files, session, from, Lines(dir.index)), session, from);
  }

  // ------------------------------------------------------------ persisting

  function EntryOf(c: Format, events: seq<Event>): IndexEntry
    requires events != []
  {
    IndexEntry(First(events), Last(events), |events|, c.hash(Payload(events)))
  }

  /** The file of a batch. */
  function Sealed(c: Format, events: seq<Event>): Option<Bytes> {
    var payload := Payload(events);
    Serialize(View(c.hash(payload), c.row, payload))
  }

  /** A batch always has a file. */
  lemma SealedFits(c: Format, events: seq<Event>)
    requires FormatFits(c) && Batch(events)
    ensures var view := View(c.hash(Payload(events)), c.row, Payload(events));
            && Sealed(c, events).Some? && |Sealed(c, events).value| == HEADER_BYTES + |Payload(events)|
            && Deserialize(Sealed(c, events).value) == Some(view)
  {
    DecodePayload(events);
    SealFits(c, Payload(events));
  }

  lemma SealFits(c: Format, payload: Bytes)
    requires FormatFits(c) && |payload| <= MAX_PAYLOAD_BYTES
    ensures var view := View(c.hash(payload), c.row, payload);
            && Serialize(view).Some? && |Serialize(view).value| == HEADER_BYTES + |payload|
            && Deserialize(Serialize(view).value) == Some(view)
  {
    EntryReads(View(c.hash(payload), c.row, payload));
  }

  /** The index lines of the batches that a directory stores. */
  function IndexLines(c: Format, stored: seq<seq<Event>>): (r: seq<string>)
    requires forall i :: 0 <= i < |stored| ==> stored[i] != []
    ensures |r| == |stored|
  {
    seq(|stored|, i requires 0 <= i < |stored| => IndexLine(EntryOf(c, stored[i])))
  }

  /** A directory holds batches: one index line for each, and the file of each. */
  ghost predicate Stores(c: Format, dir: Dir, stored: seq<seq<Event>>) {
    && (forall i :: 0 <= i < |stored| ==> Batch(stored[i]))
    && dir.index == JoinLines(IndexLines(c, stored))
    && (forall i :: 0 <= i < |stored| ==> HasFile(c, dir.files, stored[i]))
  }

  ghost predicate HasFile(c: Format, files: map<nat, Bytes>, events: seq<Event>)
    requires events != []
  {
    var hash := EntryOf(c, events).hash;
    hash in files && Some(files[hash]) == Sealed(c, events)
  }

  /** The directory after a batch is stored. */
  function WithBatch(c: Format, dir: Dir, events: seq<Event>): Dir
    requires events != [] && Sealed(c, events).Some?
  {
    var e := EntryOf(c, events);
    Dir(dir.index + IndexLine(e) + "\n", dir.files[e.hash := Sealed(c, events).value])
  }

  lemma StoresMore(c: Format, dir: Dir, stored: seq<seq<Event>>, events: seq<Event>)
    requires Stores(c, dir, stored) && Batch(events) && Sealed(c, events).Some?
    requires EntryOf(c, events).hash in dir.files ==> HasFile(c, dir.files, events)
    ensures Stores(c, WithBatch(c, dir, events), stored + [events])
  {
    var more, after := stored + [events], WithBatch(c, dir, events);
    IndexGrows(c, stored, events);
    forall i | 0 <= i < |more| ensures Batch(more[i]) && HasFile(c, after.files, more[i]) {
      if i < |stored| {
        FileKept(c, dir.files, stored[i], events);
      }
    }
  }

  lemma IndexGrows(c: Format, stored: seq<seq<Event>>, events: seq<Event>)
    requires (forall i :: 0 <= i < |stored| ==> stored[i] != []) && events != []
    ensures JoinLines(IndexLines(c, stored + [events])) == JoinLines(IndexLines(c, stored)) + IndexLine(EntryOf(c, events)) + "\n"
  {
    JoinAppend(IndexLines(c, stored), IndexLine(EntryOf(c, events)));
    assert IndexLines(c, stored + [events]) == IndexLines(c, stored) + [IndexLine(EntryOf(c, events))];
  }

  /** A new file does not change the file of a stored batch. */
  lemma FileKept(c: Format, files: map<nat, Bytes>, before: seq<Event>, events: seq<Event>)
    requires before != [] && events != [] && Sealed(c, events).Some? && HasFile(c, files, before)
    requires EntryOf(c, events).hash in files ==> HasFile(c, files, events)
    ensures HasFile(c, files[EntryOf(c, events).hash := Sealed(c, events).value], before)
  {
  }

  /** The store of one session. */
  class SessionStore {
    const format: Format
    var dir: Dir
    ghost var stored: seq<seq<Event>>

    constructor (format: Format)
      ensures this.format == format && Valid() && stored == []
    {
      this.format := format;
      dir, stored := Dir([], map[]), [];
    }

    /** A store on the directory that a run left. */
    constructor Open(format: Format, dir: Dir)
      ensures this.format == format && this.dir == dir
    {
      this.format := format;
      this.dir, stored := dir, [];
    }

    /** The directory holds what was stored, and no torn line. */
    ghost predicate Valid()
      reads this
    {
      Stores(format, dir, stored)
    }

    /** Whether a batch can be stored: it is not empty, not too long, of one session and with consecutive steps. */
    method CheckPersist(events: seq<Event>) returns (ok: bool)
      requires AllEvents(events)
      ensures ok <==> Batch(events)
    {
      if |events| == 0 || |events| > MAX_BATCH_EVENTS {
        return false;
      }
      for i := 1 to |events|
        invariant forall k :: 0 <= k < i ==> events[k].session == events[0].session
        invariant forall k :: 0 < k < i ==> Follows(events[k - 1], events[k])
      {
        if events[i].session != events[0].session {
          return false;
        }
        if !Follows(events[i - 1], events[i]) {
          return false;
        }
      }
      return true;
    }

    /**
     * Stores a batch and returns its hash, whatever the directory holds.  None
     * means that the batch is not valid, that it has no file, which SealedFits
     * rules out, or that its hash names a file with other bytes.  Then nothing
     * changes.
     */
    method Persist(events: seq<Event>) returns (hash: Option<nat>)
      requires AllEvents(events)
      modifies this`dir, this`stored
      ensures old(Valid()) ==> Valid()
      ensures hash.None? <==>
              || !Batch(events) || Sealed(format, events).None?
              || (EntryOf(format, events).hash in old(dir).files && !HasFile(format, old(dir).files, events))
      ensures hash.None? ==> dir == old(dir) && stored == old(stored)
      ensures hash.Some? ==> hash.value == EntryOf(format, events).hash && stored == old(stored) + [events]
      ensures hash.Some? ==> Sealed(format, events).Some? && dir == WithBatch(format, old(dir), events)
    {
      var ok := CheckPersist(events);
      if !ok {
        return None;
      }
      var e, bytes := EntryOf(format, events), Sealed(format, events);
      if bytes.None? || (e.hash in dir.files && dir.files[e.hash] != bytes.value) {
        return None;
      }
      if Valid() {
        StoresMore(format, dir, stored, events);
      }
      dir := Dir(dir.index + IndexLine(e) + "\n", dir.files[e.hash := bytes.value]);
      stored := stored + [events];
      return Some(e.hash);
    }
  }

  // ------------------------------------------------------------ round trip

  /** A stored batch reads back from its index line, when it has an event at or after the step. */
  lemma ReadStored(c: Format, dir: Dir, stored: seq<seq<Event>>, i: nat, session: nat, from: nat)
    requires FormatFits(c) && Stores(c, dir, stored) && i < |stored| && OneSession(stored[i], session)
    ensures ReadLine(c, dir.files, session, from, IndexLine(EntryOf(c, stored[i]))) ==
            if from <= Last(stored[i]) then Some(stored[i]) else None
  {
    var events := stored[i];
    StepsCountUp(events, |events| - 1);
    IndexRoundTrip(EntryOf(c, events));
    ReadEntryStored(c, dir.files, events, session, from);
  }

  lemma ReadEntryStored(c: Format, files: map<nat, Bytes>, events: seq<Event>, session: nat, from: nat)
    requires FormatFits(c) && Batch(events) && HasFile(c, files, events) && OneSession(events, session)
    ensures ReadEntry(c, files, session, from, EntryOf(c, events)) == if from <= Last(events) then Some(events) else None
  {
    OpenStored(c, files, events);
    PayloadReads(events, session, EntryOf(c, events));
    WantedIff(events, EntryOf(c, events), from);
  }

  lemma WantedIff(events: seq<Event>, e: IndexEntry, from: nat)
    requires Batch(events) && e.first == First(events) && e.last == Last(events) && e.count == |events|
    ensures Wanted(e, from) <==> from <= Last(events)
  {
    StepsCountUp(events, |events| - 1);
  }

  lemma PayloadReads(events: seq<Event>, session: nat, e: IndexEntry)
    requires Batch(events) && OneSession(events, session)
    requires e.first == First(events) && e.last == Last(events) && e.count == |events|
    ensures ReadPayload(Payload(events), session, e) == Some(events)
  {
    DecodePayload(events);
  }

  lemma OpenStored(c: Format, files: map<nat, Bytes>, events: seq<Event>)
    requires FormatFits(c) && Batch(events) && HasFile(c, files, events)
    ensures OpenBatch(c, files, EntryOf(c, events).hash) == Some(Payload(events))
  {
    DecodePayload(events);
    SealedFits(c, events);
    var file := Sealed(c, events).value;
    OpenFile(c, files, EntryOf(c, events).hash, file, Payload(events));
  }

  lemma OpenFile(c: Format, files: map<nat, Bytes>, hash: nat, file: Bytes, payload: Bytes)
    requires hash in files && files[hash] == file && |file| == HEADER_BYTES + |payload| <= HEADER_BYTES + MAX_PAYLOAD_BYTES
    requires Deserialize(file) == Some(View(hash, c.row, payload)) && hash == c.hash(payload)
    ensures OpenBatch(c, files, hash) == Some(payload)
  {
  }

  /** Batches in the order of their steps, where a batch may be stored again right after itself. */
  ghost predicate InOrder(stored: seq<seq<Event>>) {
    && (forall i :: 0 <= i < |stored| ==> stored[i] != [])
    && (forall i :: 0 < i < |stored| ==> stored[i] == stored[i - 1] || Last(stored[i - 1]) < First(stored[i]))
  }

  /** The events of the batches in order, where a batch that follows itself counts once. */
  ghost function Once(stored: seq<seq<Event>>): seq<Event> {
    if stored == [] then []
    else
      var n := |stored| - 1;
      if n > 0 && stored[n] == stored[n - 1] then Once(stored[..n]) else Once(stored[..n]) + stored[n]
  }

  /** What reading the index lines of stored batches results in. */
  ghost predicate ReadsOf(results: seq<Option<seq<Event>>>, stored: seq<seq<Event>>, from: nat)
    requires forall i :: 0 <= i < |stored| ==> stored[i] != []
  {
    && |results| == |stored|
    && (forall i :: 0 <= i < |stored| ==> results[i] == if from <= Last(stored[i]) then Some(stored[i]) else None)
  }

  /** What is loaded after stored batches: their events, up to the last batch that reaches the step. */
  ghost predicate LoadedOf(out: Loaded, stored: seq<seq<Event>>, from: nat)
    requires forall i :: 0 <= i < |stored| ==> stored[i] != []
  {
    && out.events == AtOrAfter(Once(stored), from)
    && (out.highest.Some? ==> stored != [] && out.highest.value <= Last(stored[|stored| - 1]))
    && (stored != [] && from <= Last(stored[|stored| - 1]) ==> out.highest == Some(Last(stored[|stored| - 1])))
  }

  lemma NoneAfter(events: seq<Event>, from: nat)
    requires events != [] && Consecutive(events) && from > Last(events)
    ensures AtOrAfter(events, from) == []
  {
    StepsCountUp(events, |events| - 1);
    SuffixIsFilter(events, from);
  }

  ghost predicate Repeats(stored: seq<seq<Event>>) {
    |stored| > 1 && stored[|stored| - 1] == stored[|stored| - 2]
  }

  /** What the last batch adds to the answer. */
  lemma OnceNext(stored: seq<seq<Event>>, from: nat)
    requires stored != []
    ensures var n := |stored| - 1;
            AtOrAfter(Once(stored), from) ==
            if Repeats(stored) then AtOrAfter(Once(stored[..n]), from)
            else AtOrAfter(Once(stored[..n]), from) + AtOrAfter(stored[n], from)
  {
    var n := |stored| - 1;
    AtOrAfterConcat(Once(stored[..n]), stored[n], from);
  }

  /** A batch that is stored again is not later than itself, and any other is later than all before it. */
  lemma LaterIff(out: Loaded, stored: seq<seq<Event>>, from: nat)
    requires stored != [] && InOrder(stored) && Consecutive(stored[|stored| - 1]) && from <= Last(stored[|stored| - 1])
    requires LoadedOf(out, stored[..|stored| - 1], from)
    ensures AllLater(stored[|stored| - 1], out.highest) <==> !Repeats(stored)
  {
    var n := |stored| - 1;
    var last := stored[n];
    StepsCountUp(last, |last| - 1);
    if Repeats(stored) {
      assert out.highest == Some(Last(last)) && last[0].step <= out.highest.value;
    } else {
      forall i: nat | i < |last| ensures last[i].step >= First(last) {
        StepsCountUp(last, i);
      }
    }
  }

  lemma AcceptStep(out: Loaded, stored: seq<seq<Event>>, from: nat)
    requires stored != [] && InOrder(stored) && Consecutive(stored[|stored| - 1])
    requires LoadedOf(out, stored[..|stored| - 1], from)
    ensures var last := stored[|stored| - 1];
            LoadedOf(Accept(out, if from <= Last(last) then Some(last) else None, from), stored, from)
  {
    var last := stored[|stored| - 1];
    OnceNext(stored, from);
    HighestBelow(out, stored, from);
    if from > Last(last) {
      NoneAfter(last, from);
    } else {
      LaterIff(out, stored, from);
      SuffixIsFilter(last, from);
    }
  }

  lemma HighestBelow(out: Loaded, stored: seq<seq<Event>>, from: nat)
    requires stored != [] && InOrder(stored) && Consecutive(stored[|stored| - 1])
    requires LoadedOf(out, stored[..|stored| - 1], from)
    ensures out.highest.Some? ==> out.highest.value <= Last(stored[|stored| - 1])
    ensures Repeats(stored) && from <= Last(stored[|stored| - 1]) ==> out.highest == Some(Last(stored[|stored| - 1]))
  {
    StepsCountUp(stored[|stored| - 1], |stored[|stored| - 1]| - 1);
  }

  lemma {:induction false} AcceptStored(results: seq<Option<seq<Event>>>, stored: seq<seq<Event>>, from: nat)
    requires InOrder(stored) && ReadsOf(results, stored, from) && forall i :: 0 <= i < |stored| ==> Consecutive(stored[i])
    ensures LoadedOf(AcceptAll(results, from), stored, from)
  {
    if stored != [] {
      var n := |stored| - 1;
      AcceptStored(results[..n], stored[..n], from);
      AcceptStep(AcceptAll(results[..n], from), stored, from);
    }
  }

  /**
   * After batches of a session were stored in the order of their steps, with any
   * immediate repeats, loading returns exactly their events from the step on,
   * each once: an event is loaded if and only if a stored batch holds it and its
   * step is at or after the step.
   */
  lemma LoadReturnsStored(c: Format, dir: Dir, stored: seq<seq<Event>>, session: nat, from: nat)
    requires FormatFits(c) && Stores(c, dir, stored) && InOrder(stored)
    requires forall i :: 0 <= i < |stored| ==> OneSession(stored[i], session)
    ensures LoadDir(c, dir, session, from) == AtOrAfter(Once(stored), from)
    ensures forall e :: e in LoadDir(c, dir, session, from) <==> e.step >= from && IsStored(stored, e)
  {
    var lines := IndexLines(c, stored);
    JoinedRead(lines);
    var results := ReadAll(c, dir.files, session, from, lines);
    forall i | 0 <= i < |stored| ensures results[i] == if from <= Last(stored[i]) then Some(stored[i]) else None {
      ReadStored(c, dir, stored, i, session, from);
    }
    AcceptStored(results, stored, from);
    AnswerHolds(stored, from);
  }

  lemma AnswerHolds(stored: seq<seq<Event>>, from: nat)
    ensures forall e :: e in AtOrAfter(Once(stored), from) <==> e.step >= from && IsStored(stored, e)
  {
    forall e ensures e in AtOrAfter(Once(stored), from) <==> e.step >= from && IsStored(stored, e) {
      AtOrAfterIff(Once(stored), from, e);
      OnceHolds(stored, e);
    }
  }

  ghost predicate IsStored(stored: seq<seq<Event>>, e: Event) {
    exists i :: 0 <= i < |stored| && e in stored[i]
  }

  lemma {:induction false} OnceHolds(stored: seq<seq<Event>>, e: Event)
    ensures e in Once(stored) <==> IsStored(stored, e)
  {
    if stored != [] {
      var n := |stored| - 1;
      OnceHolds(stored[..n], e);
      assert IsStored(stored, e) <==> IsStored(stored[..n], e) || e in stored[n] by {
        assert forall i :: 0 <= i < n ==> stored[..n][i] == stored[i];
      }
      if n > 0 && stored[n] == stored[n - 1] && e in stored[n] {
        assert e in stored[..n][n - 1];
      }
    }
  }
}
