/**
 * The head log of the store: each commit appends one line of text, opening the
 * store reads the lines back, and a query finds the head at a step.
 */
module CipherLog {
  import opened Basics
  import opened Text

  /** An event of the log.  commits says that the event moves the head. */
  datatype Entry = Entry(step: nat, hash: nat, ts: nat, commits: bool)

  ghost predicate Sorted(log: seq<Entry>) {
    forall i, j :: 0 <= i < j < |log| ==> log[i].step <= log[j].step
  }

  // --------------------------------------------------------------- records

  function Record(e: Entry): (r: string)
    ensures NoNewline(r)
  {
    Dec(e.step) + "," + Hex(e.hash, 16) + "," + Dec(e.ts)
  }

  function Records(entries: seq<Entry>): (r: seq<string>)
    ensures |r| == |entries|
  {
    seq(|entries|, i requires 0 <= i < |entries| => Record(entries[i]))
  }

  /** The bytes that the commits append. */
  function LogText(entries: seq<Entry>): string {
    JoinLines(Records(entries))
  }

  function ParseLine(line: string): Option<Entry> {
    var p1 := Find(line, ',', 0);
    if p1 == |line| then None
    else
      var p2 := Find(line, ',', p1 + 1);
      if p2 == |line| then None
      else
        var step, hash, ts := ParseU64(line[..p1], 10), ParseU64(line[p1 + 1..p2], 16), ParseU64(line[p2 + 1..], 10);
        if step.Some? && hash.Some? && ts.Some? then Some(Entry(step.value, hash.value, ts.value, true)) else None
  }

  function ParseAll(lines: seq<string>): (r: seq<Option<Entry>>)
    ensures |r| == |lines|
  {
    seq(|lines|, i requires 0 <= i < |lines| => ParseLine(lines[i]))
  }

  /** The log after one line: a line that does not parse, or that is out of order, is skipped. */
  function Take(log: seq<Entry>, e: Option<Entry>): seq<Entry> {
    if e.None? || (log != [] && e.value.step < log[|log| - 1].step) then log else log + [e.value]
  }

  function TakeAll(log: seq<Entry>, parsed: seq<Option<Entry>>): seq<Entry> {
    if parsed == [] then log else Take(TakeAll(log, parsed[..|parsed| - 1]), parsed[|parsed| - 1])
  }

  /** The log that a text loads as. */
  function LoadText(text: string): seq<Entry> {
    TakeAll([], ParseAll(Lines(text)))
  }

  /** Reads the text line by line. */
  method LoadLog(text: string) returns (log: seq<Entry>)
    ensures log == LoadText(text)
  {
    log := [];
    var rest := text;
    ghost var read: seq<string> := [];
    while rest != []
      invariant read + Lines(rest) == Lines(text) && log == TakeAll([], ParseAll(read))
      decreases |rest|
    {
      LinesStep(rest, read);
      log := TakeLine(log, FirstLine(rest), read);
      read := read + [FirstLine(rest)];
      rest := AfterLine(rest);
    }
    assert read == Lines(text);
  }

  /** Takes one line, after the lines that were read. */
  method TakeLine(log: seq<Entry>, line: string, ghost read: seq<string>) returns (log': seq<Entry>)
    requires log == TakeAll([], ParseAll(read))
    ensures log' == TakeAll([], ParseAll(read + [line]))
  {
    TakeLast([], read, line);
    log' := Take(log, ParseLine(line));
  }

  /** Whatever the text holds, the loaded log is in the order of its steps. */
  lemma LoadIsSorted(text: string)
    ensures Sorted(LoadText(text))
  {
    TakeAllSorted(ParseAll(Lines(text)));
  }

  lemma {:induction false} TakeAllSorted(parsed: seq<Option<Entry>>)
    ensures Sorted(TakeAll([], parsed))
  {
    if parsed != [] {
      TakeAllSorted(parsed[..|parsed| - 1]);
    }
  }

  // ---------------------------------------------------------- crash prefix

  /** A record of the log fits the machine. */
  predicate Writable(e: Entry) {
    e.step < U64 && e.hash < U64 && e.ts < U64 && e.commits
  }

  /** A line of three fields. */
  lemma ParseFields(a: string, b: string, c: string)
    requires NoComma(a) && NoComma(b)
    ensures var step, hash, ts := ParseU64(a, 10), ParseU64(b, 16), ParseU64(c, 10);
            ParseLine(a + "," + b + "," + c) ==
            if step.Some? && hash.Some? && ts.Some? then Some(Entry(step.value, hash.value, ts.value, true)) else None
  {
    var line := a + "," + b + "," + c;
    FindUnique(line, ',', 0, |a|);
    FindUnique(line, ',', |a| + 1, |a| + 1 + |b|);
    assert line[..|a|] == a && line[|a| + 1..|a| + 1 + |b|] == b && line[|a| + 1 + |b| + 1..] == c;
  }

  lemma ParseOneField(a: string)
    requires NoComma(a)
    ensures ParseLine(a) == None
  {
    FindUnique(a, ',', 0, |a|);
  }

  lemma ParseTwoFields(a: string, b: string)
    requires NoComma(a) && NoComma(b)
    ensures ParseLine(a + "," + b) == None
  {
    var line := a + "," + b;
    FindUnique(line, ',', 0, |a|);
    FindUnique(line, ',', |a| + 1, |line|);
  }

  lemma FieldsBehind(t: string, a: string, b: string, c: string)
    ensures t + (a + "," + b + "," + c) == (t + a) + "," + b + "," + c
  {
  }

  /** A record behind zeros reads back. */
  lemma ParseRecord(z: string, e: Entry)
    requires Writable(e) && Zeros(z)
    ensures ParseLine(z + Record(e)) == Some(e)
  {
    var a, b, c := Dec(e.step), Hex(e.hash, 16), Dec(e.ts);
    FieldsBehind(z, a, b, c);
    ParseFields(z + a, b, c);
    NumberBehind(z, e.step);
    HexRoundTrip(e.hash);
    DecRoundTrip(e.ts);
  }

  /** A record that lost its end, behind zeros, reads as nothing, or as the same step and hash. */
  lemma ParseTorn(z: string, e: Entry, n: nat, line: string)
    requires Writable(e) && Zeros(z) && n <= |Record(e)| && line == z + Record(e)[..n]
    ensures var r := ParseLine(line);
            r.Some? ==> r.value.step == e.step && r.value.hash == e.hash && r.value.commits
  {
    var a, b, c := Dec(e.step), Hex(e.hash, 16), Dec(e.ts);
    var torn := Record(e)[..n];
    if n <= |a| {
      assert torn == a[..n];
      ParseOneField(z + torn);
    } else if n <= |a| + 17 {
      assert torn == a + "," + b[..n - |a| - 1];
      assert z + torn == (z + a) + "," + b[..n - |a| - 1];
      ParseTwoFields(z + a, b[..n - |a| - 1]);
    } else {
      assert torn == a + "," + b + "," + c[..n - |a| - 18];
      FieldsBehind(z, a, b, c[..n - |a| - 18]);
      ParseFields(z + a, b, c[..n - |a| - 18]);
      NumberBehind(z, e.step);
      HexRoundTrip(e.hash);
    }
  }

  /** A line of more than three fields is no record. */
  lemma ParseFourFields(line: string, p: nat, q: nat, r: nat)
    requires p < q < r < |line| && line[p] == line[q] == line[r] == ','
    ensures ParseLine(line) == None
  {
    var p1 := Find(line, ',', 0);
    var p2 := Find(line, ',', p1 + 1);
    assert p1 <= p && p2 <= q;
    var ts := line[p2 + 1..];
    assert ts[r - p2 - 1] == ',' && !IsDigit(',', 10);
  }

  /** Behind other text than zeros a record does not read back, and behind a comma it reads as nothing. */
  lemma ParseGlued(t: string, e: Entry)
    requires Writable(e) && !Zeros(t)
    ensures ParseLine(t + Record(e)) != Some(e)
    ensures !NoComma(t) ==> ParseLine(t + Record(e)) == None
  {
    var a, b, c := Dec(e.step), Hex(e.hash, 16), Dec(e.ts);
    if NoComma(t) {
      FieldsBehind(t, a, b, c);
      ParseFields(t + a, b, c);
      NumberBehind(t, e.step);
    } else {
      var p :| 0 <= p < |t| && t[p] == ',';
      ParseFourFields(t + Record(e), p, |t| + |a|, |t| + |a| + 17);
    }
  }

  /** Two logs commit the same hashes at the same steps. */
  ghost predicate SamePairs(a: seq<Entry>, b: seq<Entry>) {
    |a| == |b| && forall i :: 0 <= i < |a| ==> a[i].step == b[i].step && a[i].hash == b[i].hash
  }

  /** Entries that the commits of a run write. */
  ghost predicate Committed(entries: seq<Entry>) {
    Sorted(entries) && forall i :: 0 <= i < |entries| ==> Writable(entries[i])
  }

  /** Whatever the text holds, the loaded log is one that commits could have made. */
  lemma LoadIsCommitted(text: string)
    ensures Committed(LoadText(text))
  {
    forall i | 0 <= i < |Lines(text)| ensures WritableIfAny(ParseAll(Lines(text))[i]) {
      ParsedIsWritable(Lines(text)[i]);
    }
    TakeAllCommitted(ParseAll(Lines(text)));
  }

  ghost predicate WritableIfAny(e: Option<Entry>) {
    e.Some? ==> Writable(e.value)
  }

  lemma ParsedIsWritable(line: string)
    ensures WritableIfAny(ParseLine(line))
  {
  }

  lemma TakeCommitted(log: seq<Entry>, e: Option<Entry>)
    requires Committed(log) && WritableIfAny(e)
    ensures Committed(Take(log, e))
  {
  }

  lemma {:induction false} TakeAllCommitted(parsed: seq<Option<Entry>>)
    requires forall i :: 0 <= i < |parsed| ==> WritableIfAny(parsed[i])
    ensures Committed(TakeAll([], parsed))
  {
    if parsed != [] {
      var n := |parsed| - 1;
      assert forall i :: 0 <= i < n ==> parsed[..n][i] == parsed[i];
      TakeAllCommitted(parsed[..n]);
      TakeCommitted(TakeAll([], parsed[..n]), parsed[n]);
    }
  }

  // ------------------------------------------------------ taking many lines

  /** One more line after lines that were taken. */
  lemma TakeLast(log: seq<Entry>, lines: seq<string>, line: string)
    ensures TakeAll(log, ParseAll(lines + [line])) == Take(TakeAll(log, ParseAll(lines)), ParseLine(line))
  {
    assert ParseAll(lines + [line])[..|lines|] == ParseAll(lines);
  }

  lemma TakeConcat(log: seq<Entry>, lines: seq<string>, more: seq<string>)
    ensures TakeAll(log, ParseAll(lines + more)) == TakeAll(TakeAll(log, ParseAll(lines)), ParseAll(more))
  {
    assert ParseAll(lines + more) == ParseAll(lines) + ParseAll(more);
    TakeAllConcat(log, ParseAll(lines), ParseAll(more));
  }

  lemma {:induction false} TakeAllConcat(log: seq<Entry>, parsed: seq<Option<Entry>>, more: seq<Option<Entry>>)
    ensures TakeAll(log, parsed + more) == TakeAll(TakeAll(log, parsed), more)
  {
    if more == [] {
      assert parsed + more == parsed;
    } else {
      var n := |more| - 1;
      TakeAllConcat(log, parsed, more[..n]);
      assert (parsed + more)[..|parsed| + n] == parsed + more[..n];
    }
  }

  /** Parsed lines in the order of their steps are all taken. */
  lemma {:induction false} TakeAllOrdered(log: seq<Entry>, parsed: seq<Option<Entry>>, entries: seq<Entry>)
    requires |parsed| == |entries| && Sorted(log + entries) && forall i :: 0 <= i < |entries| ==> parsed[i] == Some(entries[i])
    ensures TakeAll(log, parsed) == log + entries
  {
    if parsed == [] {
      assert log + entries == log;
    } else {
      var n := |parsed| - 1;
      assert log + entries == (log + entries[..n]) + [entries[n]];
      SortedFront(log + entries[..n], entries[n]);
      TakeAllOrdered(log, parsed[..n], entries[..n]);
    }
  }

  lemma SortedFront(log: seq<Entry>, e: Entry)
    requires Sorted(log + [e])
    ensures Sorted(log) && (log != [] ==> log[|log| - 1].step <= e.step)
  {
    assert forall i :: 0 <= i < |log| ==> log[i] == (log + [e])[i];
    if log != [] {
      assert (log + [e])[|log| - 1].step <= (log + [e])[|log|].step;
    }
  }

  /** Taking lines only appends, at most one entry for a line, and one for every line only when the first is taken. */
  lemma {:induction false} TakeAllGrows(log: seq<Entry>, parsed: seq<Option<Entry>>)
    ensures var all := TakeAll(log, parsed);
            && log <= all && |all| <= |log| + |parsed|
            && (parsed != [] && |all| == |log| + |parsed| ==> parsed[0].Some? && all[|log|] == parsed[0].value)
  {
    if parsed != [] {
      TakeAllGrows(log, parsed[..|parsed| - 1]);
    }
  }

  /** Lines below the last step of the log are all skipped. */
  lemma {:induction false} TakeNone(log: seq<Entry>, parsed: seq<Option<Entry>>)
    requires log != [] && forall i :: 0 <= i < |parsed| && parsed[i].Some? ==> parsed[i].value.step < log[|log| - 1].step
    ensures TakeAll(log, parsed) == log
  {
    if parsed != [] {
      TakeNone(log, parsed[..|parsed| - 1]);
    }
  }

  // ------------------------------------------------------- commits on a file

  /** The commits may follow the log: their steps do not go back. */
  ghost predicate Follows(log: seq<Entry>, entries: seq<Entry>) {
    log != [] && entries != [] ==> log[|log| - 1].step <= entries[0].step
  }

  lemma FollowsSorted(log: seq<Entry>, entries: seq<Entry>)
    requires Sorted(log) && Sorted(entries) && Follows(log, entries)
    ensures Sorted(log + entries)
  {
  }

  /** The log of a file is the log of its whole lines, and one entry more when its last line is a record. */
  lemma LoadSplit(bytes: string)
    ensures var base, t := TakeAll([], ParseAll(ClosedLines(bytes))), LastLine(bytes);
            LoadText(bytes) == if t == [] then base else Take(base, ParseLine(t))
  {
    LinesSplit(bytes);
    if LastLine(bytes) != [] {
      TakeLast([], ClosedLines(bytes), LastLine(bytes));
    } else {
      assert ClosedLines(bytes) + [] == ClosedLines(bytes);
    }
  }

  lemma ZerosLoad(bytes: string)
    requires Zeros(LastLine(bytes))
    ensures LoadText(bytes) == TakeAll([], ParseAll(ClosedLines(bytes)))
  {
    LoadSplit(bytes);
    ParseOneField(LastLine(bytes));
  }

  lemma LoadMore(bytes: string, more: string)
    ensures LoadText(bytes + more) ==
            TakeAll(TakeAll([], ParseAll(ClosedLines(bytes))), ParseAll(Lines(LastLine(bytes) + more)))
  {
    LinesGlue(bytes, more);
    TakeConcat([], ClosedLines(bytes), Lines(LastLine(bytes) + more));
  }

  /** Line i of commits behind zeros. */
  lemma LineReads(z: string, entries: seq<Entry>, i: nat)
    requires Committed(entries) && i < |entries| && Zeros(z)
    ensures ParseLine(Glued(z, Records(entries))[i]) == Some(entries[i])
  {
    if i == 0 {
      ParseRecord(z, entries[i]);
    } else {
      PlainReads(entries[i]);
    }
  }

  lemma LinesRead(z: string, entries: seq<Entry>, log: seq<Entry>, j: nat)
    requires Committed(entries) && entries != [] && j <= |entries| && Zeros(z) && Sorted(log) && Follows(log, entries)
    ensures TakeAll(log, ParseAll(Glued(z, Records(entries))[..j])) == log + entries[..j]
  {
    var parsed := ParseAll(Glued(z, Records(entries))[..j]);
    forall i | 0 <= i < j ensures parsed[i] == Some(entries[..j][i]) {
      LineReads(z, entries, i);
    }
    FollowsSorted(log, entries[..j]);
    TakeAllOrdered(log, parsed, entries[..j]);
  }

  /** The line that lost its end reads as nothing, or as its own pair. */
  lemma TornReads(z: string, entries: seq<Entry>, j: nat, left: nat)
    requires Committed(entries) && j < |entries| && Zeros(z)
    requires left <= |Glued(z, Records(entries))[j]| && (j == 0 ==> |z| <= left)
    ensures var torn := ParseLine(Glued(z, Records(entries))[j][..left]);
            torn.Some? ==> torn.value.step == entries[j].step && torn.value.hash == entries[j].hash
  {
    var line := Record(entries[j]);
    if j == 0 {
      TornLine(z, entries[j], z + line, left);
    } else {
      assert line == "" + line;
      TornLine("", entries[j], line, left);
    }
  }

  lemma TornLine(pad: string, e: Entry, line: string, left: nat)
    requires Writable(e) && Zeros(pad) && line == pad + Record(e) && |pad| <= left <= |line|
    ensures var torn := ParseLine(line[..left]);
            torn.Some? ==> torn.value.step == e.step && torn.value.hash == e.hash
  {
    ConcatFront(pad, Record(e), left);
    ParseTorn(pad, e, left - |pad|, line[..left]);
  }

  lemma ConcatFront(a: string, b: string, n: nat)
    requires |a| <= n <= |a + b|
    ensures (a + b)[..n] == a + b[..n - |a|]
  {
  }

  lemma TornTakes(lines: seq<string>, entries: seq<Entry>, log: seq<Entry>, j: nat, torn: string)
    requires j < |entries| && j <= |lines| && Sorted(entries) && Follows(log, entries)
    requires TakeAll(log, ParseAll(lines[..j])) == log + entries[..j]
    requires var e := ParseLine(torn); e.Some? ==> e.value.step == entries[j].step && e.value.hash == entries[j].hash
    ensures var k := if ParseLine(torn).Some? then j + 1 else j;
            SamePairs(TakeAll(log, ParseAll(lines[..j] + [torn])), log + entries[..k])
  {
    TakeLast(log, lines[..j], torn);
    OneMore(log, entries, j);
    TakePair(log + entries[..j], ParseLine(torn), entries[j]);
  }

  lemma OneMore(log: seq<Entry>, entries: seq<Entry>, j: nat)
    requires j < |entries| && Sorted(entries) && Follows(log, entries)
    ensures var taken := log + entries[..j];
            log + entries[..j + 1] == taken + [entries[j]] && (taken != [] ==> taken[|taken| - 1].step <= entries[j].step)
  {
  }

  lemma TakePair(log: seq<Entry>, torn: Option<Entry>, e: Entry)
    requires torn.Some? ==> torn.value.step == e.step && torn.value.hash == e.hash
    requires log != [] ==> log[|log| - 1].step <= e.step
    ensures SamePairs(Take(log, torn), if torn.Some? then log + [e] else log)
  {
  }

  /** How many whole lines the first n bytes of the log hold. */
  function WholeRecords(entries: seq<Entry>, n: nat): nat {
    WholeLines(Records(entries), n)
  }

  /**
   * Commits that follow what a file holds, when its last line is empty or zeros:
   * cut at any byte, the file loads as before and then a prefix of the committed
   * pairs of step and hash.  It has every whole line, and at most one pair more,
   * from the line that lost its end.  The whole file loads every commit.
   */
  lemma PrefixLoads(bytes: string, entries: seq<Entry>, n: nat) returns (k: nat)
    requires Zeros(LastLine(bytes))
    requires Committed(entries) && n <= |LogText(entries)| && Follows(LoadText(bytes), entries)
    ensures k <= |entries| && SamePairs(LoadText(bytes + LogText(entries)[..n]), LoadText(bytes) + entries[..k])
    ensures WholeRecords(entries, n) <= k <= WholeRecords(entries, n) + 1
    ensures n == |LogText(entries)| ==> LoadText(bytes + LogText(entries)[..n]) == LoadText(bytes) + entries
  {
    k := 0;
    if n == 0 {
      assert bytes + LogText(entries)[..0] == bytes && LoadText(bytes) + entries[..0] == LoadText(bytes);
    } else {
      k := CutBehind(bytes, entries, n);
    }
  }

  lemma CutBehind(bytes: string, entries: seq<Entry>, n: nat) returns (k: nat)
    requires Zeros(LastLine(bytes))
    requires Committed(entries) && 0 < n <= |LogText(entries)| && Follows(LoadText(bytes), entries)
    ensures k <= |entries| && SamePairs(LoadText(bytes + LogText(entries)[..n]), LoadText(bytes) + entries[..k])
    ensures WholeRecords(entries, n) <= k <= WholeRecords(entries, n) + 1
    ensures n == |LogText(entries)| ==> LoadText(bytes + LogText(entries)[..n]) == LoadText(bytes) + entries
  {
    var z, log := LastLine(bytes), LoadText(bytes);
    LoadIsCommitted(bytes);
    LastLineIsLine(bytes);
    ZerosLoad(bytes);
    LoadMore(bytes, LogText(entries)[..n]);
    var left := CutGlued(z, Records(entries), n);
    k := CutTakes(z, entries, log, WholeRecords(entries, n), left, n == |LogText(entries)|, Lines(z + LogText(entries)[..n]));
  }

  /** What a cut of the lines behind zeros leaves is a prefix of the pairs. */
  lemma CutTakes(z: string, entries: seq<Entry>, log: seq<Entry>, j: nat, left: nat, whole: bool, got: seq<string>) returns (k: nat)
    requires Committed(entries) && entries != [] && Zeros(z) && Sorted(log) && Follows(log, entries)
    requires CutFits(Glued(z, Records(entries)), j, left, whole, got) && (j == 0 ==> left >= |z|)
    ensures j <= k <= j + 1 && k <= |entries| && SamePairs(TakeAll(log, ParseAll(got)), log + entries[..k])
    ensures whole ==> TakeAll(log, ParseAll(got)) == log + entries
  {
    var lines := Glued(z, Records(entries));
    k := j;
    LinesRead(z, entries, log, j);
    if left > 0 {
      TornReads(z, entries, j, left);
      TornTakes(lines, entries, log, j, lines[j][..left]);
      k := if ParseLine(lines[j][..left]).Some? then j + 1 else j;
    } else {
      assert lines[..k] + [] == lines[..k];
    }
    assert entries[..|entries|] == entries;
  }

  lemma GluedIsLines(t: string, entries: seq<Entry>)
    requires NoNewline(t) && entries != []
    ensures forall i :: 0 <= i < |entries| ==> NoNewline(Glued(t, Records(entries))[i])
  {
  }

  /**
   * Commits after an open read back after what the open loaded exactly when the
   * file ended in a newline, was empty, or ended in a line of zeros.
   */
  lemma ReopenLoadsIff(bytes: string, entries: seq<Entry>)
    requires Committed(entries) && Follows(LoadText(bytes), entries)
    ensures LoadText(bytes + LogText(entries)) == LoadText(bytes) + entries <==> entries == [] || Zeros(LastLine(bytes))
  {
    if entries == [] {
      assert bytes + LogText(entries) == bytes;
    } else if Zeros(LastLine(bytes)) {
      var _ := PrefixLoads(bytes, entries, |LogText(entries)|);
      assert LogText(entries)[..|LogText(entries)|] == LogText(entries);
    } else {
      GluedIsLost(bytes, entries);
    }
  }

  /** Behind any other text the first commit is lost. */
  lemma GluedIsLost(bytes: string, entries: seq<Entry>)
    requires Committed(entries) && entries != [] && !Zeros(LastLine(bytes))
    ensures LoadText(bytes + LogText(entries)) != LoadText(bytes) + entries
  {
    var t, base := LastLine(bytes), TakeAll([], ParseAll(ClosedLines(bytes)));
    var lines := Glued(t, Records(entries));
    LoadSplit(bytes);
    LoadMore(bytes, LogText(entries));
    LastLineIsLine(bytes);
    GluedText(t, Records(entries));
    GluedIsLines(t, entries);
    JoinedRead(lines);
    ParseGlued(t, entries[0]);
    TakeAllGrows(base, ParseAll(lines));
    if NoComma(t) {
      ParseOneField(t);
    }
  }

  /**
   * A crash that leaves one byte of the commit of step 10, and commits from step
   * 11 on after the open: up to step 110 every one of them is lost, and the log
   * shows one commit, of step 111, that nobody made.
   */
  lemma TornTailInventsCommit(entries: seq<Entry>, hash: nat, ts: nat)
    requires Committed(entries) && entries != [] && entries[0].step == 11 && entries[|entries| - 1].step < 111
    ensures Record(Entry(10, hash, ts, true))[..1] == "1" && LoadText("1") == []
    ensures LoadText("1" + LogText(entries)) == [Entry(111, entries[0].hash, entries[0].ts, true)]
  {
    var e, lines := entries[0], Glued("1", Records(entries));
    var odd := Entry(111, e.hash, e.ts, true);
    OneByteLeft(hash, ts);
    OneLine("1");
    LoadMore("1", LogText(entries));
    GluedText("1", Records(entries));
    GluedIsLines("1", entries);
    JoinedRead(lines);
    GluedRead(e);
    LaterSkipped(lines, entries, odd);
  }

  lemma OneByteLeft(hash: nat, ts: nat)
    ensures Record(Entry(10, hash, ts, true))[..1] == "1" && LoadText("1") == []
  {
    assert Dec(10) == "10";
    OneLine("1");
    LoadSplit("1");
    ParseOneField("1");
  }

  lemma PlainReads(e: Entry)
    requires Writable(e)
    ensures ParseLine(Record(e)) == Some(e)
  {
    ParseRecord("", e);
    assert "" + Record(e) == Record(e);
  }

  lemma TakeOne(line: string, e: Entry)
    requires ParseLine(line) == Some(e)
    ensures TakeAll([], ParseAll([line])) == [e]
  {
    TakeLast([], [], line);
    assert [] + [line] == [line];
  }

  lemma LaterSkipped(lines: seq<string>, entries: seq<Entry>, odd: Entry)
    requires Committed(entries) && entries != [] && |lines| == |entries| && entries[|entries| - 1].step < odd.step
    requires ParseLine(lines[0]) == Some(odd) && forall i :: 1 <= i < |lines| ==> lines[i] == Record(entries[i])
    ensures TakeAll([], ParseAll(lines)) == [odd]
  {
    assert lines == [lines[0]] + lines[1..];
    TakeConcat([], [lines[0]], lines[1..]);
    TakeOne(lines[0], odd);
    RestBelow(entries, odd);
    SkipRest(lines[1..], entries[1..], odd);
  }

  lemma RestBelow(entries: seq<Entry>, odd: Entry)
    requires Committed(entries) && entries != [] && entries[|entries| - 1].step < odd.step
    ensures forall i :: 0 <= i < |entries[1..]| ==> Writable(entries[1..][i]) && entries[1..][i].step < odd.step
  {
  }

  lemma SkipRest(lines: seq<string>, entries: seq<Entry>, odd: Entry)
    requires |lines| == |entries| && forall i :: 0 <= i < |lines| ==> lines[i] == Record(entries[i])
    requires forall i :: 0 <= i < |entries| ==> Writable(entries[i]) && entries[i].step < odd.step
    ensures TakeAll([odd], ParseAll(lines)) == [odd]
  {
    var parsed := ParseAll(lines);
    forall i | 0 <= i < |lines| ensures parsed[i].Some? ==> parsed[i].value.step < odd.step {
      PlainReads(entries[i]);
    }
    TakeNone([odd], parsed);
  }

  lemma GluedRead(e: Entry)
    requires Writable(e) && e.step == 11
    ensures ParseLine("1" + Record(e)) == Some(Entry(111, e.hash, e.ts, true))
  {
    var a, b, c := Dec(11), Hex(e.hash, 16), Dec(e.ts);
    FieldsBehind("1", a, b, c);
    assert a == "11" && "1" + a == Dec(111);
    ParseFields(Dec(111), b, c);
    DecRoundTrip(111);
    HexRoundTrip(e.hash);
    DecRoundTrip(e.ts);
  }

  // ----------------------------------------------------------------- queries

  /** Entry i commits the head that holds at a step: no later entry up to the step commits. */
  ghost predicate HeadAt(log: seq<Entry>, step: nat, i: nat) {
    && i < |log| && log[i].commits && log[i].step <= step
    && (forall k :: i < k < |log| && log[k].step <= step ==> !log[k].commits)
  }

  /** The hash of the last commit at or before a step, found by halving and a walk back. */
  method HashAtStep(log: seq<Entry>, step: nat) returns (hash: Option<nat>, ghost at: nat)
    requires Sorted(log)
    ensures hash.Some? ==> HeadAt(log, step, at) && hash.value == log[at].hash
    ensures hash.None? <==> forall k :: 0 <= k < |log| && log[k].step <= step ==> !log[k].commits
  {
    var lo, hi := 0, |log|;
    while lo < hi
      invariant lo <= hi <= |log|
      invariant forall k :: 0 <= k < lo ==> log[k].step <= step
      invariant forall k :: hi <= k < |log| ==> log[k].step > step
    {
      var mid := lo + (hi - lo) / 2;
      if log[mid].step <= step {
        lo := mid + 1;
      } else {
        hi := mid;
      }
    }
    ghost var end := lo;
    at := 0;
    while lo > 0
      invariant lo <= end
      invariant forall k :: lo <= k < end ==> !log[k].commits
    {
      lo := lo - 1;
      if log[lo].commits {
        at := lo;
        return Some(log[lo].hash), at;
      }
    }
    return None, at;
  }

  /** The store: its head, its log in memory and the bytes of its log file. */
  class Store {
    var head: nat
    var log: seq<Entry>
    var file: string

    constructor ()
      ensures Valid() && log == [] && file == []
    {
      head, log, file := 0, [], [];
    }

    /** Opens a store on the bytes that a run left, whole or cut at any byte. */
    constructor Open(bytes: string)
      ensures Valid() && log == LoadText(bytes) && file == bytes
    {
      head, file := 0, bytes;
      log := [];
      new;
      log := LoadLog(bytes);
      LoadIsCommitted(bytes);
    }

    ghost predicate Valid()
      reads this
    {
      Committed(log)
    }

    /**
     * Commits a new head, on whatever bytes the file holds.  Steps may repeat but
     * not go back.  When the file loaded as the log before, it loads as the log
     * after exactly when its last line was empty or zeros.
     */
    method AdvanceHead(hash: nat, step: nat, ts: nat)
      requires Valid() && hash < U64 && step < U64 && ts < U64 && (log != [] ==> log[|log| - 1].step <= step)
      modifies this
      ensures Valid() && head == hash
      ensures log == old(log) + [Entry(step, hash, ts, true)]
      ensures file == old(file) + LogText([Entry(step, hash, ts, true)]) && LastLine(file) == []
      ensures old(LoadText(file) == log) ==> (LoadText(file) == log <==> old(Zeros(LastLine(file))))
    {
      var e := Entry(step, hash, ts, true);
      CommitLoads(file, log, e);
      head := hash;
      log := log + [e];
      var record := FormatRecord(step, hash, ts);
      file := file + (record + "\n");
    }
  }

  lemma CommitLoads(file: string, log: seq<Entry>, e: Entry)
    requires Committed(log) && Writable(e) && Follows(log, [e])
    ensures Committed(log + [e]) && LogText([e]) == Record(e) + "\n" && LastLine(file + LogText([e])) == []
    ensures LoadText(file) == log ==> (LoadText(file + LogText([e])) == log + [e] <==> Zeros(LastLine(file)))
  {
    LogTextOne(e);
    FollowsSorted(log, [e]);
    NewlineCloses(file + Record(e));
    assert file + Record(e) + "\n" == file + LogText([e]);
    if LoadText(file) == log {
      ReopenLoadsIff(file, [e]);
    }
  }

  method FormatRecord(step: nat, hash: nat, ts: nat) returns (record: string)
    ensures record == Record(Entry(step, hash, ts, true))
  {
    var hex := Hex16(hash);
    record := Dec(step) + "," + hex[..] + "," + Dec(ts);
  }

  lemma LogTextOne(e: Entry)
    ensures LogText([e]) == Record(e) + "\n"
  {
    assert Records([e]) == [Record(e)] && Records([e])[1..] == [];
    assert JoinLines([]) == [] && Record(e) + "\n" + [] == Record(e) + "\n";
  }
}
