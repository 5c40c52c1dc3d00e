/**
 * The text of the store's records: numbers in decimal and in sixteen digits of
 * hexadecimal, the strict reading of a number, fields between commas, and lines.
 */
module Text {
  import opened Basics

  // ---------------------------------------------------------------- digits

  function DigitChar(d: nat): (c: char)
    requires d < 16
    ensures c != ',' && c != '\n'
    ensures c as int == if d < 10 then '0' as int + d else 'a' as int + d - 10
  {
    "0123456789abcdef"[d]
  }

  /** The value of a digit of a base up to sixteen, in either case of letter. */
  function DigitValue(c: char): Option<nat> {
    if '0' <= c <= '9' then Some(c as int - '0' as int)
    else if 'a' <= c <= 'f' then Some(c as int - 'a' as int + 10)
    else if 'A' <= c <= 'F' then Some(c as int - 'A' as int + 10)
    else None
  }

  predicate IsDigit(c: char, base: nat) {
    DigitValue(c).Some? && DigitValue(c).value < base
  }

  predicate AllDigits(text: string, base: nat) {
    forall i :: 0 <= i < |text| ==> IsDigit(text[i], base)
  }

  /** The number that digits of a base write. */
  function Value(text: string, base: nat): nat
    requires AllDigits(text, base)
  {
    if text == [] then 0
    else
      var last := text[|text| - 1];
      assert IsDigit(last, base);
      Value(text[..|text| - 1], base) * base + DigitValue(last).value
  }

  /** Reads a whole text as a number of 64 bits.  An empty text, another character or a larger number is no number. */
  function ParseU64(text: string, base: nat): Option<nat> {
    if text != [] && AllDigits(text, base) && Value(text, base) < U64 then Some(Value(text, base)) else None
  }

  /** Decimal digits without leading zeros. */
  function Dec(n: nat): (r: string)
    ensures r != [] && AllDigits(r, 10)
    ensures forall i :: 0 <= i < |r| ==> r[i] != ',' && r[i] != '\n'
    ensures n > 0 ==> r[0] != '0'
  {
    if n < 10 then [DigitChar(n)] else Dec(n / 10) + [DigitChar(n % 10)]
  }

  /** The last digits of a number in hexadecimal, count of them. */
  function Hex(n: nat, count: nat): (r: string)
    ensures |r| == count && AllDigits(r, 16)
    ensures forall i :: 0 <= i < |r| ==> r[i] != ',' && r[i] != '\n'
  {
    if count == 0 then [] else Hex(n / 16, count - 1) + [DigitChar(n % 16)]
  }

  lemma DigitReads(d: nat)
    requires d < 16
    ensures DigitValue(DigitChar(d)) == Some(d)
  {
  }

  lemma ValueNext(text: string, last: char, base: nat)
    requires AllDigits(text, base) && IsDigit(last, base)
    ensures AllDigits(text + [last], base) && Value(text + [last], base) == Value(text, base) * base + DigitValue(last).value
  {
    assert (text + [last])[..|text|] == text;
  }

  lemma {:induction false} DecValue(n: nat)
    ensures Value(Dec(n), 10) == n
  {
    if n < 10 {
      assert Dec(n)[..0] == [];
    } else {
      DecValue(n / 10);
      DigitReads(n % 10);
      ValueNext(Dec(n / 10), DigitChar(n % 10), 10);
    }
  }

  ghost function Pow16(n: nat): nat {
    if n == 0 then 1 else 16 * Pow16(n - 1)
  }

  lemma {:induction false} HexValue(n: nat, count: nat)
    requires n < Pow16(count)
    ensures Value(Hex(n, count), 16) == n
  {
    if count > 0 {
      HexValue(n / 16, count - 1);
      assert Hex(n, count)[..count - 1] == Hex(n / 16, count - 1);
    }
  }

  lemma Pow16Of16()
    ensures Pow16(16) == U64
  {
    assert Pow16(4) == 0x1_0000;
    assert Pow16(8) == 0x1_0000_0000;
    assert Pow16(12) == 0x1_0000_0000_0000;
  }

  /** A text of zeros alone, or empty. */
  predicate Zeros(text: string) {
    forall i :: 0 <= i < |text| ==> text[i] == '0'
  }

  lemma {:induction false} ZeroValue(text: string)
    requires AllDigits(text, 10)
    ensures Value(text, 10) == 0 <==> Zeros(text)
  {
    if text != [] {
      var most, last := text[..|text| - 1], text[|text| - 1];
      ZeroValue(most);
      assert IsDigit(last, 10);
      assert text == most + [last];
    }
  }

  /** Digits in front of a number change it, unless they are zeros. */
  lemma {:induction false} LeadingDigits(front: string, text: string)
    requires AllDigits(front, 10) && AllDigits(text, 10)
    ensures AllDigits(front + text, 10)
    ensures Value(front + text, 10) >= Value(text, 10)
    ensures Value(front + text, 10) == Value(text, 10) <==> Zeros(front)
  {
    if text == [] {
      assert front + text == front;
      ZeroValue(front);
    } else {
      var most := text[..|text| - 1];
      LeadingDigits(front, most);
      assert (front + text)[..|front + text| - 1] == front + most;
    }
  }

  /** A number of 64 bits reads back from its decimal text. */
  lemma DecRoundTrip(n: nat)
    requires n < U64
    ensures ParseU64(Dec(n), 10) == Some(n)
  {
    DecValue(n);
  }

  /** A number behind other text is the number exactly when the text is zeros. */
  lemma NumberBehind(t: string, n: nat)
    requires n < U64
    ensures ParseU64(t + Dec(n), 10) == Some(n) <==> Zeros(t)
  {
    DecValue(n);
    if AllDigits(t, 10) {
      LeadingDigits(t, Dec(n));
    } else {
      NotADigit(t, Dec(n));
    }
  }

  lemma NotADigit(t: string, a: string)
    requires !AllDigits(t, 10)
    ensures !AllDigits(t + a, 10) && !Zeros(t)
  {
    var i :| 0 <= i < |t| && !IsDigit(t[i], 10);
    assert (t + a)[i] == t[i];
    assert t[i] != '0';
  }

  /** A number of 64 bits reads back from its sixteen hexadecimal digits. */
  lemma HexRoundTrip(n: nat)
    requires n < U64
    ensures ParseU64(Hex(n, 16), 16) == Some(n)
  {
    Pow16Of16();
    HexValue(n, 16);
  }

  /** The last of some digits moves to the digits behind them. */
  lemma HexShift(whole: string, rest: nat, count: nat, tail: string)
    requires count > 0 && whole == Hex(rest, count) + tail
    ensures whole == Hex(rest / 16, count - 1) + ([DigitChar(rest % 16)] + tail)
  {
  }

  /** Fills the characters from the last to the first. */
  method FillHex(out: array<char>, value: nat)
    modifies out
    ensures out[..] == Hex(value, out.Length)
  {
    var rest, left := value, out.Length;
    while left > 0
      invariant 0 <= left <= out.Length && Hex(value, out.Length) == Hex(rest, left) + out[left..]
    {
      ghost var tail := out[left..];
      HexShift(Hex(value, out.Length), rest, left, tail);
      left := left - 1;
      out[left] := DigitChar(rest % 16);
      assert out[left + 1..] == tail && out[left..] == [out[left]] + tail;
      rest := rest / 16;
    }
    assert out[0..] == out[..];
  }

  /** The sixteen digits of a number of 64 bits. */
  method Hex16(value: nat) returns (out: array<char>)
    ensures fresh(out) && out[..] == Hex(value, 16)
  {
    out := new char[16](_ => '0');
    FillHex(out, value);
  }

  // ------------------------------------------------------ fields and lines

  /** The place of the first c in a text, from an index on, or its length. */
  function Find(text: string, c: char, from: nat): (r: nat)
    requires from <= |text|
    ensures from <= r <= |text|
    ensures r < |text| ==> text[r] == c
    ensures forall i :: from <= i < r ==> text[i] != c
    decreases |text| - from
  {
    if from == |text| || text[from] == c then from else Find(text, c, from + 1)
  }

  /** Find is the only such place. */
  lemma FindUnique(text: string, c: char, from: nat, at: nat)
    requires from <= at <= |text| && (at < |text| ==> text[at] == c) && forall i :: from <= i < at ==> text[i] != c
    ensures Find(text, c, from) == at
  {
  }

  /** The lines of a text.  The last line may lack its newline, and then it is not empty. */
  function Lines(text: string): seq<string> {
    if text == [] then []
    else
      var end := Find(text, '\n', 0);
      [text[..end]] + if end < |text| then Lines(text[end + 1..]) else []
  }

  /** The lines that have their newline, and what comes after the last newline. */
  function ClosedLines(text: string): seq<string> {
    var end := Find(text, '\n', 0);
    if end == |text| then [] else [text[..end]] + ClosedLines(text[end + 1..])
  }

  function LastLine(text: string): string {
    var end := Find(text, '\n', 0);
    if end == |text| then text else LastLine(text[end + 1..])
  }

  /** More bytes go on with the last line. */
  lemma {:induction false} LinesGlue(text: string, more: string)
    ensures Lines(text + more) == ClosedLines(text) + Lines(LastLine(text) + more)
  {
    var end := Find(text, '\n', 0);
    if end < |text| {
      var line, rest := text[..end], text[end + 1..];
      LinesGlue(rest, more);
      LinesCons(line, rest + more);
      SplitAt(text, end, more);
      AppendThree([line], ClosedLines(rest), Lines(LastLine(rest) + more));
    } else {
      assert [] + Lines(text + more) == Lines(text + more);
    }
  }

  lemma AppendThree(a: seq<string>, b: seq<string>, c: seq<string>)
    ensures (a + b) + c == a + (b + c)
  {
  }

  lemma SplitAt(text: string, at: nat, more: string)
    requires at < |text| && text[at] == '\n'
    ensures text + more == text[..at] + "\n" + (text[at + 1..] + more)
  {
  }

  lemma {:induction false} LastLineIsLine(text: string)
    ensures NoNewline(LastLine(text))
  {
    var end := Find(text, '\n', 0);
    if end < |text| {
      LastLineIsLine(text[end + 1..]);
    }
  }

  lemma LinesSplit(text: string)
    ensures Lines(text) == ClosedLines(text) + if LastLine(text) == [] then [] else [LastLine(text)]
  {
    var t := LastLine(text);
    LastLineIsLine(text);
    LinesGlue(text, "");
    assert text + "" == text && t + "" == t;
    if t != [] {
      LinesTorn(t);
    }
  }

  lemma LinesAppend(text: string, line: string)
    requires NoNewline(line)
    ensures Lines(text + line + "\n") == ClosedLines(text) + [LastLine(text) + line]
  {
    var t := LastLine(text);
    LastLineIsLine(text);
    LinesGlue(text, line + "\n");
    assert text + (line + "\n") == text + line + "\n";
    assert t + (line + "\n") == (t + line) + "\n" + "";
    LinesCons(t + line, "");
  }

  /** A text without a newline is its own last line. */
  lemma OneLine(text: string)
    requires NoNewline(text)
    ensures ClosedLines(text) == [] && LastLine(text) == text
  {
    FindUnique(text, '\n', 0, |text|);
  }

  lemma {:induction false} NewlineCloses(text: string)
    ensures LastLine(text + "\n") == []
  {
    var all, end := text + "\n", Find(text, '\n', 0);
    FindUnique(all, '\n', 0, end);
    if end < |text| {
      assert all[end + 1..] == text[end + 1..] + "\n";
      NewlineCloses(text[end + 1..]);
    } else {
      assert all[end + 1..] == [];
    }
  }

  predicate NoComma(text: string) {
    forall i :: 0 <= i < |text| ==> text[i] != ','
  }

  predicate NoNewline(line: string) {
    forall i :: 0 <= i < |line| ==> line[i] != '\n'
  }

  /** The first line of a text, and what comes after it. */
  function FirstLine(text: string): string {
    text[..Find(text, '\n', 0)]
  }

  function AfterLine(text: string): (rest: string)
    ensures text != [] ==> |rest| < |text|
  {
    var end := Find(text, '\n', 0);
    if end < |text| then text[end + 1..] else []
  }

  lemma LinesStep(text: string, read: seq<string>)
    requires text != []
    ensures read + Lines(text) == read + [FirstLine(text)] + Lines(AfterLine(text))
  {
    assert Lines(text) == [FirstLine(text)] + Lines(AfterLine(text));
  }

  /** A whole line in front of a text. */
  lemma LinesCons(line: string, rest: string)
    requires NoNewline(line)
    ensures Lines(line + "\n" + rest) == [line] + Lines(rest)
  {
    var text := line + "\n" + rest;
    FindUnique(text, '\n', 0, |line|);
    assert text[..|line|] == line && text[|line| + 1..] == rest;
  }

  lemma LinesTorn(line: string)
    requires NoNewline(line) && line != []
    ensures Lines(line) == [line]
  {
    FindUnique(line, '\n', 0, |line|);
    assert line[..|line|] == line;
  }

  /** Lines written one after the other, each with its newline. */
  function JoinLines(lines: seq<string>): string {
    if lines == [] then [] else lines[0] + "\n" + JoinLines(lines[1..])
  }

  lemma {:induction false} JoinAppend(lines: seq<string>, line: string)
    ensures JoinLines(lines + [line]) == JoinLines(lines) + line + "\n"
  {
    if lines == [] {
      assert lines + [line] == [line] && [line][1..] == [];
    } else {
      JoinAppend(lines[1..], line);
      assert (lines + [line])[1..] == lines[1..] + [line];
    }
  }

  lemma {:induction false} JoinedRead(lines: seq<string>)
    requires forall i :: 0 <= i < |lines| ==> NoNewline(lines[i])
    ensures Lines(JoinLines(lines)) == lines
  {
    if lines != [] {
      JoinedRead(lines[1..]);
      LinesCons(lines[0], JoinLines(lines[1..]));
    }
  }

  /** Lines of which the first goes on with a text. */
  function Glued(t: string, lines: seq<string>): (r: seq<string>)
    requires lines != []
    ensures |r| == |lines| && r[0] == t + lines[0] && forall i :: 1 <= i < |lines| ==> r[i] == lines[i]
  {
    [t + lines[0]] + lines[1..]
  }

  lemma GluedText(t: string, lines: seq<string>)
    requires lines != []
    ensures JoinLines(Glued(t, lines)) == t + JoinLines(lines)
  {
    assert Glued(t, lines)[1..] == lines[1..];
  }

  /** Where a cut after n bytes falls: how many lines are whole, and how many bytes of the next line are left. */
  function WholeLines(lines: seq<string>, n: nat): nat {
    if lines == [] || n <= |lines[0]| then 0 else 1 + WholeLines(lines[1..], n - |lines[0]| - 1)
  }

  function LeftBytes(lines: seq<string>, n: nat): nat {
    if lines == [] || n <= |lines[0]| then n else LeftBytes(lines[1..], n - |lines[0]| - 1)
  }

  lemma GluedCut(t: string, lines: seq<string>, n: nat)
    requires lines != [] && n <= |JoinLines(lines)|
    ensures |JoinLines(Glued(t, lines))| == |t| + |JoinLines(lines)|
    ensures JoinLines(Glued(t, lines))[..|t| + n] == t + JoinLines(lines)[..n]
    ensures WholeLines(Glued(t, lines), |t| + n) == WholeLines(lines, n)
    ensures WholeLines(lines, n) == 0 ==> LeftBytes(Glued(t, lines), |t| + n) == |t| + n
  {
    GluedText(t, lines);
    assert Glued(t, lines)[1..] == lines[1..];
  }

  /** A prefix of a line and a text is a prefix of the line, or the line and a prefix of the text. */
  lemma CutText(line: string, rest: string, n: nat)
    requires n <= |line + "\n" + rest|
    ensures n <= |line| ==> (line + "\n" + rest)[..n] == line[..n]
    ensures n > |line| ==> (line + "\n" + rest)[..n] == line + "\n" + rest[..n - |line| - 1]
  {
  }

  /** What a cut leaves: j whole lines, and r bytes of the next. */
  ghost predicate CutFits(lines: seq<string>, j: nat, r: nat, whole: bool, got: seq<string>) {
    && j <= |lines| && (j == |lines| <==> whole) && (j == |lines| ==> r == 0)
    && (j < |lines| ==> r <= |lines[j]|)
    && got == lines[..j] + if r == 0 then [] else [lines[j][..r]]
  }

  /** The lines of any prefix of written lines: the whole ones, and what is left of the next. */
  lemma {:induction false} CutLines(lines: seq<string>, n: nat)
    requires n <= |JoinLines(lines)| && forall i :: 0 <= i < |lines| ==> NoNewline(lines[i])
    ensures CutFits(lines, WholeLines(lines, n), LeftBytes(lines, n), n == |JoinLines(lines)|, Lines(JoinLines(lines)[..n]))
  {
    if lines != [] {
      if n <= |lines[0]| {
        CutFirst(lines, n);
      } else {
        var m, tail := n - |lines[0]| - 1, lines[1..];
        CutLines(tail, m);
        LinesLater(lines, n);
        CutLater(lines, WholeLines(tail, m), LeftBytes(tail, m), m == |JoinLines(tail)|, Lines(JoinLines(tail)[..m]));
      }
    }
  }

  lemma CutFirst(lines: seq<string>, n: nat)
    requires lines != [] && n <= |lines[0]| && NoNewline(lines[0])
    ensures n < |JoinLines(lines)| && CutFits(lines, 0, n, false, Lines(JoinLines(lines)[..n]))
  {
    CutText(lines[0], JoinLines(lines[1..]), n);
    if n > 0 {
      LinesTorn(lines[0][..n]);
    }
  }

  lemma CutLater(lines: seq<string>, j: nat, r: nat, whole: bool, got: seq<string>)
    requires lines != [] && CutFits(lines[1..], j, r, whole, got)
    ensures CutFits(lines, j + 1, r, whole, [lines[0]] + got)
  {
    assert lines[..j + 1] == [lines[0]] + lines[1..][..j];
  }

  lemma LinesLater(lines: seq<string>, n: nat)
    requires lines != [] && |lines[0]| < n <= |JoinLines(lines)| && NoNewline(lines[0])
    ensures var m := n - |lines[0]| - 1;
            && m <= |JoinLines(lines[1..])| && (n == |JoinLines(lines)| <==> m == |JoinLines(lines[1..])|)
            && Lines(JoinLines(lines)[..n]) == [lines[0]] + Lines(JoinLines(lines[1..])[..m])
  {
    var rest := JoinLines(lines[1..]);
    CutText(lines[0], rest, n);
    LinesCons(lines[0], rest[..n - |lines[0]| - 1]);
  }

  /** The same for lines of which the first goes on with a text. */
  lemma CutGlued(t: string, lines: seq<string>, n: nat) returns (left: nat)
    requires lines != [] && n <= |JoinLines(lines)|
    requires NoNewline(t) && forall i :: 0 <= i < |lines| ==> NoNewline(lines[i])
    ensures CutFits(Glued(t, lines), WholeLines(lines, n), left, n == |JoinLines(lines)|, Lines(t + JoinLines(lines)[..n]))
    ensures WholeLines(lines, n) == 0 ==> left == |t| + n
  {
    GluedCut(t, lines, n);
    CutLines(Glued(t, lines), |t| + n);
    left := LeftBytes(Glued(t, lines), |t| + n);
  }
}
