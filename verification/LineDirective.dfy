/**
 Line directives: how they are printed (internal/injector/lineinfo/annotation.go) and how the
 one at the start of a file is read back (internal/injector/parse/mappedfilename.go).
 */
module LineDirective {
  import opened Wrappers
  import opened Decimal
  import opened Strings
  import opened Lines

  const PREFIX := "//line "

  function Directive(adjFile: string, adjLine: nat, fileStart: bool): string {
    PREFIX + adjFile + (if adjLine == 0 then "" else if adjLine == 1 && fileStart then ":1:1" else ":" + Itoa(adjLine))
  }

  // ---------------------------------------------------------------- 64-bit arithmetic

  const HALF := 0x8000_0000_0000_0000
  const FULL := 0x1_0000_0000_0000_0000

  /** The value of a Go int after overflow. */
  function Wrap(x: int): int
    decreases if x >= HALF then x else if x < -HALF then -x else 0
  {
    if x >= HALF then Wrap(x - FULL) else if x < -HALF then Wrap(x + FULL) else x
  }

  lemma {:induction false} WrapShift(x: int, q: int)
    ensures Wrap(x + FULL * q) == Wrap(x)
    decreases if q < 0 then -q else q
  {
    if q > 0 {
      WrapShift(x, q - 1);
      assert x + FULL * q == (x + FULL * (q - 1)) + FULL;
    } else if q < 0 {
      WrapShift(x, q + 1);
      assert x + FULL * q == (x + FULL * (q + 1)) - FULL;
    }
  }

  lemma {:induction false} WrapIsCongruent(x: int) returns (q: int)
    ensures Wrap(x) == x + FULL * q
    decreases if x >= HALF then x else if x < -HALF then -x else 0
  {
    if x >= HALF {
      q := WrapIsCongruent(x - FULL);
      q := q - 1;
    } else if x < -HALF {
      q := WrapIsCongruent(x + FULL);
      q := q + 1;
    } else {
      q := 0;
    }
  }

  lemma WrapOfSum(a: int, b: int)
    ensures Wrap(Wrap(a) + Wrap(b)) == Wrap(a + b)
  {
    var p := WrapIsCongruent(a);
    var q := WrapIsCongruent(b);
    WrapShift(a + b, p + q);
  }

  lemma WrapOfProduct(a: int, d: int)
    ensures Wrap(Wrap(a) * d) == Wrap(a * d)
  {
    var q := WrapIsCongruent(a);
    Distribute(a, q, d);
    WrapShift(a * d, q * d);
  }

  lemma Distribute(a: int, q: int, d: int)
    ensures (a + FULL * q) * d == a * d + FULL * (q * d)
  {
    assert (FULL * q) * d == FULL * (q * d);
  }

  lemma WrapOfStep(sum: int, power: int, digit: int)
    ensures Wrap(Wrap(sum) + Wrap(Wrap(power) * digit)) == Wrap(sum + power * digit)
  {
    WrapOfProduct(power, digit);
    WrapOfSum(sum, power * digit);
  }

  function Pow10(k: nat): nat {
    if k == 0 then 1 else 10 * Pow10(k - 1)
  }

  lemma PowIsNotOne(k: nat)
    ensures Wrap(Pow10(k)) == 1 <==> k == 0
  {
    if k > 0 {
      var q := WrapIsCongruent(Pow10(k));
      assert Pow10(k) + FULL * q == 2 * (5 * Pow10(k - 1) + HALF * q);
    }
  }

  lemma {:induction false} NumberFromLeft(d: char, s: string)
    requires IsDigit(d) && forall c | c in s :: IsDigit(c)
    ensures forall c | c in [d] + s :: IsDigit(c)
    ensures Number([d] + s) == Pow10(|s|) * Weight(d) + Number(s)
  {
    if s == "" {
      assert ([d] + s)[..0] == "" && Number([d]) == 10 * Number("") + Weight(d);
    } else {
      var rest := s[..|s| - 1];
      NumberFromLeft(d, rest);
      assert ([d] + s)[..|s|] == [d] + rest;
      TenTimes(Pow10(|rest|), Weight(d), Number(rest));
    }
  }

  lemma TenTimes(p: int, w: int, n: int)
    ensures 10 * (p * w + n) == (10 * p) * w + 10 * n
  {
    assert (10 * p) * w == 10 * (p * w);
  }

  // ---------------------------------------------------------------- cutPositionSuffix

  datatype Position = Position(rest: string, pos: int, found: bool)

  /** Where the run of digits at the end begins. */
  function DigitStart(buf: string): (k: nat)
    ensures k <= |buf| && (forall c | c in buf[k..] :: IsDigit(c)) && (k > 0 ==> !IsDigit(buf[k - 1]))
  {
    if buf == "" || !IsDigit(buf[|buf| - 1]) then |buf|
    else
      var k := DigitStart(buf[..|buf| - 1]);
      assert buf[k..] == buf[..|buf| - 1][k..] + [buf[|buf| - 1]];
      k
  }

  /** Nothing if the scan for digits runs past the start of the text. */
  function CutPosition(buf: string): Option<Position> {
    var k := DigitStart(buf);
    if k == 0 then None
    else if buf[k - 1] != ':' || k == |buf| then Some(Position(buf, 0, false))
    else Some(Position(buf[..k - 1], Wrap(Number(buf[k..])), true))
  }

  /** What one more digit on the left does to the sum and to the power. */
  lemma OneMoreDigit(d: char, seen: string, pos: int, pow: int)
    requires IsDigit(d) && forall c | c in seen :: IsDigit(c)
    requires pos == Wrap(Number(seen)) && pow == Wrap(Pow10(|seen|))
    ensures forall c | c in [d] + seen :: IsDigit(c)
    ensures Wrap(pos + Wrap(pow * Weight(d))) == Wrap(Number([d] + seen))
    ensures Wrap(pow * 10) == Wrap(Pow10(|seen| + 1))
  {
    NumberFromLeft(d, seen);
    WrapOfStep(Number(seen), Pow10(|seen|), Weight(d));
    NextPower(|seen|);
  }

  lemma NextPower(k: nat)
    ensures Wrap(Wrap(Pow10(k)) * 10) == Wrap(Pow10(k + 1))
  {
    WrapOfProduct(Pow10(k), 10);
    assert Pow10(k + 1) == Pow10(k) * 10;
  }

  lemma DigitStartBelow(buf: string, c: nat)
    requires c < |buf| && IsDigit(buf[c])
    ensures DigitStart(buf[..c + 1]) == DigitStart(buf[..c]) && buf[c..] == [buf[c]] + buf[c + 1..]
  {
    assert buf[..c + 1][..c] == buf[..c];
  }

  /** The digits right of `cutOff` have been added up. */
  ghost predicate Summed(buf: string, cutOff: int, pos: int, pow: int) {
    && -1 <= cutOff < |buf| && (forall c | c in buf[cutOff + 1..] :: IsDigit(c))
    && pos == Wrap(Number(buf[cutOff + 1..])) && pow == Wrap(Pow10(|buf| - cutOff - 1))
    && DigitStart(buf) == DigitStart(buf[..cutOff + 1])
  }

  lemma SummedMore(buf: string, cutOff: nat, pos: int, pow: int)
    requires Summed(buf, cutOff, pos, pow) && IsDigit(buf[cutOff])
    ensures Summed(buf, cutOff - 1, Wrap(pos + Wrap(pow * Weight(buf[cutOff]))), Wrap(pow * 10))
  {
    OneMoreDigit(buf[cutOff], buf[cutOff + 1..], pos, pow);
    DigitStartBelow(buf, cutOff);
  }

  method CutPositionSuffix(buf: string) returns (r: Option<Position>)
    ensures r == CutPosition(buf)
  {
    var cutOff, pos, pow := |buf| - 1, 0, 1;
    assert buf[..|buf|] == buf;
    while cutOff >= 0 && IsDigit(buf[cutOff])
      invariant Summed(buf, cutOff, pos, pow)
    {
      SummedMore(buf, cutOff, pos, pow);
      pos := Wrap(pos + Wrap(pow * Weight(buf[cutOff])));
      pow := Wrap(pow * 10);
      cutOff := cutOff - 1;
    }
    assert DigitStart(buf) == cutOff + 1;
    if cutOff < 0 { return None; }
    PowIsNotOne(|buf| - cutOff - 1);
    if buf[cutOff] != ':' || pow == 1 { return Some(Position(buf, 0, false)); }
    r := Some(Position(buf[..cutOff], pos, true));
  }

  lemma {:induction false} OverrunExactly(buf: string)
    ensures CutPosition(buf).None? <==> forall c | c in buf :: IsDigit(c)
  {
    var k := DigitStart(buf);
    if k > 0 { assert buf[k - 1] in buf; } else { assert buf[0..] == buf; }
  }

  lemma {:induction false} WrapRange(x: int)
    ensures -HALF <= Wrap(x) < HALF
    decreases if x >= HALF then x else if x < -HALF then -x else 0
  {
    if x >= HALF { WrapRange(x - FULL); } else if x < -HALF { WrapRange(x + FULL); }
  }

  /** The position is the number after the last colon, leading zeros or not, exactly if that is below 2^63. */
  lemma PositionExactly(before: string, digits: string)
    requires digits != "" && forall c | c in digits :: IsDigit(c)
    ensures var r := CutPosition(before + ":" + digits);
            && r.Some? && r.value.rest == before && r.value.found
            && (r.value.pos == Number(digits) <==> Number(digits) < HALF)
  {
    CutBeforeDigits(before, digits);
    WrapRange(Number(digits));
  }

  lemma ExactPosition(before: string, n: nat)
    requires n < HALF
    ensures CutPosition(before + ":" + Digits(n)) == Some(Position(before, n, true))
  {
    NumberOfDigits(n);
    PositionExactly(before, Digits(n));
  }

  lemma CutBeforeDigits(before: string, digits: string)
    requires digits != "" && forall c | c in digits :: IsDigit(c)
    ensures CutPosition(before + ":" + digits) == Some(Position(before, Wrap(Number(digits)), true))
  {
    var buf := before + ":" + digits;
    DigitStartAfter(before + ":", digits);
    assert buf[|before| + 1..] == digits && buf[..|before|] == before && buf[|before|] == ':';
  }

  lemma {:induction false} DigitStartAfter(before: string, digits: string)
    requires before == "" || !IsDigit(before[|before| - 1])
    requires forall c | c in digits :: IsDigit(c)
    ensures DigitStart(before + digits) == |before|
  {
    if digits == "" {
      assert before + digits == before;
    } else {
      assert (before + digits)[..|before + digits| - 1] == before + digits[..|digits| - 1];
      assert digits[|digits| - 1] in digits;
      DigitStartAfter(before, digits[..|digits| - 1]);
    }
  }

  /** Beyond that the number wraps around: 2^64 + 1 passes for line 1. */
  lemma PositionWraps()
    ensures exists s :: (forall c | c in s :: IsDigit(c)) && Number(s) == FULL + 1
              && CutPosition("f:" + s) == Some(Position("f", 1, true))
  {
    var s := Digits(FULL + 1);
    NumberOfDigits(FULL + 1);
    CutBeforeDigits("f", s);
    assert "f" + ":" + s == "f:" + s;
  }

  // ---------------------------------------------------------------- ConsumeLineDirective

  datatype Outcome = Found(name: string) | NoDirective | Eof | Overrun

  /** The rest of the first line: its text without the line end, and where reading stopped. */
  function ScanLine(text: string, i: nat, wasCR: bool, buffer: string, seekable: bool): (r: Option<(string, nat)>)
    requires i <= |text|
    ensures r.Some? ==> i <= r.value.1 <= |text|
    decreases |text| - i
  {
    if i == |text| then None
    else if text[i] == '\n' then Some((buffer, i + 1))
    else if text[i] == '\r' then ScanLine(text, i + 1, true, buffer, seekable)
    else if wasCR then Some((buffer, if seekable then i else i + 1))
    else ScanLine(text, i + 1, false, buffer + [text[i]], seekable)
  }

  /** Whether a directive is the one that `go tool cover` puts at the start of a file. */
  function Decide(buffer: string): Outcome {
    match CutPosition(TrimSpace(buffer))
    case None => Overrun
    case Some(Position(rest, pos, found)) =>
      if !found then Found(rest) else if pos != 1 then NoDirective else
      match CutPosition(rest)
      case None => Overrun
      case Some(Position(name, column, both)) => if !both || column == 1 then Found(name) else NoDirective
  }

  /** The outcome, and where the reader is left. */
  function Consumed(text: string, seekable: bool): (Outcome, nat) {
    if text == "" then (Eof, 0)
    else if !(PREFIX <= text) then (NoDirective, if seekable then 0 else if |text| < |PREFIX| then |text| else |PREFIX|)
    else match ScanLine(text, |PREFIX|, false, "", seekable)
      case None => (Eof, |text|)
      case Some((buffer, end)) => (Decide(buffer), if seekable && Decide(buffer).NoDirective? then 0 else end)
  }

  class Reader {
    const data: string
    const seekable: bool
    var pos: nat

    constructor (data: string, seekable: bool)
      ensures this.data == data && this.seekable == seekable && pos == 0
    {
      this.data, this.seekable, pos := data, seekable, 0;
    }

    /** Up to `n` bytes, or end of file. */
    method Read(n: nat) returns (chunk: string, eof: bool)
      requires pos <= |data| && n > 0
      modifies this
      ensures eof <==> old(pos) == |data|
      ensures old(pos) <= pos <= |data| && chunk == data[old(pos)..pos] && (|chunk| == n || pos == |data|)
      ensures |chunk| <= n
    {
      var end := if pos + n <= |data| then pos + n else |data|;
      chunk, eof := data[pos..end], pos == |data|;
      pos := end;
    }

    method Rewind()
      modifies this
      ensures pos == if seekable then 0 else old(pos)
    {
      if seekable { pos := 0; }
    }

    /** Reads a line after its prefix. */
    method ReadLine() returns (line: Option<string>)
      requires pos <= |data|
      modifies this
      ensures pos <= |data|
      ensures var r := ScanLine(data, old(pos), false, "", seekable);
              if r.None? then line.None? && pos == |data| else line == Some(r.value.0) && pos == r.value.1
    {
      var buffer, wasCR := "", false;
      while true
        invariant old(pos) <= pos <= |data|
        invariant ScanLine(data, old(pos), false, "", seekable) == ScanLine(data, pos, wasCR, buffer, seekable)
        decreases |data| - pos
      {
        var chunk, eof := Read(1);
        if eof { return None; }
        var c := chunk[0];
        if c == '\n' {
          break;
        } else if c == '\r' {
          wasCR := true;
        } else if wasCR {
          if seekable { pos := pos - 1; }
          break;
        } else {
          buffer := buffer + [c];
        }
      }
      line := Some(buffer);
    }

    method ConsumeLineDirective() returns (r: Outcome)
      requires pos == 0
      modifies this
      ensures pos <= |data| && (!r.Overrun? ==> (r, pos) == Consumed(data, seekable))
      ensures r.Overrun? <==> Consumed(data, seekable).0.Overrun?
    {
      var buf, eof := Read(7);
      if eof { return Eof; }
      if buf != PREFIX {
        Rewind();
        return NoDirective;
      }
      var line := ReadLine();
      if line.None? { return Eof; }
      var position := CutPositionSuffix(TrimSpace(line.value));
      if position.None? { return Overrun; }
      if !position.value.found { return Found(position.value.rest); }
      if position.value.pos == 1 {
        var column := CutPositionSuffix(position.value.rest);
        if column.None? { return Overrun; }
        if !column.value.found || column.value.pos == 1 { return Found(column.value.rest); }
      }
      Rewind();
      r := NoDirective;
    }
  }

  // ---------------------------------------------------------------- printer and parser

  predicate Plain(file: string) {
    OneLine(file) && '\r' !in file
  }

  lemma {:induction false} ScanPlain(text: string, i: nat, line: string, rest: string, buffer: string, seekable: bool)
    requires i <= |text| && text[i..] == line + "\n" + rest && Plain(line)
    ensures ScanLine(text, i, false, buffer, seekable) == Some((buffer + line, i + |line| + 1))
    decreases |line|
  {
    assert text[i] == (line + "\n" + rest)[0];
    if line == "" {
      assert buffer + line == buffer;
    } else {
      assert text[i + 1..] == text[i..][1..] == line[1..] + "\n" + rest;
      ScanPlain(text, i + 1, line[1..], rest, buffer + [line[0]], seekable);
      assert buffer + [line[0]] + line[1..] == buffer + line;
    }
  }

  /** Reading a directive line that holds no line break of its own. */
  lemma ConsumedPlain(body: string, rest: string, seekable: bool)
    requires Plain(body)
    ensures var outcome := Decide(body);
            Consumed(PREFIX + body + "\n" + rest, seekable)
            == (outcome, if seekable && outcome.NoDirective? then 0 else |PREFIX| + |body| + 1)
  {
    var text := PREFIX + body + "\n" + rest;
    assert text[|PREFIX|..] == body + "\n" + rest && text[..|PREFIX|] == PREFIX;
    ScanPlain(text, |PREFIX|, body, rest, "", seekable);
    assert "" + body == body;
  }

  lemma {:induction false} TrimLeftOfMore(s: string, t: string)
    requires t != "" && !IsSpace(t[0])
    ensures TrimLeft(s + t) == TrimLeft(s) + t
  {
    if s == "" {
      assert s + t == t;
    } else if IsSpace(s[0]) {
      assert (s + t)[1..] == s[1..] + t;
      TrimLeftOfMore(s[1..], t);
    }
  }

  lemma TrimBeforeSuffix(file: string, suffix: string)
    requires suffix != "" && !IsSpace(suffix[0]) && !IsSpace(suffix[|suffix| - 1])
    ensures TrimSpace(file + suffix) == TrimLeft(file) + suffix
  {
    TrimLeftOfMore(file, suffix);
    NothingToTrimAfter(TrimLeft(file), suffix);
  }

  lemma NothingToTrimAfter(s: string, suffix: string)
    requires suffix != "" && !IsSpace(suffix[|suffix| - 1])
    ensures TrimRight(s + suffix) == s + suffix
  {
    var r := s + suffix;
    assert r[|r| - 1] == suffix[|suffix| - 1];
  }

  /** A position at the end is safe from trimming. */
  lemma TrimBeforePosition(file: string, n: nat)
    ensures TrimSpace(file + ":" + Digits(n)) == TrimLeft(file) + ":" + Digits(n)
  {
    var digits := Digits(n);
    var suffix := ":" + digits;
    assert suffix[|suffix| - 1] == digits[|digits| - 1] && digits[|digits| - 1] in digits;
    TrimBeforeSuffix(file, suffix);
    assert file + suffix == file + ":" + digits && TrimLeft(file) + suffix == TrimLeft(file) + ":" + digits;
  }

  lemma DecideAtStart(file: string)
    ensures Decide(file + ":1:1") == Found(TrimLeft(file))
  {
    assert Digits(1) == "1";
    assert file + ":1:1" == (file + ":1") + ":" + Digits(1);
    TrimBeforePosition(file + ":1", 1);
    TrimLeftOfMore(file, ":1");
    assert file + ":1" == file + ":" + Digits(1) && TrimLeft(file) + ":1" == TrimLeft(file) + ":" + Digits(1);
    ExactPosition(TrimLeft(file) + ":1", 1);
    ExactPosition(TrimLeft(file), 1);
  }

  predicate IsBreak(c: char) {
    c == '\n' || c == '\r'
  }

  /** The name before its first line break. */
  function FirstLine(file: string): (r: string)
    ensures Plain(r) && r <= file && (Plain(file) ==> r == file)
    ensures !Plain(file) ==> |r| < |file| && IsBreak(file[|r|])
  {
    if file == "" || IsBreak(file[0]) then ""
    else
      var rest := FirstLine(file[1..]);
      assert file == [file[0]] + file[1..];
      [file[0]] + rest
  }

  /** A carriage return ends the line when anything else follows. */
  lemma {:induction false} AfterCR(text: string, i: nat, end: nat, buffer: string, seekable: bool)
    requires i < end <= |text| && text[end - 1] != '\r'
    ensures var r := ScanLine(text, i, true, buffer, seekable); r.Some? && r.value.0 == buffer && r.value.1 <= end
    decreases end - i
  {
    if text[i] == '\r' { AfterCR(text, i + 1, end, buffer, seekable); }
  }

  /** A line break in the file name ends the line before the directive does. */
  lemma {:induction false} ScanStopsEarly(text: string, i: nat, b: nat, end: nat, buffer: string, seekable: bool)
    requires i <= b < end <= |text| && text[end - 1] != '\r' && IsBreak(text[b])
    requires forall k | i <= k < b :: !IsBreak(text[k])
    ensures var r := ScanLine(text, i, false, buffer, seekable);
            r.Some? && r.value.0 == buffer + text[i..b] && r.value.1 <= end
    decreases b - i
  {
    if i < b {
      ScanStopsEarly(text, i + 1, b, end, buffer + [text[i]], seekable);
      assert text[i..b] == [text[i]] + text[i + 1..b];
    } else {
      assert buffer + text[i..b] == buffer;
      if text[i] == '\r' {
        assert i + 1 < end;
        AfterCR(text, i + 1, end, buffer, seekable);
      }
    }
  }

  lemma NameInText(file: string, before: string, after: string)
    requires !Plain(file)
    ensures var text, b := before + file + after, |before| + |FirstLine(file)|;
            && b < |text| && IsBreak(text[b]) && text[|before|..b] == FirstLine(file)
            && forall k | |before| <= k < b :: !IsBreak(text[k])
  {
    var text, b := before + file + after, |before| + |FirstLine(file)|;
    assert text[b] == file[|FirstLine(file)|];
    forall k | |before| <= k < b ensures !IsBreak(text[k]) {
      assert text[k] == file[k - |before|] == FirstLine(file)[k - |before|];
    }
  }

  lemma BreakInText(text: string, b: nat, end: nat, seekable: bool)
    requires PREFIX <= text && |PREFIX| <= b < end <= |text| && text[end - 1] != '\r'
    requires IsBreak(text[b]) && forall k | |PREFIX| <= k < b :: !IsBreak(text[k])
    ensures var (outcome, stop) := Consumed(text, seekable);
            outcome == Decide(text[|PREFIX|..b]) && stop <= end && (seekable && outcome.NoDirective? ==> stop == 0)
  {
    ScanStopsEarly(text, |PREFIX|, b, end, "", seekable);
    assert "" + text[|PREFIX|..b] == text[|PREFIX|..b];
  }

  /** How the text of a directive is made up. */
  lemma PartsInText(before: string, file: string, suffix: string, rest: string)
    requires !Plain(file) && suffix != ""
    ensures var text := before + (file + suffix) + "\n" + rest;
            var b, end := |before| + |FirstLine(file)|, |before| + |file| + |suffix|;
            && before <= text && b < end < |text| && text[end - 1] == suffix[|suffix| - 1]
            && IsBreak(text[b]) && text[|before|..b] == FirstLine(file)
            && forall k | |before| <= k < b :: !IsBreak(text[k])
  {
    Regroup(before, file, suffix, "\n" + rest);
    NameInText(file, before, suffix + ("\n" + rest));
  }

  lemma Regroup(before: string, file: string, suffix: string, after: string)
    ensures before + (file + suffix) + after == before + file + (suffix + after)
  {
  }

  /** Only the name before the break is read. */
  lemma BreakInName(file: string, suffix: string, rest: string, seekable: bool)
    requires !Plain(file) && suffix != "" && suffix[|suffix| - 1] != '\r'
    ensures var (outcome, end) := Consumed(PREFIX + (file + suffix) + "\n" + rest, seekable);
            && outcome == Decide(FirstLine(file)) && end <= |PREFIX| + |file| + |suffix|
            && (seekable && outcome.NoDirective? ==> end == 0)
  {
    PartsInText(PREFIX, file, suffix, rest);
    var text := PREFIX + (file + suffix) + "\n" + rest;
    BreakInText(text, |PREFIX| + |FirstLine(file)|, |PREFIX| + |file| + |suffix|, seekable);
  }

  /**
   The directive at the start of a file gives its name back, and leaves the reader right after
   the line, exactly if the name holds no line break and no white space in front.
   */
  lemma FileStartExactly(file: string, rest: string, seekable: bool)
    ensures var d := Directive(file, 1, true);
            Consumed(d + "\n" + rest, seekable) == (Found(file), |d| + 1)
            <==> Plain(file) && (file == "" || !IsSpace(file[0]))
  {
    DirectiveAtStart(file);
    if Plain(file) {
      PlainAtStart(file);
      DecideAtStart(file);
      ConsumedPlain(file + ":1:1", rest, seekable);
      NothingToTrim(file);
    } else {
      BreakInName(file, ":1:1", rest, seekable);
    }
  }

  lemma DirectiveAtStart(file: string)
    ensures Directive(file, 1, true) == PREFIX + (file + ":1:1")
  {
    assert PREFIX + file + ":1:1" == PREFIX + (file + ":1:1");
  }

  lemma PlainAtStart(file: string)
    requires Plain(file)
    ensures Plain(file + ":1:1")
  {
    var body := file + ":1:1";
    forall c | c in body ensures c != '\n' && c != '\r' { assert c in file || c in ":1:1"; }
  }

  lemma NothingToTrim(file: string)
    ensures TrimLeft(file) == file <==> file == "" || !IsSpace(file[0])
  {
    TrimLeftDrops(file);
  }

  lemma PlainWithPosition(file: string, n: nat)
    requires Plain(file)
    ensures Plain(file + ":" + Digits(n))
  {
    var body, digits := file + ":" + Digits(n), Digits(n);
    forall k | 0 <= k < |body| ensures body[k] != '\n' && body[k] != '\r' {
      if k > |file| { assert body[k] == digits[k - |file| - 1] && digits[k - |file| - 1] in digits; }
    }
  }

  lemma DecideLater(file: string, line: nat)
    requires 2 <= line < HALF
    ensures Decide(file + ":" + Digits(line)) == NoDirective
  {
    TrimBeforePosition(file, line);
    ExactPosition(TrimLeft(file), line);
  }

  lemma DirectiveWithLine(file: string, line: nat, fileStart: bool)
    requires line > 1 || (line == 1 && !fileStart)
    ensures Directive(file, line, fileStart) == PREFIX + (file + ":" + Digits(line))
  {
    assert Itoa(line) == Digits(line);
    assert PREFIX + file + (":" + Digits(line)) == PREFIX + (file + ":" + Digits(line));
  }

  /** Ends in a position other than line 1, with or without column 1. */
  predicate EndsElsewhere(name: string) {
    var last := CutPosition(name);
    && last.Some? && last.value.found
    && (last.value.pos != 1
        || var first := CutPosition(last.value.rest); first.Some? && first.value.found && first.value.pos != 1)
  }

  lemma BreakBeforeLine(file: string, line: nat, rest: string, seekable: bool)
    requires !Plain(file)
    ensures var (outcome, end) := Consumed(PREFIX + (file + ":" + Digits(line)) + "\n" + rest, seekable);
            && outcome == Decide(FirstLine(file)) && (seekable && outcome.NoDirective? ==> end == 0)
  {
    var digits := Digits(line);
    var suffix := ":" + digits;
    assert suffix[|suffix| - 1] == digits[|digits| - 1] && digits[|digits| - 1] in digits;
    assert file + suffix == file + ":" + digits;
    BreakInName(file, suffix, rest, seekable);
  }

  /**
   A directive for a later line is not the one of a file start, and a reader that can seek is
   rewound, exactly if the name has no line break, or what is before it ends in such a position.
   */
  lemma LaterLinesRewindExactly(file: string, line: nat, fileStart: bool, rest: string, seekable: bool)
    requires 2 <= line < HALF
    ensures var d := Directive(file, line, fileStart);
            var (outcome, end) := Consumed(d + "\n" + rest, seekable);
            && (outcome == NoDirective <==> Plain(file) || EndsElsewhere(TrimSpace(FirstLine(file))))
            && (outcome == NoDirective && seekable ==> end == 0)
            && (Plain(file) && !seekable ==> end == |d| + 1)
  {
    DirectiveWithLine(file, line, fileStart);
    if Plain(file) {
      PlainWithPosition(file, line);
      DecideLater(file, line);
      ConsumedPlain(file + ":" + Digits(line), rest, seekable);
    } else {
      BreakBeforeLine(file, line, rest, seekable);
    }
  }

  lemma FoundIsShorter(buffer: string)
    ensures Decide(buffer).Found? ==> |Decide(buffer).name| <= |TrimSpace(buffer)| <= |buffer|
  {
    TrimLeftDrops(buffer);
    TrimRightDrops(TrimLeft(buffer));
  }

  /** What a directive for line 1 without a column is taken for. */
  lemma DecideLineOne(file: string)
    ensures var name, outcome := TrimLeft(file), Decide(file + ":" + Digits(1));
            && (outcome == Overrun <==> forall c | c in name :: IsDigit(c))
            && (outcome == Found(name) <==> CutPosition(name) == Some(Position(name, 0, false)))
            && (outcome == NoDirective <==>
                   CutPosition(name).Some? && CutPosition(name).value.found && CutPosition(name).value.pos != 1)
            && (outcome.Found? ==> |outcome.name| <= |name|)
  {
    var name := TrimLeft(file);
    TrimBeforePosition(file, 1);
    ExactPosition(name, 1);
    OverrunExactly(name);
    if CutPosition(name).Some? && CutPosition(name).value.found {
      assert |CutPosition(name).value.rest| < |name|;
    }
  }

  /**
   A directive for line 1 without a column gives its name back exactly if that has no line
   break, no white space in front, is not all digits and does not itself end in a position: a
   name that does is cut or refused, and one of digits alone makes the scan run past its start.
   */
  lemma LineOneExactly(file: string, rest: string, seekable: bool)
    ensures var outcome, name := Consumed(Directive(file, 1, false) + "\n" + rest, seekable).0, TrimLeft(file);
            && (outcome == Found(file) <==>
                  Plain(file) && (file == "" || !IsSpace(file[0]))
                    && CutPosition(file) == Some(Position(file, 0, false)))
            && (!Plain(file) ==> outcome == Decide(FirstLine(file)))
            && (Plain(file) ==>
                  && (outcome == Overrun <==> forall c | c in name :: IsDigit(c))
                  && (outcome == NoDirective <==>
                         CutPosition(name).Some? && CutPosition(name).value.found && CutPosition(name).value.pos != 1))
  {
    DirectiveWithLine(file, 1, false);
    if Plain(file) {
      PlainWithPosition(file, 1);
      DecideLineOne(file);
      TrimLeftDrops(file);
      NothingToTrim(file);
      ConsumedPlain(file + ":" + Digits(1), rest, seekable);
    } else {
      BreakBeforeLine(file, 1, rest, seekable);
      FoundIsShorter(FirstLine(file));
    }
  }

  lemma FirstLineIsShorter(file: string)
    requires !Plain(file)
    ensures Decide(FirstLine(file)) != Found(file)
  {
    FoundIsShorter(FirstLine(file));
  }

  /**
   A directive without a line gives its name back exactly if that has no line break, no white space at either
   end, is not all digits and does not end in a position.
   */
  lemma LineZeroExactly(file: string, fileStart: bool, rest: string, seekable: bool)
    ensures var outcome := Consumed(Directive(file, 0, fileStart) + "\n" + rest, seekable).0;
            && outcome == Decide(FirstLine(file))
            && (outcome == Found(file) <==>
                  Plain(file) && TrimSpace(file) == file && CutPosition(file) == Some(Position(file, 0, false)))
  {
    assert Directive(file, 0, fileStart) == PREFIX + file;
    if Plain(file) {
      ConsumedPlain(file, rest, seekable);
      TrimSpaceIsShorter(file);
    } else {
      var text := PREFIX + file + "\n" + rest;
      assert text == PREFIX + file + ("\n" + rest);
      NameInText(file, PREFIX, "\n" + rest);
      assert text[|PREFIX| + |file|] == '\n';
      BreakInText(text, |PREFIX| + |FirstLine(file)|, |PREFIX| + |file| + 1, seekable);
      FirstLineIsShorter(file);
    }
  }

  lemma TrimSpaceIsShorter(file: string)
    ensures Decide(file) == Found(file) <==>
              TrimSpace(file) == file && CutPosition(file) == Some(Position(file, 0, false))
  {
    TrimLeftDrops(file);
    TrimRightDrops(TrimLeft(file));
    FoundIsShorter(file);
    var name := CutPosition(TrimSpace(file));
    if name.Some? && name.value.found { assert |name.value.rest| < |TrimSpace(file)|; }
  }
}
