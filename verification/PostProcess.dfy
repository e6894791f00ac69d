/**
 Line directives count only at the first column; blanks before them are removed from the
 printed source in place (internal/injector/postprocess.go).
 */
module PostProcess {
  import opened Wrappers
  import opened Strings
  import opened Lines

  const PREFIX := "//line "

  predicate IsBlank(c: char) {
    c == ' ' || c == '\t'
  }

  function TrimBlanks(s: string): string {
    if s != "" && IsBlank(s[0]) then TrimBlanks(s[1..]) else s
  }

  /** A line directive starts at the first column; every other line stays as it is. */
  function FixLine(line: string): string {
    if PREFIX <= TrimBlanks(line) then TrimBlanks(line) else line
  }

  function FixLines(lines: seq<string>): (r: seq<string>)
    ensures |r| == |lines| && forall i | 0 <= i < |r| :: r[i] == FixLine(lines[i])
  {
    seq(|lines|, i requires 0 <= i < |lines| => FixLine(lines[i]))
  }

  function Processed(src: string): string {
    Join(FixLines(Split(src, "\n")), "\n")
  }

  // ---------------------------------------------------------------- one line after the other

  lemma {:induction false} SplitOne(l: string)
    requires OneLine(l)
    ensures Split(l, "\n") == [l]
  {
    if l != "" {
      assert l[0] in l && l[0] != '\n';
      SplitOne(l[1..]);
      assert [l[0]] + l[1..] == l;
    }
  }

  lemma ProcessedLast(l: string)
    requires OneLine(l)
    ensures Processed(l) == FixLine(l)
  {
    SplitOne(l);
    assert FixLines([l]) == [FixLine(l)];
  }

  lemma ProcessedLine(l: string, rest: string)
    requires OneLine(l)
    ensures Processed(l + "\n" + rest) == FixLine(l) + "\n" + Processed(rest)
  {
    SplitLine(l, rest);
    var more := Split(rest, "\n");
    assert FixLines([l] + more) == [FixLine(l)] + FixLines(more);
    JoinCons(FixLine(l), FixLines(more), "\n");
  }

  lemma {:induction false} TrimBlanksDrops(s: string)
    ensures var r := TrimBlanks(s);
            |r| <= |s| && r == s[|s| - |r|..] && (forall k | 0 <= k < |s| - |r| :: IsBlank(s[k]))
    ensures TrimBlanks(s) == "" || !IsBlank(TrimBlanks(s)[0])
  {
    if s != "" && IsBlank(s[0]) {
      TrimBlanksDrops(s[1..]);
      var r := TrimBlanks(s[1..]);
      assert s[1..][|s| - 1 - |r|..] == s[|s| - |r|..];
      forall k | 0 <= k < |s| - |r| ensures IsBlank(s[k]) {
        if k > 0 { assert s[k] == s[1..][k - 1]; }
      }
    }
  }

  lemma {:induction false} TrimBlanksOfMore(s: string, t: string)
    requires t == "" || !IsBlank(t[0])
    ensures TrimBlanks(s + t) == TrimBlanks(s) + t
  {
    if s == "" {
      assert s + t == t;
    } else {
      assert (s + t)[1..] == s[1..] + t;
      if IsBlank(s[0]) { TrimBlanksOfMore(s[1..], t); }
    }
  }

  /** Whether the first line of a text is a directive can be seen without looking for its end. */
  lemma DirectiveIsOnFirstLine(l: string, rest: string)
    requires rest == "" || rest[0] == '\n'
    ensures TrimBlanks(l + rest) == TrimBlanks(l) + rest
    ensures PREFIX <= TrimBlanks(l + rest) <==> PREFIX <= TrimBlanks(l)
  {
    TrimBlanksOfMore(l, rest);
    var t := TrimBlanks(l);
    assert '\n' !in PREFIX;
    assert rest != "" ==> (t + rest)[|t|] == '\n';
    if PREFIX <= t + rest {
      forall k | 0 <= k < |PREFIX| ensures k < |t| && t[k] == PREFIX[k] { assert (t + rest)[k] == PREFIX[k]; }
    }
  }

  lemma FixLineIsIdempotent(l: string)
    ensures FixLine(FixLine(l)) == FixLine(l)
  {
    TrimBlanksDrops(l);
  }

  /** Where the first line of a text ends. */
  function LineEnd(s: string): (n: nat)
    ensures n <= |s| && OneLine(s[..n]) && (n < |s| ==> s[n] == '\n')
  {
    if s == "" || s[0] == '\n' then 0
    else
      var n := LineEnd(s[1..]);
      assert s[..n + 1] == [s[0]] + s[1..][..n];
      n + 1
  }

  lemma SplitAtLineEnd(s: string)
    ensures var n := LineEnd(s);
            if n < |s| then s == s[..n] + "\n" + s[n + 1..] && s[..n + 1] == s[..n] + "\n" else s == s[..n]
  {
    var n := LineEnd(s);
    if n < |s| {
      assert s[..n + 1] == s[..n] + [s[n]] && [s[n]] == "\n";
      assert s == s[..n + 1] + s[n + 1..];
    }
  }

  lemma TrimmedIsOneLine(l: string)
    requires OneLine(l)
    ensures PREFIX <= TrimBlanks(l) ==> OneLine(TrimBlanks(l)) && FixLine(TrimBlanks(l)) == FixLine(l)
  {
    TrimBlanksDrops(l);
    FixLineIsIdempotent(l);
  }

  lemma OnFirstLine(l: string, more: string)
    ensures TrimBlanks(l + "\n" + more) == TrimBlanks(l) + "\n" + more
    ensures PREFIX <= TrimBlanks(l + "\n" + more) <==> PREFIX <= TrimBlanks(l)
  {
    DirectiveIsOnFirstLine(l, "\n" + more);
    assert l + ("\n" + more) == l + "\n" + more && TrimBlanks(l) + ("\n" + more) == TrimBlanks(l) + "\n" + more;
  }

  lemma TrimLine(l: string, more: string)
    requires OneLine(l) && PREFIX <= TrimBlanks(l + "\n" + more)
    ensures Processed(TrimBlanks(l + "\n" + more)) == Processed(l + "\n" + more)
  {
    OnFirstLine(l, more);
    TrimmedIsOneLine(l);
    ProcessedLine(l, more);
    ProcessedLine(TrimBlanks(l), more);
  }

  lemma PassLine(l: string, more: string)
    requires OneLine(l)
    requires TrimBlanks(l + "\n" + more) == l + "\n" + more || !(PREFIX <= TrimBlanks(l + "\n" + more))
    ensures Processed(l + "\n" + more) == l + "\n" + Processed(more)
  {
    OnFirstLine(l, more);
    TrimBlanksDrops(l);
    if PREFIX <= TrimBlanks(l) {
      assert |TrimBlanks(l)| == |l|;
    }
    ProcessedLine(l, more);
  }

  /** Trimming the first line if it is an indented directive changes nothing of the result. */
  lemma TrimFirst(s: string)
    requires PREFIX <= TrimBlanks(s)
    ensures Processed(TrimBlanks(s)) == Processed(s)
  {
    var n := LineEnd(s);
    SplitAtLineEnd(s);
    if n < |s| {
      TrimLine(s[..n], s[n + 1..]);
    } else {
      TrimmedIsOneLine(s);
      ProcessedLast(s);
      ProcessedLast(TrimBlanks(s));
    }
  }

  /** A first line that needs no trimming is passed over. */
  lemma PassFirst(s: string)
    requires TrimBlanks(s) == s || !(PREFIX <= TrimBlanks(s))
    ensures var n := LineEnd(s);
            Processed(s) == if n < |s| then s[..n + 1] + Processed(s[n + 1..]) else s
  {
    var n := LineEnd(s);
    SplitAtLineEnd(s);
    if n < |s| {
      PassLine(s[..n], s[n + 1..]);
    } else {
      ProcessedLast(s);
    }
  }

  // ---------------------------------------------------------------- in place

  /** Returns the new length; what is beyond it is left over. */
  method PostProcess(src: array<char>) returns (n: nat)
    modifies src
    ensures n <= src.Length && src[..n] == Processed(old(src[..]))
  {
    n := src.Length;
    ghost var goal := Processed(src[..]);
    var i := 0;
    assert src[..n] == src[..] && src[0..n] == src[..];
    while i < n
      invariant 0 <= i <= n <= src.Length
      invariant goal == src[..i] + Processed(src[i..n])
      decreases src.Length - i
    {
      n := TrimAt(src, i, n);
      i := NextLine(src, i, n);
    }
    assert src[n..n] == "";
    ProcessedLast("");
  }

  /** How many blanks there are at `i`. */
  method Padding(src: array<char>, i: nat, n: nat) returns (pad: nat)
    requires i <= n <= src.Length
    ensures i + pad <= n && TrimBlanks(src[i..n]) == src[i + pad..n]
  {
    ghost var rest := src[i..n];
    pad := 0;
    while i + pad < n && IsBlank(src[i + pad])
      invariant i + pad <= n && TrimBlanks(rest) == TrimBlanks(src[i + pad..n])
    {
      assert src[i + pad..n][1..] == src[i + pad + 1..n];
      pad := pad + 1;
    }
  }

  method MoveLeft(src: array<char>, i: nat, pad: nat, n: nat)
    requires i + pad <= n <= src.Length
    modifies src
    ensures src[..i] == old(src[..i]) && src[i..n - pad] == old(src[i + pad..n])
  {
    forall k | i <= k < n - pad { src[k] := src[k + pad]; }
  }

  /** Moves the rest of the source left over the blanks at `i` if a directive follows them. */
  method TrimAt(src: array<char>, i: nat, n: nat) returns (newEnd: nat)
    requires i < n <= src.Length
    modifies src
    ensures i < newEnd <= n && src[..i] == old(src[..i])
    ensures Processed(src[i..newEnd]) == Processed(old(src[i..n]))
    ensures TrimBlanks(src[i..newEnd]) == src[i..newEnd] || !(PREFIX <= TrimBlanks(src[i..newEnd]))
  {
    ghost var rest := src[i..n];
    var pad := Padding(src, i, n);
    TrimmedStays(rest);
    newEnd := n;
    if pad > 0 && PREFIX <= src[i + pad..n] {
      TrimFirst(rest);
      MoveLeft(src, i, pad, n);
      newEnd := n - pad;
    }
  }

  lemma TrimmedStays(s: string)
    ensures TrimBlanks(TrimBlanks(s)) == TrimBlanks(s)
  {
    TrimBlanksDrops(s);
  }

  method IndexByte(src: array<char>, i: nat, n: nat) returns (lf: nat)
    requires i <= n <= src.Length
    ensures i <= lf <= n && lf - i == LineEnd(src[i..n])
  {
    lf := i;
    while lf < n && src[lf] != '\n'
      invariant i <= lf <= n && LineEnd(src[i..n]) == lf - i + LineEnd(src[lf..n])
    {
      assert src[lf..n][1..] == src[lf + 1..n];
      lf := lf + 1;
    }
  }

  /** The start of the next line, or the end. */
  method NextLine(src: array<char>, i: nat, n: nat) returns (next: nat)
    requires i < n <= src.Length
    requires TrimBlanks(src[i..n]) == src[i..n] || !(PREFIX <= TrimBlanks(src[i..n]))
    ensures i < next <= n && src[..i] + Processed(src[i..n]) == src[..next] + Processed(src[next..n])
  {
    var lf := IndexByte(src, i, n);
    next := if lf < n then lf + 1 else n;
    PassInside(src[..n], i, next);
    assert src[..n][..i] == src[..i] && src[..n][i..] == src[i..n];
    assert src[..n][..next] == src[..next] && src[..n][next..] == src[next..n];
  }

  lemma PassInside(s: string, i: nat, next: nat)
    requires i < |s| && (TrimBlanks(s[i..]) == s[i..] || !(PREFIX <= TrimBlanks(s[i..])))
    requires var lf := i + LineEnd(s[i..]); next == if lf < |s| then lf + 1 else |s|
    ensures s[..i] + Processed(s[i..]) == s[..next] + Processed(s[next..])
  {
    PassFirst(s[i..]);
    SliceAgain(s, i, next);
    ProcessedLast("");
    Regroup(s[..i], s[i..next], Processed(s[next..]));
  }

  lemma SliceAgain(s: string, i: nat, next: nat)
    requires i <= next <= |s|
    ensures s[i..][..next - i] == s[i..next] && s[i..][next - i..] == s[next..]
    ensures s[..i] + s[i..next] == s[..next] && s[..i] + s[i..] == s && s[..|s|] == s && s[|s|..] == ""
  {
  }

  lemma Regroup(a: string, b: string, c: string)
    ensures a + (b + c) == (a + b) + c
  {
  }

  // ---------------------------------------------------------------- what it changes

  lemma {:induction false} FixedLinesAreLines(lines: seq<string>)
    requires lines != [] && forall l | l in lines :: OneLine(l)
    ensures Split(Join(FixLines(lines), "\n"), "\n") == FixLines(lines)
  {
    var fixed := FixLines(lines);
    forall l | l in fixed ensures OneLine(l) { FixedIsOneLine(lines, l); }
    SplitJoin(fixed);
  }

  lemma FixedIsOneLine(lines: seq<string>, l: string)
    requires l in FixLines(lines) && forall k | k in lines :: OneLine(k)
    ensures OneLine(l)
  {
    var i :| 0 <= i < |lines| && l == FixLine(lines[i]);
    assert lines[i] in lines;
    TrimBlanksDrops(lines[i]);
  }

  lemma {:induction false} SplitJoin(lines: seq<string>)
    requires lines != [] && forall l | l in lines :: OneLine(l)
    ensures Split(Join(lines, "\n"), "\n") == lines
  {
    assert lines[0] in lines;
    if |lines| == 1 {
      SplitOne(lines[0]);
    } else {
      SplitJoin(lines[1..]);
      SplitLine(lines[0], Join(lines[1..], "\n"));
    }
  }

  lemma ProcessingIsIdempotent(src: string)
    ensures Processed(Processed(src)) == Processed(src)
  {
    var lines := Split(src, "\n");
    PiecesAreLines(src);
    FixedLinesAreLines(lines);
    var fixed := FixLines(lines);
    forall i | 0 <= i < |fixed| ensures FixLine(fixed[i]) == fixed[i] { FixLineIsIdempotent(lines[i]); }
    assert FixLines(fixed) == fixed;
  }

  /** Everything but blanks. */
  function Ink(s: string): string {
    if s == "" then "" else (if IsBlank(s[0]) then "" else [s[0]]) + Ink(s[1..])
  }

  lemma {:induction false} InkOfBoth(a: string, b: string)
    ensures Ink(a + b) == Ink(a) + Ink(b)
  {
    if a == "" {
      assert a + b == b;
    } else {
      assert (a + b)[1..] == a[1..] + b;
      InkOfBoth(a[1..], b);
    }
  }

  lemma {:induction false} TrimKeepsInk(s: string)
    ensures Ink(TrimBlanks(s)) == Ink(s) && |TrimBlanks(s)| <= |s|
  {
    if s != "" && IsBlank(s[0]) { TrimKeepsInk(s[1..]); }
  }

  lemma {:induction false} JoinKeepsInk(lines: seq<string>)
    ensures Ink(Join(FixLines(lines), "\n")) == Ink(Join(lines, "\n"))
    ensures |Join(FixLines(lines), "\n")| <= |Join(lines, "\n")|
  {
    if lines != [] {
      TrimKeepsInk(lines[0]);
      JoinKeepsInk(lines[1..]);
      assert FixLines(lines)[1..] == FixLines(lines[1..]);
      if |lines| > 1 {
        JoinedInk(lines[0], Join(lines[1..], "\n"));
        JoinedInk(FixLine(lines[0]), Join(FixLines(lines[1..]), "\n"));
      }
    }
  }

  lemma JoinedInk(l: string, rest: string)
    ensures Ink(l + "\n" + rest) == Ink(l) + "\n" + Ink(rest)
  {
    InkOfBoth(l + "\n", rest);
    InkOfBoth(l, "\n");
    assert Ink("\n") == "\n";
  }

  /** The buffer never grows, and all that goes are blanks; the rest stays in order. */
  lemma OnlyBlanksGo(src: string)
    ensures |Processed(src)| <= |src| && Ink(Processed(src)) == Ink(src)
  {
    JoinKeepsInk(Split(src, "\n"));
    JoinSplit(src, "\n");
  }

  // ---------------------------------------------------------------- what becomes of a line

  /** Spaces and tabs, and then a line directive. */
  predicate Indented(line: string, indent: string, rest: string) {
    line == indent + "//line " + rest && forall c | c in indent :: c == ' ' || c == '\t'
  }

  lemma {:induction false} TrimIndent(indent: string, text: string)
    requires (forall c | c in indent :: c == ' ' || c == '\t') && text != "" && text[0] == '/'
    ensures TrimBlanks(indent + text) == text
  {
    if indent == "" {
      assert indent + text == text;
    } else {
      assert indent[0] in indent && (indent + text)[1..] == indent[1..] + text;
      assert forall c | c in indent[1..] :: c in indent;
      TrimIndent(indent[1..], text);
    }
  }

  lemma FixLineExactly(line: string)
    ensures forall indent, rest | Indented(line, indent, rest) :: FixLine(line) == "//line " + rest
    ensures (forall indent, rest :: !Indented(line, indent, rest)) ==> FixLine(line) == line
  {
    forall indent, rest | Indented(line, indent, rest) ensures FixLine(line) == "//line " + rest {
      assert line == indent + ("//line " + rest);
      TrimIndent(indent, "//line " + rest);
    }
    TrimBlanksDrops(line);
    var t := TrimBlanks(line);
    if PREFIX <= t {
      var indent, rest := line[..|line| - |t|], t[|PREFIX|..];
      assert t == "//line " + rest;
      assert line == indent + "//line " + rest;
      assert Indented(line, indent, rest);
    }
  }

  /** Line by line: a directive loses the spaces and tabs in front of it, and every other line stays as it is. */
  lemma DirectivesMoveExactly(src: string)
    ensures var before, after := Split(src, "\n"), Split(Processed(src), "\n");
            && |after| == |before|
            && forall i | 0 <= i < |before| ::
                 && (forall indent, rest | Indented(before[i], indent, rest) :: after[i] == "//line " + rest)
                 && ((forall indent, rest :: !Indented(before[i], indent, rest)) ==> after[i] == before[i])
  {
    var before := Split(src, "\n");
    PiecesAreLines(src);
    FixedLinesAreLines(before);
    forall i | 0 <= i < |before|
      ensures forall indent, rest | Indented(before[i], indent, rest) :: FixLine(before[i]) == "//line " + rest
      ensures (forall indent, rest :: !Indented(before[i], indent, rest)) ==> FixLine(before[i]) == before[i]
    {
      FixLineExactly(before[i]);
    }
  }
}
