/** Text as lines: taking it apart and putting it together again. */
module Lines {
  import opened Wrappers
  import opened Strings

  predicate OneLine(s: string) {
    '\n' !in s
  }

  /** Every line ended by a newline. */
  function Text(lines: seq<string>): string {
    if lines == [] then "" else lines[0] + "\n" + Text(lines[1..])
  }

  lemma {:induction false} SplitLine(l: string, rest: string)
    requires OneLine(l)
    ensures Split(l + "\n" + rest, "\n") == [l] + Split(rest, "\n")
  {
    var s := l + "\n" + rest;
    if l == "" {
      assert s[1..] == rest && "\n" <= s;
    } else {
      assert s[1..] == l[1..] + "\n" + rest && s[0] == l[0];
      assert !("\n" <= s);
      SplitLine(l[1..], rest);
      assert [l[0]] + l[1..] == l;
    }
  }

  /** Reading lines that were written gives these lines, and what follows the last newline. */
  lemma {:induction false} SplitText(lines: seq<string>)
    requires forall l | l in lines :: OneLine(l)
    ensures Split(Text(lines), "\n") == lines + [""]
  {
    if lines != [] {
      SplitText(lines[1..]);
      SplitLine(lines[0], Text(lines[1..]));
      assert [lines[0]] + (lines[1..] + [""]) == lines + [""];
    }
  }

  lemma {:induction false} PiecesAreLines(s: string)
    ensures forall l | l in Split(s, "\n") :: OneLine(l)
    decreases |s|
  {
    if s != "" {
      PiecesAreLines(s[1..]);
      var rest := Split(s[1..], "\n");
      if "\n" <= s {
        assert Split(s, "\n") == [""] + rest;
      } else {
        assert s[0] != '\n' && rest[0] in rest;
        assert Split(s, "\n") == [[s[0]] + rest[0]] + rest[1..];
      }
    }
  }

  /** Without white space at either end. */
  predicate Trimmed(s: string) {
    s == "" || (!IsSpace(s[0]) && !IsSpace(s[|s| - 1]))
  }

  lemma TrimSpaceTrims(s: string)
    ensures Trimmed(TrimSpace(s)) && (Trimmed(s) ==> TrimSpace(s) == s) && (OneLine(s) ==> OneLine(TrimSpace(s)))
  {
    var l := TrimLeft(s);
    TrimLeftDrops(s);
    TrimRightDrops(l);
    if Trimmed(s) { NothingToTrim(s); }
    if OneLine(s) { SliceIsOneLine(s, |s| - |l|, |s| - |l| + |TrimRight(l)|); }
  }

  lemma NothingToTrim(s: string)
    requires Trimmed(s)
    ensures TrimLeft(s) == s && TrimRight(s) == s
  {
  }

  lemma SliceIsOneLine(s: string, i: nat, j: nat)
    requires OneLine(s) && i <= j <= |s|
    ensures OneLine(s[i..j])
  {
    assert forall k | i <= k < j :: s[i..j][k - i] == s[k];
  }

  /** Cutting at the first separator. */
  lemma CutAt(before: string, c: char, after: string)
    requires c !in before
    ensures Cut(before + [c] + after, [c]) == (before, after, true)
  {
    var s := before + [c] + after;
    assert At(s, |before|, [c]);
    var r := Index(s, [c]);
    forall k | 0 <= k < |before| ensures !At(s, k, [c]) { assert s[k..k + 1][0] == before[k]; }
    assert r == Some(|before|);
    assert s[..|before|] == before && s[|before| + 1..] == after;
  }

  lemma CutFound(s: string, c: char)
    ensures var (before, after, found) := Cut(s, [c]);
            (found <==> c in s) && c !in before && (found ==> s == before + [c] + after)
  {
    var r := Index(s, [c]);
    forall k | 0 <= k < |s| ensures At(s, k, [c]) <==> s[k] == c { AtChar(s, k, c); }
    if r.Some? {
      var i := r.value;
      assert s[i..i + 1] == [c];
      assert s == s[..i] + [c] + s[i + 1..];
    }
  }

  lemma AtChar(s: string, k: nat, c: char)
    requires k < |s|
    ensures At(s, k, [c]) <==> s[k] == c
  {
    assert s[k..k + 1] == [s[k]];
  }
}
