/**
 What becomes of the `**` inside a segment of a package filter
 (internal/injector/aspect/join/package.go): whether it ends up as a segment of its own, and
 what the expanded pattern then accepts.
 */
module Expansion {
  import opened Strings
  import opened Globstar

  // ---------------------------------------------------------------- runs of stars

  predicate DoubleStar(s: string) {
    exists k :: 0 <= k < |s| - 1 && s[k] == s[k + 1] == '*'
  }

  lemma ContainsDoubleStar(s: string)
    ensures Contains(s, ANY) <==> DoubleStar(s)
  {
    ContainsIsOccurs(s, ANY);
    assert ANY == ['*', '*'];
    forall i | 0 <= i < |s| - 1 ensures At(s, i, ANY) <==> s[i] == s[i + 1] == '*' {
      assert s[i..i + 2] == [s[i], s[i + 1]];
    }
    if DoubleStar(s) {
      var k :| 0 <= k < |s| - 1 && s[k] == s[k + 1] == '*';
      assert At(s, k, ANY);
    }
    if Occurs(ANY, s) {
      var i :| At(s, i, ANY);
      assert 0 <= i < |s| - 1 && s[i] == '*' && s[i + 1] == '*';
    }
  }

  predicate Starts(s: string) {
    s != "" && s[0] == '*'
  }

  predicate Ends(s: string) {
    s != "" && s[|s| - 1] == '*'
  }

  lemma ConsDouble(c: char, s: string)
    ensures DoubleStar([c] + s) <==> (c == '*' && Starts(s)) || DoubleStar(s)
  {
    var t := [c] + s;
    assert forall k | 0 <= k < |s| :: t[k + 1] == s[k];
    if c == '*' && Starts(s) { assert t[0] == t[1] == '*'; }
    if DoubleStar(s) {
      var k :| 0 <= k < |s| - 1 && s[k] == s[k + 1] == '*';
      assert t[k + 1] == t[k + 2] == '*';
    }
    if DoubleStar(t) {
      var k :| 0 <= k < |t| - 1 && t[k] == t[k + 1] == '*';
      assert k > 0 ==> s[k - 1] == s[k - 1 + 1] == '*';
    }
  }

  lemma SnocDouble(s: string)
    ensures DoubleStar(s + "*") <==> DoubleStar(s) || Ends(s)
  {
    var t := s + "*";
    if DoubleStar(s) {
      var k :| 0 <= k < |s| - 1 && s[k] == s[k + 1] == '*';
      assert t[k] == t[k + 1] == '*';
    }
    if Ends(s) { assert t[|s| - 1] == t[|s| - 1 + 1] == '*'; }
  }

  /** All the stars that stand together from `i` to `j`. */
  predicate Stars(s: string, i: int, j: int) {
    && 0 <= i < j <= |s| && (forall k | i <= k < j :: s[k] == '*')
    && (i > 0 ==> s[i - 1] != '*') && (j < |s| ==> s[j] != '*')
  }

  /** Three, five, seven, ... stars stand together. */
  ghost predicate OddStars(s: string) {
    exists i, j :: Stars(s, i, j) && j - i >= 3 && (j - i) % 2 == 1
  }

  /** Some part after the first begins with a star of its own. */
  predicate Starred(parts: seq<string>) {
    exists i :: 0 < i < |parts| && Starts(parts[i])
  }

  lemma SplitStarts(s: string)
    ensures Starts(Split(s, ANY)[0]) <==> Starts(s) && !(ANY <= s)
  {
  }

  lemma TwoStars(s: string)
    ensures ANY <= s <==> |s| >= 2 && s[0] == s[1] == '*'
  {
    assert ANY[0] == ANY[1] == '*';
    if |s| >= 2 { assert s[..2] == [s[0], s[1]]; }
  }

  lemma TwoStarsLast(s: string)
    ensures HasSuffix(s, ANY) <==> |s| >= 2 && s[|s| - 2] == s[|s| - 1] == '*'
  {
    assert ANY[0] == ANY[1] == '*';
    if |s| >= 2 { assert s[|s| - 2..] == [s[|s| - 2], s[|s| - 1]]; }
  }

  lemma OddStarsAfterTwo(s: string)
    requires ANY <= s
    ensures OddStars(s) <==> (Starts(s[2..]) && !(ANY <= s[2..])) || OddStars(s[2..])
  {
    var t := s[2..];
    TwoStars(s);
    TwoStars(t);
    if i, j :| Stars(s, i, j) && j - i >= 3 && (j - i) % 2 == 1 {
      if i > 0 {
        assert Stars(t, i - 2, j - 2);
      } else if j > 3 {
        assert forall k | 0 <= k < j - 2 :: t[k] == s[k + 2];
        assert Stars(t, 0, j - 2) && j - 2 >= 3 && (j - 2) % 2 == 1;
      }
    }
    if Starts(t) && !(ANY <= t) {
      assert Stars(s, 0, 3);
    } else if i, j :| Stars(t, i, j) && j - i >= 3 && (j - i) % 2 == 1 {
      var first := if i == 0 then 0 else i + 2;
      assert forall k | first <= k < j + 2 && k >= 2 :: s[k] == t[k - 2];
      assert Stars(s, first, j + 2) && (j + 2 - first) % 2 == 1;
    }
  }

  lemma OddStarsAfterOne(s: string)
    requires s != "" && !(ANY <= s)
    ensures OddStars(s) <==> OddStars(s[1..])
  {
    var t := s[1..];
    TwoStars(s);
    if i, j :| Stars(s, i, j) && j - i >= 3 && (j - i) % 2 == 1 {
      assert s[i] == s[i + 1] == '*';
      assert Stars(t, i - 1, j - 1);
    }
    if i, j :| Stars(t, i, j) && j - i >= 3 && (j - i) % 2 == 1 {
      assert i == 0 ==> s[0] != '*' by { assert t[0] == s[1]; }
      assert Stars(s, i + 1, j + 1);
    }
  }

  /** Splitting takes the stars in pairs, so one is left over where their number is odd. */
  lemma {:induction false} StarredExactly(s: string)
    ensures Starred(Split(s, ANY)) <==> OddStars(s)
    decreases |s|
  {
    if s == "" {
    } else if ANY <= s {
      StarredExactly(s[2..]);
      OddStarsAfterTwo(s);
      SplitStarts(s[2..]);
      MorePartsStarred("", Split(s[2..], ANY));
    } else {
      StarredExactly(s[1..]);
      OddStarsAfterOne(s);
      var rest := Split(s[1..], ANY);
      var parts := [[s[0]] + rest[0]] + rest[1..];
      assert |parts| == |rest| && forall i | 0 < i < |rest| :: parts[i] == rest[i];
    }
  }

  lemma MorePartsStarred(first: string, rest: seq<string>)
    requires rest != []
    ensures Starred([first] + rest) <==> Starts(rest[0]) || Starred(rest)
  {
    var parts := [first] + rest;
    if i :| 0 < i < |parts| && Starts(parts[i]) { assert parts[i] == rest[i - 1]; }
    if Starts(rest[0]) { assert parts[1] == rest[0]; }
    if i :| 0 < i < |rest| && Starts(rest[i]) { assert parts[i + 1] == rest[i]; }
  }

  /** A part holds no `**`, and only the last may end with a star. */
  predicate GoodParts(parts: seq<string>) {
    forall i | 0 <= i < |parts| :: !DoubleStar(parts[i]) && (i < |parts| - 1 ==> !Ends(parts[i]))
  }

  lemma {:induction false} PartsAreGood(s: string)
    ensures GoodParts(Split(s, ANY))
    decreases |s|
  {
    TwoStars(s);
    if s == "" {
    } else if ANY <= s {
      PartsAreGood(s[2..]);
    } else {
      var rest := Split(s[1..], ANY);
      PartsAreGood(s[1..]);
      TwoStars(s[1..]);
      SplitStarts(s[1..]);
      assert rest[0] == "" && |rest| > 1 ==> ANY <= s[1..];
      ConsDouble(s[0], rest[0]);
    }
  }

  // ---------------------------------------------------------------- where the globstars go

  /** Every piece is a globstar or an ordinary pattern without one. */
  predicate StandAlone(pieces: seq<string>) {
    forall q | q in pieces :: q == ANY || !Contains(q, ANY)
  }

  lemma StandAloneBoth(a: seq<string>, b: seq<string>)
    ensures StandAlone(a + b) <==> StandAlone(a) && StandAlone(b)
  {
    assert forall q | q in a || q in b :: q in a + b;
  }

  lemma PartStandsAlone(parts: seq<string>, i: nat)
    requires i < |parts| && |parts| > 1 && GoodParts(parts) && parts[|parts| - 1] != "*"
    ensures StandAlone(ExpandPart(parts, i)) <==> i == 0 || !Starts(parts[i])
  {
    var part := parts[i];
    if part != "" {
      var piece := ExpandPart(parts, i)[0];
      ContainsDoubleStar(piece);
      ConsDouble('*', part);
      SnocDouble(part);
      SnocDouble("*" + part);
      assert ExpandPart(parts, i) == [piece];
      if i > 0 && Starts(part) { assert |part| > 1 by { assert part == "*" ==> Ends(part); } }
      OnePiece(piece);
    }
  }

  lemma OnePiece(piece: string)
    ensures StandAlone([piece]) <==> piece == ANY || !Contains(piece, ANY)
  {
    assert piece in [piece];
  }

  lemma {:induction false} MiddleStandsAlone(parts: seq<string>, i: nat)
    requires i <= |parts| && |parts| > 1 && GoodParts(parts) && parts[|parts| - 1] != "*"
    ensures StandAlone(ExpandMiddle(parts, i)) <==> forall k | i <= k < |parts| && k > 0 :: !Starts(parts[k])
    decreases |parts| - i
  {
    if i < |parts| {
      MiddleStandsAlone(parts, i + 1);
      PartStandsAlone(parts, i);
      MarkStandsAlone(if i > 0 then [ANY] else [], ExpandPart(parts, i), ExpandMiddle(parts, i + 1));
    }
  }

  lemma MarkStandsAlone(mark: seq<string>, part: seq<string>, rest: seq<string>)
    requires forall q | q in mark :: q == ANY
    ensures StandAlone(mark + part + rest) <==> StandAlone(part) && StandAlone(rest)
  {
    StandAloneBoth(mark + part, rest);
    StandAloneBoth(mark, part);
  }

  lemma {:induction false} SplitContains(s: string)
    ensures |Split(s, ANY)| > 1 <==> Contains(s, ANY)
    ensures |Split(s, ANY)| == 1 ==> Split(s, ANY) == [s]
    decreases |s|
  {
    if s == "" {
    } else if ANY <= s {
      assert Contains(s, ANY);
    } else {
      SplitContains(s[1..]);
      assert s == [s[0]] + s[1..];
    }
  }

  lemma {:induction false} LastPartEnds(s: string)
    requires |Split(s, ANY)| > 1
    ensures var parts := Split(s, ANY); HasSuffix(s, ANY + parts[|parts| - 1])
    decreases |s|
  {
    if ANY <= s {
      SplitContains(s[2..]);
      var rest := Split(s[2..], ANY);
      assert s == ANY + s[2..];
      if |rest| > 1 {
        LastPartEnds(s[2..]);
        SuffixOfRest(s, 2, ANY + rest[|rest| - 1]);
      }
    } else {
      var rest := Split(s[1..], ANY);
      LastPartEnds(s[1..]);
      SuffixOfRest(s, 1, ANY + rest[|rest| - 1]);
    }
  }

  lemma SuffixOfRest(s: string, n: nat, x: string)
    requires n <= |s| && HasSuffix(s[n..], x)
    ensures HasSuffix(s, x)
  {
    assert s[|s| - |x|..] == s[n..][|s| - n - |x|..];
  }

  /**
   Which segments expand as intended, read off the three branches: behind a suffix or a prefix
   nothing is left to expand, and in the middle no odd number of three or more stars stands
   together.
   */
  ghost predicate Separable(s: string) {
    if HasSuffix(s, ANY) then s == "***" || !Contains(s[..|s| - 1], ANY)
    else if HasPrefix(s, ANY) then !Contains(s[1..], ANY)
    else !OddStars(s)
  }

  /** Every `**` of a segment becomes a segment of its own exactly if the segment is separable. */
  lemma GlobstarsStandAloneExactly(s: string)
    ensures StandAlone(ExpandSegment(s)) <==> Separable(s)
  {
    if s == ANY {
      ContainsDoubleStar("*");
      OnePiece(s);
      assert s[..1] == "*";
    } else if HasSuffix(s, ANY) {
      SuffixPieces(s);
    } else if HasPrefix(s, ANY) {
      PrefixPieces(s);
    } else if Contains(s, ANY) {
      var parts := Split(s, ANY);
      PartsAreGood(s);
      SplitContains(s);
      LastPartEnds(s);
      StarredExactly(s);
      if HasSuffix(s, ANY + "*") { LastStar(s); }
      MiddleStandsAlone(parts, 0);
    } else {
      OddStarsAreDouble(s);
      OnePiece(s);
    }
  }

  lemma SuffixPieces(s: string)
    requires HasSuffix(s, ANY) && |s| > 2
    ensures StandAlone(ExpandSegment(s)) <==> s == "***" || !Contains(s[..|s| - 1], ANY)
  {
    var a := s[..|s| - 1];
    assert s[|s| - 2] == s[|s| - 2..][0] == '*' && s[|s| - 1] == s[|s| - 2..][1] == '*';
    assert s[..|s| - 2] + "*" == a && s == a + "*";
    ContainsDoubleStar(ANY);
    TwoPieces(a, ANY);
  }

  lemma PrefixPieces(s: string)
    requires HasPrefix(s, ANY) && !HasSuffix(s, ANY) && |s| > 2
    ensures StandAlone(ExpandSegment(s)) <==> !Contains(s[1..], ANY)
  {
    TwoStars(s);
    assert "*" + s[2..] == s[1..];
    TwoPieces(ANY, s[1..]);
    assert |s| == 3 ==> s[1..] == s[|s| - 2..];
  }

  lemma LastStar(s: string)
    requires HasSuffix(s, ANY + "*")
    ensures HasSuffix(s, ANY)
  {
    assert s[|s| - 3..] == "***" && s[|s| - 2..] == s[|s| - 3..][1..];
  }

  lemma OddStarsAreDouble(s: string)
    ensures OddStars(s) ==> Contains(s, ANY)
  {
    ContainsDoubleStar(s);
    if OddStars(s) {
      var i, j :| Stars(s, i, j) && j - i >= 3 && (j - i) % 2 == 1;
      assert s[i] == s[i + 1] == '*';
    }
  }

  lemma TwoPieces(a: string, b: string)
    ensures StandAlone([a, b]) <==> (a == ANY || !Contains(a, ANY)) && (b == ANY || !Contains(b, ANY))
  {
    assert a in [a, b] && b in [a, b];
  }

  // ---------------------------------------------------------------- paths and their segments

  /** A path can be cut in front of any segment but the first. */
  lemma {:induction false} CutPath(p: string, k: nat) returns (i: nat)
    requires 0 < k < |Segments(p)|
    ensures i < |p| && p[i] == '/' && Segments(p[..i]) == Segments(p)[..k] && Segments(p[i + 1..]) == Segments(p)[k..]
  {
    SegmentsStep(p);
    if p[0] == '/' && k == 1 {
      i := 0;
    } else {
      var j := CutPath(p[1..], if p[0] == '/' then k - 1 else k);
      i := j + 1;
      assert p[..i] == [p[0]] + p[1..][..j] && p[i + 1..] == p[1..][j + 1..];
      SegmentsStep(p[..i]);
    }
  }

  /** The last segments of a path: the first of them up to something in front, the others exactly. */
  predicate EndsWith(path: seq<string>, segments: seq<string>)
    requires segments != []
  {
    && |segments| <= |path|
    && HasSuffix(path[|path| - |segments|], segments[0])
    && path[|path| - |segments| + 1..] == segments[1..]
  }

  lemma {:induction false} LastSegmentIsSuffix(p: string)
    ensures var last := Segments(p)[|Segments(p)| - 1];
            HasSuffix(p, last) && '/' !in last && (|last| == |p| || p[|p| - |last| - 1] == '/')
    ensures |Segments(p)| > 1 <==> '/' in p
  {
    if p != [] {
      SegmentsStep(p);
      LastSegmentIsSuffix(p[1..]);
      var rest := Segments(p[1..]);
      var last := rest[|rest| - 1];
      assert p == [p[0]] + p[1..];
      if |rest| == 1 { assert last == p[1..]; }
    }
  }

  /** The part of a path in front of its last segment. */
  lemma CutLast(p: string) returns (q: string, last: string)
    requires '/' in p
    ensures p == q + "/" + last && '/' !in last && Segments(p) == Segments(q) + [last]
  {
    LastSegmentIsSuffix(p);
    var k := |Segments(p)| - 1;
    var i := CutPath(p, k);
    q, last := p[..i], p[i + 1..];
    assert Segments(p)[k..] == [Segments(p)[k]];
    LastSegmentIsSuffix(last);
    assert |last| == |Segments(last)[0]|;
  }

  lemma SuffixIsWithin(p: string, e: string)
    requires HasSuffix(p, e)
    ensures forall k | |p| - |e| <= k < |p| :: p[k] == e[k - (|p| - |e|)]
  {
    var n := |p| - |e|;
    forall k | n <= k < |p| ensures p[k] == e[k - n] { assert p[n..][k - n] == p[k]; }
  }

  lemma SuffixFromChars(p: string, e: string)
    requires |e| <= |p| && forall k | 0 <= k < |e| :: p[|p| - |e| + k] == e[k]
    ensures HasSuffix(p, e)
  {
  }

  /** Text without a slash ends a path exactly if it ends its last segment. */
  lemma SuffixOfLast(p: string, e: string)
    requires '/' !in e
    ensures HasSuffix(p, e) <==> HasSuffix(Segments(p)[|Segments(p)| - 1], e)
  {
    LastSegmentIsSuffix(p);
    var last := Segments(p)[|Segments(p)| - 1];
    SuffixIsWithin(p, last);
    if HasSuffix(p, e) {
      SuffixIsWithin(p, e);
      assert forall k | 0 <= k < |e| :: e[k] in e;
      assert |e| <= |last|;
      SuffixFromChars(last, e);
    }
    if HasSuffix(last, e) {
      SuffixIsWithin(last, e);
      SuffixFromChars(p, e);
    }
  }

  lemma SlashStays(p: string, e: string)
    requires '/' in e
    ensures HasSuffix(p, e) ==> '/' in p
  {
    var i :| 0 <= i < |e| && e[i] == '/';
    if HasSuffix(p, e) {
      SuffixIsWithin(p, e);
      assert p[|p| - |e| + i] == '/';
    }
  }

  /** Text ends a path exactly if its segments end those of the path. */
  lemma {:induction false} SuffixSegments(p: string, e: string)
    ensures HasSuffix(p, e) <==> EndsWith(Segments(p), Segments(e))
    decreases |e|
  {
    if '/' !in e {
      NoSlash(e);
      SuffixOfLast(p, e);
    } else {
      var f, l := CutLast(e);
      if '/' in p {
        var q, last := CutLast(p);
        SuffixSegments(q, f);
        SuffixAfterSlash(q, last, f, l);
        EndsWithLast(Segments(q), last, Segments(f), l);
      } else {
        LastSegmentIsSuffix(p);
        LastSegmentIsSuffix(e);
        SlashStays(p, e);
      }
    }
  }

  lemma NoSlashBehind(q: string, last: string)
    requires '/' !in last
    ensures var p := q + "/" + last; p[|q|] == '/' && forall k | |q| < k < |p| :: p[k] != '/'
  {
    var p := q + "/" + last;
    forall k | |q| < k < |p| ensures p[k] != '/' { assert p[k] == last[k - |q| - 1] && last[k - |q| - 1] in last; }
  }

  lemma SuffixAfterSlash(q: string, last: string, f: string, l: string)
    requires '/' !in last && '/' !in l
    ensures HasSuffix(q + "/" + last, f + "/" + l) <==> last == l && HasSuffix(q, f)
  {
    var p, e := q + "/" + last, f + "/" + l;
    NoSlashBehind(q, last);
    NoSlashBehind(f, l);
    if HasSuffix(p, e) {
      SuffixIsWithin(p, e);
      assert p[|p| - |l| - 1] == e[|f|] == '/';
      assert |q| >= |p| - |e| && e[|q| - (|p| - |e|)] == p[|q|] == '/';
      forall k | 0 <= k < |l| ensures last[k] == l[k] { assert p[|q| + 1 + k] == e[|f| + 1 + k]; }
      forall k | 0 <= k < |f| ensures q[|q| - |f| + k] == f[k] { assert p[|p| - |e| + k] == e[k]; }
      SuffixFromChars(q, f);
    }
    if last == l && HasSuffix(q, f) {
      SuffixIsWithin(q, f);
      SuffixFromChars(p, e);
    }
  }

  lemma EndsWithLast(a: seq<string>, x: string, b: seq<string>, y: string)
    requires b != []
    ensures EndsWith(a + [x], b + [y]) <==> x == y && EndsWith(a, b)
  {
    if |b| <= |a| {
      var k := |a| - |b|;
      assert (a + [x])[k] == a[k] && (b + [y])[0] == b[0];
      assert (a + [x])[k + 1..] == a[k + 1..] + [x] && (b + [y])[1..] == b[1..] + [y];
      if a[k + 1..] + [x] == b[1..] + [y] {
        assert (a[k + 1..] + [x])[..|b| - 1] == a[k + 1..] && (b[1..] + [y])[..|b| - 1] == b[1..];
        assert (a[k + 1..] + [x])[|b| - 1] == x && (b[1..] + [y])[|b| - 1] == y;
      }
    }
  }

  // ---------------------------------------------------------------- what they accept

  lemma LiteralsAlone(m: Matcher, lits: seq<string>, path: seq<string>)
    requires MatchesLiterals(m) && (forall s | s in lits :: Literal(s)) && forall s | s in path :: '/' !in s
    ensures MatchSegs(m, lits, path) == if path == lits then Matched else Unmatched
  {
    LiteralsMatchThemselves(m, lits, [], path);
    assert lits + [] == lits;
    if lits <= path { assert path[|lits|..] == [] <==> path == lits; }
  }

  lemma StarIsNoGlobstar(m: Matcher, text: string, path: seq<string>)
    requires MatchesLiterals(m) && Literal(text) && text != "" && forall s | s in path :: '/' !in s
    ensures "*" + text != ANY
    ensures path != [] ==> m("*" + text, path[0]) == if HasSuffix(path[0], text) then Matched else Unmatched
  {
    assert ("*" + text)[1] == text[0] && text[0] in text && ANY[1] == '*';
    if path != [] { assert path[0] in path; }
  }

  /** A star before text, and then literal segments. */
  lemma StarAndLiterals(m: Matcher, segments: seq<string>, path: seq<string>)
    requires MatchesLiterals(m) && segments != [] && (forall s | s in segments :: Literal(s)) && segments[0] != ""
    requires forall s | s in path :: '/' !in s
    ensures MatchSegs(m, ["*" + segments[0]] + segments[1..], path)
         == if |path| == |segments| && EndsWith(path, segments) then Matched else Unmatched
  {
    var pats := ["*" + segments[0]] + segments[1..];
    assert pats[0] == "*" + segments[0] && pats[1..] == segments[1..] && segments[0] in segments;
    StarIsNoGlobstar(m, segments[0], path);
    if path != [] {
      LiteralsAlone(m, segments[1..], path[1..]);
      assert |path| == |segments| <==> |path[1..]| == |segments[1..]|;
    }
  }

  /** Behind a globstar, these meet the end of the path. */
  lemma {:induction false} AnywhereBehind(m: Matcher, segments: seq<string>, path: seq<string>, k: nat)
    requires MatchesLiterals(m) && segments != [] && (forall s | s in segments :: Literal(s)) && segments[0] != ""
    requires (forall s | s in path :: '/' !in s) && k <= |path| + 1
    ensures FirstMatch(m, [ANY, "*" + segments[0]] + segments[1..], path, k)
         == if k + |segments| <= |path| && EndsWith(path, segments) then Matched else Unmatched
    decreases |path| + 1 - k
  {
    if k <= |path| {
      AnywhereBehind(m, segments, path, k + 1);
      var pats := [ANY, "*" + segments[0]] + segments[1..];
      assert pats[1..] == ["*" + segments[0]] + segments[1..];
      StarAndLiterals(m, segments, path[k..]);
      if |path[k..]| == |segments| { assert path[k..][1..] == path[k + 1..]; }
    }
  }

  lemma GlobstarThenText(m: Matcher, segments: seq<string>, path: seq<string>)
    requires MatchesLiterals(m) && segments != [] && (forall s | s in segments :: Literal(s)) && segments[0] != ""
    requires forall s | s in path :: '/' !in s
    ensures MatchSegs(m, [ANY, "*" + segments[0]] + segments[1..], path)
         == if EndsWith(path, segments) then Matched else Unmatched
  {
    AnywhereBehind(m, segments, path, 0);
  }

  lemma {:induction false} LiteralsAnywhere(m: Matcher, lits: seq<string>, path: seq<string>, k: nat)
    requires MatchesLiterals(m) && lits != [] && (forall s | s in lits :: Literal(s))
    requires (forall s | s in path :: '/' !in s) && k <= |path| + 1
    ensures FirstMatch(m, [ANY] + lits, path, k)
         == if k + |lits| <= |path| && path[|path| - |lits|..] == lits then Matched else Unmatched
    decreases |path| + 1 - k
  {
    if k <= |path| {
      LiteralsAnywhere(m, lits, path, k + 1);
      assert ([ANY] + lits)[1..] == lits;
      LiteralsAlone(m, lits, path[k..]);
    }
  }

  /** The segments at the end are those of `f` exactly if the path is `f` or ends with it behind a slash. */
  lemma EndsWhole(p: string, f: string)
    ensures |Segments(f)| <= |Segments(p)| && Segments(p)[|Segments(p)| - |Segments(f)|..] == Segments(f)
       <==> p == f || HasSuffix(p, "/" + f)
  {
    var path, lits := Segments(p), Segments(f);
    SegmentsJoin("", f);
    assert "" + "/" + f == "/" + f && Segments("/" + f) == [""] + lits;
    SuffixSegments(p, "/" + f);
    assert ([""] + lits)[1..] == lits;
    if |path| == |lits| {
      JoinSplit(p, "/");
      JoinSplit(f, "/");
    }
  }

  lemma PrefixSplits(e: string)
    requires e != ""
    ensures Contains(ANY + e, ANY) && ANY + e != ANY
    ensures Segments(ANY + e) == [ANY + Segments(e)[0]] + Segments(e)[1..]
  {
    assert ANY == ['*', '*'] && ANY <= ANY + e && '/' !in ANY;
    NoSlash(ANY);
    SegmentsConcat(ANY, e);
  }

  lemma TextExpands(text: string)
    requires Literal(text) && text != ""
    ensures Expand([ANY + text]) == [ANY, "*" + text]
  {
    var first := ANY + text;
    assert first[|first| - 1] == text[|text| - 1] && text[|text| - 1] in text;
    TwoStarsLast(first);
    assert first[2..] == text && ANY <= first;
    assert Expand([first]) == ExpandSegment(first) + [];
  }

  lemma PrefixExpands(text: string, lits: seq<string>)
    requires Literal(text) && text != "" && forall s | s in lits :: Literal(s)
    ensures Expand([ANY + text] + lits) == [ANY, "*" + text] + lits
  {
    TextExpands(text);
    LiteralsStay(lits);
    ExpandConcat([ANY + text], lits);
  }

  lemma AnyExpands(lits: seq<string>)
    requires forall s | s in lits :: Literal(s)
    ensures Expand([ANY + ""] + lits) == [ANY] + lits
  {
    assert ANY + "" == ANY && Expand([ANY]) == ExpandSegment(ANY) + [] == [ANY];
    LiteralsStay(lits);
    ExpandConcat([ANY], lits);
  }

  lemma PrefixOfText(m: Matcher, e: string, p: string)
    requires MatchesLiterals(m) && Literal(e) && e != "" && e[0] != '/'
    ensures GlobMatch(m, ANY + e, p) == if HasSuffix(p, e) then Matched else Unmatched
  {
    PrefixSplits(e);
    SegmentsAreClean(p);
    SegmentsAreClean(e);
    SegmentsStep(e);
    PrefixExpands(Segments(e)[0], Segments(e)[1..]);
    GlobstarThenText(m, Segments(e), Segments(p));
    SuffixSegments(p, e);
  }

  lemma SlashSplits(f: string)
    requires Literal("/" + f)
    ensures Segments("/" + f) == [""] + Segments(f) && Literal(f)
  {
    SegmentsJoin("", f);
    assert "" + "/" + f == "/" + f;
    assert forall k | 0 <= k < |f| :: f[k] == ("/" + f)[k + 1] && ("/" + f)[k + 1] in "/" + f;
  }

  lemma PrefixOfSlash(m: Matcher, f: string, p: string)
    requires MatchesLiterals(m) && Literal("/" + f)
    ensures GlobMatch(m, ANY + ("/" + f), p) == if HasSuffix(p, "/" + f) || p == f then Matched else Unmatched
  {
    PrefixSplits("/" + f);
    SlashSplits(f);
    assert ([""] + Segments(f))[1..] == Segments(f);
    SegmentsAreClean(p);
    SegmentsAreClean(f);
    AnyExpands(Segments(f));
    LiteralsAnywhere(m, Segments(f), Segments(p), 0);
    EndsWhole(p, f);
  }

  /**
   `**e` accepts exactly the paths that end with the text `e`, and if this starts with a slash
   also what is behind that.
   */
  lemma GlobstarPrefix(m: Matcher, e: string, p: string)
    requires MatchesLiterals(m) && Literal(e)
    ensures GlobMatch(m, ANY + e, p)
         == if HasSuffix(p, e) || (e != "" && e[0] == '/' && p == e[1..]) then Matched else Unmatched
  {
    if e == "" {
      assert ANY + e == ANY;
      ContainsDoubleStar("*");
      TwoStars(ANY);
    } else if e[0] == '/' {
      assert e == "/" + e[1..];
      PrefixOfSlash(m, e[1..], p);
    } else {
      PrefixOfText(m, e, p);
    }
  }

  /** At some slash the path divides into what starts with `d` and what ends with `e`. */
  predicate Spans(p: string, d: string, e: string) {
    exists i :: 0 <= i < |p| && p[i] == '/' && d <= p[..i] && HasSuffix(p[i + 1..], e)
  }

  /** The same, said of segments. */
  predicate SpansSegments(path: seq<string>, d: seq<string>, e: seq<string>)
    requires d != [] && e != []
  {
    Leads(d, path) && EndsWith(path[|d|..], e)
  }

  lemma SpansIsSegments(p: string, d: string, e: string)
    ensures Spans(p, d, e) <==> SpansSegments(Segments(p), Segments(d), Segments(e))
  {
    var path, n := Segments(p), |Segments(d)|;
    if i :| 0 <= i < |p| && p[i] == '/' && d <= p[..i] && HasSuffix(p[i + 1..], e) {
      assert p == p[..i] + "/" + p[i + 1..];
      SegmentsJoin(p[..i], p[i + 1..]);
      TextPrefix(d, p[..i]);
      SuffixSegments(p[i + 1..], e);
      LaterEnd(Segments(p[..i]), Segments(p[i + 1..]), Segments(d), Segments(e));
    }
    if SpansSegments(path, Segments(d), Segments(e)) {
      var i := CutPath(p, n);
      TextPrefix(d, p[..i]);
      SuffixSegments(p[i + 1..], e);
    }
  }

  lemma LaterEnd(a: seq<string>, b: seq<string>, d: seq<string>, e: seq<string>)
    requires d != [] && e != [] && Leads(d, a) && EndsWith(b, e)
    ensures SpansSegments(a + b, d, e)
  {
    assert (a + b)[..|d| - 1] == a[..|d| - 1];
    assert (a + b)[|d|..] == a[|d|..] + b;
    var rest := a[|d|..] + b;
    assert rest[|rest| - |e|] == b[|b| - |e|] && rest[|rest| - |e| + 1..] == b[|b| - |e| + 1..];
  }

  lemma BetweenSegments(m: Matcher, d: seq<string>, e: seq<string>, path: seq<string>)
    requires MatchesLiterals(m) && d != [] && e != [] && d[|d| - 1] != "" && e[0] != ""
    requires (forall s | s in d + e :: Literal(s)) && forall s | s in path :: '/' !in s
    ensures MatchSegs(m, d[..|d| - 1] + ([d[|d| - 1] + "*"] + ([ANY, "*" + e[0]] + e[1..])), path)
         == if SpansSegments(path, d, e) then Matched else Unmatched
  {
    var lits, last := d[..|d| - 1], d[|d| - 1];
    var more := [last + "*"] + ([ANY, "*" + e[0]] + e[1..]);
    assert forall s | s in d || s in e :: s in d + e;
    assert last in d && ANY[0] == '*' && (last + "*")[0] == last[0] && last[0] in last;
    LiteralsMatchThemselves(m, lits, more, path);
    if lits <= path && |lits| < |path| {
      var rest := path[|lits|..];
      assert rest[0] in path && rest[1..] == path[|d|..] && more[1..] == [ANY, "*" + e[0]] + e[1..];
      GlobstarThenText(m, e, path[|d|..]);
    }
  }

  /**
   `d**e` accepts exactly the paths that at some slash divide into what starts with `d` and what
   ends with `e`.
   */
  lemma GlobstarBetween(m: Matcher, d: string, e: string, p: string)
    requires MatchesLiterals(m) && Literal(d) && Literal(e)
    requires d != "" && d[|d| - 1] != '/' && e != "" && e[0] != '/'
    ensures GlobMatch(m, d + ANY + e, p) == if Spans(p, d, e) then Matched else Unmatched
  {
    BetweenExpands(d, e);
    SegmentsAreClean(d);
    SegmentsAreClean(e);
    SegmentsAreClean(p);
    LastSegmentIsText(d);
    SegmentsStep(e);
    BetweenSegments(m, Segments(d), Segments(e), Segments(p));
    SpansIsSegments(p, d, e);
  }

  /** The segments of the pattern: those of `d`, the middle, those of `e`. */
  lemma BetweenSplits(d: string, e: string)
    ensures var a, b := Segments(d), Segments(e);
            Segments(d + ANY + e) == a[..|a| - 1] + ([a[|a| - 1] + ANY + b[0]] + b[1..])
  {
    assert ANY == ['*', '*'] && '/' !in ANY;
    NoSlash(ANY);
    SegmentsConcat(d, ANY);
    SegmentsConcat(d + ANY, e);
  }

  lemma BetweenExpands(d: string, e: string)
    requires Literal(d) && Literal(e) && d != "" && d[|d| - 1] != '/' && e != "" && e[0] != '/'
    ensures Contains(d + ANY + e, ANY) && d + ANY + e != ANY
    ensures var a, b := Segments(d), Segments(e);
            Expand(Segments(d + ANY + e))
            == a[..|a| - 1] + ([a[|a| - 1] + "*"] + ([ANY, "*" + b[0]] + b[1..]))
  {
    var pattern := d + ANY + e;
    assert At(pattern, |d|, ANY);
    ContainsIsOccurs(pattern, ANY);
    assert pattern[0] == d[0] && d[0] in d && ANY[0] == '*';
    BetweenSplits(d, e);
    SegmentsAreClean(d);
    SegmentsAreClean(e);
    LastSegmentIsText(d);
    SegmentsStep(e);
    PiecesExpand(Segments(d), Segments(e));
  }

  lemma PiecesExpand(a: seq<string>, b: seq<string>)
    requires a != [] && b != [] && a[|a| - 1] != "" && b[0] != "" && forall s | s in a || s in b :: Literal(s)
    ensures Expand(a[..|a| - 1] + ([a[|a| - 1] + ANY + b[0]] + b[1..]))
         == a[..|a| - 1] + ([a[|a| - 1] + "*"] + ([ANY, "*" + b[0]] + b[1..]))
  {
    var lits, last := a[..|a| - 1], a[|a| - 1];
    assert last in a && b[0] in b && (forall s | s in lits :: s in a) && forall s | s in b[1..] :: s in b;
    MiddleExpands(last, b[0]);
    assert [last + "*", ANY, "*" + b[0]] + b[1..] == [last + "*"] + ([ANY, "*" + b[0]] + b[1..]);
    LiteralsAround(lits, [last + ANY + b[0]], b[1..]);
  }

  lemma LiteralsAround(before: seq<string>, middle: seq<string>, after: seq<string>)
    requires (forall s | s in before :: Literal(s)) && forall s | s in after :: Literal(s)
    ensures Expand(before + (middle + after)) == before + (Expand(middle) + after)
  {
    LiteralsStay(before);
    LiteralsStay(after);
    ExpandConcat(middle, after);
    ExpandConcat(before, middle + after);
  }

  lemma MiddleExpands(d: string, e: string)
    requires Literal(d) && Literal(e) && d != "" && e != ""
    ensures Expand([d + ANY + e]) == [d + "*", ANY, "*" + e]
  {
    var pattern := d + ANY + e;
    assert At(pattern, |d|, ANY);
    ContainsIsOccurs(pattern, ANY);
    assert d[0] in d && e[|e| - 1] in e && pattern[0] == d[0] && pattern[|pattern| - 1] == e[|e| - 1];
    TwoStarsLast(pattern);
    TwoStars(pattern);
    SplitLiteral(d, e);
    var parts := [d, e];
    assert ExpandMiddle(parts, 2) == [] && ExpandMiddle(parts, 1) == [ANY, "*" + e];
    assert ExpandMiddle(parts, 0) == [d + "*", ANY, "*" + e];
    assert Expand([pattern]) == ExpandSegment(pattern);
  }

  lemma {:induction false} SplitLiteral(d: string, e: string)
    requires Literal(d) && Literal(e)
    ensures Split(d + ANY + e, ANY) == [d, e]
    decreases |d|
  {
    var s := d + ANY + e;
    if d == "" {
      assert s == ANY + e && s[2..] == e;
      NoGlobstar(e);
      SplitContains(e);
    } else {
      assert s[0] == d[0] && d[0] in d && s[1..] == d[1..] + ANY + e;
      TwoStars(s);
      assert forall c | c in d[1..] :: c in d;
      SplitLiteral(d[1..], e);
      assert [d[0]] + d[1..] == d;
    }
  }
}
