/**
 Package filters (internal/injector/aspect/join/package.go): glob patterns in which `**`
 stands for any run of path segments. Matching one segment is `path.Match`, a parameter
 here; what it does with plain text and a star is stated by `MatchesLiterals`.
 */
module Globstar {
  import opened Wrappers
  import opened Strings

  datatype Outcome = Matched | Unmatched | BadPattern

  type Matcher = (string, string) -> Outcome

  const ANY := "**"

  // ---------------------------------------------------------------- segments

  /** What `matchSegments` returns, step for step. */
  function MatchSegs(m: Matcher, pats: seq<string>, path: seq<string>): Outcome
    decreases |pats|, 0
  {
    if pats == [] then if path == [] then Matched else Unmatched
    else if pats[0] == ANY then
      if |pats| == 1 then Matched else FirstMatch(m, pats, path, 0)
    else if path == [] then Unmatched
    else match m(pats[0], path[0])
         case Matched => MatchSegs(m, pats[1..], path[1..])
         case r => r
  }

  /** The first outcome other than "no match" when the rest of the pattern starts at k, k + 1, ... */
  function FirstMatch(m: Matcher, pats: seq<string>, path: seq<string>, k: nat): Outcome
    requires pats != [] && k <= |path| + 1
    decreases |pats| - 1, 1, |path| + 1 - k
  {
    if k > |path| then Unmatched
    else match MatchSegs(m, pats[1..], path[k..])
         case Unmatched => FirstMatch(m, pats, path, k + 1)
         case r => r
  }

  predicate Fits(m: Matcher, pat: string, run: seq<string>) {
    pat == ANY || (|run| == 1 && m(pat, run[0]) == Matched)
  }

  function Flatten(runs: seq<seq<string>>): seq<string> {
    if runs == [] then [] else runs[0] + Flatten(runs[1..])
  }

  /** `runs` splits the path into one piece per pattern: one segment, or any run for `**`. */
  ghost predicate Assigns(m: Matcher, pats: seq<string>, path: seq<string>, runs: seq<seq<string>>) {
    && |runs| == |pats| && Flatten(runs) == path
    && forall i | 0 <= i < |pats| :: Fits(m, pats[i], runs[i])
  }

  ghost predicate Describes(m: Matcher, pats: seq<string>, path: seq<string>) {
    exists runs :: Assigns(m, pats, path, runs)
  }

  lemma FirstRun(m: Matcher, pats: seq<string>, path: seq<string>, k: nat)
    requires pats != [] && k <= |path| && Fits(m, pats[0], path[..k]) && Describes(m, pats[1..], path[k..])
    ensures Describes(m, pats, path)
  {
    var runs :| Assigns(m, pats[1..], path[k..], runs);
    var all := [path[..k]] + runs;
    assert all[1..] == runs && path == path[..k] + path[k..];
    forall i | 0 <= i < |pats| ensures Fits(m, pats[i], all[i]) {
      if i > 0 { assert pats[1..][i - 1] == pats[i] && all[i] == runs[i - 1]; }
    }
    assert Assigns(m, pats, path, all);
  }

  lemma WithoutFirstRun(m: Matcher, pats: seq<string>, path: seq<string>) returns (k: nat)
    requires pats != [] && Describes(m, pats, path)
    ensures k <= |path| && Fits(m, pats[0], path[..k]) && Describes(m, pats[1..], path[k..])
  {
    var runs :| Assigns(m, pats, path, runs);
    k := |runs[0]|;
    assert path[..k] == runs[0] && path[k..] == Flatten(runs[1..]);
    assert Assigns(m, pats[1..], path[k..], runs[1..]);
  }

  /** The matcher agrees with the meaning of patterns, and fails only on a malformed segment. */
  lemma {:induction false} MatchingRefinesMeaning(m: Matcher, pats: seq<string>, path: seq<string>)
    ensures MatchSegs(m, pats, path) == Matched ==> Describes(m, pats, path)
    ensures MatchSegs(m, pats, path) == Unmatched ==> !Describes(m, pats, path)
    ensures MatchSegs(m, pats, path) == BadPattern ==> exists p, s :: p in pats && s in path && m(p, s) == BadPattern
    decreases |pats|, 0
  {
    if pats == [] {
      if path == [] { assert Assigns(m, pats, path, []); }
    } else if pats[0] == ANY {
      if |pats| == 1 {
        assert Assigns(m, [], path[|path|..], []);
        FirstRun(m, pats, path, |path|);
      } else {
        FirstMatchRefines(m, pats, path, 0);
        if Describes(m, pats, path) { var k := WithoutFirstRun(m, pats, path); }
      }
    } else {
      if path != [] {
        MatchingRefinesMeaning(m, pats[1..], path[1..]);
        if MatchSegs(m, pats, path) == Matched {
          assert path[..1] == [path[0]];
          FirstRun(m, pats, path, 1);
        }
        if m(pats[0], path[0]) == BadPattern { assert pats[0] in pats && path[0] in path; }
      }
      if MatchSegs(m, pats, path) == Unmatched && Describes(m, pats, path) {
        var k := WithoutFirstRun(m, pats, path);
        assert false;
      }
    }
  }

  lemma {:induction false} FirstMatchRefines(m: Matcher, pats: seq<string>, path: seq<string>, k: nat)
    requires |pats| > 1 && pats[0] == ANY && k <= |path| + 1
    ensures FirstMatch(m, pats, path, k) == Matched ==> Describes(m, pats, path)
    ensures FirstMatch(m, pats, path, k) == Unmatched ==>
              forall i | k <= i <= |path| :: !Describes(m, pats[1..], path[i..])
    ensures FirstMatch(m, pats, path, k) == BadPattern ==>
              exists p, s :: p in pats && s in path && m(p, s) == BadPattern
    decreases |pats| - 1, 1, |path| + 1 - k
  {
    if k <= |path| {
      MatchingRefinesMeaning(m, pats[1..], path[k..]);
      match MatchSegs(m, pats[1..], path[k..]) {
        case Matched => FirstRun(m, pats, path, k);
        case Unmatched => FirstMatchRefines(m, pats, path, k + 1);
        case BadPattern =>
          var p, s :| p in pats[1..] && s in path[k..] && m(p, s) == BadPattern;
          assert p in pats && s in path;
      }
    }
  }

  /** `matchSegments`: two indices advance together until a `**` makes it try every rest. */
  method MatchSegments(m: Matcher, pats: seq<string>, path: seq<string>) returns (r: Outcome)
    ensures r == MatchSegs(m, pats, path)
    decreases |pats|
  {
    var patternIdx, pathIdx := 0, 0;
    while patternIdx < |pats|
      invariant patternIdx <= |pats| && pathIdx <= |path|
      invariant MatchSegs(m, pats[patternIdx..], path[pathIdx..]) == MatchSegs(m, pats, path)
    {
      ghost var patsLeft, pathLeft := pats[patternIdx..], path[pathIdx..];
      assert patsLeft[1..] == pats[patternIdx + 1..];
      if pats[patternIdx] == ANY {
        if patternIdx == |pats| - 1 { return Matched; }
        ghost var start := pathIdx;
        while pathIdx <= |path|
          invariant start <= pathIdx <= |path| + 1
          invariant FirstMatch(m, patsLeft, pathLeft, pathIdx - start) == MatchSegs(m, pats, path)
        {
          assert pathLeft[pathIdx - start..] == path[pathIdx..];
          var matched := MatchSegments(m, pats[patternIdx + 1..], path[pathIdx..]);
          if matched != Unmatched { return matched; }
          pathIdx := pathIdx + 1;
        }
        return Unmatched;
      }
      if pathIdx >= |path| { return Unmatched; }
      var matched := m(pats[patternIdx], path[pathIdx]);
      if matched != Matched { return matched; }
      assert pathLeft[1..] == path[pathIdx + 1..];
      patternIdx, pathIdx := patternIdx + 1, pathIdx + 1;
    }
    r := if pathIdx == |path| then Matched else Unmatched;
  }

  // ---------------------------------------------------------------- expansion

  function ExpandSegment(segment: string): seq<string> {
    if segment == ANY then [segment]
    else if HasSuffix(segment, ANY) && |segment| > 2 then [segment[..|segment| - 2] + "*", ANY]
    else if HasPrefix(segment, ANY) && |segment| > 2 then [ANY, "*" + segment[2..]]
    else if Contains(segment, ANY) then ExpandMiddle(Split(segment, ANY), 0)
    else [segment]
  }

  /** The segments for parts i, i + 1, ... of a segment split around its `**`. */
  function ExpandMiddle(parts: seq<string>, i: nat): seq<string>
    requires i <= |parts|
    decreases |parts| - i
  {
    if i == |parts| then []
    else (if i > 0 then [ANY] else []) + ExpandPart(parts, i) + ExpandMiddle(parts, i + 1)
  }

  function ExpandPart(parts: seq<string>, i: nat): seq<string>
    requires i < |parts|
  {
    if parts[i] == "" then []
    else if i == 0 then [parts[i] + "*"]
    else if i == |parts| - 1 then ["*" + parts[i]]
    else ["*" + parts[i] + "*"]
  }

  function Expand(segments: seq<string>): seq<string> {
    if segments == [] then [] else ExpandSegment(segments[0]) + Expand(segments[1..])
  }

  lemma {:induction false} ExpandConcat(a: seq<string>, b: seq<string>)
    ensures Expand(a + b) == Expand(a) + Expand(b)
  {
    if a == [] {
      assert a + b == b;
    } else {
      assert (a + b)[1..] == a[1..] + b;
      ExpandConcat(a[1..], b);
    }
  }

  method ExpandGlobstarSegments(patternSegments: seq<string>) returns (expanded: seq<string>)
    ensures expanded == Expand(patternSegments)
  {
    expanded := [];
    for i := 0 to |patternSegments|
      invariant expanded == Expand(patternSegments[..i])
    {
      ExpandConcat(patternSegments[..i], [patternSegments[i]]);
      assert patternSegments[..i + 1] == patternSegments[..i] + [patternSegments[i]];
      assert Expand([patternSegments[i]]) == ExpandSegment(patternSegments[i]);
      var more;
      if patternSegments[i] != ANY && Contains(patternSegments[i], ANY)
         && !(HasSuffix(patternSegments[i], ANY) && |patternSegments[i]| > 2)
         && !(HasPrefix(patternSegments[i], ANY) && |patternSegments[i]| > 2) {
        more := ExpandMiddleGlobstar(patternSegments[i]);
      } else {
        more := ExpandSegment(patternSegments[i]);
      }
      expanded := expanded + more;
    }
    assert patternSegments[..|patternSegments|] == patternSegments;
  }

  method ExpandMiddleGlobstar(segment: string) returns (result: seq<string>)
    ensures result == ExpandMiddle(Split(segment, ANY), 0)
  {
    var parts := Split(segment, ANY);
    result := [];
    for i := 0 to |parts|
      invariant result + ExpandMiddle(parts, i) == ExpandMiddle(parts, 0)
    {
      ghost var before, part := result, (if i > 0 then [ANY] else []) + ExpandPart(parts, i);
      assert before + ExpandMiddle(parts, i) == before + part + ExpandMiddle(parts, i + 1);
      if i > 0 { result := result + [ANY]; }
      if parts[i] != "" {
        if i == 0 { result := result + [parts[i] + "*"]; }
        else if i == |parts| - 1 { result := result + ["*" + parts[i]]; }
        else { result := result + ["*" + parts[i] + "*"]; }
      }
      assert result == before + part;
    }
  }

  /** A segment with `**` at both ends keeps the leading one as an ordinary pattern of one segment. */
  lemma LeadingGlobstarIsKept(x: string)
    ensures ExpandSegment(ANY + x + ANY) == [ANY + x + "*", ANY]
  {
    var s := ANY + x + ANY;
    assert s[|s| - 2..] == ANY && s[..|s| - 2] == ANY + x;
  }

  // ---------------------------------------------------------------- whole patterns

  function GlobMatch(m: Matcher, pattern: string, importPath: string): Outcome {
    if !Contains(pattern, ANY) then m(pattern, importPath)
    else if pattern == ANY then Matched
    else MatchSegs(m, Expand(Split(pattern, "/")), Split(importPath, "/"))
  }

  /** What a filter needs from its surroundings: the root module, if known, and `path.Match`. */
  datatype Env = Env(rootModule: Option<string>, pathMatch: Matcher)

  predicate InRootModule(env: Env, importPath: string) {
    env.rootModule.Some? && (importPath == env.rootModule.value || env.rootModule.value + "/" <= importPath)
  }

  /** The path below the root module, or `.` for the module itself. */
  function RelativePath(importPath: string, rootModule: string): string {
    if importPath == rootModule then "."
    else if rootModule + "/" <= importPath then importPath[|rootModule| + 1..]
    else importPath
  }

  predicate FilterMatches(env: Env, root: bool, pattern: string, importPath: string) {
    if importPath == "" then false
    else if pattern == "" then root && InRootModule(env, importPath)
    else if root && !InRootModule(env, importPath) then false
    else if pattern == "*" then true
    else
      var target := if root then RelativePath(importPath, env.rootModule.value) else importPath;
      GlobMatch(env.pathMatch, pattern, target) == Matched
  }

  predicate Literal(s: string) {
    forall c | c in s :: c != '*' && c != '?' && c != '[' && c != '\\'
  }

  /** What `path.Match` promises for text without metacharacters, alone, before one star or after one. */
  ghost predicate MatchesLiterals(m: Matcher) {
    forall p, s | Literal(p) && '/' !in s ::
      && m(p, s) == (if s == p then Matched else Unmatched)
      && m(p + "*", s) == (if p <= s then Matched else Unmatched)
      && m("*" + p, s) == (if HasSuffix(s, p) then Matched else Unmatched)
  }

  function Segments(path: string): seq<string> {
    Split(path, "/")
  }

  lemma SegmentsStep(p: string)
    requires p != []
    ensures "/" <= p <==> p[0] == '/'
    ensures p[0] == '/' ==> Segments(p) == [""] + Segments(p[1..])
    ensures p[0] != '/' ==> Segments(p) == [[p[0]] + Segments(p[1..])[0]] + Segments(p[1..])[1..]
  {
    assert p[..1] == [p[0]];
  }

  lemma {:induction false} SegmentsJoin(d: string, t: string)
    ensures Segments(d + "/" + t) == Segments(d) + Segments(t)
  {
    var s := d + "/" + t;
    SegmentsStep(s);
    if d == [] {
      assert s[1..] == t;
    } else {
      SegmentsStep(d);
      assert s[0] == d[0] && s[1..] == d[1..] + "/" + t;
      SegmentsJoin(d[1..], t);
    }
  }

  /** Two lists of segments whose ends meet in one segment. */
  function Meeting(a: seq<string>, b: seq<string>): seq<string>
    requires a != [] && b != []
  {
    a[..|a| - 1] + [a[|a| - 1] + b[0]] + b[1..]
  }

  /** Text put together has its segments put together, the two in the middle as one. */
  lemma {:induction false} SegmentsConcat(a: string, b: string)
    ensures Segments(a + b) == Meeting(Segments(a), Segments(b))
  {
    if a == "" {
      assert a + b == b && Segments(a) == [""] && "" + Segments(b)[0] == Segments(b)[0];
      assert Meeting([""], Segments(b)) == [Segments(b)[0]] + Segments(b)[1..] == Segments(b);
    } else {
      SegmentsStep(a);
      assert (a + b)[0] == a[0] && (a + b)[1..] == a[1..] + b;
      SegmentsStep(a + b);
      SegmentsConcat(a[1..], b);
      OneMoreInFront(a[0], Segments(a[1..]), Segments(b));
    }
  }

  lemma OneMoreInFront(c: char, a: seq<string>, b: seq<string>)
    requires a != [] && b != []
    ensures Meeting([""] + a, b) == [""] + Meeting(a, b)
    ensures Meeting([[c] + a[0]] + a[1..], b) == [[c] + Meeting(a, b)[0]] + Meeting(a, b)[1..]
  {
    if |a| == 1 { assert [c] + (a[0] + b[0]) == [c] + a[0] + b[0]; }
  }

  lemma SegmentsGrow(d: string, x: string)
    requires '/' !in x
    ensures var n := |Segments(d)| - 1; Segments(d + x) == Segments(d)[..n] + [Segments(d)[n] + x]
  {
    NoSlash(x);
    SegmentsConcat(d, x);
  }

  lemma {:induction false} NoSlash(x: string)
    requires '/' !in x
    ensures Segments(x) == [x]
  {
    if x != [] {
      SegmentsStep(x);
      NoSlash(x[1..]);
      assert [x[0]] + x[1..] == x && x[0] in x;
    }
  }

  lemma {:induction false} SegmentsAreClean(p: string)
    ensures forall s | s in Segments(p) :: '/' !in s && (Literal(p) ==> Literal(s))
  {
    if p != [] {
      SegmentsStep(p);
      SegmentsAreClean(p[1..]);
      var rest := Segments(p[1..]);
      assert rest[0] in rest && p[0] in p;
      assert forall c | c in p[1..] :: c in p;
      forall s | s in Segments(p) ensures '/' !in s && (Literal(p) ==> Literal(s)) {
        if s !in rest && p[0] != '/' { assert s == [p[0]] + rest[0]; }
      }
    }
  }

  /** The segments of `d` lead those of `p` exactly when `p` is `d` or lies below it. */
  lemma {:induction false} SegmentPrefix(d: string, p: string)
    ensures Segments(d) <= Segments(p) <==> p == d || d + "/" <= p
  {
    if d == [] {
      assert d + "/" == "/" && Segments(d) == [""];
      if p != [] {
        SegmentsStep(p);
        assert [""] <= Segments(p) <==> Segments(p)[0] == "";
      }
    } else if p == [] || p[0] != d[0] {
      FirstDiffers(d, p);
      assert (d + "/")[0] == d[0];
    } else {
      SegmentsStep(d);
      SegmentsStep(p);
      SegmentPrefix(d[1..], p[1..]);
      assert p == [p[0]] + p[1..] && d == [d[0]] + d[1..] && d + "/" == [d[0]] + (d[1..] + "/");
      SamePrefix(d[0], Segments(d[1..]), Segments(p[1..]));
    }
  }

  lemma FirstDiffers(d: string, p: string)
    requires d != [] && (p == [] || p[0] != d[0])
    ensures |Segments(d)| > |Segments(p)| || Segments(d)[0] != Segments(p)[0]
    ensures |Segments(d)| == 1 ==> !(Segments(d)[0] <= Segments(p)[0])
  {
    SegmentsStep(d);
    if p != [] { SegmentsStep(p); }
    assert |Segments(d)| == 1 ==> Segments(d)[0][0] == d[0];
    assert Segments(d)[0] != [] ==> Segments(d)[0][0] == d[0];
    assert Segments(p)[0] != [] ==> Segments(p)[0][0] == p[0];
  }

  lemma SamePrefix(c: char, a: seq<string>, b: seq<string>)
    requires a != [] && b != []
    ensures [""] + a <= [""] + b <==> a <= b
    ensures [[c] + a[0]] + a[1..] <= [[c] + b[0]] + b[1..] <==> a <= b
  {
    PrefixAfterHead("", "", a, b);
    PrefixAfterHead([c] + a[0], [c] + b[0], a[1..], b[1..]);
    PrefixAfterHead(a[0], b[0], a[1..], b[1..]);
    SameHead(c, a[0], b[0]);
    assert a == [a[0]] + a[1..] && b == [b[0]] + b[1..];
  }

  lemma PrefixAfterHead(h: string, k: string, a: seq<string>, b: seq<string>)
    ensures [h] + a <= [k] + b <==> h == k && a <= b
  {
    var x, y := [h] + a, [k] + b;
    assert x[1..] == a && y[1..] == b && x[0] == h && y[0] == k;
    if x <= y { assert forall i | 0 <= i < |a| :: a[i] == x[i + 1] == y[i + 1] == b[i]; }
  }

  /** `d` is a string prefix of `p` exactly when its segments lead, the last one up to a remainder. */
  lemma {:induction false} TextPrefix(d: string, p: string)
    ensures d <= p <==> Leads(Segments(d), Segments(p))
  {
    if d == [] {
    } else if p == [] || p[0] != d[0] {
      FirstDiffers(d, p);
      var n := |Segments(d)| - 1;
      if 0 < n < |Segments(p)| { assert Segments(d)[..n][0] != Segments(p)[..n][0]; }
    } else {
      TextPrefix(d[1..], p[1..]);
      LeadsStep(d, p);
      assert p == [p[0]] + p[1..] && d == [d[0]] + d[1..];
      SameHead(d[0], d[1..], p[1..]);
    }
  }

  lemma LeadsStep(d: string, p: string)
    requires d != [] && p != [] && d[0] == p[0]
    ensures Leads(Segments(d), Segments(p)) <==> Leads(Segments(d[1..]), Segments(p[1..]))
  {
    SegmentsStep(d);
    SegmentsStep(p);
    SamePrefixUpTo(d[0], Segments(d[1..]), Segments(p[1..]));
  }

  predicate Leads(a: seq<string>, b: seq<string>)
    requires a != []
  {
    |a| <= |b| && a[..|a| - 1] == b[..|a| - 1] && a[|a| - 1] <= b[|a| - 1]
  }

  lemma SamePrefixUpTo(c: char, a: seq<string>, b: seq<string>)
    requires a != [] && b != []
    ensures Leads([""] + a, [""] + b) <==> Leads(a, b)
    ensures Leads([[c] + a[0]] + a[1..], [[c] + b[0]] + b[1..]) <==> Leads(a, b)
  {
    var n := |a| - 1;
    if n < |b| {
      assert ([""] + a)[..n + 1] == [""] + a[..n] && ([""] + b)[..n + 1] == [""] + b[..n];
      SamePrefixIsSame("", a[..n], b[..n]);
      var x, y := [[c] + a[0]] + a[1..], [[c] + b[0]] + b[1..];
      SameHead(c, a[0], b[0]);
      if n > 0 {
        assert x[..n] == [[c] + a[0]] + a[1..n] && y[..n] == [[c] + b[0]] + b[1..n];
        assert a[..n] == [a[0]] + a[1..n] && b[..n] == [b[0]] + b[1..n];
        SamePrefixIsSame2([c] + a[0], [c] + b[0], a[1..n], b[1..n]);
        SamePrefixIsSame2(a[0], b[0], a[1..n], b[1..n]);
      }
    }
  }

  lemma SameHead(c: char, s: string, t: string)
    ensures [c] + s == [c] + t <==> s == t
    ensures [c] + s <= [c] + t <==> s <= t
  {
    assert ([c] + s)[1..] == s && ([c] + t)[1..] == t;
  }

  lemma SamePrefixIsSame(h: string, a: seq<string>, b: seq<string>)
    ensures [h] + a == [h] + b <==> a == b
  {
    assert ([h] + a)[1..] == a && ([h] + b)[1..] == b;
  }

  lemma SamePrefixIsSame2(h: string, k: string, a: seq<string>, b: seq<string>)
    ensures [h] + a == [k] + b <==> h == k && a == b
  {
    assert ([h] + a)[1..] == a && ([k] + b)[1..] == b && ([h] + a)[0] == h && ([k] + b)[0] == k;
  }

  lemma {:induction false} LiteralsStay(segments: seq<string>)
    requires forall s | s in segments :: Literal(s)
    ensures Expand(segments) == segments
  {
    if segments != [] {
      LiteralsStay(segments[1..]);
      NoGlobstar(segments[0]);
      assert segments == [segments[0]] + segments[1..];
    }
  }

  lemma NoGlobstar(s: string)
    requires Literal(s)
    ensures !Contains(s, ANY) && !HasSuffix(s, ANY) && !HasPrefix(s, ANY) && s != ANY
  {
    assert ANY[0] == '*';
    forall i ensures !At(s, i, ANY) {
      if 0 <= i <= |s| - 2 { assert s[i..i + 2][0] == s[i] && s[i] in s; }
    }
    assert |s| >= 2 ==> At(s, |s| - 2, s[|s| - 2..]) && At(s, 0, s[..2]);
  }

  /** Literal segments consume themselves; what is left of the pattern meets what is left of the path. */
  lemma {:induction false} LiteralsMatchThemselves(m: Matcher, lits: seq<string>, more: seq<string>, path: seq<string>)
    requires MatchesLiterals(m)
    requires forall s | s in lits :: Literal(s)
    requires forall s | s in path :: '/' !in s
    ensures MatchSegs(m, lits + more, path)
         == if lits <= path then MatchSegs(m, more, path[|lits|..]) else Unmatched
  {
    if lits == [] {
      assert lits + more == more;
    } else {
      NoGlobstar(lits[0]);
      assert (lits + more)[1..] == lits[1..] + more;
      if path != [] {
        LiteralsMatchThemselves(m, lits[1..], more, path[1..]);
        assert lits == [lits[0]] + lits[1..] && path == [path[0]] + path[1..];
      }
    }
  }

  // d, a slash and a globstar accept exactly d and the paths below it.
  lemma SlashGlobstar(m: Matcher, d: string, p: string)
    requires MatchesLiterals(m) && Literal(d)
    ensures GlobMatch(m, d + "/**", p) == if p == d || d + "/" <= p then Matched else Unmatched
  {
    var pattern := d + "/" + ANY;
    assert pattern == d + "/**" && pattern[|d|] == '/';
    assert At(pattern, |d| + 1, ANY);
    assert ANY[0] == '*';
    ContainsIsOccurs(pattern, ANY);
    SegmentsJoin(d, ANY);
    NoSlash(ANY);
    SegmentsAreClean(d);
    SegmentsAreClean(p);
    LiteralsStay(Segments(d));
    ExpandConcat(Segments(d), [ANY]);
    assert Expand([ANY]) == [ANY];
    LiteralsMatchThemselves(m, Segments(d), [ANY], Segments(p));
    SegmentPrefix(d, p);
  }

  /** `d**` accepts exactly the paths that start with the text `d`. */
  lemma GlobstarSuffix(m: Matcher, d: string, p: string)
    requires MatchesLiterals(m) && Literal(d) && d != [] && d[|d| - 1] != '/'
    ensures GlobMatch(m, d + ANY, p) == if d <= p then Matched else Unmatched
  {
    var n := |Segments(d)| - 1;
    var lits, last := Segments(d)[..n], Segments(d)[n];
    assert last in Segments(d) && forall s | s in lits :: s in Segments(d);
    SuffixExpands(d);
    SegmentsAreClean(d);
    SegmentsAreClean(p);
    LiteralsMatchThemselves(m, lits, [last + "*", ANY], Segments(p));
    TextPrefix(d, p);
    StarThenAnything(m, last, Segments(p)[if n <= |Segments(p)| then n else 0..]);
  }

  lemma SuffixExpands(d: string)
    requires Literal(d) && d != [] && d[|d| - 1] != '/'
    ensures var segments := Segments(d);
            var n := |segments| - 1;
            Contains(d + ANY, ANY) && d + ANY != ANY
              && Expand(Segments(d + ANY)) == segments[..n] + [segments[n] + "*", ANY]
  {
    assert At(d + ANY, |d|, ANY);
    ContainsIsOccurs(d + ANY, ANY);
    var n := |Segments(d)| - 1;
    var lits, last := Segments(d)[..n], Segments(d)[n];
    assert last in Segments(d) && forall s | s in lits :: s in Segments(d);
    SegmentsGrow(d, ANY);
    SegmentsAreClean(d);
    LastSegmentIsText(d);
    LiteralsStay(lits);
    ExpandConcat(lits, [last + ANY]);
    assert (last + ANY)[|last|..] == ANY && (last + ANY)[..|last|] == last;
    assert Expand([last + ANY]) == [last + "*", ANY];
  }

  lemma {:induction false} LastSegmentIsText(d: string)
    requires d != [] && d[|d| - 1] != '/'
    ensures Segments(d)[|Segments(d)| - 1] != []
  {
    SegmentsStep(d);
    if |d| > 1 { LastSegmentIsText(d[1..]); }
  }

  lemma StarThenAnything(m: Matcher, last: string, path: seq<string>)
    requires MatchesLiterals(m) && Literal(last)
    requires forall s | s in path :: '/' !in s
    ensures MatchSegs(m, [last + "*", ANY], path) == if path != [] && last <= path[0] then Matched else Unmatched
  {
    assert [last + "*", ANY][1..] == [ANY];
    if last != [] { assert (last + "*")[0] == last[0] && last[0] in last; }
    assert ANY[0] == '*';
    if path != [] { assert path[0] in path; }
  }
}
