/** link.deps files as text (internal/toolexec/aspect/linkdeps/linkdeps.go). */
module DepsText {
  import opened Wrappers
  import opened Ordering
  import opened Strings
  import opened Lines
  import opened LinkDeps

  const HEADER_V1 := "#link.deps@v1"
  const HEADER_V2 := "#link.deps@v2"

  datatype ReadError = Unsupported(header: string) | Invalid(line: string)

  /** What a trimmed line of a V2 file says. */
  datatype Entry = Blank | Dependency(path: string, kind: Kind) | Bad

  function EntryV2(line: string): Entry {
    if line == "" || line[0] == '#' then Blank else
    var (kindText, path, found) := Cut(line, "\t");
    if !found || path == "" then Bad
    else if kindText == "relocation" then Dependency(path, Relocation)
    else if kindText == "import" then Dependency(path, Import)
    else Bad
  }

  /** V1 files do not tell kinds, so every entry counts as an import. */
  function EntryV1(line: string): Entry {
    if line == "" || line[0] == '#' then Blank else Dependency(line, Import)
  }

  type Outcome = Result<Deps, ReadError>

  /** One more line, after what came before it. */
  function Next(v1: bool, before: Outcome, line: string): Outcome {
    if before.Err? then before else
    match if v1 then EntryV1(line) else EntryV2(line)
    case Blank => before
    case Dependency(path, kind) => Ok(Added(before.value, path, kind))
    case Bad => Err(Invalid(line))
  }

  function ParseLines(v1: bool, lines: seq<string>): Outcome {
    if lines == [] then Ok(map[])
    else Next(v1, ParseLines(v1, lines[..|lines| - 1]), TrimSpace(lines[|lines| - 1]))
  }

  lemma ParseOneMore(v1: bool, lines: seq<string>, line: string)
    ensures ParseLines(v1, lines + [line]) == Next(v1, ParseLines(v1, lines), TrimSpace(line))
  {
    assert (lines + [line])[..|lines|] == lines;
  }

  function Read(text: string): Outcome {
    var (line, rest, _) := Cut(text, "\n");
    var header := TrimSpace(line);
    if header == HEADER_V1 then ParseLines(true, Split(rest, "\n"))
    else if header == HEADER_V2 then ParseLines(false, Split(rest, "\n"))
    else Err(Unsupported(header))
  }

  function KindText(kind: Kind): string {
    if kind == Import then "import" else "relocation"
  }

  function LineOf(path: string, kind: Kind): string {
    KindText(kind) + "\t" + path
  }

  /** The dependencies in the order in which they are written. */
  ghost predicate InOrder(order: seq<string>, deps: Deps) {
    Distinct(order) && SortedBy(AtMost, order) && forall d :: d in order <==> d in deps
  }

  function LinesOf(deps: Deps, order: seq<string>): (r: seq<string>)
    requires forall d | d in order :: d in deps
    ensures |r| == |order| && forall i | 0 <= i < |r| :: r[i] == LineOf(order[i], deps[order[i]])
  {
    seq(|order|, i requires 0 <= i < |order| => assert order[i] in order; LineOf(order[i], deps[order[i]]))
  }

  function Written(deps: Deps, order: seq<string>): string
    requires forall d | d in order :: d in deps
  {
    Text([HEADER_V2] + LinesOf(deps, order))
  }

  /** The output is deterministic. */
  lemma OneOrder(deps: Deps, a: seq<string>, b: seq<string>)
    requires InOrder(a, deps) && InOrder(b, deps)
    ensures a == b
  {
    SameMembersSameCounts(a, b);
    AtMostIsTotal();
    SortedIsUnique(AtMost, a, b);
  }

  // ---------------------------------------------------------------- the round trip

  predicate Storable(path: string) {
    path != "" && OneLine(path) && !IsSpace(path[|path| - 1])
  }

  lemma LineIsPlain(path: string, kind: Kind)
    requires Storable(path)
    ensures var line := LineOf(path, kind);
            OneLine(line) && Trimmed(line) && line != "" && line[0] != '#' && '\t' !in KindText(kind)
  {
    var line := LineOf(path, kind);
    assert line == KindText(kind) + ['\t'] + path;
    assert '\t' !in KindText(kind) && '\n' !in KindText(kind);
    assert line[|line| - 1] == path[|path| - 1] && line[0] == KindText(kind)[0];
  }

  lemma LineReadsBack(path: string, kind: Kind)
    requires Storable(path)
    ensures var line := LineOf(path, kind); OneLine(line) && Trimmed(line) && EntryV2(line) == Dependency(path, kind)
  {
    LineIsPlain(path, kind);
    assert LineOf(path, kind) == KindText(kind) + ['\t'] + path;
    CutAt(KindText(kind), '\t', path);
  }

  lemma ReadEntryIsStorable(line: string)
    requires OneLine(line) && Trimmed(line) && EntryV2(line).Dependency?
    ensures Storable(EntryV2(line).path)
  {
    CutFound(line, '\t');
    var (kindText, path, _) := Cut(line, "\t");
    RestIsStorable(line, kindText, path);
  }

  lemma RestIsStorable(line: string, before: string, path: string)
    requires line == before + ['\t'] + path && path != "" && OneLine(line) && Trimmed(line)
    ensures Storable(path)
  {
    assert line[|line| - 1] == path[|path| - 1];
    assert forall k | 0 <= k < |path| :: path[k] == line[|before| + 1 + k];
  }

  ghost predicate AllStorable(r: Outcome) {
    r.Ok? ==> forall d | d in r.value :: Storable(d)
  }

  lemma NextIsStorable(before: Outcome, line: string)
    requires AllStorable(before) && OneLine(line) && Trimmed(line)
    ensures AllStorable(Next(false, before, line))
  {
    if EntryV2(line).Dependency? { ReadEntryIsStorable(line); }
  }

  lemma {:induction false} ReadIsStorable(lines: seq<string>)
    requires forall l | l in lines :: OneLine(l)
    ensures AllStorable(ParseLines(false, lines))
  {
    if lines != [] {
      var rest, l := lines[..|lines| - 1], lines[|lines| - 1];
      assert l in lines && forall k | k in rest :: k in lines;
      ReadIsStorable(rest);
      TrimSpaceTrims(l);
      NextIsStorable(ParseLines(false, rest), TrimSpace(l));
    }
  }

  function Restrict(deps: Deps, order: seq<string>): Deps
    requires forall d | d in order :: d in deps
  {
    map d | d in order :: deps[d]
  }

  lemma {:induction false} ParseLinesOf(deps: Deps, order: seq<string>)
    requires Distinct(order) && forall d | d in order :: d in deps && Storable(d)
    ensures ParseLines(false, LinesOf(deps, order)) == Ok(Restrict(deps, order))
    ensures forall l | l in LinesOf(deps, order) :: OneLine(l)
  {
    if order != [] {
      var rest, d := order[..|order| - 1], order[|order| - 1];
      assert order == rest + [d];
      assert d in order && d !in rest && forall e | e in rest :: e in order;
      ParseLinesOf(deps, rest);
      LinesOfMore(deps, rest, d);
      ParseWrittenLine(LinesOf(deps, rest), Restrict(deps, rest), d, deps[d]);
      MapOfMore(deps, rest, d);
    }
  }

  lemma ParseWrittenLine(lines: seq<string>, before: Deps, path: string, kind: Kind)
    requires Storable(path) && ParseLines(false, lines) == Ok(before)
    ensures ParseLines(false, lines + [LineOf(path, kind)]) == Ok(Added(before, path, kind))
    ensures OneLine(LineOf(path, kind))
  {
    LineReadsBack(path, kind);
    TrimSpaceTrims(LineOf(path, kind));
    ParseOneMore(false, lines, LineOf(path, kind));
  }

  lemma LinesOfMore(deps: Deps, rest: seq<string>, d: string)
    requires d in deps && forall e | e in rest :: e in deps
    ensures forall e | e in rest + [d] :: e in deps
    ensures LinesOf(deps, rest + [d]) == LinesOf(deps, rest) + [LineOf(d, deps[d])]
  {
  }

  lemma MapOfMore(deps: Deps, rest: seq<string>, d: string)
    requires d in deps && d !in rest && forall e | e in rest :: e in deps
    ensures forall e | e in rest + [d] :: e in deps
    ensures Restrict(deps, rest + [d]) == Added(Restrict(deps, rest), d, deps[d])
  {
  }

  lemma HeaderIsCut(header: string, lines: seq<string>)
    requires OneLine(header)
    ensures Cut(Text([header] + lines), "\n") == (header, Text(lines), true)
  {
    assert ([header] + lines)[1..] == lines;
    assert Text([header] + lines) == header + ['\n'] + Text(lines);
    CutAt(header, '\n', Text(lines));
  }

  lemma HeadersArePlain(header: string)
    requires header == HEADER_V1 || header == HEADER_V2
    ensures OneLine(header) && Trimmed(header)
  {
    assert header[0] == '#' && (header[|header| - 1] == '1' || header[|header| - 1] == '2');
  }

  lemma SplitWritten(v1: bool, lines: seq<string>)
    requires forall l | l in lines :: OneLine(l)
    ensures ParseLines(v1, Split(Text(lines), "\n")) == ParseLines(v1, lines)
  {
    SplitText(lines);
    TrimSpaceTrims("");
    ParseOneMore(v1, lines, "");
  }

  lemma ReadAfterHeader(header: string, lines: seq<string>)
    requires header == HEADER_V1 || header == HEADER_V2
    requires forall l | l in lines :: OneLine(l)
    ensures Read(Text([header] + lines)) == ParseLines(header == HEADER_V1, lines)
  {
    HeadersArePlain(header);
    TrimSpaceTrims(header);
    HeaderIsCut(header, lines);
    SplitWritten(header == HEADER_V1, lines);
  }

  /** What a file that this version writes can be read as. */
  lemma ReadOfV2(header: string, lines: seq<string>)
    requires header == HEADER_V2
    ensures AllStorable(Read(Text([header] + lines)))
  {
    HeadersArePlain(header);
    TrimSpaceTrims(header);
    HeaderIsCut(header, lines);
    PiecesAreLines(Text(lines));
    ReadIsStorable(Split(Text(lines), "\n"));
  }

  lemma StorableIsReadBack(deps: Deps, order: seq<string>)
    requires Distinct(order) && (forall d :: d in order <==> d in deps) && forall d | d in deps :: Storable(d)
    ensures Read(Written(deps, order)) == Ok(deps)
  {
    ParseLinesOf(deps, order);
    ReadAfterHeader(HEADER_V2, LinesOf(deps, order));
    RestrictAll(deps, order);
  }

  lemma RestrictAll(deps: Deps, order: seq<string>)
    requires forall d :: d in order <==> d in deps
    ensures Restrict(deps, order) == deps
  {
  }

  /** Reading what was written gives the same dependencies exactly if all their paths can be stored. */
  lemma RoundTripExactly(deps: Deps, order: seq<string>)
    requires InOrder(order, deps)
    ensures Read(Written(deps, order)) == Ok(deps) <==> forall d | d in deps :: Storable(d)
  {
    if forall d | d in deps :: Storable(d) {
      StorableIsReadBack(deps, order);
    } else {
      ReadOfV2(HEADER_V2, LinesOf(deps, order));
    }
  }

  // ---------------------------------------------------------------- old files

  /** Some line holds the path, between white space at most, and is not a comment. */
  ghost predicate Lists(lines: seq<string>, path: string) {
    path != "" && path[0] != '#' && exists l :: l in lines && TrimSpace(l) == path
  }

  lemma ListsMore(rest: seq<string>, line: string, path: string)
    ensures Lists(rest + [line], path) <==>
              Lists(rest, path) || (path == TrimSpace(line) && path != "" && path[0] != '#')
  {
    assert line in rest + [line];
  }

  lemma {:induction false} ParseV1(lines: seq<string>)
    ensures ParseLines(true, lines).Ok?
    ensures forall p :: p in ParseLines(true, lines).value <==> Lists(lines, p)
    ensures forall p | p in ParseLines(true, lines).value :: ParseLines(true, lines).value[p] == Import
  {
    if lines != [] {
      var rest, l := lines[..|lines| - 1], lines[|lines| - 1];
      assert lines == rest + [l];
      ParseV1(rest);
      forall p ensures p in ParseLines(true, lines).value <==> Lists(lines, p) { ListsMore(rest, l, p); }
    }
  }

  /** Any text under the old header reads as the paths it lists, all of them imports, ended by a newline or not. */
  lemma V1ReadsAsImports(text: string)
    requires TrimSpace(Cut(text, "\n").0) == HEADER_V1
    ensures Read(text).Ok?
    ensures forall p :: p in Read(text).value <==> Lists(Split(Cut(text, "\n").1, "\n"), p)
    ensures forall p | p in Read(text).value :: Read(text).value[p] == Import
  {
    ParseV1(Split(Cut(text, "\n").1, "\n"));
  }

  lemma CleanLists(paths: seq<string>, path: string)
    requires forall p | p in paths :: p != "" && p[0] != '#' && Trimmed(p)
    ensures Lists(paths, path) <==> path in paths
  {
    forall p | p in paths ensures TrimSpace(p) == p { TrimSpaceTrims(p); }
  }

  lemma ImportsOnly(deps: Deps, paths: seq<string>)
    requires (forall p :: p in deps <==> p in paths) && forall p | p in deps :: deps[p] == Import
    ensures deps == map p | p in paths :: Import
  {
  }

  lemma ParseCleanV1(paths: seq<string>)
    requires forall p | p in paths :: p != "" && p[0] != '#' && Trimmed(p)
    ensures ParseLines(true, paths) == Ok(map p | p in paths :: Import)
  {
    ParseV1(paths);
    forall p ensures Lists(paths, p) <==> p in paths { CleanLists(paths, p); }
    ImportsOnly(ParseLines(true, paths).value, paths);
  }

  /** So a clean list of paths reads as these paths. */
  lemma CleanV1ReadsAsImports(paths: seq<string>)
    requires forall p | p in paths :: p != "" && p[0] != '#' && Trimmed(p) && OneLine(p)
    ensures Read(Text([HEADER_V1] + paths)) == Ok(map p | p in paths :: Import)
  {
    ReadAfterHeader(HEADER_V1, paths);
    ParseCleanV1(paths);
  }

  // ---------------------------------------------------------------- reader and writer

  method ParseLoop(v1: bool, lines: seq<string>) returns (r: Outcome)
    ensures r == ParseLines(v1, lines)
  {
    var l := new LinkDeps();
    for i := 0 to |lines|
      invariant fresh(l) && ParseLines(v1, lines[..i]) == Ok(l.deps)
    {
      var line := TrimSpace(lines[i]);
      ParseUpTo(v1, lines, i);
      if line != "" && !HasPrefix(line, "#") {
        var entry := if v1 then EntryV1(line) else EntryV2(line);
        if entry.Bad? {
          ParseStops(v1, lines, i + 1);
          return Err(Invalid(line));
        }
        l.Add(entry.path, entry.kind);
      }
    }
    assert lines[..|lines|] == lines;
    r := Ok(l.deps);
  }

  lemma ParseUpTo(v1: bool, lines: seq<string>, n: nat)
    requires n < |lines|
    ensures ParseLines(v1, lines[..n + 1]) == Next(v1, ParseLines(v1, lines[..n]), TrimSpace(lines[n]))
  {
    assert lines[..n + 1] == lines[..n] + [lines[n]];
    ParseOneMore(v1, lines[..n], lines[n]);
  }

  lemma {:induction false} ParseStops(v1: bool, lines: seq<string>, n: nat)
    requires n <= |lines| && ParseLines(v1, lines[..n]).Err?
    ensures ParseLines(v1, lines) == ParseLines(v1, lines[..n])
    decreases |lines|
  {
    if n < |lines| {
      assert lines[..|lines| - 1][..n] == lines[..n];
      ParseStops(v1, lines[..|lines| - 1], n);
    } else {
      assert lines[..n] == lines;
    }
  }

  method ReadText(text: string) returns (r: Outcome)
    ensures r == Read(text)
  {
    var (line, rest, _) := Cut(text, "\n");
    var header := TrimSpace(line);
    if header == HEADER_V1 {
      r := ParseLoop(true, Split(rest, "\n"));
    } else if header == HEADER_V2 {
      r := ParseLoop(false, Split(rest, "\n"));
    } else {
      r := Err(Unsupported(header));
    }
  }

  method WriteText(deps: Deps) returns (text: string, ghost order: seq<string>)
    ensures InOrder(order, deps) && text == Written(deps, order)
    ensures Read(text) == Ok(deps) <==> forall d | d in deps :: Storable(d)
  {
    var sorted := SortedKeys(deps);
    order := sorted;
    var lines := [];
    for i := 0 to |sorted|
      invariant |lines| == i && forall k | 0 <= k < i :: lines[k] == LineOf(sorted[k], deps[sorted[k]])
    {
      assert sorted[i] in sorted;
      var kind := "relocation";
      if deps[sorted[i]] == Import { kind := "import"; }
      lines := lines + [kind + "\t" + sorted[i]];
    }
    assert lines == LinesOf(deps, sorted);
    text := Text([HEADER_V2] + lines);
    RoundTripExactly(deps, order);
  }
}
