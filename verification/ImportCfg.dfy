/** Import configurations as text (internal/toolexec/importcfg/importcfg.go). */
module ImportCfg {
  import opened Wrappers
  import opened Strings
  import opened Lines

  /** What a line of the file says. */
  datatype Entry =
    | Nothing
    | PackageFile(importPath: string, archive: string)
    | ImportMap(importPath: string, mappedTo: string)
    | Extra(line: string)

  datatype Config = Config(packageFile: map<string, string>, importMap: map<string, string>, extras: seq<string>)

  const EMPTY := Config(map[], map[], [])

  const PACKAGEFILE := "packagefile"
  const IMPORTMAP := "importmap"

  /** A line without surrounding white space. */
  function EntryOf(line: string): Entry {
    if line == "" || line[0] == '#' then Nothing else
    var (directive, data, ok) := Cut(line, " ");
    var (importPath, value, found) := Cut(data, "=");
    if ok && found && directive == PACKAGEFILE then PackageFile(importPath, value)
    else if ok && found && directive == IMPORTMAP then ImportMap(importPath, value)
    else Extra(line)
  }

  function With(c: Config, e: Entry): Config {
    match e
    case Nothing => c
    case PackageFile(p, a) => c.(packageFile := c.packageFile[p := a])
    case ImportMap(p, m) => c.(importMap := c.importMap[p := m])
    case Extra(line) => c.(extras := c.extras + [line])
  }

  function ParseLines(lines: seq<string>): Config {
    if lines == [] then EMPTY
    else With(ParseLines(lines[..|lines| - 1]), EntryOf(TrimSpace(lines[|lines| - 1])))
  }

  function Parsed(text: string): Config {
    ParseLines(Split(text, "\n"))
  }

  function Line(e: Entry): string {
    match e
    case Nothing => ""
    case PackageFile(p, a) => PACKAGEFILE + " " + p + "=" + a
    case ImportMap(p, m) => IMPORTMAP + " " + p + "=" + m
    case Extra(line) => line
  }

  /** `order` lists the keys of a map, each once. */
  ghost predicate Iterates(order: seq<string>, m: map<string, string>) {
    && (forall i, j | 0 <= i < j < |order| :: order[i] != order[j])
    && forall k :: k in order <==> k in m
  }

  function MapEntries(m: map<string, string>, order: seq<string>): (r: seq<Entry>)
    requires forall k | k in order :: k in m
    ensures |r| == |order| && forall i | 0 <= i < |r| :: r[i] == ImportMap(order[i], m[order[i]])
  {
    seq(|order|, i requires 0 <= i < |order| => assert order[i] in order; ImportMap(order[i], m[order[i]]))
  }

  function FileEntries(m: map<string, string>, order: seq<string>): (r: seq<Entry>)
    requires forall k | k in order :: k in m
    ensures |r| == |order| && forall i | 0 <= i < |r| :: r[i] == PackageFile(order[i], m[order[i]])
  {
    seq(|order|, i requires 0 <= i < |order| => assert order[i] in order; PackageFile(order[i], m[order[i]]))
  }

  function ExtraEntries(extras: seq<string>): (r: seq<Entry>)
    ensures |r| == |extras| && forall i | 0 <= i < |r| :: r[i] == Extra(extras[i])
  {
    seq(|extras|, i requires 0 <= i < |extras| => Extra(extras[i]))
  }

  function Entries(c: Config, maps: seq<string>, files: seq<string>): seq<Entry>
    requires (forall k | k in maps :: k in c.importMap) && forall k | k in files :: k in c.packageFile
  {
    MapEntries(c.importMap, maps) + FileEntries(c.packageFile, files) + ExtraEntries(c.extras)
  }

  function LinesOf(entries: seq<Entry>): (r: seq<string>)
    ensures |r| == |entries| && forall i | 0 <= i < |r| :: r[i] == Line(entries[i])
  {
    seq(|entries|, i requires 0 <= i < |entries| => Line(entries[i]))
  }

  /** The text written when the maps are iterated in these orders. */
  function Written(c: Config, maps: seq<string>, files: seq<string>): string
    requires (forall k | k in maps :: k in c.importMap) && forall k | k in files :: k in c.packageFile
  {
    Text(LinesOf(Entries(c, maps, files)))
  }

  // ---------------------------------------------------------------- the round trip

  predicate PlainKey(k: string) {
    OneLine(k) && '=' !in k
  }

  predicate PlainValue(v: string) {
    OneLine(v) && (v == "" || !IsSpace(v[|v| - 1]))
  }

  /** Reads back as itself. */
  predicate PlainEntry(e: Entry) {
    match e
    case Nothing => false
    case PackageFile(p, a) => PlainKey(p) && PlainValue(a)
    case ImportMap(p, m) => PlainKey(p) && PlainValue(m)
    case Extra(line) => OneLine(line) && Trimmed(line) && EntryOf(line) == e
  }

  /** Nothing in the configuration would be read differently once written. */
  ghost predicate Writable(c: Config) {
    && (forall p | p in c.packageFile :: PlainKey(p) && PlainValue(c.packageFile[p]))
    && (forall p | p in c.importMap :: PlainKey(p) && PlainValue(c.importMap[p]))
    && (forall line | line in c.extras :: PlainEntry(Extra(line)))
  }

  lemma EntryOfLine(e: Entry)
    requires PlainEntry(e)
    ensures OneLine(Line(e)) && Trimmed(Line(e)) && EntryOf(Line(e)) == e
  {
    match e
    case PackageFile(p, a) => EntryOfPair(PACKAGEFILE, p, a);
    case ImportMap(p, m) => EntryOfPair(IMPORTMAP, p, m);
    case Extra(_) =>
  }

  lemma EntryOfPair(directive: string, key: string, value: string)
    requires directive == PACKAGEFILE || directive == IMPORTMAP
    requires PlainKey(key) && PlainValue(value)
    ensures var line := directive + " " + key + "=" + value;
            && OneLine(line) && Trimmed(line)
            && EntryOf(line) == if directive == PACKAGEFILE then PackageFile(key, value) else ImportMap(key, value)
  {
    var line, data := directive + " " + key + "=" + value, key + ['='] + value;
    PairIsPlain(directive, key, value);
    assert line == directive + [' '] + data;
    CutAt(directive, ' ', data);
    CutAt(key, '=', value);
    assert line[0] == directive[0];
  }

  lemma PairIsPlain(directive: string, key: string, value: string)
    requires directive == PACKAGEFILE || directive == IMPORTMAP
    requires PlainKey(key) && PlainValue(value)
    ensures var line := directive + " " + key + "=" + value; OneLine(line) && Trimmed(line) && ' ' !in directive
  {
    var line := directive + " " + key + "=" + value;
    assert ' ' !in directive && '\n' !in directive;
    assert line[|line| - 1] == if value == "" then '=' else value[|value| - 1];
    assert line[0] == directive[0];
  }

  lemma PairEntryParts(line: string, key: string, value: string) returns (directive: string, data: string)
    requires EntryOf(line) == PackageFile(key, value) || EntryOf(line) == ImportMap(key, value)
    ensures Cut(line, " ") == (directive, data, true) && Cut(data, "=") == (key, value, true)
  {
    directive, data := Cut(line, " ").0, Cut(line, " ").1;
  }

  lemma PairEntryIsPlain(line: string, key: string, value: string)
    requires OneLine(line) && Trimmed(line)
    requires EntryOf(line) == PackageFile(key, value) || EntryOf(line) == ImportMap(key, value)
    ensures PlainKey(key) && PlainValue(value)
  {
    var directive, data := PairEntryParts(line, key, value);
    CutFound(line, ' ');
    CutFound(data, '=');
    PartsArePlain(line, directive, data, key, value);
  }

  lemma ParsedEntryIsPlain(line: string)
    requires OneLine(line) && Trimmed(line)
    ensures EntryOf(line) == Nothing || PlainEntry(EntryOf(line))
  {
    match EntryOf(line)
    case Nothing =>
    case Extra(l) => assert l == line;
    case PackageFile(key, value) => PairEntryIsPlain(line, key, value);
    case ImportMap(key, value) => PairEntryIsPlain(line, key, value);
  }

  lemma PartsArePlain(line: string, directive: string, data: string, key: string, value: string)
    requires line == directive + [' '] + data && data == key + ['='] + value && '=' !in key
    requires OneLine(line) && Trimmed(line)
    ensures PlainKey(key) && PlainValue(value)
  {
    assert OneLine(data) by { assert forall k | 0 <= k < |data| :: data[k] == line[|directive| + 1 + k]; }
    assert forall k | 0 <= k < |key| :: key[k] == data[k];
    assert forall k | 0 <= k < |value| :: value[k] == data[|key| + 1 + k];
    if value != "" { assert line[|line| - 1] == data[|data| - 1] == value[|value| - 1]; }
  }

  lemma WithKeepsWritable(c: Config, e: Entry)
    requires Writable(c) && (e == Nothing || PlainEntry(e))
    ensures Writable(With(c, e))
  {
    var next := With(c, e);
    forall line | line in next.extras ensures PlainEntry(Extra(line)) {
      if line in c.extras { assert PlainEntry(Extra(line)); }
    }
  }

  lemma {:induction false} ParsedIsWritable(lines: seq<string>)
    requires forall l | l in lines :: OneLine(l)
    ensures Writable(ParseLines(lines))
  {
    if lines != [] {
      var l := lines[|lines| - 1];
      assert l in lines;
      ParsedIsWritable(lines[..|lines| - 1]);
      TrimSpaceTrims(l);
      ParsedEntryIsPlain(TrimSpace(l));
      WithKeepsWritable(ParseLines(lines[..|lines| - 1]), EntryOf(TrimSpace(l)));
    }
  }

  /** The configuration made of these entries, later ones winning. */
  function Made(entries: seq<Entry>): Config {
    if entries == [] then EMPTY else With(Made(entries[..|entries| - 1]), entries[|entries| - 1])
  }

  lemma {:induction false} ParseOfLines(entries: seq<Entry>)
    requires forall e | e in entries :: PlainEntry(e)
    ensures ParseLines(LinesOf(entries)) == Made(entries)
    ensures forall l | l in LinesOf(entries) :: OneLine(l)
  {
    if entries != [] {
      var rest, e := entries[..|entries| - 1], entries[|entries| - 1];
      assert e in entries;
      ParseOfLines(rest);
      EntryOfLine(e);
      TrimSpaceTrims(Line(e));
      assert LinesOf(entries) == LinesOf(rest) + [Line(e)];
      assert LinesOf(entries)[..|rest|] == LinesOf(rest);
    }
  }

  function Joined(a: Config, b: Config): Config {
    Config(a.packageFile + b.packageFile, a.importMap + b.importMap, a.extras + b.extras)
  }

  lemma JoinedWith(a: Config, b: Config, e: Entry)
    ensures With(Joined(a, b), e) == Joined(a, With(b, e))
  {
    match e
    case PackageFile(p, v) => assert (a.packageFile + b.packageFile)[p := v] == a.packageFile + b.packageFile[p := v];
    case ImportMap(p, v) => assert (a.importMap + b.importMap)[p := v] == a.importMap + b.importMap[p := v];
    case _ =>
  }

  lemma {:induction false} MadeOfParts(one: seq<Entry>, two: seq<Entry>)
    ensures Made(one + two) == Joined(Made(one), Made(two))
  {
    if two == [] {
      assert one + two == one;
    } else {
      var rest := two[..|two| - 1];
      MadeOfParts(one, rest);
      JoinedWith(Made(one), Made(rest), two[|two| - 1]);
      assert (one + two)[..|one + two| - 1] == one + rest;
    }
  }

  lemma MadeOneMore(entries: seq<Entry>, e: Entry)
    ensures Made(entries + [e]) == With(Made(entries), e)
  {
    assert (entries + [e])[..|entries|] == entries;
  }

  function Restrict(m: map<string, string>, order: seq<string>): map<string, string>
    requires forall k | k in order :: k in m
  {
    map k | k in order :: m[k]
  }

  lemma RestrictMore(m: map<string, string>, rest: seq<string>, k: string)
    requires k in m && forall j | j in rest :: j in m
    ensures forall j | j in rest + [k] :: j in m
    ensures Restrict(m, rest + [k]) == Restrict(m, rest)[k := m[k]]
  {
  }

  lemma {:induction false} MadeOfMaps(m: map<string, string>, order: seq<string>)
    requires forall k | k in order :: k in m
    ensures Made(MapEntries(m, order)) == Config(map[], Restrict(m, order), [])
  {
    if order != [] {
      var rest, k := order[..|order| - 1], order[|order| - 1];
      assert order == rest + [k] && k in order && forall j | j in rest :: j in order;
      MadeOfMaps(m, rest);
      assert MapEntries(m, order) == MapEntries(m, rest) + [ImportMap(k, m[k])];
      MadeOneMore(MapEntries(m, rest), ImportMap(k, m[k]));
      RestrictMore(m, rest, k);
    }
  }

  lemma {:induction false} MadeOfFiles(m: map<string, string>, order: seq<string>)
    requires forall k | k in order :: k in m
    ensures Made(FileEntries(m, order)) == Config(Restrict(m, order), map[], [])
  {
    if order != [] {
      var rest, k := order[..|order| - 1], order[|order| - 1];
      assert order == rest + [k] && k in order && forall j | j in rest :: j in order;
      MadeOfFiles(m, rest);
      assert FileEntries(m, order) == FileEntries(m, rest) + [PackageFile(k, m[k])];
      MadeOneMore(FileEntries(m, rest), PackageFile(k, m[k]));
      RestrictMore(m, rest, k);
    }
  }

  lemma {:induction false} MadeOfExtras(extras: seq<string>)
    ensures Made(ExtraEntries(extras)) == Config(map[], map[], extras)
  {
    if extras != [] {
      var rest := extras[..|extras| - 1];
      MadeOfExtras(rest);
      assert ExtraEntries(extras)[..|rest|] == ExtraEntries(rest);
      assert extras == rest + [extras[|extras| - 1]];
    }
  }

  lemma IteratedWhole(m: map<string, string>, order: seq<string>)
    requires Iterates(order, m)
    ensures Restrict(m, order) == m
  {
  }

  lemma JoinedParts(c: Config)
    ensures Joined(Joined(Config(map[], c.importMap, []), Config(c.packageFile, map[], [])),
              Config(map[], map[], c.extras)) == c
  {
    assert map[] + c.packageFile == c.packageFile && c.packageFile + map[] == c.packageFile;
    assert c.importMap + map[] == c.importMap && [] + c.extras == c.extras;
  }

  lemma MadeOfEntries(c: Config, maps: seq<string>, files: seq<string>)
    requires Iterates(maps, c.importMap) && Iterates(files, c.packageFile)
    ensures Made(Entries(c, maps, files)) == c
  {
    MadeOfMaps(c.importMap, maps);
    MadeOfFiles(c.packageFile, files);
    MadeOfExtras(c.extras);
    IteratedWhole(c.importMap, maps);
    IteratedWhole(c.packageFile, files);
    MadeOfParts(MapEntries(c.importMap, maps), FileEntries(c.packageFile, files));
    MadeOfParts(MapEntries(c.importMap, maps) + FileEntries(c.packageFile, files), ExtraEntries(c.extras));
    JoinedParts(c);
  }

  lemma WrittenIsRead(entries: seq<Entry>)
    requires forall e | e in entries :: PlainEntry(e)
    ensures Parsed(Text(LinesOf(entries))) == Made(entries)
  {
    ParseOfLines(entries);
    SplitText(LinesOf(entries));
    assert (LinesOf(entries) + [""])[..|entries|] == LinesOf(entries);
  }

  lemma EntriesArePlain(c: Config, maps: seq<string>, files: seq<string>)
    requires Writable(c) && Iterates(maps, c.importMap) && Iterates(files, c.packageFile)
    ensures forall e | e in Entries(c, maps, files) :: PlainEntry(e)
  {
    forall e | e in Entries(c, maps, files) ensures PlainEntry(e) {
      var m, f, x := MapEntries(c.importMap, maps), FileEntries(c.packageFile, files), ExtraEntries(c.extras);
      if e in m {
        var i :| 0 <= i < |m| && m[i] == e;
        assert maps[i] in maps;
      } else if e in f {
        var i :| 0 <= i < |f| && f[i] == e;
        assert files[i] in files;
      } else {
        var i :| 0 <= i < |x| && x[i] == e;
        assert c.extras[i] in c.extras;
      }
    }
  }

  /** Whatever the order of the maps, writing and reading gives the configuration back exactly if it is writable. */
  lemma RoundTripExactly(c: Config, maps: seq<string>, files: seq<string>)
    requires Iterates(maps, c.importMap) && Iterates(files, c.packageFile)
    ensures Parsed(Written(c, maps, files)) == c <==> Writable(c)
  {
    if Writable(c) {
      EntriesArePlain(c, maps, files);
      WrittenIsRead(Entries(c, maps, files));
      MadeOfEntries(c, maps, files);
    }
    var text := Written(c, maps, files);
    PiecesAreLines(text);
    ParsedIsWritable(Split(text, "\n"));
  }

  /** Every configuration that was read is writable. */
  lemma ParseWriteParse(text: string, maps: seq<string>, files: seq<string>)
    requires Iterates(maps, Parsed(text).importMap) && Iterates(files, Parsed(text).packageFile)
    ensures Parsed(Written(Parsed(text), maps, files)) == Parsed(text)
  {
    PiecesAreLines(text);
    ParsedIsWritable(Split(text, "\n"));
    RoundTripExactly(Parsed(text), maps, files);
  }

  // ---------------------------------------------------------------- the configuration in memory

  class ImportConfig {
    var PackageFile: map<string, string> // import path to archive
    var ImportMap: map<string, string>
    var Extras: seq<string>

    constructor (packageFile: map<string, string>)
      ensures PackageFile == packageFile && ImportMap == map[] && Extras == []
    {
      PackageFile, ImportMap, Extras := packageFile, map[], [];
    }

    function Contents(): Config
      reads this
    {
      Config(PackageFile, ImportMap, Extras)
    }

    method Parse(text: string)
      requires Contents() == EMPTY
      modifies this
      ensures Contents() == Parsed(text)
    {
      var lines := Split(text, "\n");
      for i := 0 to |lines|
        invariant Contents() == ParseLines(lines[..i])
      {
        ParseOneMore(lines, i);
        Add(TrimSpace(lines[i]));
      }
      assert lines[..|lines|] == lines;
    }

    /** One line of the file. */
    method Add(line: string)
      modifies this
      ensures Contents() == With(old(Contents()), EntryOf(line))
    {
      if line == "" || line[0] == '#' { return; }
      var (directive, data, ok) := Cut(line, " ");
      if !ok {
        Extras := Extras + [line];
        return;
      }
      var (importPath, value, found) := Cut(data, "=");
      if directive == PACKAGEFILE && found {
        PackageFile := PackageFile[importPath := value];
      } else if directive == IMPORTMAP && found {
        ImportMap := ImportMap[importPath := value];
      } else {
        Extras := Extras + [line];
      }
    }

    method Write() returns (text: string, ghost maps: seq<string>, ghost files: seq<string>)
      ensures Iterates(maps, ImportMap) && Iterates(files, PackageFile)
      ensures text == Written(Contents(), maps, files)
      ensures Parsed(text) == Contents() <==> Writable(Contents())
    {
      var mapLines, fileLines;
      mapLines, maps := WriteEntries(IMPORTMAP, ImportMap);
      fileLines, files := WriteEntries(PACKAGEFILE, PackageFile);
      text := Text(mapLines + fileLines + Extras);
      LinesOfParts(Contents(), maps, files, mapLines, fileLines);
      RoundTripExactly(Contents(), maps, files);
    }

    /** Entries of the other configuration that this one lacks. */
    method CombinePackageFile(other: ImportConfig) returns (changed: bool)
      modifies this`PackageFile
      ensures PackageFile == old(other.PackageFile) + old(PackageFile)
      ensures changed <==> !(old(other.PackageFile).Keys <= old(PackageFile).Keys)
    {
      changed := false;
      ghost var before := PackageFile;
      var theirs := other.PackageFile;
      var todo := theirs.Keys;
      while todo != {}
        invariant todo <= theirs.Keys
        invariant PackageFile == (theirs - todo) + before
        invariant changed <==> !(theirs.Keys - todo <= before.Keys)
      {
        var k :| k in todo;
        if k !in PackageFile {
          PackageFile := PackageFile[k := theirs[k]];
          changed := true;
        }
        todo := todo - {k};
      }
    }
  }

  lemma LinesOfParts(c: Config, maps: seq<string>, files: seq<string>, mapLines: seq<string>, fileLines: seq<string>)
    requires Iterates(maps, c.importMap) && Iterates(files, c.packageFile)
    requires mapLines == LinesOf(MapEntries(c.importMap, maps))
    requires fileLines == LinesOf(FileEntries(c.packageFile, files))
    ensures LinesOf(Entries(c, maps, files)) == mapLines + fileLines + c.extras
  {
    LinesOfBoth(MapEntries(c.importMap, maps), FileEntries(c.packageFile, files));
    LinesOfBoth(MapEntries(c.importMap, maps) + FileEntries(c.packageFile, files), ExtraEntries(c.extras));
    assert LinesOf(ExtraEntries(c.extras)) == c.extras;
  }

  lemma LinesOfBoth(a: seq<Entry>, b: seq<Entry>)
    ensures LinesOf(a + b) == LinesOf(a) + LinesOf(b)
  {
  }

  lemma ParseOneMore(lines: seq<string>, i: nat)
    requires i < |lines|
    ensures ParseLines(lines[..i + 1]) == With(ParseLines(lines[..i]), EntryOf(TrimSpace(lines[i])))
  {
    assert lines[..i + 1][..i] == lines[..i];
  }

  /** The lines for one map, in whatever order it is iterated. */
  method WriteEntries(directive: string, m: map<string, string>) returns (lines: seq<string>, ghost order: seq<string>)
    ensures Iterates(order, m) && |lines| == |order|
    ensures forall i | 0 <= i < |lines| :: lines[i] == directive + " " + order[i] + "=" + m[order[i]]
    ensures forall k | k in m :: directive + " " + k + "=" + m[k] in lines
  {
    lines, order := [], [];
    var todo := m.Keys;
    while todo != {}
      invariant todo <= m.Keys && |lines| == |order|
      invariant forall i, j | 0 <= i < j < |order| :: order[i] != order[j]
      invariant forall k :: k in order <==> k in m && k !in todo
      invariant forall i | 0 <= i < |lines| ::
                  order[i] in m && lines[i] == directive + " " + order[i] + "=" + m[order[i]]
    {
      var name :| name in todo;
      lines, order := lines + [directive + " " + name + "=" + m[name]], order + [name];
      todo := todo - {name};
    }
    forall k | k in m ensures directive + " " + k + "=" + m[k] in lines {
      assert k in order;
      var i :| 0 <= i < |order| && order[i] == k;
      assert lines[i] == directive + " " + k + "=" + m[k];
    }
  }
}
