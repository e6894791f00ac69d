/**
 Resolving packages to archives and merging what was resolved into an import configuration
 (internal/toolexec/aspect/resolve.go). The job server is a function of the package and of
 the test it is resolved for.
 */
module Resolution {
  import opened Wrappers
  import opened ImportCfg
  import opened LinkDeps

  /** An archive and, when not blank, the package whose tests it was rebuilt for. */
  datatype ResolvedArchive = ResolvedArchive(exportFile: string, forTest: string)

  type Response = map<string, ResolvedArchive>

  datatype World = World(archives: Archives, request: (string, string) -> Option<Response>)

  datatype LinkError =
    | Unreadable(archive: string)
    | Unresolved(path: string)
    | SyntheticVariant(parent: string, dependency: string)
    | WrongTest(path: string)
    | ReplacesTarget(path: string)
    | MissingTarget

  /** The job server's reply to this question counts: it has the package asked for, and no archive is missing. */
  predicate Answered(w: World, tvf: string, asked: string) {
    var reply := w.request(asked, tvf);
    reply.Some? && asked in reply.value && forall p | p in reply.value :: reply.value[p].exportFile != ""
  }

  /** Such a reply has this archive for `path`. */
  predicate Offers(w: World, tvf: string, asked: string, path: string, archive: ResolvedArchive) {
    Answered(w, tvf, asked) && path in w.request(asked, tvf).value && w.request(asked, tvf).value[path] == archive
  }

  /** The replies that count, and nothing else. */
  function Resolve(w: World, path: string, testVariantFor: string): (r: Option<Response>)
    ensures r.Some? <==> Answered(w, testVariantFor, path)
    ensures r.Some? ==> r == w.request(path, testVariantFor)
  {
    if Answered(w, testVariantFor, path) then w.request(path, testVariantFor) else None
  }

  method ResolvePackageFiles(w: World, path: string, testVariantFor: string) returns (r: Option<Response>)
    ensures r.Some? <==> Answered(w, testVariantFor, path)
    ensures r.Some? ==> r == w.request(path, testVariantFor)
    ensures r == Resolve(w, path, testVariantFor)
  {
    r := w.request(path, testVariantFor);
    if r.None? { return; }
    var found, todo := false, r.value.Keys;
    while todo != {}
      invariant todo <= r.value.Keys && (found <==> path in r.value.Keys - todo)
      invariant forall p | p in r.value && p !in todo :: r.value[p].exportFile != ""
    {
      var ip :| ip in todo;
      if r.value[ip].exportFile == "" { return None; }
      if ip == path { found := true; }
      todo := todo - {ip};
    }
    if !found { r := None; }
  }

  ghost predicate OffersVariant(w: World, tvf: string, path: string) {
    exists asked, a :: Offers(w, tvf, asked, path, a) && a.forTest == tvf
  }

  ghost predicate OffersOrdinary(w: World, tvf: string, path: string) {
    exists asked, a :: Offers(w, tvf, asked, path, a) && a.forTest != tvf
  }

  /** The resolver never marks a package as rebuilt in one answer and as ordinary in another. */
  ghost predicate Consistent(w: World, tvf: string) {
    forall path :: !(OffersVariant(w, tvf, path) && OffersOrdinary(w, tvf, path))
  }

  /** An error that the inputs account for. */
  ghost predicate Genuine(w: World, tvf: string, e: LinkError) {
    match e
    case Unreadable(archive) => w.archives(archive).None?
    case Unresolved(path) => !Answered(w, tvf, path)
    case SyntheticVariant(parent, dependency) =>
      && parent != "" && tvf != "" && OffersVariant(w, tvf, dependency)
      && exists archive :: Asks(w.archives, archive, dependency, Import)
    case WrongTest(path) =>
      exists asked, a :: Offers(w, tvf, asked, path, a) && a.forTest != "" && a.forTest != tvf
    case ReplacesTarget(path) => path == tvf && exists asked, a :: Offers(w, tvf, asked, path, a)
    case MissingTarget => exists archive, kind :: Asks(w.archives, archive, tvf, kind)
  }

  // ---------------------------------------------------------------- rejection

  predicate RejectsVariant(parent: string, tvf: string, requiresRebuild: bool, forTest: string) {
    parent != "" && requiresRebuild && tvf != "" && forTest == tvf
  }

  /** Whether the build's own archive of the package under test was augmented by its tests. */
  class ProvenanceResolver {
    const w: World
    const tvf: string
    var cached: Option<ResolvedArchive>

    ghost predicate Valid()
      reads this
    {
      cached.Some? ==> Offers(w, tvf, tvf, tvf, cached.value)
    }

    constructor (w: World, tvf: string)
      ensures Valid() && this.w == w && this.tvf == tvf
    {
      this.w, this.tvf := w, tvf;
      cached := None;
    }

    method Get() returns (selected: Option<ResolvedArchive>)
      requires Valid()
      modifies this
      ensures Valid()
      ensures selected.Some? ==> Offers(w, tvf, tvf, tvf, selected.value)
      ensures selected.None? <==> !Answered(w, tvf, tvf)
    {
      if cached.Some? { return cached; }
      var archives := ResolvePackageFiles(w, tvf, tvf);
      if archives.None? { return None; }
      cached := Some(archives.value[tvf]);
      selected := cached;
    }
  }

  // ---------------------------------------------------------------- merging

  predicate WrongTarget(tvf: string, a: ResolvedArchive) {
    a.forTest != "" && a.forTest != tvf
  }

  predicate Mergeable(archives: Response, tvf: string) {
    forall p | p in archives :: !WrongTarget(tvf, archives[p]) && p != tvf
  }

  /** A new path is recorded; an existing one yields only to a rebuilt archive. */
  predicate Replaces(files: map<string, string>, p: string, a: ResolvedArchive) {
    p !in files || (a.forTest != "" && files[p] != a.exportFile)
  }

  function Changes(files: map<string, string>, archives: Response): map<string, string> {
    ChangesAt(files, archives, archives.Keys)
  }

  /** The changes for some of the paths. */
  function ChangesAt(files: map<string, string>, archives: Response, paths: set<string>): map<string, string>
    requires paths <= archives.Keys
  {
    map p | p in paths && Replaces(files, p, archives[p]) :: archives[p].exportFile
  }

  lemma ChangesAtMore(files: map<string, string>, archives: Response, paths: set<string>, p: string)
    requires paths <= archives.Keys && p in archives && p !in paths
    ensures p in files + ChangesAt(files, archives, paths) <==> p in files
    ensures p in files ==> (files + ChangesAt(files, archives, paths))[p] == files[p]
    ensures ChangesAt(files, archives, paths + {p}) ==
              if Replaces(files, p, archives[p]) then ChangesAt(files, archives, paths)[p := archives[p].exportFile]
              else ChangesAt(files, archives, paths)
  {
  }

  method MergeResolvedArchives(reg: ImportConfig, archives: Response, tvf: string)
    returns (r: Result<map<string, string>, LinkError>)
    modifies reg
    ensures r.Ok? <==> Mergeable(archives, tvf)
    ensures r.Ok? ==>
              r.value == Changes(old(reg.PackageFile), archives) && reg.PackageFile == old(reg.PackageFile) + r.value
    ensures r.Err? && r.error.WrongTest? ==> r.error.path in archives && WrongTarget(tvf, archives[r.error.path])
    ensures r.Err? ==> r.error.WrongTest? || (r.error == ReplacesTarget(tvf) && tvf in archives)
  {
    ghost var before := reg.PackageFile;
    var changed: map<string, string>, todo := map[], archives.Keys;
    while todo != {}
      invariant todo <= archives.Keys
      invariant forall p | p in archives && p !in todo :: !WrongTarget(tvf, archives[p]) && p != tvf
      invariant changed == ChangesAt(before, archives, archives.Keys - todo)
      invariant reg.PackageFile == before + changed
    {
      var importPath :| importPath in todo;
      var archive := archives[importPath];
      if archive.forTest != "" && archive.forTest != tvf { return Err(WrongTest(importPath)); }
      if importPath == tvf { return Err(ReplacesTarget(importPath)); }
      ChangesAtMore(before, archives, archives.Keys - todo, importPath);
      assert archives.Keys - (todo - {importPath}) == archives.Keys - todo + {importPath};
      todo := todo - {importPath};
      if importPath in reg.PackageFile && (archive.forTest == "" || reg.PackageFile[importPath] == archive.exportFile) {
        continue;
      }
      reg.PackageFile := reg.PackageFile[importPath := archive.exportFile];
      changed := changed[importPath := archive.exportFile];
    }
    assert archives.Keys - todo == archives.Keys;
    r := Ok(changed);
  }

  // ---------------------------------------------------------------- what a whole run keeps

  /** `now` grew out of `start` by merging answers of the resolver. */
  ghost predicate GrownFrom(w: World, tvf: string, start: map<string, string>, now: map<string, string>) {
    && start.Keys <= now.Keys
    && (tvf in start ==> now[tvf] == start[tvf])
    && (forall p | p in start && now[p] != start[p] :: tvf != "" && OffersFile(w, tvf, p, now[p], true))
    && (forall p | p in now && p !in start :: OffersFile(w, tvf, p, now[p], false))
  }

  /** Some answer of the resolver has this file for `path`, rebuilt for the tests if `rebuilt` says so. */
  ghost predicate OffersFile(w: World, tvf: string, path: string, file: string, rebuilt: bool) {
    exists asked, a :: Offers(w, tvf, asked, path, a) && a.exportFile == file && (rebuilt ==> a.forTest == tvf)
  }

  /** No key is lost, the package under test keeps its archive, an ordinary archive displaces nothing. */
  lemma MergeKeepsGrowth(w: World, tvf: string, start: map<string, string>, now: map<string, string>, asked: string)
    requires GrownFrom(w, tvf, start, now)
    requires Resolve(w, asked, tvf).Some? && Mergeable(Resolve(w, asked, tvf).value, tvf)
    ensures GrownFrom(w, tvf, start, now + Changes(now, Resolve(w, asked, tvf).value))
    ensures asked in now + Changes(now, Resolve(w, asked, tvf).value)
  {
    var archives := Resolve(w, asked, tvf).value;
    var next := now + Changes(now, archives);
    forall p | p in next && (p !in now || next[p] != now[p])
      ensures OffersFile(w, tvf, p, next[p], p in now) && (p in now ==> tvf != "") && p != tvf
    {
      assert Offers(w, tvf, asked, p, archives[p]);
    }
    forall p | p in start && next[p] != start[p] ensures tvf != "" && OffersFile(w, tvf, p, next[p], true) {
      if next[p] == now[p] { assert now[p] != start[p]; }
    }
    forall p | p in next && p !in start ensures OffersFile(w, tvf, p, next[p], false) {
      if p in now && next[p] == now[p] {
        assert OffersFile(w, tvf, p, now[p], false);
      } else if p in now {
        assert OffersFile(w, tvf, p, next[p], true);
      }
    }
  }

  // ---------------------------------------------------------------- a list of answers

  /** The configuration after the answers for these paths have been merged, one after the other. */
  function AfterMerges(w: World, tvf: string, start: map<string, string>, asked: seq<string>): map<string, string> {
    if asked == [] then start
    else
      var files := AfterMerges(w, tvf, start, asked[..|asked| - 1]);
      match Resolve(w, asked[|asked| - 1], tvf)
      case None => files
      case Some(archives) => files + Changes(files, archives)
  }

  /** All of them could be merged, and this came of it. */
  ghost predicate MergesTo(w: World, tvf: string, start: map<string, string>, asked: seq<string>,
                             files: map<string, string>) {
    && (forall d | d in asked :: Resolve(w, d, tvf).Some? && Mergeable(Resolve(w, d, tvf).value, tvf))
    && files == AfterMerges(w, tvf, start, asked)
  }

  lemma MergesToMore(w: World, tvf: string, start: map<string, string>, asked: seq<string>,
                       files: map<string, string>, path: string)
    requires MergesTo(w, tvf, start, asked, files)
    requires Resolve(w, path, tvf).Some? && Mergeable(Resolve(w, path, tvf).value, tvf)
    ensures MergesTo(w, tvf, start, asked + [path], files + Changes(files, Resolve(w, path, tvf).value))
  {
    assert (asked + [path])[..|asked|] == asked;
  }

  /** The last of the answers that has a rebuilt archive for the path. */
  function LastRebuilt(w: World, tvf: string, asked: seq<string>, path: string): Option<ResolvedArchive> {
    if asked == [] then None
    else
      var r := Resolve(w, asked[|asked| - 1], tvf);
      if r.Some? && path in r.value && r.value[path].forTest != "" then Some(r.value[path])
      else LastRebuilt(w, tvf, asked[..|asked| - 1], path)
  }

  /** Which archive a path ends up with, whatever the resolver answers. */
  lemma {:induction false} MergedEntry(w: World, tvf: string, start: map<string, string>, asked: seq<string>,
                                       path: string)
    requires forall d | d in asked :: Resolve(w, d, tvf).Some? && Mergeable(Resolve(w, d, tvf).value, tvf)
    ensures var files, last := AfterMerges(w, tvf, start, asked), LastRebuilt(w, tvf, asked, path);
            && (last.Some? ==> path in files && files[path] == last.value.exportFile && last.value.forTest == tvf)
            && (last.Some? ==> path != tvf && tvf != "" && OffersVariant(w, tvf, path))
            && (path in start ==> path in files && (last.None? ==> files[path] == start[path]))
            && (path in files && path !in start ==>
                  exists d, a :: d in asked && Offers(w, tvf, d, path, a) && a.exportFile == files[path])
  {
    if asked != [] {
      var rest, d := asked[..|asked| - 1], asked[|asked| - 1];
      assert d in asked && forall e | e in rest :: e in asked;
      MergedEntry(w, tvf, start, rest, path);
      var archives := Resolve(w, d, tvf).value;
      if path in archives { assert Offers(w, tvf, d, path, archives[path]); }
      assert AfterMerges(w, tvf, start, asked) ==
        AfterMerges(w, tvf, start, rest) + Changes(AfterMerges(w, tvf, start, rest), archives);
    }
  }
}
