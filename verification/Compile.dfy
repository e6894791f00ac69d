/**
 Compiling a package (internal/toolexec/aspect/oncompile.go): what woven references add to
 its import configuration and to its link.deps, and why no link-time dependency is lost on
 the way up the build graph.
 */
module Compile {
  import opened Wrappers
  import opened Ordering
  import opened ImportCfg
  import opened LinkDeps
  import opened Resolution

  datatype ReferenceKind = ImportStatement | RelocationTarget

  function EdgeKind(k: ReferenceKind): Kind {
    if k == ImportStatement then Import else Relocation
  }

  /** Whatever an archive of the import configuration asks for is in there too, or carried in link.deps. */
  ghost predicate Carried(w: World, files: map<string, string>, deps: Deps) {
    forall p | p in files :: SatisfiedArchive(w.archives, files, files[p], deps)
  }

  /** A woven reference is provided for at compile time, or recorded for link time. */
  predicate Recorded(path: string, kind: ReferenceKind, files: map<string, string>, deps: Deps) {
    path == "unsafe" || path in files || (path in deps && (kind == ImportStatement ==> deps[path] == Import))
  }

  lemma AggregateIsCarried(w: World, files: map<string, string>, deps: Deps)
    requires Aggregates(w.archives, files, files.Keys, deps)
    ensures Carried(w, files, deps)
  {
  }

  lemma CarriedSurvives(w: World, files: map<string, string>, deps: Deps, bigger: Deps)
    requires Carried(w, files, deps) && Carries(bigger, deps)
    ensures Carried(w, files, bigger)
  {
    forall p | p in files ensures SatisfiedArchive(w.archives, files, files[p], bigger) {
      SatisfiedSurvives(files, files, w.archives(files[p]).value, deps, bigger);
    }
  }

  lemma CarriedGrows(w: World, files: map<string, string>, deps: Deps, path: string, archive: string)
    requires Carried(w, files, deps) && path !in files && SatisfiedArchive(w.archives, files, archive, deps)
    ensures Carried(w, files[path := archive], deps)
  {
    var more := files[path := archive];
    forall p | p in more ensures SatisfiedArchive(w.archives, more, more[p], deps) {
      SatisfiedSurvives(files, more, w.archives(more[p]).value, deps, deps);
    }
  }

  /**
   A woven reference that is resolved at once: one that the compiler needs, or any if nothing comes later, unless
   the build had it to begin with.
   */
  predicate Asked(references: map<string, ReferenceKind>, isMain: bool, files: map<string, string>, path: string) {
    path in references && path != "unsafe" && path !in files && (references[path] == ImportStatement || isMain)
  }

  /** This archive was offered for a reference that is resolved at once. */
  ghost predicate Brought(w: World, references: map<string, ReferenceKind>, isMain: bool, files: map<string, string>,
                          path: string, archive: string)
  {
    exists asked, a ::
      Asked(references, isMain, files, asked) && Offers(w, "", asked, path, a) && a.exportFile == archive
  }

  /** No entry of the import configuration is replaced, and whatever is new there was resolved for a reference. */
  ghost predicate Extends(w: World, references: map<string, ReferenceKind>, isMain: bool, first: map<string, string>,
                          files: map<string, string>, more: map<string, string>)
  {
    && (forall p | p in files :: p in more && more[p] == files[p])
    && forall p | p in more && p !in files :: Brought(w, references, isMain, first, p, more[p])
  }

  /**
   Nothing is recorded that the build had to begin with, nor anything but a woven reference or what one of the
   archives asks for that were resolved for the references, at that kind.
   */
  ghost predicate Warranted(w: World, references: map<string, ReferenceKind>, isMain: bool, first: map<string, string>,
                            before: Deps, deps: Deps)
  {
    forall d | d in deps && !(d in before && before[d] == deps[d]) ::
      && d !in first
      && (|| (d in references && d != "unsafe" && (deps[d] == Import <==> references[d] == ImportStatement))
          || exists p, archive :: Brought(w, references, isMain, first, p, archive)
                                  && Asks(w.archives, archive, d, deps[d]))
  }

  /** A reference is recorded, and provided for if the compiler needs it or nothing comes later. */
  predicate Provided(path: string, kind: ReferenceKind, isMain: bool, files: map<string, string>, deps: Deps) {
    && Recorded(path, kind, files, deps)
    && (path != "unsafe" && (kind == ImportStatement || isMain) ==> path in files)
  }

  /** A reference that had to be resolved at once was not, or an archive that came with it cannot be read. */
  ghost predicate Failure(w: World, references: map<string, ReferenceKind>, isMain: bool, first: map<string, string>,
                          e: LinkError)
  {
    match e
    case Unresolved(d) => Asked(references, isMain, first, d) && !Answered(w, "", d)
    case Unreadable(archive) =>
      w.archives(archive).None? && exists p :: Brought(w, references, isMain, first, p, archive)
    case _ => false
  }

  method ProvideReferences(w: World, references: map<string, ReferenceKind>, isMain: bool, imports: ImportConfig,
                           cmd: LinkDeps)
    returns (r: Result<bool, LinkError>)
    requires Carried(w, imports.PackageFile, cmd.deps)
    modifies imports, cmd
    ensures var first := old(imports.PackageFile);
            && Extends(w, references, isMain, first, first, imports.PackageFile)
            && Warranted(w, references, isMain, first, old(cmd.deps), cmd.deps)
    ensures Carried(w, imports.PackageFile, cmd.deps) && Carries(cmd.deps, old(cmd.deps))
    ensures r.Ok? ==> forall p | p in references :: Provided(p, references[p], isMain, imports.PackageFile, cmd.deps)
    ensures r.Ok? ==> r.value == (imports.PackageFile != old(imports.PackageFile))
    ensures r.Err? ==> Failure(w, references, isMain, old(imports.PackageFile), r.error)
  {
    ghost var first := imports.PackageFile;
    var regUpdated, todo := false, references.Keys;
    while todo != {}
      invariant todo <= references.Keys
      invariant Extends(w, references, isMain, first, first, imports.PackageFile) && Carries(cmd.deps, old(cmd.deps))
      invariant Carried(w, imports.PackageFile, cmd.deps)
      invariant Warranted(w, references, isMain, first, old(cmd.deps), cmd.deps)
      invariant regUpdated == (imports.PackageFile != first)
      invariant forall p | p in references && p !in todo ::
                  Provided(p, references[p], isMain, imports.PackageFile, cmd.deps)
    {
      var depImportPath :| depImportPath in todo;
      todo := todo - {depImportPath};
      ghost var files, before := imports.PackageFile, cmd.deps;
      var updated, error := ProvideReference(w, depImportPath, references[depImportPath], isMain, imports, cmd,
        references, first);
      ExtendsTransitive(w, references, isMain, first, first, files, imports.PackageFile);
      WarrantedTransitive(w, references, isMain, first, old(cmd.deps), before, cmd.deps);
      ProvidedSurvives(w, references, isMain, todo + {depImportPath}, files, before, imports.PackageFile, cmd.deps);
      regUpdated := regUpdated || updated;
      if error.Some? { return Err(error.value); }
    }
    r := Ok(regUpdated);
  }

  lemma ProvidedSurvives(w: World, references: map<string, ReferenceKind>, isMain: bool, todo: set<string>,
                         files: map<string, string>, deps: Deps, more: map<string, string>, bigger: Deps)
    requires files.Keys <= more.Keys && Carries(bigger, deps)
    requires forall p | p in references && p !in todo :: Provided(p, references[p], isMain, files, deps)
    ensures forall p | p in references && p !in todo :: Provided(p, references[p], isMain, more, bigger)
  {
  }

  /** One woven reference. A relocation target is left for link time, unless nothing comes later. */
  method ProvideReference(w: World, path: string, kind: ReferenceKind, isMain: bool, imports: ImportConfig,
                          cmd: LinkDeps, ghost references: map<string, ReferenceKind>, ghost first: map<string, string>)
    returns (regUpdated: bool, error: Option<LinkError>)
    requires Carried(w, imports.PackageFile, cmd.deps) && first.Keys <= imports.PackageFile.Keys
    requires path in references && references[path] == kind
    modifies imports, cmd
    ensures Extends(w, references, isMain, first, old(imports.PackageFile), imports.PackageFile)
    ensures Warranted(w, references, isMain, first, old(cmd.deps), cmd.deps)
    ensures Carried(w, imports.PackageFile, cmd.deps) && Carries(cmd.deps, old(cmd.deps))
    ensures error.None? ==> Provided(path, kind, isMain, imports.PackageFile, cmd.deps)
    ensures regUpdated == (imports.PackageFile != old(imports.PackageFile))
    ensures path in old(imports.PackageFile) || (kind != ImportStatement && !isMain) ==>
              error.None? && imports.PackageFile == old(imports.PackageFile)
    ensures error.Some? ==> Failure(w, references, isMain, first, error.value)
  {
    if path == "unsafe" || path in imports.PackageFile { return false, None; }

    CarriedSurvives(w, imports.PackageFile, cmd.deps, Added(cmd.deps, path, EdgeKind(kind)));
    cmd.Add(path, EdgeKind(kind));
    if kind != ImportStatement && !isMain { return false, None; }

    var deps := ResolvePackageFiles(w, path, "");
    if deps.None? { return false, Some(Unresolved(path)); }
    ghost var before := cmd.deps;
    regUpdated, error := ProvideClosure(w, path, deps.value, imports, cmd, references, isMain, first);
    WarrantedTransitive(w, references, isMain, first, old(cmd.deps), before, cmd.deps);
  }

  lemma ExtendsTransitive(w: World, references: map<string, ReferenceKind>, isMain: bool, first: map<string, string>,
                          start: map<string, string>, files: map<string, string>, more: map<string, string>)
    requires Extends(w, references, isMain, first, start, files) && Extends(w, references, isMain, first, files, more)
    ensures Extends(w, references, isMain, first, start, more)
    ensures more == start ==> files == start && more == files
  {
  }

  lemma WarrantedTransitive(w: World, references: map<string, ReferenceKind>, isMain: bool, first: map<string, string>,
                            start: Deps, before: Deps, deps: Deps)
    requires Warranted(w, references, isMain, first, start, before)
    requires Warranted(w, references, isMain, first, before, deps)
    ensures Warranted(w, references, isMain, first, start, deps)
  {
  }

  /** The link.deps of an archive, then the package itself. */
  method ProvidePackage(w: World, dep: string, archive: string, imports: ImportConfig, cmd: LinkDeps,
                        ghost references: map<string, ReferenceKind>, ghost isMain: bool,
                        ghost first: map<string, string>)
    returns (added: bool)
    requires Carried(w, imports.PackageFile, cmd.deps) && first.Keys <= imports.PackageFile.Keys
    requires Brought(w, references, isMain, first, dep, archive) && w.archives(archive).Some?
    modifies imports, cmd
    ensures var files := old(imports.PackageFile);
            imports.PackageFile == if dep in files then files else files[dep := archive]
    ensures added <==> dep !in old(imports.PackageFile)
    ensures Warranted(w, references, isMain, first, old(cmd.deps), cmd.deps)
    ensures Carried(w, imports.PackageFile, cmd.deps) && Carries(cmd.deps, old(cmd.deps))
  {
    CopyMissing(w, archive, imports, cmd, first);
    if dep in imports.PackageFile { return false; }
    CarriedGrows(w, imports.PackageFile, cmd.deps, dep, archive);
    imports.PackageFile := imports.PackageFile[dep := archive];
    added := true;
  }

  /** The packages of one resolution: their own link.deps first, then the packages themselves. */
  method ProvideClosure(w: World, asked: string, deps: Response, imports: ImportConfig, cmd: LinkDeps,
                        ghost references: map<string, ReferenceKind>, ghost isMain: bool,
                        ghost first: map<string, string>)
    returns (regUpdated: bool, error: Option<LinkError>)
    requires Carried(w, imports.PackageFile, cmd.deps) && first.Keys <= imports.PackageFile.Keys
    requires Answered(w, "", asked) && w.request(asked, "").value == deps && Asked(references, isMain, first, asked)
    modifies imports, cmd
    ensures Extends(w, references, isMain, first, old(imports.PackageFile), imports.PackageFile)
    ensures Warranted(w, references, isMain, first, old(cmd.deps), cmd.deps)
    ensures Carried(w, imports.PackageFile, cmd.deps) && Carries(cmd.deps, old(cmd.deps))
    ensures error.None? ==> deps.Keys <= imports.PackageFile.Keys
    ensures regUpdated == (imports.PackageFile != old(imports.PackageFile))
    ensures error.Some? ==> Failure(w, references, isMain, first, error.value)
  {
    regUpdated := false;
    var todo := deps.Keys;
    while todo != {}
      invariant todo <= deps.Keys && first.Keys <= imports.PackageFile.Keys
      invariant Extends(w, references, isMain, first, old(imports.PackageFile), imports.PackageFile)
      invariant Carried(w, imports.PackageFile, cmd.deps) && Carries(cmd.deps, old(cmd.deps))
      invariant Warranted(w, references, isMain, first, old(cmd.deps), cmd.deps)
      invariant deps.Keys - todo <= imports.PackageFile.Keys
      invariant regUpdated == (imports.PackageFile != old(imports.PackageFile))
    {
      var dep :| dep in todo;
      todo := todo - {dep};
      var archive := deps[dep].exportFile;
      assert Brought(w, references, isMain, first, dep, archive) by {
        assert Offers(w, "", asked, dep, deps[dep]);
      }
      if w.archives(archive).None? { return regUpdated, Some(Unreadable(archive)); }
      ghost var files, before := imports.PackageFile, cmd.deps;
      var added := ProvidePackage(w, dep, archive, imports, cmd, references, isMain, first);
      WarrantedTransitive(w, references, isMain, first, old(cmd.deps), before, cmd.deps);
      ExtendsTransitive(w, references, isMain, first, old(imports.PackageFile), files, imports.PackageFile);
      regUpdated := regUpdated || added;
    }
    error := None;
  }

  /** Copies the link.deps of an archive, except for what the import configuration has. */
  method CopyMissing(w: World, archive: string, imports: ImportConfig, cmd: LinkDeps, ghost first: map<string, string>)
    requires Carried(w, imports.PackageFile, cmd.deps) && w.archives(archive).Some?
    requires first.Keys <= imports.PackageFile.Keys
    modifies cmd
    ensures Carries(cmd.deps, old(cmd.deps)) && Carried(w, imports.PackageFile, cmd.deps)
    ensures Satisfied(imports.PackageFile, w.archives(archive).value, cmd.deps)
    ensures FromArchive(w, archive, first, old(cmd.deps), cmd.deps)
  {
    var tDeps := w.archives(archive).value;
    var paths := SortedKeys(tDeps);
    for i := 0 to |paths|
      invariant Carries(cmd.deps, old(cmd.deps)) && Copied(imports.PackageFile, tDeps, paths[..i], cmd.deps)
      invariant FromArchive(w, archive, first, old(cmd.deps), cmd.deps)
    {
      var tDep := paths[i];
      assert tDep in paths && paths[..i + 1] == paths[..i] + [tDep];
      if tDep !in imports.PackageFile {
        CopiedMore(w, archive, imports.PackageFile, paths[..i], tDep, first, old(cmd.deps), cmd.deps);
        cmd.Add(tDep, tDeps[tDep]);
      }
    }
    assert paths[..|paths|] == paths;
    CopiedIsSatisfied(imports.PackageFile, tDeps, paths, cmd.deps);
    CarriedSurvives(w, imports.PackageFile, old(cmd.deps), cmd.deps);
  }

  predicate Copied(files: map<string, string>, tDeps: Deps, paths: seq<string>, deps: Deps) {
    forall d | d in paths && d in tDeps && d !in files :: d in deps && AtLeast(deps[d], tDeps[d])
  }

  lemma CopiedIsSatisfied(files: map<string, string>, tDeps: Deps, paths: seq<string>, deps: Deps)
    requires Copied(files, tDeps, paths, deps) && forall d | d in tDeps :: d in paths
    ensures Satisfied(files, tDeps, deps)
  {
  }

  /** What is new or stronger is asked for by this archive. */
  ghost predicate FromArchive(w: World, archive: string, first: map<string, string>, before: Deps, deps: Deps) {
    forall d | d in deps && !(d in before && before[d] == deps[d]) ::
      d !in first && Asks(w.archives, archive, d, deps[d])
  }

  lemma CopiedMore(w: World, archive: string, files: map<string, string>, paths: seq<string>, path: string,
                   first: map<string, string>, before: Deps, deps: Deps)
    requires w.archives(archive).Some? && path in w.archives(archive).value && path !in first
    requires Copied(files, w.archives(archive).value, paths, deps) && FromArchive(w, archive, first, before, deps)
    requires Carries(deps, before)
    ensures var tDeps := w.archives(archive).value;
            var more := Added(deps, path, tDeps[path]);
            && Copied(files, tDeps, paths + [path], more) && FromArchive(w, archive, first, before, more)
            && Carries(more, before)
  {
    assert Asks(w.archives, archive, path, w.archives(archive).value[path]);
  }

  /** A whole compilation: start from what the import configuration asks for, then weave. */
  method CompilePackage(w: World, references: map<string, ReferenceKind>, isMain: bool, files: map<string, string>)
    returns (r: Option<Build>, ghost natural: Deps)
    ensures r.Some? ==> Extends(w, references, isMain, files, files, r.value.files)
    ensures r.Some? ==> Carried(w, r.value.files, r.value.deps)
    ensures r.Some? ==>
              forall p | p in references :: Provided(p, references[p], isMain, r.value.files, r.value.deps)
    ensures r.Some? ==> Aggregates(w.archives, files, files.Keys, natural)
    ensures r.Some? ==> Warranted(w, references, isMain, files, natural, r.value.deps)
    ensures r.None? ==> (exists p :: p in files && w.archives(files[p]).None?)
                        || exists e :: Failure(w, references, isMain, files, e)
  {
    natural := map[];
    var start := FromImportConfig(w.archives, files);
    if start.None? { return None, natural; }
    natural := start.value;
    AggregateIsCarried(w, files, natural);
    var imports := new ImportConfig(files);
    var cmd := new LinkDeps();
    cmd.deps := start.value;
    var done := ProvideReferences(w, references, isMain, imports, cmd);
    r := if done.Ok? then Some(Build(imports.PackageFile, cmd.deps)) else None;
  }

  // ---------------------------------------------------------------- up the build graph

  /** A finished compilation: its final import configuration, and the link.deps it leaves in its archive. */
  datatype Build = Build(files: map<string, string>, deps: Deps)

  /** `next` was compiled against the archive that `b` left. */
  ghost predicate Imports(w: World, next: Build, b: Build) {
    exists p :: p in next.files && w.archives(next.files[p]) == Some(b.deps)
  }

  ghost predicate ImportChain(w: World, builds: seq<Build>) {
    && builds != []
    && (forall i | 0 <= i < |builds| :: Carried(w, builds[i].files, builds[i].deps))
    && (forall i | 0 < i < |builds| :: Imports(w, builds[i], builds[i - 1]))
  }

  /**
   A dependency recorded below is still carried at the top, no weaker, unless an import configuration on
   the way had it.
   */
  lemma {:induction false} DependenciesAreConserved(w: World, builds: seq<Build>, d: string)
    requires ImportChain(w, builds) && d in builds[0].deps
    ensures var top := builds[|builds| - 1];
            || (exists i :: 0 < i < |builds| && d in builds[i].files)
            || (d in top.deps && AtLeast(top.deps[d], builds[0].deps[d]))
    decreases |builds|
  {
    var n := |builds| - 1;
    if n > 0 {
      var below := builds[..n];
      assert forall i | 0 <= i < n :: below[i] == builds[i];
      DependenciesAreConserved(w, below, d);
      if i :| 0 < i < n && d in below[i].files {
        assert d in builds[i].files;
      } else if d !in builds[n].files {
        var p :| p in builds[n].files && w.archives(builds[n].files[p]) == Some(builds[n - 1].deps);
        assert SatisfiedArchive(w.archives, builds[n].files, builds[n].files[p], builds[n].deps);
      }
    }
  }
}
