/**
 Compiling a main package (internal/toolexec/aspect/oncompile-main.go): every link-time
 dependency that the import configuration lacks is resolved and imported blank, and so are
 the dependencies that this brings along.
 */
module CompileMain {
  import opened Wrappers
  import opened Ordering
  import opened ImportCfg
  import opened LinkDeps
  import opened Resolution
  import opened Linking

  datatype PendingDep = PendingDep(path: string, parent: string, kind: Kind)

  function Strongest(left: PendingDep, right: PendingDep): PendingDep {
    if (right.kind == Import && left.kind == Relocation)
       || (right.kind == left.kind && left.parent == "" && right.parent != "") then right
    else left
  }

  /** An edge of some link.deps, seen from the package whose archive holds it. */
  datatype Edge = Edge(parent: string, archive: string, path: string)

  predicate IsEdge(w: World, e: Edge) {
    w.archives(e.archive).Some? && e.path in w.archives(e.archive).value
  }

  /** Edges that a rebuilt archive must not be used for. */
  predicate Strict(w: World, e: Edge) {
    e.parent != "" && Asks(w.archives, e.archive, e.path, Import)
  }

  /** What is pending for a path will be checked on behalf of this edge. */
  predicate StandsFor(w: World, item: PendingDep, e: Edge) {
    item.path == e.path && (Strict(w, e) ==> item.kind == Import && item.parent != "")
  }

  lemma StrongestStandsForBoth(w: World, left: PendingDep, right: PendingDep, e: Edge)
    requires left.path == right.path && (StandsFor(w, left, e) || StandsFor(w, right, e))
    ensures StandsFor(w, Strongest(left, right), e)
  {
  }

  /** The build has no archive for the path. */
  predicate Missing(files: map<string, string>, path: string) {
    path !in files || files[path] == ""
  }

  /** The archive is one of the build to begin with, or came with what was resolved. */
  ghost predicate Linked(w: World, tvf: string, start: map<string, string>, resolved: seq<string>, archive: string) {
    || (exists p :: p in start && start[p] == archive)
    || exists asked, p, a :: asked in resolved && Offers(w, tvf, asked, p, a) && a.exportFile == archive
  }

  /** The build lacks the path, and one of these archives asks for it like this. */
  ghost predicate Sourced(w: World, tvf: string, start: map<string, string>, resolved: seq<string>, item: PendingDep) {
    && Missing(start, item.path)
    && exists archive ::
         Linked(w, tvf, start, resolved, archive) && Asks(w.archives, archive, item.path, item.kind)
  }

  /** There is a reason to resolve the path. */
  ghost predicate Due(w: World, tvf: string, start: map<string, string>, resolved: seq<string>, d: string) {
    exists parent, kind :: Sourced(w, tvf, start, resolved, PendingDep(d, parent, kind))
  }

  ghost predicate AllDue(w: World, tvf: string, start: map<string, string>, resolved: seq<string>) {
    forall d {:trigger Due(w, tvf, start, resolved, d)} | d in resolved :: Due(w, tvf, start, resolved, d)
  }

  ghost predicate AllSourced(w: World, tvf: string, start: map<string, string>, resolved: seq<string>,
                             pending: Pending)
  {
    forall d {:trigger Sourced(w, tvf, start, resolved, pending[d])} | d in pending ::
      Sourced(w, tvf, start, resolved, pending[d])
  }

  lemma SourcedStays(w: World, tvf: string, start: map<string, string>, resolved: seq<string>, more: seq<string>,
                     item: PendingDep)
    requires Sourced(w, tvf, start, resolved, item) && resolved <= more
    ensures Sourced(w, tvf, start, more, item)
  {
    assert forall d | d in resolved :: d in more;
  }

  lemma OneMoreDue(w: World, tvf: string, start: map<string, string>, resolved: seq<string>, item: PendingDep)
    requires AllDue(w, tvf, start, resolved) && Sourced(w, tvf, start, resolved, item)
    ensures AllDue(w, tvf, start, resolved + [item.path])
  {
    var more := resolved + [item.path];
    forall d | d in more ensures Due(w, tvf, start, more, d) {
      if d == item.path {
        assert item == PendingDep(item.path, item.parent, item.kind);
        SourcedStays(w, tvf, start, resolved, more, item);
      } else {
        assert Due(w, tvf, start, resolved, d);
        var parent, kind :| Sourced(w, tvf, start, resolved, PendingDep(d, parent, kind));
        SourcedStays(w, tvf, start, resolved, more, PendingDep(d, parent, kind));
      }
    }
  }

  lemma AllSourcedStays(w: World, tvf: string, start: map<string, string>, resolved: seq<string>, more: seq<string>,
                        pending: Pending, fewer: Pending)
    requires AllSourced(w, tvf, start, resolved, pending) && resolved <= more
    requires forall d | d in fewer :: d in pending && fewer[d] == pending[d]
    ensures AllSourced(w, tvf, start, more, fewer)
  {
    forall d | d in fewer ensures Sourced(w, tvf, start, more, fewer[d]) {
      assert Sourced(w, tvf, start, resolved, pending[d]);
      SourcedStays(w, tvf, start, resolved, more, pending[d]);
    }
  }

  lemma OneMoreSourced(w: World, tvf: string, start: map<string, string>, resolved: seq<string>, pending: Pending,
                       path: string, item: PendingDep)
    requires AllSourced(w, tvf, start, resolved, pending) && Sourced(w, tvf, start, resolved, item)
    ensures AllSourced(w, tvf, start, resolved, pending[path := item])
  {
    forall d | d in pending ensures Sourced(w, tvf, start, resolved, pending[d]) {}
  }

  /** A failure has to do with what was due, or with the package under test that an archive imports. */
  ghost predicate Excused(w: World, tvf: string, start: map<string, string>, resolved: seq<string>, e: LinkError) {
    match e
    case Unresolved(d) => Due(w, tvf, start, resolved, d) || (d == tvf && exists a :: Asks(w.archives, a, tvf, Import))
    case WrongTest(p) => exists asked, a :: asked in resolved && Offers(w, tvf, asked, p, a)
    case ReplacesTarget(p) => exists asked, a :: asked in resolved && Offers(w, tvf, asked, p, a)
    case Unreadable(archive) => Linked(w, tvf, start, resolved, archive)
    case _ => true
  }

  /** The pending entry comes from an edge of the import configuration to something that it lacks. */
  ghost predicate SourcedHere(w: World, files: map<string, string>, item: PendingDep) {
    item.path !in files && exists p :: p in files && Asks(w.archives, files[p], item.path, item.kind)
  }

  // ---------------------------------------------------------------- where the work starts

  type Pending = map<string, PendingDep>

  /** Pending entries stand for the unsatisfied edges of every archive in `files` that was scanned. */
  ghost predicate Collected(w: World, files: map<string, string>, scanned: set<string>, pending: Pending) {
    && (forall d | d in pending :: pending[d].path == d && SourcedHere(w, files, pending[d]))
    && (forall p | p in scanned && p in files :: w.archives(files[p]).Some?)
    && forall p, d | p in scanned && p in files && IsEdge(w, Edge(p, files[p], d)) && d !in files ::
         d in pending && StandsFor(w, pending[d], Edge(p, files[p], d))
  }

  /** Import edges to the package under test are fine unless its own tests augmented it. */
  ghost predicate TargetChecked(w: World, tvf: string, files: map<string, string>, scanned: set<string>) {
    forall p | p in scanned && p in files && IsEdge(w, Edge(p, files[p], tvf)) ::
      tvf in files && SafeEdge(w, tvf, Work(p, files[p]), tvf)
  }

  /** The packages in `scanned` have been entered. */
  ghost predicate Gathered(w: World, tvf: string, files: map<string, string>, scanned: set<string>, pending: Pending) {
    Collected(w, files, scanned, pending) && TargetChecked(w, tvf, files, scanned)
  }

  method InitialLinkDependencies(w: World, files: map<string, string>, tvf: string, provenance: ProvenanceResolver)
    returns (r: Result<Pending, LinkError>)
    requires provenance.Valid() && provenance.w == w && provenance.tvf == tvf
    modifies provenance
    ensures provenance.Valid()
    ensures r.Ok? ==> Gathered(w, tvf, files, files.Keys, r.value)
    ensures r.Err? ==> Genuine(w, tvf, r.error) && Excused(w, tvf, files, [], r.error)
  {
    var parents := SortedKeys(files);
    var byPath: Pending := map[];
    ghost var scanned: set<string> := {};
    for i := 0 to |parents|
      invariant provenance.Valid() && Gathered(w, tvf, files, scanned, byPath)
      invariant forall p :: p in scanned <==> p in parents[..i]
    {
      var parent := parents[i];
      assert parent in parents;
      var error;
      byPath, error := CollectFrom(w, files, tvf, provenance, parent, byPath, scanned);
      if error.Some? { return Err(error.value); }
      scanned := scanned + {parent};
    }
    assert parents[..|parents|] == parents;
    assert scanned == files.Keys;
    r := Ok(byPath);
  }

  /** Some edges of a package have been entered, and are fine if they lead to the package under test. */
  ghost predicate Entered(w: World, files: map<string, string>, tvf: string, parent: string, archive: string,
                          paths: seq<string>, pending: Pending)
  {
    && (forall d | d in paths && d !in files :: d in pending && StandsFor(w, pending[d], Edge(parent, archive, d)))
    && (tvf in paths ==> tvf in files && SafeEdge(w, tvf, Work(parent, archive), tvf))
  }

  /** The edges of one package of the import configuration. */
  method CollectFrom(w: World, files: map<string, string>, tvf: string, provenance: ProvenanceResolver, parent: string,
                     before: Pending, ghost scanned: set<string>)
    returns (byPath: Pending, error: Option<LinkError>)
    requires provenance.Valid() && provenance.w == w && provenance.tvf == tvf
    requires parent in files && Gathered(w, tvf, files, scanned, before)
    modifies provenance
    ensures provenance.Valid()
    ensures error.None? ==> Gathered(w, tvf, files, scanned + {parent}, byPath)
    ensures error.Some? ==> Genuine(w, tvf, error.value) && Excused(w, tvf, files, [], error.value)
  {
    var archive := files[parent];
    if w.archives(archive).None? { return before, Some(Unreadable(archive)); }
    var paths := SortedKeys(w.archives(archive).value);
    byPath, error := before, None;
    for i := 0 to |paths|
      invariant provenance.Valid() && error.None? && Collected(w, files, scanned, byPath)
      invariant Entered(w, files, tvf, parent, archive, paths[..i], byPath)
    {
      assert paths[i] in paths && paths[..i + 1] == paths[..i] + [paths[i]];
      byPath, error := CollectEdge(w, files, tvf, provenance, parent, archive, paths[i], byPath, scanned, paths[..i]);
      if error.Some? { return; }
    }
    assert paths[..|paths|] == paths;
    PackageIsCollected(w, files, tvf, parent, paths, byPath, scanned);
  }

  lemma PackageIsCollected(w: World, files: map<string, string>, tvf: string, parent: string, paths: seq<string>,
                           pending: Pending, scanned: set<string>)
    requires parent in files && w.archives(files[parent]).Some?
               && forall d :: d in paths <==> d in w.archives(files[parent]).value
    requires Collected(w, files, scanned, pending) && TargetChecked(w, tvf, files, scanned)
    requires Entered(w, files, tvf, parent, files[parent], paths, pending)
    ensures Gathered(w, tvf, files, scanned + {parent}, pending)
  {
  }

  /** One edge. */
  method CollectEdge(w: World, files: map<string, string>, tvf: string, provenance: ProvenanceResolver, parent: string,
                     archive: string,
                     path: string, before: Pending, ghost scanned: set<string>, ghost paths: seq<string>)
    returns (byPath: Pending, error: Option<LinkError>)
    requires provenance.Valid() && provenance.w == w && provenance.tvf == tvf && IsEdge(w, Edge(parent, archive, path))
    requires parent in files && files[parent] == archive
    requires Collected(w, files, scanned, before) && Entered(w, files, tvf, parent, archive, paths, before)
    modifies provenance
    ensures provenance.Valid()
    ensures error.None? ==>
              Collected(w, files, scanned, byPath) && Entered(w, files, tvf, parent, archive, paths + [path], byPath)
    ensures error.Some? ==> Genuine(w, tvf, error.value) && Excused(w, tvf, files, [], error.value)
  {
    var kind := w.archives(archive).value[path];
    assert Asks(w.archives, archive, path, kind);
    byPath, error := before, None;
    if path == tvf && path !in files { return before, Some(MissingTarget); }
    if path in files {
      if path == tvf && kind == Import {
        error := CheckSatisfied(w, tvf, provenance, Work(parent, archive), path, kind);
        if error.Some? { CausedIsExcused(w, tvf, files, [], error.value); }
      }
      return;
    }
    var candidate := PendingDep(path, parent, kind);
    assert path !in files ==> SourcedHere(w, files, candidate);
    if path in byPath { candidate := Strongest(byPath[path], candidate); }
    CollectedStronger(w, files, scanned, byPath, candidate);
    byPath := byPath[path := candidate];
  }

  lemma CausedIsExcused(w: World, tvf: string, start: map<string, string>, resolved: seq<string>, e: LinkError)
    requires e == Unresolved(tvf) || e.SyntheticVariant?
    requires e == Unresolved(tvf) ==> exists a :: Asks(w.archives, a, tvf, Import)
    ensures Excused(w, tvf, start, resolved, e)
  {
  }

  /** A stronger entry still stands for every edge the old one stood for. */
  lemma CollectedStronger(w: World, files: map<string, string>, scanned: set<string>, pending: Pending,
                          item: PendingDep)
    requires Collected(w, files, scanned, pending) && SourcedHere(w, files, item)
    requires item.path in pending ==>
               exists other :: item == Strongest(pending[item.path], other) && other.path == item.path
    ensures Collected(w, files, scanned, pending[item.path := item])
  {
  }

  // ---------------------------------------------------------------- the loop

  datatype Progress = Progress(
    paths: seq<string>, pending: Pending, processed: Response, newDeps: seq<string>)

  /** An edge that was met is satisfied by the build, pending, or resolved in a way it can live with. */
  ghost predicate Handled(w: World, tvf: string, start: map<string, string>, st: Progress, item: Work, d: string) {
    || (d in start && (d == tvf ==> SafeEdge(w, tvf, item, tvf)))
    || (d in st.pending && StandsFor(w, st.pending[d], Edge(item.importPath, item.archive, d)))
    || (d in st.processed && UsesOrdinary(w, tvf, item, d))
  }

  ghost predicate UsesOrdinary(w: World, tvf: string, item: Work, d: string) {
    tvf != "" && Strict(w, Edge(item.importPath, item.archive, d)) ==> OffersOrdinary(w, tvf, d)
  }

  ghost predicate ItemHandled(w: World, tvf: string, start: map<string, string>, st: Progress, item: Work) {
    && w.archives(item.archive).Some?
    && forall d | d in w.archives(item.archive).value :: Handled(w, tvf, start, st, item, d)
  }

  /** Book-keeping: what is pending, what was resolved, what is to be imported. */
  ghost predicate Tracked(universe: set<string>, resolved: seq<string>, st: Progress) {
    && Distinct(st.paths) && (forall d :: d in st.paths <==> d in st.pending)
    && Distinct(st.newDeps) && (forall d :: d in st.newDeps <==> d in st.pending || d in resolved)
    && Distinct(resolved) && (forall d {:trigger d in st.processed} | d in resolved :: d in st.processed)
    && (forall d | d in resolved :: d in universe)
    && (forall d | d in st.pending :: d !in resolved && d in universe && st.pending[d].path == d)
  }

  /** `processed` remembers, for every path in an answer, a rebuilt archive if there was one. */
  ghost predicate Remembered(w: World, tvf: string, resolved: seq<string>, processed: Response) {
    && (forall p {:trigger processed[p]} | p in processed :: exists asked ::
           asked in resolved && Offers(w, tvf, asked, p, processed[p]))
    && (forall asked, p, a | asked in resolved && Offers(w, tvf, asked, p, a) ::
          p in processed && (a.forTest != "" ==> processed[p].forTest != ""))
  }

  /** The import configuration holds the paths it started with and those of all answers, and loses no archive. */
  ghost predicate Recorded(start: map<string, string>, files: map<string, string>, processed: Response) {
    files.Keys == start.Keys + processed.Keys && forall p | p in start && start[p] != "" :: files[p] != ""
  }

  ghost predicate AllHandled(w: World, tvf: string, start: map<string, string>, st: Progress, scanned: set<Work>) {
    forall item | item in scanned :: ItemHandled(w, tvf, start, st, item)
  }

  /** Entries may be added and strengthened. */
  ghost predicate NoWeaker(w: World, before: Pending, after: Pending) {
    forall d | d in before :: d in after && forall e | StandsFor(w, before[d], e) :: StandsFor(w, after[d], e)
  }

  lemma EdgeSurvives(w: World, tvf: string, start: map<string, string>, st: Progress, next: Progress, item: Work,
                     d: string)
    requires Handled(w, tvf, start, st, item, d)
    requires NoWeaker(w, st.pending, next.pending) && st.processed.Keys <= next.processed.Keys
    ensures Handled(w, tvf, start, next, item, d)
  {
  }

  lemma HandledSurvives(w: World, tvf: string, start: map<string, string>, st: Progress, next: Progress,
                        scanned: set<Work>)
    requires AllHandled(w, tvf, start, st, scanned)
    requires NoWeaker(w, st.pending, next.pending) && st.processed.Keys <= next.processed.Keys
    ensures AllHandled(w, tvf, start, next, scanned)
  {
    forall item | item in scanned ensures ItemHandled(w, tvf, start, next, item) {
      assert ItemHandled(w, tvf, start, st, item);
      forall d | d in w.archives(item.archive).value ensures Handled(w, tvf, start, next, item, d) {
        EdgeSurvives(w, tvf, start, st, next, item, d);
      }
    }
  }

  lemma NoWeakerTransitive(w: World, a: Pending, b: Pending, c: Pending)
    requires NoWeaker(w, a, b) && NoWeaker(w, b, c)
    ensures NoWeaker(w, a, c)
  {
  }

  /** What is remembered of a path, rebuilt or not, was offered by the resolver. */
  ghost predicate Marked(w: World, tvf: string, processed: Response) {
    forall p {:trigger processed[p]} | p in processed ::
      if processed[p].forTest == tvf then OffersVariant(w, tvf, p) else OffersOrdinary(w, tvf, p)
  }

  /** Another edge to a path that is pending: the stronger one stays. */
  lemma Strengthen(w: World, universe: set<string>, resolved: seq<string>, st: Progress, item: PendingDep)
    requires Tracked(universe, resolved, st) && item.path in st.pending
    ensures var next := st.(pending := st.pending[item.path := Strongest(st.pending[item.path], item)]);
            Tracked(universe, resolved, next) && NoWeaker(w, st.pending, next.pending)
  {
    var after := st.pending[item.path := Strongest(st.pending[item.path], item)];
    forall d, e | d in st.pending && StandsFor(w, st.pending[d], e) ensures StandsFor(w, after[d], e) {
      if d == item.path { StrongestStandsForBoth(w, st.pending[d], item, e); }
    }
  }

  /** A path met for the first time. */
  lemma Enqueue(w: World, universe: set<string>, resolved: seq<string>, st: Progress, item: PendingDep)
    requires Tracked(universe, resolved, st)
    requires item.path !in st.pending && item.path !in st.processed && item.path in universe
    ensures var next := Progress(st.paths + [item.path], st.pending[item.path := item], st.processed, st.newDeps
              + [item.path]);
            Tracked(universe, resolved, next) && NoWeaker(w, st.pending, next.pending)
  {
  }

  /**
   Paths were only enqueued meanwhile, and those are among the link-time dependencies of the main package itself. What
   is new among these is to be imported, was missing, and is asked for like that.
   */
  ghost predicate Announces(w: World, tvf: string, start: map<string, string>, resolved: seq<string>, before: Progress,
                            st: Progress, few: Deps, deps: Deps)
  {
    && before.newDeps <= st.newDeps && (forall d | d in st.newDeps :: d in before.newDeps || d in deps)
    && Noted(w, tvf, start, resolved, st.newDeps, few, deps)
  }

  ghost predicate Noted(w: World, tvf: string, start: map<string, string>, resolved: seq<string>, newDeps: seq<string>,
                        few: Deps, deps: Deps)
  {
    && Carries(deps, few)
    && forall d {:trigger Sourced(w, tvf, start, resolved, PendingDep(d, "", deps[d]))}
         | d in deps && !(d in few && few[d] == deps[d]) ::
         d in newDeps && Sourced(w, tvf, start, resolved, PendingDep(d, "", deps[d]))
  }

  lemma AddIsNoted(w: World, tvf: string, start: map<string, string>, resolved: seq<string>, newDeps: seq<string>,
                   few: Deps, path: string, kind: Kind)
    requires Sourced(w, tvf, start, resolved, PendingDep(path, "", kind)) && path in newDeps
    ensures Noted(w, tvf, start, resolved, newDeps, few, Added(few, path, kind))
  {
  }

  lemma NotedMore(w: World, tvf: string, start: map<string, string>, resolved: seq<string>, more: seq<string>,
                  newDeps: seq<string>, newer: seq<string>, few: Deps, some: Deps, deps: Deps)
    requires Noted(w, tvf, start, resolved, newDeps, few, some) && Noted(w, tvf, start, more, newer, some, deps)
    requires resolved <= more && newDeps <= newer
    ensures Noted(w, tvf, start, more, newer, few, deps)
  {
    forall d | d in deps && !(d in few && few[d] == deps[d])
      ensures d in newer && Sourced(w, tvf, start, more, PendingDep(d, "", deps[d]))
    {
      if d in some && some[d] == deps[d] {
        assert d in newDeps && Sourced(w, tvf, start, resolved, PendingDep(d, "", some[d]));
        SourcedStays(w, tvf, start, resolved, more, PendingDep(d, "", deps[d]));
      } else {
        assert Sourced(w, tvf, start, more, PendingDep(d, "", deps[d]));
      }
    }
  }

  lemma AnnouncesMore(w: World, tvf: string, start: map<string, string>, resolved: seq<string>, first: Progress,
                      before: Progress, st: Progress, few: Deps, some: Deps, deps: Deps)
    requires Announces(w, tvf, start, resolved, first, before, few, some)
    requires Announces(w, tvf, start, resolved, before, st, some, deps)
    ensures Announces(w, tvf, start, resolved, first, st, few, deps)
  {
    NotedMore(w, tvf, start, resolved, resolved, before.newDeps, st.newDeps, few, some, deps);
  }

  /** What is to be imported: what was missing to begin with, and nothing else that the main package does not record. */
  predicate Accounted(initial: Pending, newDeps: seq<string>, deps: Deps) {
    (forall d | d in initial :: d in newDeps) && forall d | d in newDeps :: d in initial || d in deps
  }

  lemma AccountedMore(w: World, tvf: string, start: map<string, string>, resolved: seq<string>, more: seq<string>,
                      initial: Pending, before: Progress, st: Progress, first: Deps, few: Deps, deps: Deps)
    requires Accounted(initial, before.newDeps, few) && Noted(w, tvf, start, resolved, before.newDeps, first, few)
    requires Announces(w, tvf, start, more, before, st, few, deps) && resolved <= more
    ensures Accounted(initial, st.newDeps, deps) && Noted(w, tvf, start, more, st.newDeps, first, deps)
  {
    NotedMore(w, tvf, start, resolved, more, before.newDeps, st.newDeps, first, few, deps);
  }

  lemma AccountedInOrder(w: World, tvf: string, start: map<string, string>, resolved: seq<string>, initial: Pending,
                         newDeps: seq<string>, first: Deps, deps: Deps)
    requires Accounted(initial, newDeps, deps) && Noted(w, tvf, start, resolved, newDeps, first, deps)
    ensures Accounted(initial, Sort(AtMost, newDeps), deps)
    ensures Noted(w, tvf, start, resolved, Sort(AtMost, newDeps), first, deps)
  {
    var sorted := Sort(AtMost, newDeps);
    forall d ensures d in sorted <==> d in newDeps {
      assert d in sorted <==> d in multiset(sorted);
      assert d in newDeps <==> d in multiset(newDeps);
    }
    forall d | d in deps && !(d in first && first[d] == deps[d])
      ensures d in sorted && Sourced(w, tvf, start, resolved, PendingDep(d, "", deps[d]))
    {
      assert d in newDeps && Sourced(w, tvf, start, resolved, PendingDep(d, "", deps[d]));
    }
  }

  /** An edge of a linked archive to something that is pending, or was missing to begin with. */
  lemma EdgeIsSourced(w: World, tvf: string, start: map<string, string>, resolved: seq<string>, pending: Pending,
                      item: Work, tDep: string)
    requires IsEdge(w, Edge(item.importPath, item.archive, tDep)) && Linked(w, tvf, start, resolved, item.archive)
    requires AllSourced(w, tvf, start, resolved, pending) && (tDep in pending ==> pending[tDep].path == tDep)
    requires tDep in pending || Missing(start, tDep)
    ensures var kind := w.archives(item.archive).value[tDep];
            && Sourced(w, tvf, start, resolved, PendingDep(tDep, item.importPath, kind))
            && Sourced(w, tvf, start, resolved, PendingDep(tDep, "", kind))
    ensures tDep in pending ==> Sourced(w, tvf, start, resolved, pending[tDep])
  {
    if tDep in pending { assert Sourced(w, tvf, start, resolved, pending[tDep]); }
    assert Asks(w.archives, item.archive, tDep, w.archives(item.archive).value[tDep]);
  }

  /** The books are in order, between two edges. */
  ghost predicate Ready(w: World, tvf: string, start: map<string, string>, universe: set<string>,
                        resolved: seq<string>, st: Progress)
  {
    Tracked(universe, resolved, st) && Marked(w, tvf, st.processed) && AllSourced(w, tvf, start, resolved, st.pending)
  }

  /** What meeting edges does to the books, and to the link-time dependencies of the main package. */
  ghost predicate Grown(w: World, tvf: string, start: map<string, string>, universe: set<string>,
                        resolved: seq<string>, before: Progress, st: Progress, few: Deps, deps: Deps)
  {
    && Ready(w, tvf, start, universe, resolved, st) && st.processed == before.processed
    && NoWeaker(w, before.pending, st.pending) && Announces(w, tvf, start, resolved, before, st, few, deps)
  }

  lemma GrownMore(w: World, tvf: string, start: map<string, string>, universe: set<string>, resolved: seq<string>,
                  first: Progress, before: Progress, st: Progress, few: Deps, some: Deps, deps: Deps)
    requires Grown(w, tvf, start, universe, resolved, first, before, few, some)
    requires Grown(w, tvf, start, universe, resolved, before, st, some, deps)
    ensures Grown(w, tvf, start, universe, resolved, first, st, few, deps)
  {
    AnnouncesMore(w, tvf, start, resolved, first, before, st, few, some, deps);
    NoWeakerTransitive(w, first.pending, before.pending, st.pending);
  }

  lemma MeetPending(w: World, tvf: string, start: map<string, string>, universe: set<string>, resolved: seq<string>,
                    before: Progress, item: Work, tDep: string, few: Deps)
    requires IsEdge(w, Edge(item.importPath, item.archive, tDep)) && Linked(w, tvf, start, resolved, item.archive)
    requires Ready(w, tvf, start, universe, resolved, before) && tDep in before.pending
    ensures var kind := w.archives(item.archive).value[tDep];
            var stronger := Strongest(before.pending[tDep], PendingDep(tDep, item.importPath, kind));
            var st := before.(pending := before.pending[tDep := stronger]);
            && Grown(w, tvf, start, universe, resolved, before, st, few, Added(few, tDep, kind))
            && Handled(w, tvf, start, st, item, tDep)
  {
    var kind := w.archives(item.archive).value[tDep];
    var candidate := PendingDep(tDep, item.importPath, kind);
    EdgeIsSourced(w, tvf, start, resolved, before.pending, item, tDep);
    AddIsNoted(w, tvf, start, resolved, before.newDeps, few, tDep, kind);
    OneMoreSourced(w, tvf, start, resolved, before.pending, tDep, Strongest(before.pending[tDep], candidate));
    Strengthen(w, universe, resolved, before, candidate);
    StrongestStandsForBoth(w, before.pending[tDep], candidate, Edge(item.importPath, item.archive, tDep));
  }

  lemma MeetNew(w: World, tvf: string, start: map<string, string>, universe: set<string>, resolved: seq<string>,
                before: Progress, item: Work, tDep: string, few: Deps)
    requires IsEdge(w, Edge(item.importPath, item.archive, tDep)) && Linked(w, tvf, start, resolved, item.archive)
    requires Ready(w, tvf, start, universe, resolved, before) && tDep in universe
    requires tDep !in before.pending && tDep !in before.processed && Missing(start, tDep)
    ensures var kind := w.archives(item.archive).value[tDep];
            var st := Progress(before.paths + [tDep],
                               before.pending[tDep := PendingDep(tDep, item.importPath, kind)],
                               before.processed, before.newDeps + [tDep]);
            && Grown(w, tvf, start, universe, resolved, before, st, few, Added(few, tDep, kind))
            && Handled(w, tvf, start, st, item, tDep)
  {
    var kind := w.archives(item.archive).value[tDep];
    var candidate := PendingDep(tDep, item.importPath, kind);
    EdgeIsSourced(w, tvf, start, resolved, before.pending, item, tDep);
    AddIsNoted(w, tvf, start, resolved, before.newDeps + [tDep], few, tDep, kind);
    OneMoreSourced(w, tvf, start, resolved, before.pending, tDep, candidate);
    Enqueue(w, universe, resolved, before, candidate);
  }

  /** One dependency of a freshly resolved archive. */
  method MeetEdge(w: World, tvf: string, files: map<string, string>, provenance: ProvenanceResolver, cmd: LinkDeps,
                  item: Work, tDep: string, before: Progress,
                  ghost start: map<string, string>, ghost universe: set<string>, ghost resolved: seq<string>)
    returns (st: Progress, error: Option<LinkError>)
    requires provenance.Valid() && provenance.w == w && provenance.tvf == tvf
    requires IsEdge(w, Edge(item.importPath, item.archive, tDep)) && tDep in universe
    requires Ready(w, tvf, start, universe, resolved, before)
    requires Recorded(start, files, before.processed) && Linked(w, tvf, start, resolved, item.archive)
    modifies provenance, cmd
    ensures provenance.Valid() && Carries(cmd.deps, old(cmd.deps))
    ensures error.None? ==> Grown(w, tvf, start, universe, resolved, before, st, old(cmd.deps), cmd.deps)
    ensures error.None? ==> Handled(w, tvf, start, st, item, tDep)
    ensures error.None? ==> cmd.deps == if tDep in st.pending
              then Added(old(cmd.deps), tDep, w.archives(item.archive).value[tDep]) else old(cmd.deps)
    ensures error.Some? ==> Genuine(w, tvf, error.value) && Excused(w, tvf, start, resolved, error.value)
  {
    st, error := before, None;
    var kind := w.archives(item.archive).value[tDep];
    assert Asks(w.archives, item.archive, tDep, kind);
    var candidate := PendingDep(tDep, item.importPath, kind);
    if tDep in st.pending {
      MeetPending(w, tvf, start, universe, resolved, before, item, tDep, cmd.deps);
      cmd.Add(tDep, kind);
      st := st.(pending := st.pending[tDep := Strongest(st.pending[tDep], candidate)]);
    } else if tDep in st.processed {
      if RejectsVariant(item.importPath, tvf, kind == Import, st.processed[tDep].forTest) {
        return st, Some(SyntheticVariant(item.importPath, tDep));
      }
    } else if tDep in files && files[tDep] != "" {
      if tDep == tvf && kind == Import {
        error := CheckSatisfied(w, tvf, provenance, item, tDep, kind);
        if error.Some? { CausedIsExcused(w, tvf, start, resolved, error.value); }
      }
    } else {
      MeetNew(w, tvf, start, universe, resolved, before, item, tDep, cmd.deps);
      cmd.Add(tDep, kind);
      st := Progress(st.paths + [tDep], st.pending[tDep := candidate], st.processed, st.newDeps + [tDep]);
    }
  }

  /** All dependencies of one freshly resolved archive. */
  method ScanArchive(w: World, tvf: string, files: map<string, string>, provenance: ProvenanceResolver, cmd: LinkDeps,
                     item: Work, before: Progress,
                     ghost start: map<string, string>, ghost universe: set<string>, ghost resolved: seq<string>)
    returns (st: Progress, error: Option<LinkError>)
    requires provenance.Valid() && provenance.w == w && provenance.tvf == tvf
    requires w.archives(item.archive).Some? ==> w.archives(item.archive).value.Keys <= universe
    requires Ready(w, tvf, start, universe, resolved, before)
    requires Recorded(start, files, before.processed) && Linked(w, tvf, start, resolved, item.archive)
    modifies provenance, cmd
    ensures provenance.Valid() && Carries(cmd.deps, old(cmd.deps))
    ensures error.None? ==> Grown(w, tvf, start, universe, resolved, before, st, old(cmd.deps), cmd.deps)
    ensures error.None? ==> ItemHandled(w, tvf, start, st, item)
    ensures error.Some? ==> Genuine(w, tvf, error.value) && Excused(w, tvf, start, resolved, error.value)
  {
    st, error := before, None;
    if w.archives(item.archive).None? { return st, Some(Unreadable(item.archive)); }
    var tDeps := w.archives(item.archive).value;
    var paths := SortedKeys(tDeps);
    for i := 0 to |paths|
      invariant provenance.Valid() && Carries(cmd.deps, old(cmd.deps)) && error.None?
      invariant Grown(w, tvf, start, universe, resolved, before, st, old(cmd.deps), cmd.deps)
      invariant EdgesHandled(w, tvf, start, st, item, paths[..i])
    {
      assert paths[i] in paths;
      ghost var prev, few := st, cmd.deps;
      st, error := MeetEdge(w, tvf, files, provenance, cmd, item, paths[i], st, start, universe, resolved);
      if error.Some? { return; }
      GrownMore(w, tvf, start, universe, resolved, before, prev, st, old(cmd.deps), few, cmd.deps);
      EdgesSurvive(w, tvf, start, prev, st, item, paths[..i]);
    }
    assert paths[..|paths|] == paths;
    ItemIsHandled(w, tvf, start, st, item, paths);
  }

  ghost predicate EdgesHandled(w: World, tvf: string, start: map<string, string>, st: Progress, item: Work,
                               paths: seq<string>)
  {
    forall d | d in paths :: Handled(w, tvf, start, st, item, d)
  }

  lemma EdgesSurvive(w: World, tvf: string, start: map<string, string>, st: Progress, next: Progress, item: Work,
                     paths: seq<string>)
    requires EdgesHandled(w, tvf, start, st, item, paths)
    requires NoWeaker(w, st.pending, next.pending) && st.processed.Keys <= next.processed.Keys
    ensures EdgesHandled(w, tvf, start, next, item, paths)
  {
    forall d | d in paths
      ensures Handled(w, tvf, start, next, item, d)
    {
      EdgeSurvives(w, tvf, start, st, next, item, d);
    }
  }

  lemma ItemIsHandled(w: World, tvf: string, start: map<string, string>, st: Progress, item: Work, paths: seq<string>)
    requires w.archives(item.archive).Some? && forall d | d in w.archives(item.archive).value :: d in paths
    requires EdgesHandled(w, tvf, start, st, item, paths)
    ensures ItemHandled(w, tvf, start, st, item)
  {
  }

  /** All archives of one answer, in whatever order. */
  method ScanAnswer(w: World, tvf: string, files: map<string, string>, provenance: ProvenanceResolver, cmd: LinkDeps,
                    deps: Response, before: Progress, ghost start: map<string, string>, ghost universe: set<string>,
                    ghost resolved: seq<string>, ghost scanned: set<Work>)
    returns (st: Progress, error: Option<LinkError>)
    requires provenance.Valid() && provenance.w == w && provenance.tvf == tvf
    requires forall a | w.archives(a).Some? :: w.archives(a).value.Keys <= universe
    requires Ready(w, tvf, start, universe, resolved, before)
    requires Recorded(start, files, before.processed) && AllHandled(w, tvf, start, before, scanned)
    requires AllLinked(w, tvf, start, resolved, deps)
    modifies provenance, cmd
    ensures provenance.Valid() && Carries(cmd.deps, old(cmd.deps))
    ensures error.None? ==> Grown(w, tvf, start, universe, resolved, before, st, old(cmd.deps), cmd.deps)
    ensures error.None? ==> AllHandled(w, tvf, start, st, scanned + ItemsOf(deps))
    ensures error.Some? ==> Genuine(w, tvf, error.value) && Excused(w, tvf, start, resolved, error.value)
  {
    st, error := before, None;
    var todo := deps.Keys;
    ghost var seen := scanned;
    while todo != {}
      invariant provenance.Valid() && Carries(cmd.deps, old(cmd.deps)) && error.None?
      invariant todo <= deps.Keys
      invariant forall p | p in deps && p !in todo :: Work(p, deps[p].exportFile) in seen
      invariant scanned <= seen
      invariant Grown(w, tvf, start, universe, resolved, before, st, old(cmd.deps), cmd.deps)
      invariant AllHandled(w, tvf, start, st, seen)
    {
      var p :| p in todo;
      var item := Work(p, deps[p].exportFile);
      assert Linked(w, tvf, start, resolved, deps[p].exportFile);
      ghost var prev, few := st, cmd.deps;
      st, error := ScanArchive(w, tvf, files, provenance, cmd, item, st, start, universe, resolved);
      if error.Some? { return; }
      GrownMore(w, tvf, start, universe, resolved, before, prev, st, old(cmd.deps), few, cmd.deps);
      HandledSurvives(w, tvf, start, prev, st, seen);
      seen, todo := seen + {item}, todo - {p};
    }
  }

  ghost function ItemsOf(deps: Response): set<Work> {
    set p | p in deps :: Work(p, deps[p].exportFile)
  }

  predicate IsMemoryOf(processed: Response, deps: Response, r: Response) {
    && r.Keys == processed.Keys + deps.Keys
    && forall p {:trigger r[p]} | p in r ::
         r[p] == if p in deps && (p !in processed || processed[p].forTest == "" || deps[p].forTest != "")
                 then deps[p] else processed[p]
  }

  /** The processed map keeps a rebuilt archive over an ordinary one. */
  method Remember(processed: Response, deps: Response) returns (r: Response)
    ensures IsMemoryOf(processed, deps, r)
  {
    r := processed;
    var todo := deps.Keys;
    while todo != {}
      invariant todo <= deps.Keys && r.Keys == processed.Keys + (deps.Keys - todo)
      invariant forall p | p in r ::
                  r[p] == if p in deps && p !in todo
                    && (p !in processed || processed[p].forTest == "" || deps[p].forTest != "")
                          then deps[p] else processed[p]
    {
      var path :| path in todo;
      if path !in r || r[path].forTest == "" || deps[path].forTest != "" {
        r := r[path := deps[path]];
      }
      todo := todo - {path};
    }
  }

  lemma MemoryHasSource(w: World, tvf: string, resolved: seq<string>, processed: Response, path: string, next: Response,
                        p: string)
    requires Remembered(w, tvf, resolved, processed) && Resolve(w, path, tvf).Some?
    requires IsMemoryOf(processed, Resolve(w, path, tvf).value, next) && p in next
    ensures exists asked :: asked in resolved + [path] && Offers(w, tvf, asked, p, next[p])
  {
    if p in processed && next[p] == processed[p] {
      var asked :| asked in resolved && Offers(w, tvf, asked, p, processed[p]);
      assert asked in resolved + [path];
    } else {
      assert path in resolved + [path] && Offers(w, tvf, path, p, next[p]);
    }
  }

  lemma MemoryKeepsRebuilt(w: World, tvf: string, resolved: seq<string>, processed: Response, path: string,
                           next: Response,
                           asked: string, p: string, a: ResolvedArchive)
    requires Remembered(w, tvf, resolved, processed) && Resolve(w, path, tvf).Some?
    requires IsMemoryOf(processed, Resolve(w, path, tvf).value, next)
    requires asked in resolved + [path] && Offers(w, tvf, asked, p, a)
    ensures p in next && (a.forTest != "" ==> next[p].forTest != "")
  {
    assert asked in resolved || asked == path;
    if asked in resolved {
      assert p in processed && (a.forTest != "" ==> processed[p].forTest != "");
    }
  }

  lemma RememberedMore(w: World, tvf: string, resolved: seq<string>, processed: Response, path: string, next: Response)
    requires Remembered(w, tvf, resolved, processed) && Resolve(w, path, tvf).Some?
    requires IsMemoryOf(processed, Resolve(w, path, tvf).value, next)
    ensures Remembered(w, tvf, resolved + [path], next)
  {
    forall p | p in next ensures exists asked :: asked in resolved + [path] && Offers(w, tvf, asked, p, next[p]) {
      MemoryHasSource(w, tvf, resolved, processed, path, next, p);
    }
    forall asked, p, a | asked in resolved + [path] && Offers(w, tvf, asked, p, a)
      ensures p in next && (a.forTest != "" ==> next[p].forTest != "")
    {
      MemoryKeepsRebuilt(w, tvf, resolved, processed, path, next, asked, p, a);
    }
  }

  lemma RememberedIsMarked(w: World, tvf: string, resolved: seq<string>, processed: Response)
    requires Remembered(w, tvf, resolved, processed)
    ensures Marked(w, tvf, processed)
  {
    forall p | p in processed
      ensures if processed[p].forTest == tvf then OffersVariant(w, tvf, p) else OffersOrdinary(w, tvf, p)
    {
      var asked :| asked in resolved && Offers(w, tvf, asked, p, processed[p]);
    }
  }

  /** Taking a path from the stack: its edges are now answered for by what it resolves to. */
  lemma PopKeepsHandled(w: World, tvf: string, start: map<string, string>, st: Progress, next: Progress,
                        path: string, scanned: set<Work>)
    requires AllHandled(w, tvf, start, st, scanned) && path in st.pending && st.pending[path].path == path
    requires Resolve(w, path, tvf).Some? && path in next.processed && st.processed.Keys <= next.processed.Keys
    requires next.pending == st.pending - {path}
    requires var item := st.pending[path];
             !RejectsVariant(item.parent, tvf, item.kind == Import, Resolve(w, path, tvf).value[path].forTest)
    ensures AllHandled(w, tvf, start, next, scanned)
  {
    var deps := Resolve(w, path, tvf).value;
    assert Offers(w, tvf, path, path, deps[path]);
    forall item | item in scanned ensures ItemHandled(w, tvf, start, next, item) {
      assert ItemHandled(w, tvf, start, st, item);
      forall d | d in w.archives(item.archive).value ensures Handled(w, tvf, start, next, item, d) {
        assert Handled(w, tvf, start, st, item, d);
        if d == path && d in st.pending && StandsFor(w, st.pending[d], Edge(item.importPath, item.archive, d)) {
          if tvf != "" && Strict(w, Edge(item.importPath, item.archive, d)) {
            assert deps[path].forTest != tvf;
          }
        }
      }
    }
  }

  lemma PopKeepsTrack(universe: set<string>, resolved: seq<string>, before: Progress, st: Progress, path: string)
    requires Tracked(universe, resolved, before)
    requires before.paths == st.paths + [path] && st.pending == before.pending - {path} && st.newDeps == before.newDeps
    requires before.processed.Keys + {path} <= st.processed.Keys
    ensures Tracked(universe, resolved + [path], st)
  {
    assert before.paths[|st.paths|] == path && path in before.paths;
    forall d ensures d in st.paths <==> d in st.pending {
      assert d in before.paths <==> d in st.paths || d == path;
      if d in st.paths {
        var k :| 0 <= k < |st.paths| && st.paths[k] == d;
        assert before.paths[k] == d;
      }
    }
    assert Distinct(st.paths) by {
      forall a, b | 0 <= a < b < |st.paths| ensures st.paths[a] != st.paths[b] {
        assert before.paths[a] == st.paths[a] && before.paths[b] == st.paths[b];
      }
    }
  }

  /** Edges that the finished import configuration must be able to live with. */
  ghost predicate EdgeIsSafe(w: World, tvf: string, start: map<string, string>, item: Work, d: string) {
    if d in start then d == tvf ==> SafeEdge(w, tvf, item, d) || UsesOrdinary(w, tvf, item, d)
    else UsesOrdinary(w, tvf, item, d)
  }

  lemma AllEdgesAreSafe(w: World, tvf: string, start: map<string, string>, files: map<string, string>, st: Progress,
                        scanned: set<Work>)
    requires AllHandled(w, tvf, start, st, scanned) && st.pending == map[]
    requires FilesInStep(w, tvf, start, files, st.processed, scanned)
    ensures Closed(w, files)
    ensures forall p, d | p in files && IsEdge(w, Edge(p, files[p], d)) ::
              EdgeIsSafe(w, tvf, start, Work(p, files[p]), d)
  {
    forall p | p in files
      ensures Complete(w, files[p], files)
      ensures forall d | IsEdge(w, Edge(p, files[p], d)) :: EdgeIsSafe(w, tvf, start, Work(p, files[p]), d)
    {
      var item := Work(p, files[p]);
      assert ItemHandled(w, tvf, start, st, item);
      forall d | d in w.archives(item.archive).value ensures d in files && EdgeIsSafe(w, tvf, start, item, d) {
        assert Handled(w, tvf, start, st, item, d);
      }
    }
  }

  lemma EndOfWork(w: World, tvf: string, start: map<string, string>, files: map<string, string>, universe: set<string>,
                  resolved: seq<string>, st: Progress, scanned: set<Work>)
    requires Sound(w, tvf, start, universe, files, resolved, scanned, st) && st.paths == []
    ensures Closed(w, files) && GrownFrom(w, tvf, start, files)
    ensures forall d | d in resolved :: d in files && Resolve(w, d, tvf).Some?
    ensures MergesTo(w, tvf, start, resolved, files)
    ensures forall p, d | p in files && IsEdge(w, Edge(p, files[p], d)) ::
              EdgeIsSafe(w, tvf, start, Work(p, files[p]), d)
    ensures Distinct(Sort(AtMost, st.newDeps)) && SortedBy(AtMost, Sort(AtMost, st.newDeps))
    ensures multiset(Sort(AtMost, st.newDeps)) == multiset(resolved)
  {
    assert st.pending == map[] by { assert forall d | d in st.pending :: d in st.paths; }
    AllEdgesAreSafe(w, tvf, start, files, st, scanned);
    SameMembersSameCounts(st.newDeps, resolved);
    AtMostIsTotal();
    SortSorts(AtMost, st.newDeps);
    PermutationIsDistinct(st.newDeps, Sort(AtMost, st.newDeps));
  }

  /** `st` follows `before` by taking the last path off the stack and remembering its answer. */
  predicate Popped(tvf: string, path: string, deps: Response, before: Progress, st: Progress) {
    && before.paths == st.paths + [path] && path in before.pending && path in deps
    && st.pending == before.pending - {path} && st.newDeps == before.newDeps
    && IsMemoryOf(before.processed, deps, st.processed)
    && !RejectsVariant(before.pending[path].parent, tvf, before.pending[path].kind == Import, deps[path].forTest)
  }

  /** The import configuration grew by the answers, and every archive in it was scanned. */
  ghost predicate FilesInStep(w: World, tvf: string, start: map<string, string>, files: map<string, string>,
                              processed: Response, scanned: set<Work>) {
    && Recorded(start, files, processed) && GrownFrom(w, tvf, start, files)
    && forall p {:trigger Work(p, files[p])} | p in files :: Work(p, files[p]) in scanned
  }

  lemma MergeIsRecorded(w: World, tvf: string, start: map<string, string>, files: map<string, string>,
                        processed: Response,
                        path: string, deps: Response, next: Response, scanned: set<Work>, now: map<string, string>)
    requires FilesInStep(w, tvf, start, files, processed, scanned)
    requires Resolve(w, path, tvf) == Some(deps) && Mergeable(deps, tvf) && next.Keys == processed.Keys + deps.Keys
    requires now == files + Changes(files, deps)
    ensures FilesInStep(w, tvf, start, now, next, scanned + ItemsOf(deps))
  {
    MergeKeepsGrowth(w, tvf, start, files, path);
    MergeIsScanned(files, deps, scanned, now);
  }

  lemma MergeIsScanned(files: map<string, string>, deps: Response, scanned: set<Work>, now: map<string, string>)
    requires now == files + Changes(files, deps)
    requires forall p {:trigger Work(p, files[p])} | p in files :: Work(p, files[p]) in scanned
    ensures now.Keys == files.Keys + deps.Keys
    ensures forall p {:trigger Work(p, now[p])} | p in now :: Work(p, now[p]) in scanned + ItemsOf(deps)
  {
    var changes := Changes(files, deps);
    forall p | p in now ensures Work(p, now[p]) in scanned + ItemsOf(deps) {
      if p in changes { assert Work(p, deps[p].exportFile) in ItemsOf(deps); }
    }
  }

  /** Merges one answer into the import configuration. */
  method MergeInStep(w: World, reg: ImportConfig, tvf: string, path: string, deps: Response,
                     ghost start: map<string, string>,
                     ghost processed: Response, ghost next: Response, ghost scanned: set<Work>, ghost more: seq<string>)
    returns (error: Option<LinkError>)
    requires path in more && Resolve(w, path, tvf) == Some(deps) && IsMemoryOf(processed, deps, next)
    requires FilesInStep(w, tvf, start, reg.PackageFile, processed, scanned)
    modifies reg
    ensures error.None? ==> FilesInStep(w, tvf, start, reg.PackageFile, next, scanned + ItemsOf(deps))
    ensures error.None? ==> Mergeable(deps, tvf)
    ensures error.None? ==> reg.PackageFile == old(reg.PackageFile) + Changes(old(reg.PackageFile), deps)
    ensures error.Some? ==> Genuine(w, tvf, error.value) && Excused(w, tvf, start, more, error.value)
  {
    ghost var files := reg.PackageFile;
    var changed := MergeResolvedArchives(reg, deps, tvf);
    if changed.Err? {
      MergeErrorIsGenuine(w, tvf, path, changed.error);
      assert Offers(w, tvf, path, changed.error.path, deps[changed.error.path]);
      return Some(changed.error);
    }
    MergeIsRecorded(w, tvf, start, files, processed, path, deps, next, scanned, reg.PackageFile);
    error := None;
  }

  /** After the merge and before the new edges are met: the books. */
  lemma TurnKeepsBooks(w: World, tvf: string, universe: set<string>, resolved: seq<string>, before: Progress,
                       st: Progress, path: string, deps: Response)
    requires Tracked(universe, resolved, before) && Remembered(w, tvf, resolved, before.processed)
    requires Popped(tvf, path, deps, before, st) && Resolve(w, path, tvf) == Some(deps)
    ensures Tracked(universe, resolved + [path], st)
    ensures Remembered(w, tvf, resolved + [path], st.processed) && Marked(w, tvf, st.processed)
  {
    PopKeepsTrack(universe, resolved, before, st, path);
    RememberedMore(w, tvf, resolved, before.processed, path, st.processed);
    RememberedIsMarked(w, tvf, resolved + [path], st.processed);
  }

  /** Takes the last path off the stack. */
  method Pop(tvf: string, path: string, deps: Response, before: Progress) returns (st: Progress)
    requires before.paths != [] && before.paths[|before.paths| - 1] == path && path in before.pending && path in deps
    requires !RejectsVariant(before.pending[path].parent, tvf, before.pending[path].kind == Import, deps[path].forTest)
    ensures Popped(tvf, path, deps, before, st)
  {
    var processed := Remember(before.processed, deps);
    st := Progress(before.paths[..|before.paths| - 1], before.pending - {path}, processed, before.newDeps);
  }

  method AnswerFor(w: World, tvf: string, item: PendingDep, ghost start: map<string, string>,
                   ghost resolved: seq<string>)
    returns (deps: Response, error: Option<LinkError>)
    requires Sourced(w, tvf, start, resolved, item)
    ensures error.None? ==> Resolve(w, item.path, tvf) == Some(deps)
    ensures error.None? ==> !RejectsVariant(item.parent, tvf, item.kind == Import, deps[item.path].forTest)
    ensures error.Some? ==> Genuine(w, tvf, error.value) && Excused(w, tvf, start, resolved, error.value)
  {
    assert item == PendingDep(item.path, item.parent, item.kind);
    var answer := ResolvePackageFiles(w, item.path, tvf);
    if answer.None? { return map[], Some(Unresolved(item.path)); }
    deps := answer.value;
    assert Offers(w, tvf, item.path, item.path, deps[item.path]);
    error := if RejectsVariant(item.parent, tvf, item.kind == Import, deps[item.path].forTest)
             then Some(SyntheticVariant(item.parent, item.path)) else None;
  }

  /** What holds between two turns of the loop. */
  ghost predicate Sound(w: World, tvf: string, start: map<string, string>, universe: set<string>,
                        files: map<string, string>,
                        resolved: seq<string>, scanned: set<Work>, st: Progress) {
    && Tracked(universe, resolved, st) && Remembered(w, tvf, resolved, st.processed)
    && FilesInStep(w, tvf, start, files, st.processed, scanned) && AllHandled(w, tvf, start, st, scanned)
    && MergesTo(w, tvf, start, resolved, files)
    && AllDue(w, tvf, start, resolved) && AllSourced(w, tvf, start, resolved, st.pending)
  }

  /** In the middle of a turn: the answer has been merged, but its archives not been scanned. */
  ghost predicate Merged(w: World, tvf: string, start: map<string, string>, universe: set<string>,
                         files: map<string, string>,
                         resolved: seq<string>, scanned: set<Work>, deps: Response, st: Progress) {
    && Tracked(universe, resolved, st) && Remembered(w, tvf, resolved, st.processed) && Marked(w, tvf, st.processed)
    && FilesInStep(w, tvf, start, files, st.processed, scanned + ItemsOf(deps))
    && AllHandled(w, tvf, start, st, scanned)
    && MergesTo(w, tvf, start, resolved, files)
    && AllDue(w, tvf, start, resolved) && AllSourced(w, tvf, start, resolved, st.pending)
    && AllLinked(w, tvf, start, resolved, deps)
  }

  ghost predicate AllLinked(w: World, tvf: string, start: map<string, string>, resolved: seq<string>, deps: Response) {
    forall p {:trigger Linked(w, tvf, start, resolved, deps[p].exportFile)} | p in deps ::
      Linked(w, tvf, start, resolved, deps[p].exportFile)
  }

  lemma AnswerIsLinked(w: World, tvf: string, start: map<string, string>, resolved: seq<string>, path: string,
                       deps: Response)
    requires path in resolved && Resolve(w, path, tvf) == Some(deps)
    ensures AllLinked(w, tvf, start, resolved, deps)
  {
    forall p | p in deps ensures Linked(w, tvf, start, resolved, deps[p].exportFile) {
      assert Offers(w, tvf, path, p, deps[p]);
    }
  }

  ghost predicate Fewer(universe: set<string>, resolved: seq<string>, more: seq<string>) {
    |universe - Elements(more)| < |universe - Elements(resolved)|
  }

  /** The first half of a turn: resolve the last path and merge the answer. */
  method TakeAnswer(w: World, reg: ImportConfig, tvf: string, before: Progress, ghost start: map<string, string>,
                    ghost universe: set<string>, ghost resolved: seq<string>, ghost scanned: set<Work>)
    returns (st: Progress, deps: Response, error: Option<LinkError>, ghost more: seq<string>)
    requires before.paths != [] && Sound(w, tvf, start, universe, reg.PackageFile, resolved, scanned, before)
    modifies reg
    ensures error.None? ==> Merged(w, tvf, start, universe, reg.PackageFile, more, scanned, deps, st)
    ensures error.None? ==> Fewer(universe, resolved, more)
    ensures error.None? ==> st.newDeps == before.newDeps
    ensures error.Some? ==> Genuine(w, tvf, error.value) && Excused(w, tvf, start, more, error.value)
    ensures resolved <= more && AllDue(w, tvf, start, more)
  {
    var path := before.paths[|before.paths| - 1];
    assert path in before.paths;
    st, more := before, resolved + [path];
    assert Sourced(w, tvf, start, resolved, before.pending[path]);
    OneMoreDue(w, tvf, start, resolved, before.pending[path]);
    AllSourcedStays(w, tvf, start, resolved, more, before.pending, before.pending - {path});
    SourcedStays(w, tvf, start, resolved, more, before.pending[path]);
    deps, error := AnswerFor(w, tvf, before.pending[path], start, more);
    if error.Some? { return; }
    st := Pop(tvf, path, deps, before);
    error := MergeInStep(w, reg, tvf, path, deps, start, before.processed, st.processed, scanned, more);
    if error.Some? { return; }
    AnswerIsLinked(w, tvf, start, more, path, deps);
    ResolvedGrows(universe, resolved, path);
    MergesToMore(w, tvf, start, resolved, old(reg.PackageFile), path);
    TurnKeepsBooks(w, tvf, universe, resolved, before, st, path, deps);
    PopKeepsHandled(w, tvf, start, before, st, path, scanned);
  }

  /** The second half of a turn: meet the edges of the archives that were resolved. */
  method ScanMerged(w: World, reg: ImportConfig, tvf: string, provenance: ProvenanceResolver, cmd: LinkDeps,
                    deps: Response, next: Progress,
                    ghost start: map<string, string>, ghost universe: set<string>, ghost resolved: seq<string>,
                    ghost scanned: set<Work>)
    returns (st: Progress, error: Option<LinkError>)
    requires provenance.Valid() && provenance.w == w && provenance.tvf == tvf
    requires forall a | w.archives(a).Some? :: w.archives(a).value.Keys <= universe
    requires Merged(w, tvf, start, universe, reg.PackageFile, resolved, scanned, deps, next)
    modifies cmd, provenance
    ensures provenance.Valid() && Carries(cmd.deps, old(cmd.deps))
    ensures error.None? ==> Sound(w, tvf, start, universe, reg.PackageFile, resolved, scanned + ItemsOf(deps), st)
    ensures error.None? ==> Announces(w, tvf, start, resolved, next, st, old(cmd.deps), cmd.deps)
    ensures error.Some? ==> Genuine(w, tvf, error.value) && Excused(w, tvf, start, resolved, error.value)
  {
    var files := reg.PackageFile;
    st, error := ScanAnswer(w, tvf, files, provenance, cmd, deps, next, start, universe, resolved, scanned);
    assert reg.PackageFile == files;
  }

  /** One turn of the loop. */
  method Turn(w: World, reg: ImportConfig, tvf: string, provenance: ProvenanceResolver, cmd: LinkDeps, before: Progress,
              ghost start: map<string, string>, ghost universe: set<string>, ghost resolved: seq<string>,
              ghost scanned: set<Work>)
    returns (st: Progress, error: Option<LinkError>, ghost more: seq<string>, ghost wider: set<Work>)
    requires provenance.Valid() && provenance.w == w && provenance.tvf == tvf
    requires forall a | w.archives(a).Some? :: w.archives(a).value.Keys <= universe
    requires before.paths != [] && Sound(w, tvf, start, universe, reg.PackageFile, resolved, scanned, before)
    modifies reg, cmd, provenance
    ensures provenance.Valid() && Carries(cmd.deps, old(cmd.deps))
    ensures error.None? ==>
              Sound(w, tvf, start, universe, reg.PackageFile, more, wider, st) && Fewer(universe, resolved, more)
    ensures error.None? ==> Announces(w, tvf, start, more, before, st, old(cmd.deps), cmd.deps)
    ensures error.Some? ==> Genuine(w, tvf, error.value) && Excused(w, tvf, start, more, error.value)
    ensures resolved <= more && AllDue(w, tvf, start, more)
  {
    wider := scanned;
    var next, deps;
    next, deps, error, more := TakeAnswer(w, reg, tvf, before, start, universe, resolved, scanned);
    if error.Some? { return before, error, more, wider; }
    wider := scanned + ItemsOf(deps);
    st, error := ScanMerged(w, reg, tvf, provenance, cmd, deps, next, start, universe, more, scanned);
  }

  /**
   Returns the blank imports to add, sorted. `resolved` lists the resolutions in the order
   they were made, `initial` what the import configuration lacked to begin with.
   */
  method OnCompileMain(w: World, reg: ImportConfig, tvf: string, cmd: LinkDeps, ghost universe: set<string>)
    returns (r: Result<seq<string>, LinkError>, ghost resolved: seq<string>, ghost initial: Pending)
    requires forall a | w.archives(a).Some? :: w.archives(a).value.Keys <= universe
    modifies reg, cmd
    ensures Carries(cmd.deps, old(cmd.deps))
    ensures r.Ok? ==> Closed(w, reg.PackageFile) && GrownFrom(w, tvf, old(reg.PackageFile), reg.PackageFile)
    ensures r.Ok? ==> forall p, d | p in reg.PackageFile && IsEdge(w, Edge(p, reg.PackageFile[p], d)) ::
              EdgeIsSafe(w, tvf, old(reg.PackageFile), Work(p, reg.PackageFile[p]), d)
    ensures r.Ok? ==> Distinct(r.value) && SortedBy(AtMost, r.value) && multiset(r.value) == multiset(resolved)
    ensures r.Ok? ==> forall d | d in resolved :: d in reg.PackageFile && Resolve(w, d, tvf).Some?
    ensures r.Ok? ==> MergesTo(w, tvf, old(reg.PackageFile), resolved, reg.PackageFile)
    ensures r.Ok? ==> Gathered(w, tvf, old(reg.PackageFile), old(reg.PackageFile).Keys, initial)
    ensures r.Ok? ==> Accounted(initial, r.value, cmd.deps)
    ensures AllDue(w, tvf, old(reg.PackageFile), resolved)
    ensures r.Ok? ==> Noted(w, tvf, old(reg.PackageFile), resolved, r.value, old(cmd.deps), cmd.deps)
    ensures r.Err? ==> Genuine(w, tvf, r.error) && Excused(w, tvf, old(reg.PackageFile), resolved, r.error)
  {
    resolved, initial := [], map[];
    ghost var start, first := reg.PackageFile, cmd.deps;
    var provenance := new ProvenanceResolver(w, tvf);
    var gathered := InitialLinkDependencies(w, reg.PackageFile, tvf, provenance);
    if gathered.Err? { return Err(gathered.error), [], map[]; }
    initial := gathered.value;
    var stack := SortedKeys(gathered.value);
    var st := Progress(stack, gathered.value, map[], stack);
    ghost var scanned := StartIsHandled(w, tvf, start, initial, stack, universe);
    while |st.paths| > 0
      invariant provenance.Valid() && provenance.w == w && provenance.tvf == tvf && fresh(provenance)
      invariant Sound(w, tvf, start, universe, reg.PackageFile, resolved, scanned, st)
      invariant Accounted(initial, st.newDeps, cmd.deps)
      invariant Noted(w, tvf, start, resolved, st.newDeps, first, cmd.deps)
      decreases |universe - Elements(resolved)|
    {
      var error;
      ghost var prev, few, done := st, cmd.deps, resolved;
      st, error, resolved, scanned := Turn(w, reg, tvf, provenance, cmd, st, start, universe, resolved, scanned);
      if error.Some? { return Err(error.value), resolved, initial; }
      AccountedMore(w, tvf, start, done, resolved, initial, prev, st, first, few, cmd.deps);
    }
    AccountedInOrder(w, tvf, start, resolved, initial, st.newDeps, first, cmd.deps);
    EndOfWork(w, tvf, start, reg.PackageFile, universe, resolved, st, scanned);
    r := Ok(Sort(AtMost, st.newDeps));
  }

  ghost function Elements(s: seq<string>): set<string> {
    set x | x in s
  }

  lemma ResolvedGrows(universe: set<string>, resolved: seq<string>, path: string)
    requires path in universe && path !in resolved
    ensures |universe - Elements(resolved + [path])| < |universe - Elements(resolved)|
  {
    assert Elements(resolved + [path]) == Elements(resolved) + {path};
    SubsetIsSmaller(universe - Elements(resolved + [path]), universe - Elements(resolved));
  }

  lemma StartIsHandled(w: World, tvf: string, start: map<string, string>, pending: Pending, stack: seq<string>,
                       universe: set<string>)
    returns (scanned: set<Work>)
    requires Gathered(w, tvf, start, start.Keys, pending)
    requires Distinct(stack) && forall d :: d in stack <==> d in pending
    requires forall a | w.archives(a).Some? :: w.archives(a).value.Keys <= universe
    ensures Sound(w, tvf, start, universe, start, [], scanned, Progress(stack, pending, map[], stack))
  {
    scanned := set p | p in start :: Work(p, start[p]);
    var st := Progress(stack, pending, map[], stack);
    forall d | d in pending ensures d in universe && Sourced(w, tvf, start, [], pending[d]) {
      var p :| p in start && Asks(w.archives, start[p], d, pending[d].kind);
      assert Linked(w, tvf, start, [], start[p]);
    }
    forall p | p in start ensures ItemHandled(w, tvf, start, st, Work(p, start[p])) {
      forall d | d in w.archives(start[p]).value ensures Handled(w, tvf, start, st, Work(p, start[p]), d) {
        assert IsEdge(w, Edge(p, start[p], d));
      }
    }
  }

  // ---------------------------------------------------------------- what success means

  /** What an import edge of the finished configuration ends in, when a rebuilt archive must not be used for it. */
  ghost predicate EndsWell(w: World, tvf: string, start: map<string, string>, resolved: seq<string>,
                           files: map<string, string>, d: string) {
    && d in files && !OffersVariant(w, tvf, d)
    && if d in start then files[d] == start[d]
       else exists asked, a :: asked in resolved && Offers(w, tvf, asked, d, a) && a.exportFile == files[d]
  }

  /**
   With a consistent resolver, no answer offers a rebuilt archive for the target of an import
   edge from any archive of the finished import configuration, unless the build had that
   target to begin with; so the edge ends in what the build had, or in an ordinary archive.
   */
  lemma MainEdgesMeetNoVariant(w: World, tvf: string, start: map<string, string>, resolved: seq<string>,
                               files: map<string, string>, p: string, d: string)
    requires tvf != "" && Consistent(w, tvf) && MergesTo(w, tvf, start, resolved, files)
    requires p in files && Strict(w, Edge(p, files[p], d)) && (d !in start || d == tvf)
    requires Closed(w, files) && EdgeIsSafe(w, tvf, start, Work(p, files[p]), d)
    ensures EndsWell(w, tvf, start, resolved, files, d)
  {
    if Resolve(w, d, tvf).Some? { assert Offers(w, tvf, d, d, Resolve(w, d, tvf).value[d]); }
    MergedEntry(w, tvf, start, resolved, d);
  }

  /**
   A target that the build had keeps its archive exactly if no answer offered a rebuilt one, or
   the last that did offered the very same file.
   */
  lemma DisplacedExactly(w: World, tvf: string, start: map<string, string>, resolved: seq<string>,
                         files: map<string, string>, d: string)
    requires MergesTo(w, tvf, start, resolved, files) && d in start
    ensures d in files
    ensures files[d] == start[d] <==>
              var last := LastRebuilt(w, tvf, resolved, d); last.None? || last.value.exportFile == start[d]
    ensures LastRebuilt(w, tvf, resolved, d).Some? ==> tvf != "" && d != tvf && OffersVariant(w, tvf, d)
  {
    MergedEntry(w, tvf, start, resolved, d);
  }
}
