/**
 The link step (internal/toolexec/aspect/onlink.go): a worklist of archives whose link.deps
 must end up in the import configuration, while resolving one dependency may add or
 rebuild others.
 */
module Linking {
  import opened Wrappers
  import opened Ordering
  import opened ImportCfg
  import opened LinkDeps
  import opened Resolution

  datatype Work = Work(importPath: string, archive: string)

  predicate WorkAtMost(a: Work, b: Work) {
    if a.importPath == b.importPath then AtMost(a.archive, b.archive) else AtMost(a.importPath, b.importPath)
  }

  /** Every link-time dependency of the archive is a package of the import configuration. */
  predicate Complete(w: World, archive: string, files: map<string, string>) {
    w.archives(archive).Some? && w.archives(archive).value.Keys <= files.Keys
  }

  ghost predicate Closed(w: World, files: map<string, string>) {
    forall p | p in files :: Complete(w, files[p], files)
  }

  /** The archive may be linked into the tests of `tvf`: what it imports synthetically was not rebuilt for them. */
  predicate SafeEdge(w: World, tvf: string, item: Work, d: string) {
    tvf != "" && item.importPath != "" && Asks(w.archives, item.archive, d, Import) ==>
      Answered(w, tvf, d) && w.request(d, tvf).value[d].forTest != tvf
  }

  ghost predicate SafeItem(w: World, tvf: string, item: Work) {
    forall d :: SafeEdge(w, tvf, item, d)
  }

  /** Nothing outside the finite `universe` can turn up. */
  ghost predicate Bounded(w: World, tvf: string, files: map<string, string>, universe: set<Work>) {
    && (forall p | p in files :: Work(p, files[p]) in universe)
    && forall asked, p, a | Offers(w, tvf, asked, p, a) :: Work(p, a.exportFile) in universe
  }

  ghost predicate Pending(files: map<string, string>, processed: set<Work>, queue: seq<Work>) {
    forall p | p in files :: Work(p, files[p]) in processed || Work(p, files[p]) in queue
  }

  /** What processing an item establishes, and later steps keep. */
  ghost predicate Settled(w: World, tvf: string, item: Work, files: map<string, string>) {
    Complete(w, item.archive, files) && SafeItem(w, tvf, item)
  }

  /** `more` announces every entry of `now` that `before` did not have. */
  ghost predicate Announced(before: map<string, string>, now: map<string, string>, more: seq<Work>) {
    && before.Keys <= now.Keys
    && (forall p | p in now :: (p in before && before[p] == now[p]) || Work(p, now[p]) in more)
    && (more == [] ==> now == before)
  }

  /** All of it is work still to do, and in a plain link new. */
  ghost predicate Queues(tvf: string, first: map<string, string>, files: map<string, string>, more: seq<Work>,
                         universe: set<Work>) {
    && Announced(first, files, more) && OnlyNew(tvf, first, files, more)
    && forall x | x in more :: x in universe && Current(tvf, files, x)
  }

  predicate AsksFor(w: World, archive: string, d: string) {
    w.archives(archive).Some? && d in w.archives(archive).value
  }

  /**
   There is a reason to resolve this: some archive asks for it, in a plain link one of the build,
   and the build did not have it to begin with, unless everything but the package under test is
   looked at again for the sake of the tests.
   */
  ghost predicate Wanted(w: World, tvf: string, start: map<string, string>, now: map<string, string>, asked: string) {
    && (asked in start ==> tvf != "" && asked != tvf)
    && if tvf == "" then exists p :: p in now && AsksFor(w, now[p], asked) else exists a :: AsksFor(w, a, asked)
  }

  /** Each entry that is new or was displaced comes from the reply for something wanted. */
  ghost predicate GrownAsWanted(w: World, tvf: string, start: map<string, string>, now: map<string, string>) {
    forall p | p in now && (p !in start || now[p] != start[p]) :: exists asked, a ::
      Wanted(w, tvf, start, now, asked) && Offers(w, tvf, asked, p, a) && a.exportFile == now[p]
  }

  /** What holds of the import configuration throughout. */
  ghost predicate Tidy(w: World, tvf: string, start: map<string, string>, resolved: seq<string>,
                       files: map<string, string>, universe: set<Work>) {
    && Bounded(w, tvf, files, universe) && GrownFrom(w, tvf, start, files) && GrownAsWanted(w, tvf, start, files)
    && MergesTo(w, tvf, start, resolved, files) && forall d | d in resolved :: WantedThen(w, tvf, start, d)
  }

  /** For the sake of tests everything an archive asks for is resolved, but for the package under test. */
  predicate Followed(w: World, tvf: string, item: Work, resolved: seq<string>) {
    tvf != "" && w.archives(item.archive).Some? ==>
      forall d | d in w.archives(item.archive).value && d != tvf :: d in resolved
  }

  /** In a plain link no entry is ever replaced. */
  ghost predicate Kept(tvf: string, before: map<string, string>, now: map<string, string>) {
    before.Keys <= now.Keys && (tvf == "" ==> forall p | p in before :: now[p] == before[p])
  }

  /** In a plain link every item is an entry of the import configuration. */
  predicate Current(tvf: string, files: map<string, string>, item: Work) {
    tvf == "" ==> item.importPath in files && files[item.importPath] == item.archive
  }

  /** In a plain link, what is announced is new. */
  predicate OnlyNew(tvf: string, before: map<string, string>, now: map<string, string>, more: seq<Work>) {
    tvf == "" && more != [] ==> before.Keys < now.Keys
  }

  /** At some point there was a reason to resolve this. */
  ghost predicate WantedThen(w: World, tvf: string, start: map<string, string>, d: string) {
    exists files :: GrownAsWanted(w, tvf, start, files) && Wanted(w, tvf, start, files, d)
  }

  /** What could not be resolved or merged was wanted, or is the package under test that an archive imports. */
  ghost predicate Caused(w: World, tvf: string, start: map<string, string>, e: LinkError) {
    match e
    case Unresolved(d) => WantedThen(w, tvf, start, d) || (d == tvf && exists a :: Asks(w.archives, a, tvf, Import))
    case WrongTest(p) => exists d, a :: WantedThen(w, tvf, start, d) && Offers(w, tvf, d, p, a)
    case ReplacesTarget(p) => exists d, a :: WantedThen(w, tvf, start, d) && Offers(w, tvf, d, p, a)
    case _ => true
  }

  /** Nothing is left to do: every archive has its dependencies in the build, and none of them is blank. */
  ghost predicate Linkable(w: World, files: map<string, string>) {
    Closed(w, files) && forall p | p in files :: "" !in w.archives(files[p]).value
  }

  /** All entries of the configuration, and nothing else. */
  ghost predicate Lists(files: map<string, string>, queue: seq<Work>) {
    forall x :: x in queue <==> x.importPath in files && files[x.importPath] == x.archive
  }

  /** The queue at each turn: always in order, starting with the entries of the build, and nothing is forgotten. */
  ghost predicate InTurn(start: map<string, string>, turns: seq<seq<Work>>) {
    && (forall k | 0 <= k < |turns| :: turns[k] != [] && SortedBy(WorkAtMost, turns[k]))
    && (turns != [] ==> Lists(start, turns[0]))
    && forall k | 0 < k < |turns| :: multiset(turns[k - 1][1..]) <= multiset(turns[k])
  }

  /** The first of the queue had its turn. */
  ghost predicate HadTurn(turns: seq<seq<Work>>, item: Work) {
    exists k :: 0 <= k < |turns| && turns[k] != [] && turns[k][0] == item
  }

  /** What waits is what the last turn left, and more. */
  ghost predicate Follows(start: map<string, string>, turns: seq<seq<Work>>, queue: seq<Work>) {
    && InTurn(start, turns) && SortedBy(WorkAtMost, queue)
    && if turns == [] then Lists(start, queue) else multiset(turns[|turns| - 1][1..]) <= multiset(queue)
  }

  ghost predicate OrderlyTurns(start: map<string, string>, turns: seq<seq<Work>>, queue: seq<Work>,
                               processed: set<Work>)
  {
    Follows(start, turns, queue) && forall x {:trigger HadTurn(turns, x)} | x in processed :: HadTurn(turns, x)
  }

  /** The new work is put in its place. */
  method Requeue(queue: seq<Work>, more: seq<Work>) returns (next: seq<Work>)
    requires SortedBy(WorkAtMost, queue)
    ensures SortedBy(WorkAtMost, next) && multiset(next) == multiset(queue) + multiset(more)
    ensures forall x :: x in next <==> x in queue || x in more
    ensures more == [] ==> next == queue
  {
    next := queue;
    if more != [] {
      next := next + more;
      SameElements(next);
      WorkOrderIsTotal();
      SortSorts(WorkAtMost, next);
      next := Sort(WorkAtMost, next);
    }
  }

  lemma OneMoreTurn(start: map<string, string>, turns: seq<seq<Work>>, queue: seq<Work>, next: seq<Work>,
                    processed: set<Work>)
    requires OrderlyTurns(start, turns, queue, processed) && queue != []
    requires SortedBy(WorkAtMost, next) && multiset(queue[1..]) <= multiset(next)
    ensures OrderlyTurns(start, turns + [queue], next, processed + {queue[0]})
  {
    var more := turns + [queue];
    assert more[|turns|] == queue;
    forall x | x in processed + {queue[0]} ensures HadTurn(more, x) {
      if x in processed && x != queue[0] {
        assert HadTurn(turns, x);
        var k :| 0 <= k < |turns| && turns[k] != [] && turns[k][0] == x;
        assert more[k] == turns[k];
      }
    }
  }

  lemma SkippedTurn(start: map<string, string>, turns: seq<seq<Work>>, queue: seq<Work>, processed: set<Work>)
    requires OrderlyTurns(start, turns, queue, processed) && queue != [] && queue[0] in processed
    ensures OrderlyTurns(start, turns + [queue], queue[1..], processed)
  {
    OneMoreTurn(start, turns, queue, queue[1..], processed);
    assert processed + {queue[0]} == processed;
  }

  lemma StartOfLink(w: World, tvf: string, start: map<string, string>, universe: set<Work>, queue: seq<Work>)
    requires Bounded(w, tvf, start, universe) && Lists(start, queue) && SortedBy(WorkAtMost, queue)
    ensures Progressing(w, tvf, start, [], start, universe, {}, queue, false)
    ensures OrderlyTurns(start, [], queue, {})
  {
  }

  method OnLink(w: World, reg: ImportConfig, tvf: string, ghost universe: set<Work>)
    returns (r: Result<bool, LinkError>, ghost resolved: seq<string>, ghost turns: seq<seq<Work>>)
    requires Bounded(w, tvf, reg.PackageFile, universe)
    modifies reg
    ensures r.Ok? ==> Closed(w, reg.PackageFile)
    ensures r.Ok? ==> forall p | p in reg.PackageFile :: SafeItem(w, tvf, Work(p, reg.PackageFile[p]))
    ensures r.Ok? ==> GrownFrom(w, tvf, old(reg.PackageFile), reg.PackageFile)
    ensures r.Ok? ==> GrownAsWanted(w, tvf, old(reg.PackageFile), reg.PackageFile)
    ensures r.Ok? ==> MergesTo(w, tvf, old(reg.PackageFile), resolved, reg.PackageFile)
    ensures r.Ok? ==> forall p | p in reg.PackageFile :: Followed(w, tvf, Work(p, reg.PackageFile[p]), resolved)
    ensures r.Ok? ==> forall d | d in resolved :: WantedThen(w, tvf, old(reg.PackageFile), d)
    ensures r.Ok? ==> InTurn(old(reg.PackageFile), turns)
    ensures r.Ok? ==> forall p | p in reg.PackageFile :: HadTurn(turns, Work(p, reg.PackageFile[p]))
    ensures r == Ok(false) ==> reg.PackageFile == old(reg.PackageFile)
    ensures tvf == "" && r == Ok(true) ==> old(reg.PackageFile).Keys < reg.PackageFile.Keys
    ensures tvf == "" && Linkable(w, old(reg.PackageFile)) ==> r == Ok(false)
    ensures r.Err? ==> Genuine(w, tvf, r.error) && Caused(w, tvf, old(reg.PackageFile), r.error)
  {
    var queue := InitialQueue(reg.PackageFile);
    var provenance := new ProvenanceResolver(w, tvf);
    var processed: set<Work>, changed := {}, false;
    resolved, turns := [], [];
    StartOfLink(w, tvf, reg.PackageFile, universe, queue);
    while |queue| > 0
      invariant provenance.Valid() && provenance.w == w && provenance.tvf == tvf && fresh(provenance)
      invariant Progressing(w, tvf, old(reg.PackageFile), resolved, reg.PackageFile, universe, processed, queue,
                            changed)
      invariant OrderlyTurns(old(reg.PackageFile), turns, queue, processed)
      decreases |universe - processed|, |queue|
    {
      var item := queue[0];
      ghost var waiting := queue;
      queue := queue[1..];
      if item in processed {
        SkipKeepsProgress(w, tvf, old(reg.PackageFile), resolved, reg.PackageFile, universe, processed, waiting,
          changed);
        SkippedTurn(old(reg.PackageFile), turns, waiting, processed);
        turns := turns + [waiting];
        continue;
      }
      var error;
      queue, changed, error, resolved := TakeItem(w, reg, tvf, provenance, item, queue, changed, old(reg.PackageFile),
        resolved, universe, processed);
      if error.Some? { return Err(error.value), resolved, turns; }
      FewerLeft(universe, processed, item);
      OneMoreTurn(old(reg.PackageFile), turns, waiting, queue, processed);
      turns := turns + [waiting];
      processed := processed + {item};
    }
    AllHadTurns(old(reg.PackageFile), turns, reg.PackageFile, processed, queue);
    EndOfLink(w, tvf, old(reg.PackageFile), resolved, reg.PackageFile, universe, processed, queue, changed);
    r := Ok(changed);
  }

  /** One archive is processed, and what this changed is put in the queue. */
  method TakeItem(w: World, reg: ImportConfig, tvf: string, provenance: ProvenanceResolver, item: Work,
                  rest: seq<Work>, before: bool, ghost start: map<string, string>, ghost done: seq<string>,
                  ghost universe: set<Work>, ghost processed: set<Work>)
    returns (queue: seq<Work>, changed: bool, error: Option<LinkError>, ghost resolved: seq<string>)
    requires provenance.Valid() && provenance.w == w && provenance.tvf == tvf
    requires Progressing(w, tvf, start, done, reg.PackageFile, universe, processed, [item] + rest, before)
    requires SortedBy(WorkAtMost, rest)
    modifies reg, provenance
    ensures provenance.Valid()
    ensures error.None? ==> Progressing(w, tvf, start, resolved, reg.PackageFile, universe, processed + {item}, queue,
                                        changed)
    ensures error.None? ==> SortedBy(WorkAtMost, queue) && item in universe && multiset(rest) <= multiset(queue)
    ensures tvf == "" && Linkable(w, start) ==> error.None?
    ensures error.Some? ==> Genuine(w, tvf, error.value) && Caused(w, tvf, start, error.value)
  {
    ghost var files := reg.PackageFile;
    assert item in [item] + rest;
    var more;
    more, error, resolved := ProcessItem(w, reg, tvf, provenance, item, start, done, universe);
    if error.Some? { return rest, before, error, resolved; }
    queue := Requeue(rest, more);
    changed := before || more != [];
    assert ([item] + rest)[1..] == rest;
    Progress(w, tvf, start, done, files, resolved, reg.PackageFile, universe, processed, [item] + rest, before, more,
      queue);
  }

  /** What holds between two items. */
  ghost predicate Progressing(w: World, tvf: string, start: map<string, string>, resolved: seq<string>,
                              files: map<string, string>,
                              universe: set<Work>, processed: set<Work>, queue: seq<Work>, changed: bool) {
    && Tidy(w, tvf, start, resolved, files, universe) && processed <= universe
    && (forall item | item in queue :: item in universe && Current(tvf, files, item))
    && Pending(files, processed, queue)
    && (forall item | item in processed :: Settled(w, tvf, item, files) && Followed(w, tvf, item, resolved))
    && (!changed ==> files == start)
    && (tvf == "" && changed ==> start.Keys < files.Keys && !Linkable(w, start))
  }

  lemma SkipKeepsProgress(w: World, tvf: string, start: map<string, string>, resolved: seq<string>,
                          files: map<string, string>, universe: set<Work>, processed: set<Work>, waiting: seq<Work>,
                          was: bool)
    requires Progressing(w, tvf, start, resolved, files, universe, processed, waiting, was)
    requires waiting != [] && waiting[0] in processed
    ensures Progressing(w, tvf, start, resolved, files, universe, processed, waiting[1..], was)
  {
    assert waiting == [waiting[0]] + waiting[1..];
    assert forall x | x in waiting[1..] :: x in waiting;
    assert forall x | x in waiting :: x == waiting[0] || x in waiting[1..];
  }

  lemma Progress(w: World, tvf: string, start: map<string, string>, done: seq<string>, before: map<string, string>,
                 resolved: seq<string>, now: map<string, string>, universe: set<Work>, processed: set<Work>,
                 waiting: seq<Work>,
                 was: bool, more: seq<Work>, queue: seq<Work>)
    requires waiting != [] && forall x :: x in queue <==> x in waiting[1..] || x in more
    requires Progressing(w, tvf, start, done, before, universe, processed, waiting, was) && done <= resolved
    requires Settled(w, tvf, waiting[0], now) && Followed(w, tvf, waiting[0], resolved)
    requires Tidy(w, tvf, start, resolved, now, universe)
    requires Queues(tvf, before, now, more, universe) && Kept(tvf, before, now)
    requires tvf == "" && Linkable(w, before) ==> more == []
    ensures Progressing(w, tvf, start, resolved, now, universe, processed + {waiting[0]}, queue, was || more != [])
  {
    assert waiting[0] in waiting && waiting == [waiting[0]] + waiting[1..];
    PendingSurvives(before, now, processed, waiting[1..], waiting[0], more);
    forall x | x in processed ensures Settled(w, tvf, x, now) && Followed(w, tvf, x, resolved) {
      assert Settled(w, tvf, x, before) && Followed(w, tvf, x, done);
      assert forall d | d in done :: d in resolved;
    }
    forall x | x in queue ensures x in universe && Current(tvf, now, x) {
      if x !in more { assert x in waiting && Current(tvf, before, x); }
    }
  }

  lemma EndOfLink(w: World, tvf: string, start: map<string, string>, resolved: seq<string>, files: map<string, string>,
                  universe: set<Work>, processed: set<Work>, queue: seq<Work>, changed: bool)
    requires Progressing(w, tvf, start, resolved, files, universe, processed, queue, changed) && queue == []
    ensures forall p | p in files :: Followed(w, tvf, Work(p, files[p]), resolved)
    ensures Closed(w, files) && forall p | p in files :: SafeItem(w, tvf, Work(p, files[p]))
  {
    forall p | p in files
      ensures Settled(w, tvf, Work(p, files[p]), files) && Followed(w, tvf, Work(p, files[p]), resolved)
    {
      assert Work(p, files[p]) in processed;
    }
  }

  lemma AllHadTurns(start: map<string, string>, turns: seq<seq<Work>>, files: map<string, string>,
                    processed: set<Work>, queue: seq<Work>)
    requires OrderlyTurns(start, turns, queue, processed) && Pending(files, processed, queue) && queue == []
    ensures InTurn(start, turns) && forall p | p in files :: HadTurn(turns, Work(p, files[p]))
  {
    forall p | p in files ensures HadTurn(turns, Work(p, files[p])) { assert Work(p, files[p]) in processed; }
  }

  lemma FewerLeft(universe: set<Work>, processed: set<Work>, item: Work)
    requires item in universe && item !in processed
    ensures |universe - (processed + {item})| < |universe - processed|
  {
    assert universe - (processed + {item}) < universe - processed;
    SubsetIsSmaller(universe - (processed + {item}), universe - processed);
  }

  lemma SubsetIsSmaller<T>(a: set<T>, b: set<T>)
    requires a < b
    ensures |a| < |b|
  {
    assert b == a + (b - a);
    assert b - a != {};
  }

  lemma SameElements(s: seq<Work>)
    ensures forall x :: x in Sort(WorkAtMost, s) <==> x in s
  {
    var t := Sort(WorkAtMost, s);
    forall x ensures x in t <==> x in s {
      assert x in t <==> x in multiset(t);
      assert x in s <==> x in multiset(s);
    }
  }

  lemma PendingSurvives(before: map<string, string>, now: map<string, string>, processed: set<Work>,
                        rest: seq<Work>, item: Work, more: seq<Work>)
    requires Pending(before, processed, [item] + rest) && Announced(before, now, more)
    ensures Pending(now, processed + {item}, rest + more)
  {
    forall p | p in now ensures Work(p, now[p]) in processed + {item} || Work(p, now[p]) in rest + more {
      if p in before && before[p] == now[p] {
        assert Work(p, now[p]) in processed || Work(p, now[p]) in [item] + rest;
      }
    }
  }

  method InitialQueue(files: map<string, string>) returns (queue: seq<Work>)
    ensures SortedBy(WorkAtMost, queue)
    ensures Lists(files, queue)
  {
    var list: seq<Work>, todo := [], files.Keys;
    while todo != {}
      invariant todo <= files.Keys
      invariant forall x :: x in list <==>
                  x.importPath in files && x.importPath !in todo && files[x.importPath] == x.archive
    {
      var importPath :| importPath in todo;
      list, todo := list + [Work(importPath, files[importPath])], todo - {importPath};
    }
    SameElements(list);
    WorkOrderIsTotal();
    SortSorts(WorkAtMost, list);
    queue := Sort(WorkAtMost, list);
  }

  lemma WorkOrderIsTotal()
    ensures TotalPreorder(WorkAtMost)
  {
    AtMostIsTotal();
    forall x, y, z | WorkAtMost(x, y) && WorkAtMost(y, z) ensures WorkAtMost(x, z) {
      assert TellsApart(AtMost, [x.importPath, y.importPath]);
      assert x.importPath in [x.importPath, y.importPath] && y.importPath in [x.importPath, y.importPath];
    }
  }

  /** One archive: each dependency is satisfied already and safe, or is resolved and merged. */
  method ProcessItem(w: World, reg: ImportConfig, tvf: string, provenance: ProvenanceResolver, item: Work,
                     ghost start: map<string, string>, ghost done: seq<string>, ghost universe: set<Work>)
    returns (more: seq<Work>, error: Option<LinkError>, ghost resolved: seq<string>)
    requires provenance.Valid() && provenance.w == w && provenance.tvf == tvf
    requires Tidy(w, tvf, start, done, reg.PackageFile, universe) && Current(tvf, reg.PackageFile, item)
    modifies reg, provenance
    ensures provenance.Valid()
    ensures error.None? ==> Settled(w, tvf, item, reg.PackageFile) && Followed(w, tvf, item, resolved)
    ensures error.None? ==> done <= resolved
    ensures error.None? ==> Tidy(w, tvf, start, resolved, reg.PackageFile, universe)
    ensures error.None? ==> Kept(tvf, old(reg.PackageFile), reg.PackageFile)
    ensures error.None? ==> Queues(tvf, old(reg.PackageFile), reg.PackageFile, more, universe)
    ensures tvf == "" && Linkable(w, old(reg.PackageFile)) ==> error.None? && more == []
    ensures error.Some? ==> Genuine(w, tvf, error.value) && Caused(w, tvf, start, error.value)
  {
    more := [];
    var linkDeps := w.archives(item.archive);
    resolved := done;
    if linkDeps.None? { return [], Some(Unreadable(item.archive)), resolved; }
    var paths := SortedKeys(linkDeps.value);
    for i := 0 to |paths|
      invariant provenance.Valid()
      invariant Tidy(w, tvf, start, resolved, reg.PackageFile, universe) && done <= resolved
      invariant Kept(tvf, old(reg.PackageFile), reg.PackageFile)
      invariant Queues(tvf, old(reg.PackageFile), reg.PackageFile, more, universe)
      invariant PathsSettle(w, tvf, item, reg.PackageFile, resolved, paths, i)
      invariant tvf == "" && Linkable(w, old(reg.PackageFile)) ==> more == []
    {
      var depPath := paths[i];
      assert depPath in paths;
      ghost var files, earlier := reg.PackageFile, resolved;
      more, error, resolved := ProcessDependency(w, reg, tvf, provenance, item, depPath, more, old(reg.PackageFile),
        start, resolved, universe);
      if error.Some? { return [], error, resolved; }
      MorePathsSettle(w, tvf, item, files, reg.PackageFile, earlier, resolved, paths, i);
    }
    error := None;
    AllPathsSettle(w, tvf, item, reg.PackageFile, resolved, paths);
  }

  /** The first paths are in the build and safe, and for the sake of tests they were resolved. */
  ghost predicate PathsSettle(w: World, tvf: string, item: Work, files: map<string, string>, resolved: seq<string>,
                              paths: seq<string>, n: nat)
    requires n <= |paths|
  {
    && (forall k | 0 <= k < n :: paths[k] in files && SafeEdge(w, tvf, item, paths[k]))
    && (tvf != "" ==> forall k | 0 <= k < n && paths[k] != tvf :: paths[k] in resolved)
  }

  lemma MorePathsSettle(w: World, tvf: string, item: Work, before: map<string, string>, files: map<string, string>,
                        done: seq<string>, resolved: seq<string>, paths: seq<string>, n: nat)
    requires n < |paths| && PathsSettle(w, tvf, item, before, done, paths, n) && before.Keys <= files.Keys
    requires paths[n] in files && SafeEdge(w, tvf, item, paths[n])
    requires done <= resolved && (tvf != "" && paths[n] != tvf ==> paths[n] in resolved)
    ensures PathsSettle(w, tvf, item, files, resolved, paths, n + 1)
  {
    forall k | 0 <= k < n + 1 ensures paths[k] in files && SafeEdge(w, tvf, item, paths[k]) {
      if k < n { assert paths[k] in before.Keys; }
    }
    assert forall d | d in done :: d in resolved;
  }

  lemma AllPathsSettle(w: World, tvf: string, item: Work, files: map<string, string>, resolved: seq<string>,
                       paths: seq<string>)
    requires w.archives(item.archive).Some? && forall d :: d in paths <==> d in w.archives(item.archive).value
    requires PathsSettle(w, tvf, item, files, resolved, paths, |paths|)
    ensures Settled(w, tvf, item, files) && Followed(w, tvf, item, resolved)
  {
    forall d ensures SafeEdge(w, tvf, item, d) {
      if d in paths { var k :| 0 <= k < |paths| && paths[k] == d; }
    }
    forall d | d in paths && d != tvf && tvf != "" ensures d in resolved {
      var k :| 0 <= k < |paths| && paths[k] == d;
    }
  }

  /** A dependency that the build satisfies: only the package under test can have been rebuilt. */
  method CheckSatisfied(w: World, tvf: string, provenance: ProvenanceResolver, item: Work, depPath: string, kind: Kind)
    returns (error: Option<LinkError>)
    requires provenance.Valid() && provenance.w == w && provenance.tvf == tvf
    requires Asks(w.archives, item.archive, depPath, kind) && (tvf == "" || depPath == tvf)
    modifies provenance
    ensures provenance.Valid()
    ensures error.None? ==> SafeEdge(w, tvf, item, depPath)
    ensures tvf == "" && depPath != "" ==> error.None?
    ensures error.Some? ==> Genuine(w, tvf, error.value)
    ensures error.Some? ==> error.value == Unresolved(tvf) || error.value.SyntheticVariant?
    ensures error == Some(Unresolved(tvf)) ==> Asks(w.archives, item.archive, tvf, Import)
  {
    var forTest := "";
    if depPath == tvf && kind == Import {
      var selected := provenance.Get();
      if selected.None? { return Some(Unresolved(tvf)); }
      forTest := selected.value.forTest;
    }
    if depPath == tvf && tvf != "" && RejectsVariant(item.importPath, tvf, kind == Import, forTest) {
      return Some(SyntheticVariant(item.importPath, depPath));
    }
    error := None;
  }

  /** Resolve a dependency, reject a rebuilt archive that the item cannot use, merge the rest. */
  method ResolveDependency(w: World, reg: ImportConfig, tvf: string, item: Work, depPath: string, kind: Kind,
                           ghost start: map<string, string>, ghost done: seq<string>, ghost universe: set<Work>)
    returns (updates: map<string, string>, error: Option<LinkError>, ghost resolved: seq<string>)
    requires Asks(w.archives, item.archive, depPath, kind) && Wanted(w, tvf, start, reg.PackageFile, depPath)
    requires Tidy(w, tvf, start, done, reg.PackageFile, universe)
    modifies reg
    ensures error.None? ==> reg.PackageFile == old(reg.PackageFile) + updates && depPath in reg.PackageFile
    ensures error.None? ==> SafeEdge(w, tvf, item, depPath)
    ensures error.None? ==> Tidy(w, tvf, start, resolved, reg.PackageFile, universe)
    ensures error.None? ==> Kept(tvf, old(reg.PackageFile), reg.PackageFile)
    ensures resolved == done + [depPath]
    ensures error.None? && tvf == "" ==> updates.Keys !! old(reg.PackageFile).Keys
    ensures error.None? ==> forall p | p in updates :: Work(p, updates[p]) in universe
    ensures error.Some? ==> Genuine(w, tvf, error.value) && Caused(w, tvf, start, error.value)
  {
    resolved := done + [depPath];
    assert WantedThen(w, tvf, start, depPath);
    var deps := ResolvePackageFiles(w, depPath, tvf);
    if deps.None? { return map[], Some(Unresolved(depPath)), resolved; }
    assert Offers(w, tvf, depPath, depPath, deps.value[depPath]);
    if RejectsVariant(item.importPath, tvf, kind == Import, deps.value[depPath].forTest) {
      return map[], Some(SyntheticVariant(item.importPath, depPath)), resolved;
    }
    ghost var before := reg.PackageFile;
    var merged := MergeResolvedArchives(reg, deps.value, tvf);
    if merged.Err? {
      MergeErrorIsGenuine(w, tvf, depPath, merged.error);
      return map[], Some(merged.error), resolved;
    }
    MergeStaysTidy(w, tvf, start, done, before, universe, depPath);
    return merged.value, None, resolved;
  }

  /** A dependency that is satisfied already is checked; any other is resolved and merged. */
  method ProcessDependency(w: World, reg: ImportConfig, tvf: string, provenance: ProvenanceResolver, item: Work,
                           depPath: string, before: seq<Work>,
                           ghost first: map<string, string>, ghost start: map<string, string>,
                           ghost done: seq<string>, ghost universe: set<Work>)
    returns (more: seq<Work>, error: Option<LinkError>, ghost resolved: seq<string>)
    requires provenance.Valid() && provenance.w == w && provenance.tvf == tvf
    requires w.archives(item.archive).Some? && depPath in w.archives(item.archive).value
    requires Tidy(w, tvf, start, done, reg.PackageFile, universe) && Current(tvf, reg.PackageFile, item)
    requires Queues(tvf, first, reg.PackageFile, before, universe)
    modifies reg, provenance
    ensures provenance.Valid()
    ensures error.None? ==> Kept(tvf, old(reg.PackageFile), reg.PackageFile) && depPath in reg.PackageFile
    ensures error.None? ==> SafeEdge(w, tvf, item, depPath)
    ensures error.None? ==> Tidy(w, tvf, start, resolved, reg.PackageFile, universe)
    ensures error.None? ==> Queues(tvf, first, reg.PackageFile, more, universe)
    ensures done <= resolved && (error.None? && tvf != "" && depPath != tvf ==> depPath in resolved)
    ensures tvf == "" && depPath != "" && depPath in old(reg.PackageFile) ==>
              error.None? && more == before && reg.PackageFile == old(reg.PackageFile)
    ensures error.Some? ==> Genuine(w, tvf, error.value) && Caused(w, tvf, start, error.value)
  {
    more, resolved := before, done;
    var kind := w.archives(item.archive).value[depPath];
    if depPath in reg.PackageFile && (tvf == "" || depPath == tvf) {
      error := CheckSatisfied(w, tvf, provenance, item, depPath, kind);
    } else {
      assert AsksFor(w, item.archive, depPath);
      more, error, resolved := ResolveAndAnnounce(w, reg, tvf, item, depPath, kind, before, first, start, done,
        universe);
    }
  }

  /** Resolves a dependency and queues whatever that changed. */
  method ResolveAndAnnounce(w: World, reg: ImportConfig, tvf: string, item: Work, depPath: string, kind: Kind,
                            before: seq<Work>,
                            ghost first: map<string, string>, ghost start: map<string, string>,
                            ghost done: seq<string>, ghost universe: set<Work>)
    returns (more: seq<Work>, error: Option<LinkError>, ghost resolved: seq<string>)
    requires Asks(w.archives, item.archive, depPath, kind) && Wanted(w, tvf, start, reg.PackageFile, depPath)
    requires Tidy(w, tvf, start, done, reg.PackageFile, universe)
    requires Queues(tvf, first, reg.PackageFile, before, universe)
    modifies reg
    ensures resolved == done + [depPath]
    ensures error.None? ==> Kept(tvf, old(reg.PackageFile), reg.PackageFile) && depPath in reg.PackageFile
    ensures error.None? ==> SafeEdge(w, tvf, item, depPath)
    ensures error.None? ==> Tidy(w, tvf, start, resolved, reg.PackageFile, universe)
    ensures error.None? ==> Queues(tvf, first, reg.PackageFile, more, universe)
    ensures error.Some? ==> Genuine(w, tvf, error.value) && Caused(w, tvf, start, error.value)
  {
    ghost var files := reg.PackageFile;
    var updates;
    updates, error, resolved := ResolveDependency(w, reg, tvf, item, depPath, kind, start, done, universe);
    if error.Some? { return before, error, resolved; }
    var added := WorkOf(updates);
    AnnouncedMore(first, files, updates, before, added);
    more := before + added;
    MoreIsCurrent(tvf, first, files, updates, before, added);
  }

  lemma MoreIsCurrent(tvf: string, first: map<string, string>, files: map<string, string>,
                      updates: map<string, string>, before: seq<Work>, added: seq<Work>)
    requires first.Keys <= files.Keys && (tvf == "" ==> updates.Keys !! files.Keys)
    requires OnlyNew(tvf, first, files, before) && forall x | x in before :: Current(tvf, files, x)
    requires forall x | x in added :: x.importPath in updates && updates[x.importPath] == x.archive
    ensures OnlyNew(tvf, first, files + updates, before + added)
    ensures forall x | x in before + added :: Current(tvf, files + updates, x)
  {
    if tvf == "" && added != [] {
      assert added[0].importPath in updates && added[0].importPath !in files.Keys;
    }
  }

  method WorkOf(updates: map<string, string>) returns (list: seq<Work>)
    ensures forall x :: x in list <==> x.importPath in updates && updates[x.importPath] == x.archive
    ensures list == [] <==> updates == map[]
  {
    var todo := updates.Keys;
    list := [];
    while todo != {}
      invariant todo <= updates.Keys
      invariant forall x :: x in list <==>
                  x.importPath in updates && x.importPath !in todo && updates[x.importPath] == x.archive
      invariant list == [] ==> todo == updates.Keys
    {
      var p :| p in todo;
      list, todo := list + [Work(p, updates[p])], todo - {p};
    }
    assert list != [] ==> list[0] in list;
  }

  lemma MergeErrorIsGenuine(w: World, tvf: string, asked: string, e: LinkError)
    requires Resolve(w, asked, tvf).Some?
    requires var archives := Resolve(w, asked, tvf).value;
             || (e.WrongTest? && e.path in archives && WrongTarget(tvf, archives[e.path]))
             || (e == ReplacesTarget(tvf) && tvf in archives)
    ensures Genuine(w, tvf, e)
    ensures forall start | WantedThen(w, tvf, start, asked) :: Caused(w, tvf, start, e)
  {
    var archives := Resolve(w, asked, tvf).value;
    assert Offers(w, tvf, asked, e.path, archives[e.path]);
  }

  /** A merge in a plain link adds new entries only; whatever it brings was wanted. */
  lemma MergeIsWanted(w: World, tvf: string, start: map<string, string>, files: map<string, string>, asked: string)
    requires GrownFrom(w, tvf, start, files) && GrownAsWanted(w, tvf, start, files)
    requires Wanted(w, tvf, start, files, asked)
    requires Resolve(w, asked, tvf).Some? && Mergeable(Resolve(w, asked, tvf).value, tvf)
    ensures var changes := Changes(files, Resolve(w, asked, tvf).value);
            && GrownAsWanted(w, tvf, start, files + changes) && Kept(tvf, files, files + changes)
            && (tvf == "" ==> changes.Keys !! files.Keys)
  {
    var archives := Resolve(w, asked, tvf).value;
    var now := files + Changes(files, archives);
    forall d | Wanted(w, tvf, start, files, d) ensures Wanted(w, tvf, start, now, d) {
      if tvf == "" {
        var p :| p in files && AsksFor(w, files[p], d);
        assert p in now && now[p] == files[p];
      }
    }
    forall p | p in now && (p !in start || now[p] != start[p])
      ensures exists d, a :: Wanted(w, tvf, start, now, d) && Offers(w, tvf, d, p, a) && a.exportFile == now[p]
    {
      if p in Changes(files, archives) {
        assert Offers(w, tvf, asked, p, archives[p]);
      } else {
        var d, a :| Wanted(w, tvf, start, files, d) && Offers(w, tvf, d, p, a) && a.exportFile == files[p];
      }
    }
  }

  lemma MergeStaysTidy(w: World, tvf: string, start: map<string, string>, done: seq<string>, files: map<string, string>,
                       universe: set<Work>, asked: string)
    requires Tidy(w, tvf, start, done, files, universe) && Wanted(w, tvf, start, files, asked)
    requires Resolve(w, asked, tvf).Some? && Mergeable(Resolve(w, asked, tvf).value, tvf)
    ensures var changes := Changes(files, Resolve(w, asked, tvf).value);
            && Tidy(w, tvf, start, done + [asked], files + changes, universe) && Kept(tvf, files, files + changes)
            && asked in files + changes && (tvf == "" ==> changes.Keys !! files.Keys)
            && forall p | p in changes :: Work(p, changes[p]) in universe
  {
    MergeKeepsGrowth(w, tvf, start, files, asked);
    MergeIsWanted(w, tvf, start, files, asked);
    MergeStaysBounded(w, tvf, files, universe, asked);
    MergesToMore(w, tvf, start, done, files, asked);
    forall d | d in done + [asked] ensures WantedThen(w, tvf, start, d) {}
  }

  lemma MergeStaysBounded(w: World, tvf: string, files: map<string, string>, universe: set<Work>, asked: string)
    requires Bounded(w, tvf, files, universe) && Resolve(w, asked, tvf).Some?
    ensures var changes := Changes(files, Resolve(w, asked, tvf).value);
            && Bounded(w, tvf, files + changes, universe)
            && forall p | p in changes :: Work(p, changes[p]) in universe
  {
    var archives := Resolve(w, asked, tvf).value;
    forall p | p in archives ensures Work(p, archives[p].exportFile) in universe {
      assert Offers(w, tvf, asked, p, archives[p]);
    }
  }

  lemma AnnouncedMore(start: map<string, string>, before: map<string, string>, updates: map<string, string>,
                      more: seq<Work>, added: seq<Work>)
    requires Announced(start, before, more)
    requires forall x :: x in added <==> x.importPath in updates && updates[x.importPath] == x.archive
    requires added == [] <==> updates == map[]
    ensures Announced(start, before + updates, more + added)
  {
    var now := before + updates;
    forall p | p in now ensures (p in start && start[p] == now[p]) || Work(p, now[p]) in more + added {
      if p in updates { assert Work(p, updates[p]) in added; }
    }
  }

  // ---------------------------------------------------------------- what success means

  /**
   With a consistent resolver, no answer of it ever offers a rebuilt archive for the target of
   an import edge that a linked archive brought along.
   */
  lemma LinkedEdgesMeetNoVariant(w: World, tvf: string, files: map<string, string>, p: string, d: string)
    requires tvf != "" && Consistent(w, tvf)
    requires p in files && p != "" && SafeItem(w, tvf, Work(p, files[p])) && Asks(w.archives, files[p], d, Import)
    ensures !OffersVariant(w, tvf, d)
  {
    assert SafeEdge(w, tvf, Work(p, files[p]), d);
    assert Offers(w, tvf, d, d, Resolve(w, d, tvf).value[d]);
  }
}
