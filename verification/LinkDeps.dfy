/**
 Link-time dependencies (internal/toolexec/aspect/linkdeps) and the import configuration
 they are checked against. An archive is known by its file name; what its link.deps entry
 holds is a parameter of the model.
 */
module LinkDeps {
  import opened Wrappers
  import opened Ordering

  datatype Kind = Relocation | Import

  /** `a` is at least as strong an edge as `b`. */
  predicate AtLeast(a: Kind, b: Kind) {
    a == Import || b == Relocation
  }

  type Deps = map<string, Kind>

  /** Reading the link.deps of an archive: nothing when it cannot be read, empty when it has none. */
  type Archives = string -> Option<Deps>

  function Added(deps: Deps, path: string, kind: Kind): Deps {
    if path !in deps || !AtLeast(deps[path], kind) then deps[path := kind] else deps
  }

  /** Every dependency of `small` is in `big`, with at least its kind. */
  predicate Carries(big: Deps, small: Deps) {
    forall d | d in small :: d in big && AtLeast(big[d], small[d])
  }

  class LinkDeps {
    var deps: Deps

    constructor ()
      ensures deps == map[]
    {
      deps := map[];
    }

    method Add(importPath: string, kind: Kind)
      modifies this
      ensures deps == Added(old(deps), importPath, kind)
      ensures Carries(deps, old(deps)) && importPath in deps && AtLeast(deps[importPath], kind)
    {
      if importPath !in deps || (kind == Import && deps[importPath] == Relocation) {
        deps := deps[importPath := kind];
      }
    }
  }

  // ---------------------------------------------------------------- import configurations

  predicate Asks(archives: Archives, archive: string, d: string, kind: Kind) {
    archives(archive).Some? && d in archives(archive).value && archives(archive).value[d] == kind
  }

  /** Whatever `asked` needs is in the import configuration or carried, at least as strong. */
  predicate Satisfied(files: map<string, string>, asked: Deps, res: Deps) {
    forall d | d in asked && d !in files :: d in res && AtLeast(res[d], asked[d])
  }

  predicate SatisfiedArchive(archives: Archives, files: map<string, string>, archive: string, res: Deps) {
    archives(archive).Some? && Satisfied(files, archives(archive).value, res)
  }

  /** Everything in `res` is asked for, at that strength, by some package in `met`. */
  ghost predicate Justified(archives: Archives, files: map<string, string>, met: set<string>, res: Deps) {
    forall d | d in res :: d !in files && exists p :: p in met && p in files && Asks(archives, files[p], d, res[d])
  }

  /**
   `res` is what the archives of the packages in `met` ask for beyond the import configuration, each at
   its strongest.
   */
  ghost predicate Aggregates(archives: Archives, files: map<string, string>, met: set<string>, res: Deps) {
    && (forall p | p in met && p in files :: SatisfiedArchive(archives, files, files[p], res))
    && Justified(archives, files, met, res)
  }

  /** The aggregate does not depend on the order in which maps are iterated. */
  lemma AggregateIsUnique(archives: Archives, files: map<string, string>, one: Deps, two: Deps)
    requires Aggregates(archives, files, files.Keys, one) && Aggregates(archives, files, files.Keys, two)
    ensures one == two
  {
    StrongestIsCarried(archives, files, one, two);
    StrongestIsCarried(archives, files, two, one);
  }

  lemma StrongestIsCarried(archives: Archives, files: map<string, string>, one: Deps, two: Deps)
    requires Justified(archives, files, files.Keys, one) && Aggregates(archives, files, files.Keys, two)
    ensures Carries(two, one)
  {
    forall d | d in one ensures d in two && AtLeast(two[d], one[d]) {
      var p :| p in files && Asks(archives, files[p], d, one[d]);
      assert SatisfiedArchive(archives, files, files[p], two);
    }
  }

  lemma SatisfiedSurvives(files: map<string, string>, more: map<string, string>, asked: Deps, res: Deps, bigger: Deps)
    requires Satisfied(files, asked, res) && Carries(bigger, res) && files.Keys <= more.Keys
    ensures Satisfied(more, asked, bigger)
  {
  }

  lemma AggregatesAfterAdd(archives: Archives, files: map<string, string>, met: set<string>, q: string, res: Deps,
                           dep: string)
    requires forall p | p in met && p in files :: SatisfiedArchive(archives, files, files[p], res)
    requires Justified(archives, files, met + {q}, res)
    requires q in files && archives(files[q]).Some? && dep in archives(files[q]).value && dep !in files
    ensures var grown := Added(res, dep, archives(files[q]).value[dep]);
            && (forall p | p in met && p in files :: SatisfiedArchive(archives, files, files[p], grown))
            && Justified(archives, files, met + {q}, grown)
  {
    var kind := archives(files[q]).value[dep];
    var grown := Added(res, dep, kind);
    forall p | p in met && p in files ensures SatisfiedArchive(archives, files, files[p], grown) {
      SatisfiedSurvives(files, files, archives(files[p]).value, res, grown);
    }
    assert Asks(archives, files[q], dep, kind);
    forall d | d in grown
      ensures d !in files && exists p :: p in met + {q} && p in files && Asks(archives, files[p], d, grown[d])
    {
      if d in res && grown[d] == res[d] {
        var p :| p in met + {q} && p in files && Asks(archives, files[p], d, res[d]);
      } else {
        assert d == dep && q in met + {q};
      }
    }
  }

  method FromImportConfig(archives: Archives, files: map<string, string>) returns (res: Option<Deps>)
    ensures res.Some? ==> Aggregates(archives, files, files.Keys, res.value)
    ensures res.None? <==> exists p :: p in files && archives(files[p]).None?
  {
    var acc := new LinkDeps();
    var todo, met: set<string> := files.Keys, {};
    while todo != {}
      invariant fresh(acc) && met == files.Keys - todo && todo <= files.Keys
      invariant Aggregates(archives, files, met, acc.deps)
      invariant forall p | p in met :: archives(files[p]).Some?
    {
      var importPath :| importPath in todo;
      var ld := archives(files[importPath]);
      if ld.None? { return None; }
      var left := ld.value.Keys;
      assert Justified(archives, files, met + {importPath}, acc.deps);
      while left != {}
        invariant left <= ld.value.Keys
        invariant forall p | p in met && p in files :: SatisfiedArchive(archives, files, files[p], acc.deps)
        invariant forall d | d in ld.value && d !in left && d !in files ::
                    d in acc.deps && AtLeast(acc.deps[d], ld.value[d])
        invariant Justified(archives, files, met + {importPath}, acc.deps)
      {
        var dep :| dep in left;
        if dep !in files {
          AggregatesAfterAdd(archives, files, met, importPath, acc.deps, dep);
          acc.Add(dep, ld.value[dep]);
        }
        left := left - {dep};
      }
      todo, met := todo - {importPath}, met + {importPath};
    }
    res := Some(acc.deps);
  }
}
