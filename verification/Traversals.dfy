/**
 Walks over the package graph (internal/jobserver/pkgs/testvariants.go). Packages point to
 each other, in cycles or not; a visited set of package IDs keeps the walks finite, and makes
 them compute reachability as long as IDs are unique. Imports are met in any order.
 */
module Traversals {
  import opened Wrappers
  import opened Ordering
  import opened Resolution

  type Ref = nat

  datatype Package = Package(
    ID: string, PkgPath: string, ForTest: string, ExportFile: string,
    Imports: map<string, Ref>, hasSource: bool, errors: bool)

  type Graph = map<Ref, Package>

  function Targets(g: Graph, r: Ref): set<Ref> {
    if r in g then g[r].Imports.Values else {}
  }

  /** Imports stay inside the graph, and no two packages share an ID. */
  ghost predicate WellFormed(g: Graph) {
    && (forall r | r in g :: Targets(g, r) <= g.Keys)
    && (forall p, q | p in g && q in g && g[p].ID == g[q].ID :: p == q)
  }

  // ---------------------------------------------------------------- reachability

  predicate Walk(g: Graph, path: seq<Ref>, a: Ref, b: Ref) {
    path != [] && path[0] == a && a in g
    && if |path| == 1 then a == b else path[1] in Targets(g, a) && Walk(g, path[1..], path[1], b)
  }

  ghost predicate Reaches(g: Graph, a: Ref, b: Ref) {
    exists path :: Walk(g, path, a, b)
  }

  ghost predicate ReachedFrom(g: Graph, roots: seq<Ref>, b: Ref) {
    exists root :: root in roots && Reaches(g, root, b)
  }

  lemma ReachesItself(g: Graph, a: Ref)
    requires a in g
    ensures Reaches(g, a, a)
  {
    assert Walk(g, [a], a, a);
  }

  lemma ReachesThrough(g: Graph, a: Ref, t: Ref, b: Ref)
    requires a in g && t in Targets(g, a) && Reaches(g, t, b)
    ensures Reaches(g, a, b)
  {
    var path :| Walk(g, path, t, b);
    assert ([a] + path)[1..] == path;
    assert Walk(g, [a] + path, a, b);
  }

  /** A set of IDs that each visited package's imports stay in. */
  ghost predicate Expanded(g: Graph, before: set<string>, after: set<string>) {
    forall r, t | r in g && g[r].ID in after - before && t in Targets(g, r) :: t in g && g[t].ID in after
  }

  lemma {:induction false} ExpandedHoldsWalk(g: Graph, ids: set<string>, path: seq<Ref>, a: Ref, b: Ref)
    requires Expanded(g, {}, ids) && Walk(g, path, a, b) && g[a].ID in ids
    ensures b in g && g[b].ID in ids
    decreases |path|
  {
    if |path| > 1 {
      ExpandedHoldsWalk(g, ids, path[1..], path[1], b);
    }
  }

  lemma ExpandedHoldsReachable(g: Graph, ids: set<string>, a: Ref, b: Ref)
    requires Expanded(g, {}, ids) && a in g && g[a].ID in ids && Reaches(g, a, b)
    ensures b in g && g[b].ID in ids
  {
    var path :| Walk(g, path, a, b);
    ExpandedHoldsWalk(g, ids, path, a, b);
  }

  /** What a walk from `a` may have added. */
  ghost predicate AllReached(g: Graph, a: Ref, before: set<string>, after: set<string>) {
    forall r | r in g && g[r].ID in after - before :: Reaches(g, a, r)
  }

  function Unvisited(g: Graph, ids: set<string>): set<Ref> {
    set r | r in g && g[r].ID !in ids
  }

  // ---------------------------------------------------------------- collectPackages

  class Collector {
    var visited: set<string>
    var result: seq<Ref>

    constructor ()
      ensures visited == {} && result == []
    {
      visited, result := {}, [];
    }

    /** The result lists the visited packages, each once. */
    ghost predicate Lists(g: Graph)
      reads this
    {
      Distinct(result) && forall r :: r in result <==> r in g && g[r].ID in visited
    }

    method Visit(g: Graph, pkg: Ref)
      requires WellFormed(g) && pkg in g && Lists(g)
      modifies this
      ensures Lists(g) && old(result) <= result
      ensures old(visited) <= visited && g[pkg].ID in visited
      ensures Expanded(g, old(visited), visited) && AllReached(g, pkg, old(visited), visited)
      decreases Unvisited(g, visited)
    {
      if g[pkg].ID in visited { return; }
      ghost var before := visited;
      visited := visited + {g[pkg].ID};
      result := result + [pkg];
      ReachesItself(g, pkg);
      assert pkg in Unvisited(g, before);
      var todo := Targets(g, pkg);
      while todo != {}
        invariant todo <= Targets(g, pkg) && Lists(g) && old(result) <= result
        invariant before + {g[pkg].ID} <= visited
        invariant forall t | t in Targets(g, pkg) - todo :: g[t].ID in visited
        invariant Expanded(g, before + {g[pkg].ID}, visited) && AllReached(g, pkg, before, visited)
      {
        var imported :| imported in todo;
        ghost var middle := visited;
        assert pkg !in Unvisited(g, visited);
        Visit(g, imported);
        forall r | r in g && g[r].ID in visited - middle
          ensures Reaches(g, pkg, r)
        {
          ReachesThrough(g, pkg, imported, r);
        }
        todo := todo - {imported};
      }
    }
  }

  /** Every package reachable from the roots, once. */
  method CollectPackages(g: Graph, roots: seq<Ref>) returns (all: seq<Ref>)
    requires WellFormed(g) && forall r | r in roots :: r in g
    ensures Distinct(all)
    ensures forall r :: r in all <==> r in g && ReachedFrom(g, roots, r)
  {
    var c := new Collector();
    for i := 0 to |roots|
      invariant fresh(c) && c.Lists(g) && Expanded(g, {}, c.visited)
      invariant forall k | 0 <= k < i :: g[roots[k]].ID in c.visited
      invariant forall r | r in g && g[r].ID in c.visited :: ReachedFrom(g, roots, r)
    {
      ghost var before := c.visited;
      assert roots[i] in roots;
      c.Visit(g, roots[i]);
      forall r | r in g && g[r].ID in c.visited ensures ReachedFrom(g, roots, r) {
        if g[r].ID !in before { assert Reaches(g, roots[i], r); }
      }
    }
    all := c.result;
    forall r | r in g && ReachedFrom(g, roots, r) ensures g[r].ID in c.visited {
      var root :| root in roots && Reaches(g, root, r);
      ExpandedHoldsReachable(g, c.visited, root, r);
    }
  }

  // ---------------------------------------------------------------- importsPackage

  class Visited {
    var ids: set<string>

    constructor ()
      ensures ids == {}
    {
      ids := {};
    }
  }

  predicate ImportsTarget(g: Graph, r: Ref, target: string) {
    exists t :: t in Targets(g, r) && t in g && g[t].PkgPath == target
  }

  /** The target is the import of a package reachable from `a`. */
  ghost predicate ReachesByImport(g: Graph, a: Ref, target: string) {
    exists r :: r in g && Reaches(g, a, r) && ImportsTarget(g, r, target)
  }

  method VisitImports(g: Graph, pkg: Ref, target: string, visited: Visited) returns (found: bool)
    requires WellFormed(g) && pkg in g
    modifies visited
    ensures old(visited.ids) <= visited.ids && g[pkg].ID in visited.ids
    ensures found ==> ReachesByImport(g, pkg, target)
    ensures !found ==> Expanded(g, old(visited.ids), visited.ids)
    ensures !found ==> forall r | r in g && g[r].ID in visited.ids - old(visited.ids) :: !ImportsTarget(g, r, target)
    decreases Unvisited(g, visited.ids)
  {
    if g[pkg].ID in visited.ids { return false; }
    ghost var before := visited.ids;
    visited.ids := visited.ids + {g[pkg].ID};
    ReachesItself(g, pkg);
    assert pkg in Unvisited(g, before);
    var todo := Targets(g, pkg);
    while todo != {}
      invariant todo <= Targets(g, pkg) && before + {g[pkg].ID} <= visited.ids
      invariant forall t | t in Targets(g, pkg) - todo :: g[t].ID in visited.ids && g[t].PkgPath != target
      invariant Expanded(g, before + {g[pkg].ID}, visited.ids)
      invariant forall r | r in g && g[r].ID in visited.ids - before - {g[pkg].ID} :: !ImportsTarget(g, r, target)
    {
      var imported :| imported in todo;
      assert imported in g;
      if g[imported].PkgPath == target {
        assert ImportsTarget(g, pkg, target);
        return true;
      }
      assert pkg !in Unvisited(g, visited.ids);
      found := VisitImports(g, imported, target, visited);
      if found {
        ghost var r :| r in g && Reaches(g, imported, r) && ImportsTarget(g, r, target);
        ReachesThrough(g, pkg, imported, r);
        return;
      }
      todo := todo - {imported};
    }
    found := false;
  }

  method ImportsPackage(g: Graph, pkg: Ref, target: string) returns (found: bool)
    requires WellFormed(g) && pkg in g
    ensures found <==> ReachesByImport(g, pkg, target)
  {
    var visited := new Visited();
    found := VisitImports(g, pkg, target, visited);
    if !found && ReachesByImport(g, pkg, target) {
      ghost var r :| r in g && Reaches(g, pkg, r) && ImportsTarget(g, r, target);
      ExpandedHoldsReachable(g, visited.ids, pkg, r);
      assert false;
    }
  }

  // ---------------------------------------------------------------- findTestVariant

  predicate IsVariant(g: Graph, r: Ref, pkgPath: string, forTest: string) {
    r in g && g[r].PkgPath == pkgPath && g[r].ForTest == forTest
  }

  /** The first variant in the list. */
  method FindTestVariant(g: Graph, pkgs: seq<Ref>, pkgPath: string, forTest: string) returns (found: Option<Ref>)
    requires forall r | r in pkgs :: r in g
    ensures found.Some? ==> found.value in pkgs && IsVariant(g, found.value, pkgPath, forTest)
    ensures found.Some? ==> exists i | 0 <= i < |pkgs| ::
              pkgs[i] == found.value && forall k | 0 <= k < i :: !IsVariant(g, pkgs[k], pkgPath, forTest)
    ensures found.None? <==> forall r | r in pkgs :: !IsVariant(g, r, pkgPath, forTest)
  {
    for i := 0 to |pkgs|
      invariant forall k | 0 <= k < i :: !IsVariant(g, pkgs[k], pkgPath, forTest)
    {
      assert pkgs[i] in pkgs;
      if g[pkgs[i]].PkgPath == pkgPath && g[pkgs[i]].ForTest == forTest { return Some(pkgs[i]); }
    }
    found := None;
  }

  // ---------------------------------------------------------------- collectTestVariantClosure

  /** The graph as the closure sees it: packages of other tests are not looked into. */
  function Variants(g: Graph, forTest: string): (v: Graph)
    ensures v.Keys == g.Keys
  {
    map r | r in g :: if g[r].ForTest == forTest then g[r] else g[r].(Imports := map[])
  }

  /** A package of that test which has an import path and so must have an archive. */
  predicate Rebuilt(g: Graph, r: Ref, forTest: string) {
    r in g && g[r].ForTest == forTest && g[r].PkgPath != "" && g[r].PkgPath != "unsafe"
  }

  class Entries {
    var of: Response

    constructor (resp: Response)
      ensures of == resp
    {
      of := resp;
    }
  }

  predicate Provides(g: Graph, forTest: string, ids: set<string>, r: Ref, p: string, a: ResolvedArchive) {
    Rebuilt(g, r, forTest) && g[r].ID in ids && g[r].PkgPath == p && a == ResolvedArchive(g[r].ExportFile, forTest)
  }

  /** Some rebuilt package among `ids` has this import path. */
  ghost predicate Touched(g: Graph, forTest: string, ids: set<string>, p: string) {
    exists r :: Rebuilt(g, r, forTest) && g[r].ID in ids && g[r].PkgPath == p
  }

  /** Exactly the paths of rebuilt packages among `ids` are overwritten, by archives of theirs. */
  ghost predicate Overwrites(g: Graph, forTest: string, ids: set<string>, resp: Response, next: Response) {
    forall p ::
      if Touched(g, forTest, ids, p) then p in next && exists r :: Provides(g, forTest, ids, r, p, next[p])
      else (p in next <==> p in resp) && (p in resp ==> next[p] == resp[p])
  }

  ghost predicate AllExported(g: Graph, forTest: string, ids: set<string>) {
    forall r | Rebuilt(g, r, forTest) && g[r].ID in ids :: g[r].ExportFile != ""
  }

  /** A reachable package of that test that has no archive. */
  ghost predicate LacksExport(g: Graph, forTest: string, a: Ref) {
    exists r :: Rebuilt(g, r, forTest) && g[r].ExportFile == "" && Reaches(Variants(g, forTest), a, r)
  }

  lemma OverwritesCompose(g: Graph, forTest: string, one: set<string>, two: set<string>, resp: Response,
                          middle: Response, next: Response)
    requires Overwrites(g, forTest, one, resp, middle) && Overwrites(g, forTest, two, middle, next)
    ensures Overwrites(g, forTest, one + two, resp, next)
  {
    forall p
      ensures if Touched(g, forTest, one + two, p) then p in next
                && exists r :: Provides(g, forTest, one + two, r, p, next[p])
              else (p in next <==> p in resp) && (p in resp ==> next[p] == resp[p])
    {
      if Touched(g, forTest, two, p) {
        var r :| Provides(g, forTest, two, r, p, next[p]);
        assert Provides(g, forTest, one + two, r, p, next[p]);
      } else if Touched(g, forTest, one, p) {
        var r :| Provides(g, forTest, one, r, p, middle[p]);
        assert Provides(g, forTest, one + two, r, p, next[p]);
      }
    }
  }

  /** One package of that test: its entry, if it has an import path. */
  method Record(g: Graph, pkg: Ref, forTest: string, resp: Entries) returns (ok: bool)
    requires WellFormed(g) && pkg in g && g[pkg].ForTest == forTest
    modifies resp
    ensures ok <==> (Rebuilt(g, pkg, forTest) ==> g[pkg].ExportFile != "")
    ensures ok ==> Overwrites(g, forTest, {g[pkg].ID}, old(resp.of), resp.of)
  {
    if g[pkg].PkgPath != "" && g[pkg].PkgPath != "unsafe" {
      if g[pkg].ExportFile == "" { return false; }
      resp.of := resp.of[g[pkg].PkgPath := ResolvedArchive(g[pkg].ExportFile, forTest)];
      assert Provides(g, forTest, {g[pkg].ID}, pkg, g[pkg].PkgPath, resp.of[g[pkg].PkgPath]);
    }
    ok := true;
  }

  /** What a walk from `a` has done: reached packages, all with their archives, and recorded these. */
  ghost predicate Explored(g: Graph, forTest: string, a: Ref, before: set<string>, after: set<string>, resp: Response,
                           next: Response)
  {
    && before <= after && AllReached(Variants(g, forTest), a, before, after)
    && AllExported(g, forTest, after - before) && Overwrites(g, forTest, after - before, resp, next)
  }

  lemma ExploredCompose(g: Graph, forTest: string, a: Ref, t: Ref, before: set<string>, middle: set<string>,
                        after: set<string>,
                        resp: Response, held: Response, next: Response)
    requires Explored(g, forTest, a, before, middle, resp, held) && Explored(g, forTest, t, middle, after, held, next)
    requires a in g && t in Targets(Variants(g, forTest), a)
    ensures Explored(g, forTest, a, before, after, resp, next)
  {
    var v := Variants(g, forTest);
    forall r | r in v && v[r].ID in after - before ensures Reaches(v, a, r) {
      if v[r].ID !in middle { ReachesThrough(v, a, t, r); }
    }
    assert after - before == (middle - before) + (after - middle);
    OverwritesCompose(g, forTest, middle - before, after - middle, resp, held, next);
  }

  lemma LacksExportThrough(g: Graph, forTest: string, a: Ref, t: Ref)
    requires a in g && t in Targets(Variants(g, forTest), a) && LacksExport(g, forTest, t)
    ensures LacksExport(g, forTest, a)
  {
    var v := Variants(g, forTest);
    var r :| Rebuilt(g, r, forTest) && g[r].ExportFile == "" && Reaches(v, t, r);
    ReachesThrough(v, a, t, r);
  }

  method VisitVariants(g: Graph, pkg: Ref, forTest: string, resp: Entries, visited: Visited) returns (ok: bool)
    requires WellFormed(g) && pkg in g
    modifies resp, visited
    ensures old(visited.ids) <= visited.ids && g[pkg].ID in visited.ids
    ensures ok ==> Expanded(Variants(g, forTest), old(visited.ids), visited.ids)
    ensures ok ==> Explored(g, forTest, pkg, old(visited.ids), visited.ids, old(resp.of), resp.of)
    ensures !ok ==> LacksExport(g, forTest, pkg)
    decreases Unvisited(g, visited.ids), 0
  {
    if g[pkg].ID in visited.ids { return true; }
    ghost var v, before, first := Variants(g, forTest), visited.ids, resp.of;
    visited.ids := visited.ids + {g[pkg].ID};
    ReachesItself(v, pkg);
    assert visited.ids - before == {g[pkg].ID};
    if g[pkg].ForTest != forTest { return true; }
    ok := Record(g, pkg, forTest, resp);
    if !ok { return; }
    assert pkg in Unvisited(g, before);
    ok := VisitImported(g, pkg, forTest, resp, visited, before, first);
  }

  /** The imports of a package of that test that was just recorded. */
  method VisitImported(g: Graph, pkg: Ref, forTest: string, resp: Entries, visited: Visited, ghost before: set<string>,
                       ghost first: Response)
    returns (ok: bool)
    requires WellFormed(g) && pkg in g && g[pkg].ForTest == forTest && visited.ids == before + {g[pkg].ID}
    requires Explored(g, forTest, pkg, before, visited.ids, first, resp.of)
    modifies resp, visited
    ensures old(visited.ids) <= visited.ids
    ensures ok ==> Expanded(Variants(g, forTest), before, visited.ids)
    ensures ok ==> Explored(g, forTest, pkg, before, visited.ids, first, resp.of)
    ensures !ok ==> LacksExport(g, forTest, pkg)
    decreases Unvisited(g, visited.ids), 1
  {
    ghost var v := Variants(g, forTest);
    ghost var entered := visited.ids;
    var todo := Targets(g, pkg);
    while todo != {}
      invariant todo <= Targets(g, pkg) && entered <= visited.ids
      invariant forall t | t in Targets(g, pkg) - todo :: g[t].ID in visited.ids
      invariant Expanded(v, entered, visited.ids)
      invariant Explored(g, forTest, pkg, before, visited.ids, first, resp.of)
    {
      var imported :| imported in todo;
      ghost var middle, held := visited.ids, resp.of;
      FewerUnvisited(g, entered, visited.ids);
      ok := VisitVariants(g, imported, forTest, resp, visited);
      if !ok {
        LacksExportThrough(g, forTest, pkg, imported);
        return;
      }
      ExploredCompose(g, forTest, pkg, imported, before, middle, visited.ids, first, held, resp.of);
      ExpandedCompose(v, entered, middle, visited.ids);
      todo := todo - {imported};
    }
    ok := true;
    ExpandedWithRoot(v, pkg, before, visited.ids);
  }

  lemma FewerUnvisited(g: Graph, before: set<string>, after: set<string>)
    requires before <= after
    ensures Unvisited(g, after) <= Unvisited(g, before)
  {
  }

  lemma ExpandedCompose(g: Graph, before: set<string>, middle: set<string>, after: set<string>)
    requires Expanded(g, before, middle) && Expanded(g, middle, after) && before <= middle <= after
    ensures Expanded(g, before, after)
  {
  }

  lemma ExpandedWithRoot(g: Graph, root: Ref, before: set<string>, after: set<string>)
    requires root in g && Expanded(g, before + {g[root].ID}, after)
    requires forall t | t in Targets(g, root) :: t in g && g[t].ID in after
    requires forall r | r in g && g[r].ID == g[root].ID :: r == root
    ensures Expanded(g, before, after)
  {
  }

  ghost predicate ClosureAnswer(g: Graph, forTest: string, a: Ref, resp: Response, next: Response) {
    forall p ::
      if VariantPath(g, forTest, a, p)
      then p in next
        && exists r :: ReachesVariant(g, forTest, a, r, p) && next[p] == ResolvedArchive(g[r].ExportFile, forTest)
      else (p in next <==> p in resp) && (p in next ==> next[p] == resp[p])
  }

  /**
   Succeeds exactly if no reachable package of that test lacks its archive, and then overwrites
   exactly the entries of the packages reachable through packages of that test.
   */
  method CollectTestVariantClosure(g: Graph, resp: Entries, pkg: Ref, forTest: string) returns (ok: bool)
    requires WellFormed(g) && pkg in g
    modifies resp
    ensures ok <==> !LacksExport(g, forTest, pkg)
    ensures ok ==> ClosureAnswer(g, forTest, pkg, old(resp.of), resp.of)
  {
    var visited := new Visited();
    ghost var v := Variants(g, forTest);
    ok := VisitVariants(g, pkg, forTest, resp, visited);
    if ok {
      forall r | r in g && Reaches(v, pkg, r)
        ensures g[r].ID in visited.ids
      {
        ExpandedHoldsReachable(v, visited.ids, pkg, r);
      }
      assert visited.ids - {} == visited.ids;
      forall p ensures Touched(g, forTest, visited.ids, p) <==> VariantPath(g, forTest, pkg, p) {
        TouchedIsReached(g, forTest, visited.ids, pkg, p);
      }
    }
  }

  lemma TouchedIsReached(g: Graph, forTest: string, ids: set<string>, a: Ref, p: string)
    requires forall r | r in g :: g[r].ID in ids <==> Reaches(Variants(g, forTest), a, r)
    ensures Touched(g, forTest, ids, p) <==> VariantPath(g, forTest, a, p)
  {
    if Touched(g, forTest, ids, p) {
      var r :| Rebuilt(g, r, forTest) && g[r].ID in ids && g[r].PkgPath == p;
      assert ReachesVariant(g, forTest, a, r, p);
    }
    if VariantPath(g, forTest, a, p) {
      var r :| ReachesVariant(g, forTest, a, r, p);
      assert Rebuilt(g, r, forTest) && g[r].ID in ids && g[r].PkgPath == p;
    }
  }

  predicate IsRebuiltAs(g: Graph, forTest: string, r: Ref, p: string) {
    Rebuilt(g, r, forTest) && g[r].PkgPath == p
  }

  ghost predicate ReachesVariant(g: Graph, forTest: string, a: Ref, r: Ref, p: string) {
    IsRebuiltAs(g, forTest, r, p) && Reaches(Variants(g, forTest), a, r)
  }

  ghost predicate VariantPath(g: Graph, forTest: string, a: Ref, p: string) {
    exists r :: ReachesVariant(g, forTest, a, r, p)
  }

  // ---------------------------------------------------------------- mergeFrom

  predicate Skipped(p: Package) {
    p.PkgPath == "" || p.PkgPath == "unsafe"
  }

  /** The graph as the ordinary response sees it: what has no import path is not looked into. */
  function Listed(g: Graph): (v: Graph)
    ensures v.Keys == g.Keys
  {
    map r | r in g :: if Skipped(g[r]) then g[r].(Imports := map[]) else g[r]
  }

  predicate HasArchive(g: Graph, r: Ref) {
    r in g && !Skipped(g[r]) && g[r].ExportFile != ""
  }

  /** The graph without the imports of packages that have an archive or no import path. */
  function Bare(g: Graph): (v: Graph)
    ensures v.Keys == g.Keys
  {
    map r | r in g :: if HasArchive(g, r) || Skipped(g[r]) then g[r].(Imports := map[]) else g[r]
  }

  /** Every cycle holds a package that has an archive or no import path. */
  ghost predicate Grounded(g: Graph) {
    && (forall r | r in g :: Targets(g, r) <= g.Keys)
    && forall r, t | r in g && t in Targets(Bare(g), r) :: !Reaches(Bare(g), t, r)
  }

  ghost function Below(g: Graph, r: Ref): set<Ref> {
    set t | t in g && Reaches(Bare(g), r, t)
  }

  /** How far merging can go down from a package without meeting an archive. */
  ghost function Depth(g: Graph, r: Ref): nat {
    |Below(g, r)|
  }

  lemma DepthFalls(g: Graph, r: Ref, t: Ref)
    requires Grounded(g) && r in g && !HasArchive(g, r) && !Skipped(g[r]) && t in Targets(g, r)
    ensures Depth(g, t) < Depth(g, r)
  {
    forall u | u in Below(g, t) ensures u in Below(g, r) { ReachesThrough(Bare(g), r, t, u); }
    ReachesItself(Bare(g), r);
    assert r in Below(g, r) && r !in Below(g, t);
    FewerElements(Below(g, t), Below(g, r));
  }

  lemma FewerElements(a: set<Ref>, b: set<Ref>)
    requires a < b
    ensures |a| < |b|
  {
    assert b == a + (b - a) && b - a != {};
  }

  predicate Archived(resp: Response, p: string) {
    p in resp && resp[p].exportFile != ""
  }

  /** Packages whose archive is not in the response yet. */
  function Unarchived(g: Graph, resp: Response): set<Ref> {
    set r | r in g && HasArchive(g, r) && !Archived(resp, g[r].PkgPath)
  }

  /** An entry that has a file stays as it is. */
  ghost predicate KeepsArchives(resp: Response, next: Response) {
    forall p | Archived(resp, p) :: p in next && next[p] == resp[p]
  }

  lemma FewerUnarchived(g: Graph, resp: Response, next: Response)
    requires KeepsArchives(resp, next)
    ensures Unarchived(g, next) <= Unarchived(g, resp)
  {
    forall r | r in Unarchived(g, next) ensures r in Unarchived(g, resp) { assert !Archived(next, g[r].PkgPath); }
  }

  /** Merging what a package imports, when its own entry was just made, may take what it leaves of `bound`. */
  ghost predicate Within(g: Graph, pkg: Ref, resp: Response, bound: set<Ref>) {
    Unarchived(g, resp) <= bound && (HasArchive(g, pkg) ==> pkg in bound && pkg !in Unarchived(g, resp))
  }

  ghost predicate UniquePaths(g: Graph) {
    forall p, q | p in g && q in g && g[p].PkgPath == g[q].PkgPath && !Skipped(g[p]) :: p == q
  }

  predicate Has(g: Graph, resp: Response, r: Ref) {
    r in g && !Skipped(g[r]) && g[r].PkgPath in resp
  }

  /** Entries are only added, or filled in when they had no file, from packages reachable from `a`. */
  ghost predicate GrewFrom(g: Graph, a: Ref, resp: Response, next: Response) {
    && resp.Keys <= next.Keys
    && forall p | p in next && (p !in resp || next[p] != resp[p]) ::
         exists r :: r in g && Reaches(Listed(g), a, r) && FromPackage(g, r, p, next[p])
  }

  predicate FromPackage(g: Graph, r: Ref, p: string, a: ResolvedArchive) {
    r in g && !Skipped(g[r]) && g[r].PkgPath == p && a == ResolvedArchive(g[r].ExportFile, "")
  }

  /** The package has no errors unless `failed`, and its imports have entries too. */
  ghost predicate Whole(g: Graph, next: Response, failed: bool, r: Ref, p: string) {
    && r in g && !Skipped(g[r]) && g[r].PkgPath == p && (g[r].errors ==> failed)
    && Covered(g, next, Targets(g, r))
  }

  ghost predicate AddedWhole(g: Graph, resp: Response, next: Response, failed: bool) {
    forall p | p in next && p !in resp :: exists r :: Whole(g, next, failed, r, p)
  }

  ghost predicate ReachesErrors(g: Graph, a: Ref) {
    exists r :: r in g && !Skipped(g[r]) && g[r].errors && Reaches(Listed(g), a, r)
  }

  lemma GrewThrough(g: Graph, a: Ref, t: Ref, resp: Response, held: Response, next: Response)
    requires GrewFrom(g, a, resp, held) && GrewFrom(g, t, held, next) && a in g && t in Targets(Listed(g), a)
    ensures GrewFrom(g, a, resp, next)
  {
    forall p | p in next && (p !in resp || next[p] != resp[p])
      ensures exists r :: r in g && Reaches(Listed(g), a, r) && FromPackage(g, r, p, next[p])
    {
      if p in held && next[p] == held[p] {
        var r :| r in g && Reaches(Listed(g), a, r) && FromPackage(g, r, p, held[p]);
      } else {
        var r :| r in g && Reaches(Listed(g), t, r) && FromPackage(g, r, p, next[p]);
        ReachesThrough(Listed(g), a, t, r);
      }
    }
  }

  lemma ErrorsThrough(g: Graph, a: Ref, t: Ref)
    requires a in g && t in Targets(Listed(g), a) && ReachesErrors(g, t)
    ensures ReachesErrors(g, a)
  {
    var r :| r in g && !Skipped(g[r]) && g[r].errors && Reaches(Listed(g), t, r);
    ReachesThrough(Listed(g), a, t, r);
  }

  /** What one call achieves. */
  ghost predicate MergedFrom(g: Graph, pkg: Ref, resp: Response, next: Response, failed: bool) {
    && pkg in g && (Skipped(g[pkg]) || Has(g, next, pkg))
    && GrewFrom(g, pkg, resp, next) && AddedWhole(g, resp, next, failed) && (failed ==> ReachesErrors(g, pkg))
  }

  method MergeFrom(g: Graph, pkg: Ref, resp: Entries) returns (failed: bool)
    requires Grounded(g) && pkg in g
    modifies resp
    ensures MergedFrom(g, pkg, old(resp.of), resp.of, failed) && KeepsArchives(old(resp.of), resp.of)
    decreases Unarchived(g, resp.of), Depth(g, pkg), 2
  {
    var p := g[pkg];
    if Skipped(p) || (p.PkgPath in resp.of && resp.of[p.PkgPath].exportFile != "") { return false; }
    ghost var v, first, bound := Listed(g), resp.of, Unarchived(g, resp.of);
    failed := p.errors;
    resp.of := resp.of[p.PkgPath := ResolvedArchive(p.ExportFile, "")];
    ReachesItself(v, pkg);
    assert FromPackage(g, pkg, p.PkgPath, resp.of[p.PkgPath]);
    FewerUnarchived(g, first, resp.of);
    var depsFailed := MergeImports(g, pkg, resp, first, bound);
    failed := failed || depsFailed;
    assert failed ==> ReachesErrors(g, pkg);
  }

  /** The package has its entry, and everything that was added is whole. */
  ghost predicate WholeFrom(g: Graph, pkg: Ref, first: Response, now: Response, failed: bool) {
    && Has(g, now, pkg) && GrewFrom(g, pkg, first, now) && AddedWhole(g, first, now, failed || g[pkg].errors)
    && (failed ==> ReachesErrors(g, pkg))
  }

  /** The imports of a package whose entry was just made. */
  method MergeImports(g: Graph, pkg: Ref, resp: Entries, ghost first: Response, ghost bound: set<Ref>)
    returns (failed: bool)
    requires Grounded(g) && Has(g, resp.of, pkg) && Within(g, pkg, resp.of, bound)
    requires GrewFrom(g, pkg, first, resp.of) && resp.of.Keys == first.Keys + {g[pkg].PkgPath}
    modifies resp
    ensures WholeFrom(g, pkg, first, resp.of, failed) && KeepsArchives(old(resp.of), resp.of)
    decreases bound, Depth(g, pkg), 1
  {
    ghost var entered, done: set<Ref> := resp.of, {};
    failed := false;
    var todo := Targets(g, pkg);
    MergingStarts(g, pkg, first, entered);
    while todo != {}
      invariant todo + done == Targets(g, pkg)
      invariant Merging(g, pkg, first, entered, resp.of, done, failed)
    {
      var dep :| dep in todo;
      failed := MergeImport(g, pkg, dep, resp, failed, first, entered, done, bound);
      todo, done := todo - {dep}, done + {dep};
    }
    AddedWithRoot(g, pkg, first, entered, resp.of, failed);
  }

  /** One more import. */
  method MergeImport(g: Graph, pkg: Ref, dep: Ref, resp: Entries, before: bool, ghost first: Response,
                     ghost entered: Response, ghost done: set<Ref>, ghost bound: set<Ref>) returns (failed: bool)
    requires Grounded(g) && pkg in g && !Skipped(g[pkg]) && dep in Targets(g, pkg)
    requires Merging(g, pkg, first, entered, resp.of, done, before)
    requires Within(g, pkg, entered, bound)
    modifies resp
    ensures Merging(g, pkg, first, entered, resp.of, done + {dep}, failed)
    decreases bound, Depth(g, pkg), 0
  {
    ghost var held := resp.of;
    FewerUnarchived(g, entered, held);
    if !HasArchive(g, pkg) { DepthFalls(g, pkg, dep); }
    var depFailed := MergeFrom(g, dep, resp);
    failed := before || depFailed;
    MergingMore(g, pkg, dep, first, entered, held, resp.of, done, before, depFailed);
  }

  /** What merging the imports in `done` has achieved. */
  ghost predicate Merging(g: Graph, pkg: Ref, first: Response, entered: Response, now: Response, done: set<Ref>,
                          failed: bool)
  {
    && entered.Keys <= now.Keys && KeepsArchives(entered, now) && Covered(g, now, done)
    && GrewFrom(g, pkg, first, now) && AddedWhole(g, entered, now, failed)
    && (failed ==> ReachesErrors(g, pkg))
  }

  lemma MergingStarts(g: Graph, pkg: Ref, first: Response, entered: Response)
    requires GrewFrom(g, pkg, first, entered)
    ensures Merging(g, pkg, first, entered, entered, {}, false)
  {
  }

  lemma MergingMore(g: Graph, pkg: Ref, dep: Ref, first: Response, entered: Response, held: Response, now: Response,
                    done: set<Ref>, before: bool, depFailed: bool)
    requires Merging(g, pkg, first, entered, held, done, before) && pkg in g && !Skipped(g[pkg])
    requires dep in Targets(g, pkg)
    requires MergedFrom(g, dep, held, now, depFailed) && KeepsArchives(held, now)
    ensures Merging(g, pkg, first, entered, now, done + {dep}, before || depFailed)
  {
    GrewThrough(g, pkg, dep, first, held, now);
    if depFailed { ErrorsThrough(g, pkg, dep); }
    AddedCompose(g, entered, held, now, before, depFailed);
    CoveredMore(g, held, now, done, dep);
  }

  /** Each of these packages has an entry, if it can have one. */
  ghost predicate Covered(g: Graph, resp: Response, packages: set<Ref>) {
    forall t | t in packages :: t in g && (Skipped(g[t]) || Has(g, resp, t))
  }

  lemma CoveredMore(g: Graph, held: Response, next: Response, done: set<Ref>, dep: Ref)
    requires Covered(g, held, done) && held.Keys <= next.Keys && dep in g && (Skipped(g[dep]) || Has(g, next, dep))
    ensures Covered(g, next, done + {dep})
  {
  }

  lemma AddedCompose(g: Graph, resp: Response, held: Response, next: Response, one: bool, two: bool)
    requires AddedWhole(g, resp, held, one) && AddedWhole(g, held, next, two) && held.Keys <= next.Keys
    ensures AddedWhole(g, resp, next, one || two)
  {
    var both := one || two;
    forall p | p in next && p !in resp ensures exists r :: Whole(g, next, both, r, p) {
      if p in held {
        var r :| Whole(g, held, one, r, p);
        assert Whole(g, next, both, r, p);
      } else {
        var r :| Whole(g, next, two, r, p);
        assert Whole(g, next, both, r, p);
      }
    }
  }

  lemma AddedWithRoot(g: Graph, root: Ref, first: Response, entered: Response, next: Response, failed: bool)
    requires Merging(g, root, first, entered, next, Targets(g, root), failed) && Has(g, entered, root)
    requires entered.Keys == first.Keys + {g[root].PkgPath}
    ensures WholeFrom(g, root, first, next, failed) && KeepsArchives(entered, next)
  {
    var both := failed || g[root].errors;
    assert Whole(g, next, both, root, g[root].PkgPath);
    forall p | p in next && p !in entered ensures exists r :: Whole(g, next, both, r, p) {
      var r :| Whole(g, next, failed, r, p);
      assert Whole(g, next, both, r, p);
    }
  }

  /** An ordinary response: every package reachable from the roots that has an import path, and no other. */
  method OrdinaryResponse(g: Graph, roots: seq<Ref>) returns (resp: Option<Response>)
    requires Grounded(g) && UniquePaths(g) && forall r | r in roots :: r in g
    ensures resp.None? <==> exists root :: root in roots && ReachesErrors(g, root)
    ensures resp.Some? ==> forall r | r in g && !Skipped(g[r]) ::
              g[r].PkgPath in resp.value <==> ReachedFrom(Listed(g), roots, r)
    ensures resp.Some? ==> forall p | p in resp.value :: exists r :: FromPackage(g, r, p, resp.value[p])
  {
    var entries := new Entries(map[]);
    var failed := false;
    for i := 0 to |roots|
      invariant fresh(entries) && AddedWhole(g, map[], entries.of, failed)
      invariant forall k | 0 <= k < i :: Skipped(g[roots[k]]) || Has(g, entries.of, roots[k])
      invariant forall p | p in entries.of :: exists r ::
                  ReachedFrom(Listed(g), roots, r) && FromPackage(g, r, p, entries.of[p])
      invariant failed ==> exists root :: root in roots && ReachesErrors(g, root)
    {
      ghost var held, before := entries.of, failed;
      assert roots[i] in roots;
      var rootFailed := MergeFrom(g, roots[i], entries);
      failed := failed || rootFailed;
      AddedCompose(g, map[], held, entries.of, before, rootFailed);
      forall p | p in entries.of
        ensures exists r :: ReachedFrom(Listed(g), roots, r) && FromPackage(g, r, p, entries.of[p])
      {
        if p in held && entries.of[p] == held[p] {
          ghost var r :| ReachedFrom(Listed(g), roots, r) && FromPackage(g, r, p, held[p]);
        } else {
          ghost var r :| r in g && Reaches(Listed(g), roots[i], r) && FromPackage(g, r, p, entries.of[p]);
          assert ReachedFrom(Listed(g), roots, r);
        }
      }
    }
    WholeHoldsReachable(g, roots, entries.of, failed);
    resp := if failed then None else Some(entries.of);
  }

  lemma {:induction false} WholeHoldsWalk(g: Graph, resp: Response, failed: bool, path: seq<Ref>, a: Ref, b: Ref)
    requires AddedWhole(g, map[], resp, failed) && UniquePaths(g) && Walk(Listed(g), path, a, b)
    requires Skipped(g[a]) || Has(g, resp, a)
    ensures b in g && (Skipped(g[b]) || (Has(g, resp, b) && (g[b].errors ==> failed)))
    decreases |path|
  {
    if !Skipped(g[a]) {
      var r :| Whole(g, resp, failed, r, g[a].PkgPath);
      assert r == a;
    }
    if |path| > 1 {
      assert path[1] in Targets(g, a);
      WholeHoldsWalk(g, resp, failed, path[1..], path[1], b);
    }
  }

  lemma WholeHoldsReachable(g: Graph, roots: seq<Ref>, resp: Response, failed: bool)
    requires AddedWhole(g, map[], resp, failed) && UniquePaths(g)
    requires forall root | root in roots :: root in g && (Skipped(g[root]) || Has(g, resp, root))
    ensures forall r | ReachedFrom(Listed(g), roots, r) :: r in g && (Skipped(g[r]) || Has(g, resp, r))
    ensures (exists root :: root in roots && ReachesErrors(g, root)) ==> failed
  {
    forall r | ReachedFrom(Listed(g), roots, r)
      ensures r in g && (Skipped(g[r]) || (Has(g, resp, r) && (g[r].errors ==> failed)))
    {
      var root :| root in roots && Reaches(Listed(g), root, r);
      var path :| Walk(Listed(g), path, root, r);
      WholeHoldsWalk(g, resp, failed, path, root, r);
    }
    if exists root :: root in roots && ReachesErrors(g, root) {
      var root :| root in roots && ReachesErrors(g, root);
      var r :| r in g && !Skipped(g[r]) && g[r].errors && Reaches(Listed(g), root, r);
      assert ReachedFrom(Listed(g), roots, r);
    }
  }

  // ---------------------------------------------------------------- mergeTestVariant

  datatype VariantRequest = VariantRequest(Pattern: string, TestVariantFor: string)

  predicate IsAt(g: Graph, r: Ref, pkgPath: string) {
    r in g && g[r].PkgPath == pkgPath
  }

  /** The last package of the list with that path. */
  method LastAt(g: Graph, all: seq<Ref>, pkgPath: string) returns (found: Option<Ref>)
    requires forall r | r in all :: r in g
    ensures found.Some? ==> found.value in all && IsAt(g, found.value, pkgPath)
    ensures found.Some? ==> exists i | 0 <= i < |all| ::
              all[i] == found.value && forall k | i < k < |all| :: !IsAt(g, all[k], pkgPath)
    ensures found.None? <==> forall r | r in all :: !IsAt(g, r, pkgPath)
  {
    found := None;
    ghost var last := 0;
    for i := 0 to |all|
      invariant found.Some? ==> last < i && all[last] == found.value && IsAt(g, found.value, pkgPath)
      invariant forall k | 0 <= k < i && (found.None? || last < k) :: !IsAt(g, all[k], pkgPath)
    {
      assert all[i] in all;
      if g[all[i]].PkgPath == pkgPath { found, last := Some(all[i]), i; }
    }
  }

  /** Go rebuilt the package for its own tests. */
  ghost predicate Augmented(g: Graph, roots: seq<Ref>, path: string) {
    exists r :: r in g && ReachedFrom(g, roots, r) && IsVariant(g, r, path, path)
  }

  ghost predicate RootImports(g: Graph, roots: seq<Ref>, req: VariantRequest) {
    forall r | r in g && ReachedFrom(g, roots, r) && IsAt(g, r, req.Pattern) ::
      ReachesByImport(g, r, req.TestVariantFor)
  }

  /** Some package that could be the one asked for imports the package under test, if only through others. */
  ghost predicate SomeRootImports(g: Graph, roots: seq<Ref>, req: VariantRequest) {
    exists r :: r in g && ReachedFrom(g, roots, r) && IsAt(g, r, req.Pattern)
                && ReachesByImport(g, r, req.TestVariantFor)
  }

  ghost predicate NoneRebuilt(resp: Response) {
    forall p | p in resp :: resp[p].forTest == ""
  }

  /**
   An ordinary response with the rebuilt packages in place can be merged: nothing of another test, nor
   the target itself.
   */
  ghost predicate VariantAnswer(g: Graph, ordinary: seq<Ref>, req: VariantRequest, resp: Response, next: Response) {
    NoneRebuilt(resp) && (req.TestVariantFor in resp ==> RootImports(g, ordinary, req)) ==>
      Mergeable(next, req.TestVariantFor)
  }

  /**
   The entries of what is rebuilt along with the package that was asked for are overwritten, that of the
   package under test goes.
   */
  ghost predicate RebuiltAnswer(req: VariantRequest, h: Graph, loaded: seq<Ref>, resp: Response, next: Response) {
    && req.TestVariantFor !in next
    && (!Augmented(h, loaded, req.TestVariantFor) ==> next == resp - {req.TestVariantFor})
    && (Augmented(h, loaded, req.TestVariantFor) ==>
          exists v, closed :: IsVariant(h, v, req.Pattern, req.TestVariantFor) && ReachedFrom(h, loaded, v)
                              && h[v].ExportFile != "" && !LacksExport(h, req.TestVariantFor, v)
                              && ClosureAnswer(h, req.TestVariantFor, v, resp, closed)
                              && next == closed - {req.TestVariantFor})
    && (Augmented(h, loaded, req.TestVariantFor) && req.Pattern != "" && req.Pattern != "unsafe" ==>
          req.Pattern in next && next[req.Pattern].forTest == req.TestVariantFor && next[req.Pattern].exportFile != "")
  }

  ghost predicate Broken(h: Graph, loaded: seq<Ref>) {
    exists r :: r in h && ReachedFrom(h, loaded, r) && h[r].errors
  }

  /** What keeps a nested load from being used: errors, or a package that was not rebuilt as it should have been. */
  ghost predicate Unbuilt(req: VariantRequest, h: Graph, loaded: seq<Ref>) {
    || Broken(h, loaded)
    || (Augmented(h, loaded, req.TestVariantFor)
        && ((forall r | r in h && ReachedFrom(h, loaded, r) :: !IsVariant(h, r, req.Pattern, req.TestVariantFor))
            || exists r :: IsVariant(h, r, req.Pattern, req.TestVariantFor) && ReachedFrom(h, loaded, r)
                           && (h[r].ExportFile == "" || LacksExport(h, req.TestVariantFor, r))))
  }

  /** Some package that could be the one under test has a source directory, or has none. */
  ghost predicate SomeTarget(g: Graph, ordinary: seq<Ref>, req: VariantRequest, hasSource: bool) {
    exists r :: IsAt(g, r, req.TestVariantFor) && ReachedFrom(g, ordinary, r) && g[r].hasSource == hasSource
  }

  ghost predicate Rootless(g: Graph, ordinary: seq<Ref>, req: VariantRequest) {
    forall r | r in g && ReachedFrom(g, ordinary, r) :: !IsAt(g, r, req.Pattern)
  }

  /** The package under test keeps its archive, marked if Go rebuilt it for its own tests. */
  ghost predicate ProvenanceAnswer(h: Graph, loaded: seq<Ref>, target: string, resp: Response, next: Response) {
    next == if Augmented(h, loaded, target)
            then resp[target := ResolvedArchive(if target in resp then resp[target].exportFile else "", target)]
            else resp
  }

  /**
   Replaces the entries of an ordinary response by those of the packages that Go rebuilds for
   the tests. `prepared` tells whether the overlay files could be put in place, `loaded` what
   the nested load returned, if it did.
   */
  method MergeTestVariant(g: Graph, ordinary: seq<Ref>, req: VariantRequest, resp: Entries,
                          prepared: bool, h: Graph, loaded: Option<seq<Ref>>) returns (ok: bool)
    requires WellFormed(g) && forall r | r in ordinary :: r in g
    requires WellFormed(h) && (loaded.Some? ==> forall r | r in loaded.value :: r in h)
    modifies resp
    ensures Rootless(g, ordinary, req) ==> !ok
    ensures req.Pattern == req.TestVariantFor ==>
              (ok <==> !Rootless(g, ordinary, req) && loaded.Some? && !Broken(h, loaded.value))
    ensures ok && req.Pattern == req.TestVariantFor ==>
              ProvenanceAnswer(h, loaded.value, req.TestVariantFor, old(resp.of), resp.of)
    ensures req.Pattern != req.TestVariantFor && !Rootless(g, ordinary, req) && !SomeRootImports(g, ordinary, req) ==>
              ok && resp.of == old(resp.of)
    ensures !ok && req.Pattern != req.TestVariantFor && !Rootless(g, ordinary, req) ==>
              !prepared || SomeTarget(g, ordinary, req, false) || loaded.None? || Unbuilt(req, h, loaded.value)
    ensures ok && req.Pattern != req.TestVariantFor ==>
              || (resp.of == old(resp.of) && !RootImports(g, ordinary, req))
              || (prepared && loaded.Some? && SomeRootImports(g, ordinary, req) && SomeTarget(g, ordinary, req, true)
                  && !Broken(h, loaded.value) && RebuiltAnswer(req, h, loaded.value, old(resp.of), resp.of))
    ensures ok && req.Pattern != req.TestVariantFor ==> VariantAnswer(g, ordinary, req, old(resp.of), resp.of)
  {
    var all := CollectPackages(g, ordinary);
    var packageUnderTest := LastAt(g, all, req.TestVariantFor);
    var root := LastAt(g, all, req.Pattern);
    if root.None? { return false; }
    if req.Pattern == req.TestVariantFor {
      ok := ResolveTestTargetProvenance(h, loaded, req.TestVariantFor, resp);
      return;
    }
    var imports := ImportsPackage(g, root.value, req.TestVariantFor);
    if !imports {
      assert !RootImports(g, ordinary, req);
      return true;
    }
    ImportedIsReached(g, ordinary, root.value, req.TestVariantFor);
    if packageUnderTest.None? || !g[packageUnderTest.value].hasSource || !prepared || loaded.None? { return false; }
    ok := MergeRebuilt(req, resp, h, loaded.value);
  }

  lemma ImportedIsReached(g: Graph, ordinary: seq<Ref>, a: Ref, target: string)
    requires WellFormed(g) && a in g && ReachedFrom(g, ordinary, a) && ReachesByImport(g, a, target)
    ensures exists r :: IsAt(g, r, target) && ReachedFrom(g, ordinary, r)
  {
    var root :| root in ordinary && Reaches(g, root, a);
    var r :| r in g && Reaches(g, a, r) && ImportsTarget(g, r, target);
    var t :| t in Targets(g, r) && t in g && g[t].PkgPath == target;
    var here, there :| Walk(g, here, root, a) && Walk(g, there, a, r);
    ReachesItself(g, t);
    ReachesThrough(g, r, t, t);
    ReachesAlong(g, there, a, r, t);
    ReachesAlong(g, here, root, a, t);
    assert IsAt(g, t, target) && ReachedFrom(g, ordinary, t);
  }

  lemma {:induction false} ReachesAlong(g: Graph, path: seq<Ref>, a: Ref, b: Ref, c: Ref)
    requires Walk(g, path, a, b) && Reaches(g, b, c)
    ensures Reaches(g, a, c)
    decreases |path|
  {
    if |path| > 1 {
      ReachesAlong(g, path[1..], path[1], b, c);
      ReachesThrough(g, a, path[1], c);
    }
  }

  /** The part after the nested load. */
  method MergeRebuilt(req: VariantRequest, resp: Entries, h: Graph, loaded: seq<Ref>) returns (ok: bool)
    requires WellFormed(h) && forall r | r in loaded :: r in h
    modifies resp
    ensures ok && NoneRebuilt(old(resp.of)) ==> Mergeable(resp.of, req.TestVariantFor)
    ensures ok && req.Pattern != req.TestVariantFor ==> RebuiltAnswer(req, h, loaded, old(resp.of), resp.of)
    ensures ok ==> !Broken(h, loaded)
    ensures !ok ==> Unbuilt(req, h, loaded)
  {
    ghost var first := resp.of;
    var built := CollectPackages(h, loaded);
    var failed := HasErrors(h, built);
    if failed { return false; }
    var target := FindTestVariant(h, built, req.TestVariantFor, req.TestVariantFor);
    if target.None? {
      resp.of := resp.of - {req.TestVariantFor};
      assert !Augmented(h, loaded, req.TestVariantFor);
      return true;
    }
    assert Augmented(h, loaded, req.TestVariantFor);
    var variant := FindTestVariant(h, built, req.Pattern, req.TestVariantFor);
    if variant.None? || h[variant.value].ExportFile == "" { return false; }
    ok := MergeClosure(req, resp, h, loaded, variant.value);
  }

  method MergeClosure(req: VariantRequest, resp: Entries, h: Graph, loaded: seq<Ref>, variant: Ref) returns (ok: bool)
    requires WellFormed(h) && IsVariant(h, variant, req.Pattern, req.TestVariantFor) && ReachedFrom(h, loaded, variant)
    requires Augmented(h, loaded, req.TestVariantFor) && h[variant].ExportFile != ""
    modifies resp
    ensures ok <==> !LacksExport(h, req.TestVariantFor, variant)
    ensures ok && NoneRebuilt(old(resp.of)) ==> Mergeable(resp.of, req.TestVariantFor)
    ensures ok && req.Pattern != req.TestVariantFor ==> RebuiltAnswer(req, h, loaded, old(resp.of), resp.of)
  {
    ghost var first := resp.of;
    ok := CollectTestVariantClosure(h, resp, variant, req.TestVariantFor);
    if !ok { return; }
    ClosureIsMergeable(h, variant, req, first, resp.of);
    resp.of := resp.of - {req.TestVariantFor};
  }

  method HasErrors(g: Graph, all: seq<Ref>) returns (failed: bool)
    requires forall r | r in all :: r in g
    ensures failed <==> exists r :: r in all && g[r].errors
  {
    failed := false;
    for i := 0 to |all|
      invariant failed <==> exists k :: 0 <= k < i && g[all[k]].errors
    {
      assert all[i] in all;
      if g[all[i]].errors { failed := true; }
    }
  }

  lemma ClosureIsMergeable(h: Graph, variant: Ref, req: VariantRequest, first: Response, now: Response)
    requires variant in h && IsVariant(h, variant, req.Pattern, req.TestVariantFor)
    requires !LacksExport(h, req.TestVariantFor, variant)
    requires ClosureAnswer(h, req.TestVariantFor, variant, first, now)
    ensures NoneRebuilt(first) ==> Mergeable(now - {req.TestVariantFor}, req.TestVariantFor)
    ensures req.Pattern != "" && req.Pattern != "unsafe" ==>
              req.Pattern in now && now[req.Pattern].forTest == req.TestVariantFor && now[req.Pattern].exportFile != ""
  {
    var v := Variants(h, req.TestVariantFor);
    ReachesItself(v, variant);
    if req.Pattern != "" && req.Pattern != "unsafe" {
      assert ReachesVariant(h, req.TestVariantFor, variant, variant, req.Pattern);
      var r :| ReachesVariant(h, req.TestVariantFor, variant, r, req.Pattern)
               && now[req.Pattern] == ResolvedArchive(h[r].ExportFile, req.TestVariantFor);
      assert Rebuilt(h, r, req.TestVariantFor) && Reaches(v, variant, r);
    }
  }

  /** For the package under test itself only the provenance is looked up: was it rebuilt for its own tests? */
  method ResolveTestTargetProvenance(h: Graph, loaded: Option<seq<Ref>>, target: string, resp: Entries)
    returns (ok: bool)
    requires WellFormed(h) && (loaded.Some? ==> forall r | r in loaded.value :: r in h)
    modifies resp
    ensures ok ==> loaded.Some? && ProvenanceAnswer(h, loaded.value, target, old(resp.of), resp.of)
    ensures ok <==> loaded.Some? && !Broken(h, loaded.value)
  {
    if loaded.None? { return false; }
    var built := CollectPackages(h, loaded.value);
    var failed := HasErrors(h, built);
    if failed { return false; }
    var variant := FindTestVariant(h, built, target, target);
    ok := true;
    if variant.Some? {
      assert Augmented(h, loaded.value, target);
      var exportFile := if target in resp.of then resp.of[target].exportFile else "";
      resp.of := resp.of[target := ResolvedArchive(exportFile, target)];
    }
  }

  lemma {:induction false} WalkEndsWithImport(g: Graph, path: seq<Ref>, a: Ref, b: Ref)
    requires WellFormed(g) && Walk(Listed(g), path, a, b) && a != b
    ensures b in g && ReachesByImport(g, a, g[b].PkgPath)
    decreases |path|
  {
    var t := path[1];
    assert t in Targets(g, a) && t in g;
    ReachesItself(g, a);
    if t == b {
      assert ImportsTarget(g, a, g[b].PkgPath);
    } else {
      WalkEndsWithImport(g, path[1..], t, b);
      var r :| r in g && Reaches(g, t, r) && ImportsTarget(g, r, g[b].PkgPath);
      ReachesThrough(g, a, t, r);
    }
  }

  /**
   The ordinary response of the package that was asked for holds another package only if that is
   imported, so the answer merges.
   */
  lemma OrdinaryResponsesFit(g: Graph, roots: seq<Ref>, req: VariantRequest, resp: Response)
    requires WellFormed(g) && UniquePaths(g) && forall r | r in roots :: IsAt(g, r, req.Pattern)
    requires forall p | p in resp :: exists r :: FromPackage(g, r, p, resp[p])
    requires forall r | r in g && !Skipped(g[r]) :: g[r].PkgPath in resp <==> ReachedFrom(Listed(g), roots, r)
    requires req.Pattern != req.TestVariantFor && req.Pattern != "" && req.Pattern != "unsafe"
    ensures NoneRebuilt(resp) && (req.TestVariantFor in resp ==> RootImports(g, roots, req))
  {
    if req.TestVariantFor in resp {
      var r :| FromPackage(g, r, req.TestVariantFor, resp[req.TestVariantFor]);
      var root :| root in roots && Reaches(Listed(g), root, r);
      var path :| Walk(Listed(g), path, root, r);
      WalkEndsWithImport(g, path, root, r);
    }
  }
}
