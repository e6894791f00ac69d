/**
 From aspects to the advice applied at a node: filtering by package (imports.go) and by file
 (parser.go), collecting and numbering what matches (injector.go), and ordering it
 (advice/order.go).
 */
module Weaving {
  import opened Wrappers
  import opened Ordering
  import opened May
  import opened Syntax
  import opened Globstar
  import opened Join
  import opened Pruning
  import opened Scan

  /** Where orderable advice asks to run. */
  datatype Place = Place(namespace: string, order: int)
  datatype Advice = Advice(id: nat, place: Option<Place>)
  datatype Aspect = Aspect(id: string, joinPoint: Point, advice: seq<Advice>)
  datatype OrderedAdvice = OrderedAdvice(aspectID: string, advice: Advice, index: nat, namespace: string, order: int)

  /** The highest code point, so that advice without a namespace runs last. */
  const DEFAULT_NAMESPACE := "\U{10FFFF}"
  const DEFAULT_ORDER := 0

  function NewOrderedAdvice(aspectID: string, advice: Advice, index: nat): OrderedAdvice {
    match advice.place
    case Some(place) => OrderedAdvice(aspectID, advice, index, place.namespace, place.order)
    case None => OrderedAdvice(aspectID, advice, index, DEFAULT_NAMESPACE, DEFAULT_ORDER)
  }

  function Compare(a: string, b: string): int {
    if a == b then 0 else if Below(a, b) then -1 else 1
  }

  function AdviceSorter(a: OrderedAdvice, b: OrderedAdvice): int {
    if Compare(a.namespace, b.namespace) != 0 then Compare(a.namespace, b.namespace)
    else if a.order != b.order then a.order - b.order
    else a.index - b.index
  }

  predicate NotAfter(a: OrderedAdvice, b: OrderedAdvice) {
    AdviceSorter(a, b) <= 0
  }

  // ---------------------------------------------------------------- what a node receives

  function Numbered(aspectID: string, advice: seq<Advice>, index: nat): seq<OrderedAdvice> {
    if advice == [] then []
    else [NewOrderedAdvice(aspectID, advice[0], index)] + Numbered(aspectID, advice[1..], index + 1)
  }

  /** Advice of the aspects that match, numbered in definition order from `index` on. */
  function Collect(env: Env, aspects: seq<Aspect>, c: Context, index: nat): seq<OrderedAdvice> {
    if aspects == [] then []
    else if !Matches(env, aspects[0].joinPoint, c) then Collect(env, aspects[1..], c, index)
    else
      var mine := Numbered(aspects[0].id, aspects[0].advice, index);
      mine + Collect(env, aspects[1..], c, index + |mine|)
  }

  function Injected(env: Env, aspects: seq<Aspect>, c: Context): seq<OrderedAdvice> {
    Sort(NotAfter, Collect(env, aspects, c, 0))
  }

  function KeepForPackage(env: Env, aspects: seq<Aspect>, pkg: PackageContext): seq<Aspect> {
    if aspects == [] then []
    else
      (if PackageMay(env, aspects[0].joinPoint, pkg) == NeverMatch then [] else [aspects[0]])
      + KeepForPackage(env, aspects[1..], pkg)
  }

  function KeepForFile(aspects: seq<Aspect>, file: FileContext): seq<Aspect> {
    if aspects == [] then []
    else
      (if FileMay(aspects[0].joinPoint, file) == NeverMatch then [] else [aspects[0]])
      + KeepForFile(aspects[1..], file)
  }

  // ---------------------------------------------------------------- what the filters leave

  /** The aspects that are not dropped, in order. */
  function Filter(aspects: seq<Aspect>, drop: Aspect -> bool): seq<Aspect> {
    if aspects == [] then [] else (if drop(aspects[0]) then [] else [aspects[0]]) + Filter(aspects[1..], drop)
  }

  /** No aspect that is dropped has advice for the node. */
  predicate NoneLost(env: Env, aspects: seq<Aspect>, drop: Aspect -> bool, c: Context) {
    forall a | a in aspects && Matches(env, a.joinPoint, c) && a.advice != [] :: !drop(a)
  }

  /** How much advice the node receives. */
  function Weight(env: Env, aspects: seq<Aspect>, c: Context): nat {
    if aspects == [] then 0
    else (if Matches(env, aspects[0].joinPoint, c) then |aspects[0].advice| else 0) + Weight(env, aspects[1..], c)
  }

  lemma {:induction false} CollectWeighs(env: Env, aspects: seq<Aspect>, c: Context, index: nat)
    ensures |Collect(env, aspects, c, index)| == Weight(env, aspects, c)
    decreases |aspects|
  {
    if aspects != [] {
      var mine := if Matches(env, aspects[0].joinPoint, c) then |aspects[0].advice| else 0;
      NumberedIndices(aspects[0].id, aspects[0].advice, index);
      CollectWeighs(env, aspects[1..], c, index + mine);
    }
  }

  lemma {:induction false} FilterWeighs(env: Env, aspects: seq<Aspect>, drop: Aspect -> bool, c: Context)
    ensures Weight(env, Filter(aspects, drop), c) <= Weight(env, aspects, c)
    ensures Weight(env, Filter(aspects, drop), c) == Weight(env, aspects, c) <==> NoneLost(env, aspects, drop, c)
    decreases |aspects|
  {
    if aspects != [] {
      FilterWeighs(env, aspects[1..], drop, c);
      FilterUnfolds(aspects, drop);
      assert aspects[0] in aspects && forall a | a in aspects :: a == aspects[0] || a in aspects[1..];
      assert NoneLost(env, aspects, drop, c) ==> NoneLost(env, aspects[1..], drop, c);
    }
  }

  lemma FilterUnfolds(aspects: seq<Aspect>, drop: Aspect -> bool)
    requires aspects != []
    ensures var rest, all := Filter(aspects[1..], drop), Filter(aspects, drop);
            if drop(aspects[0]) then all == rest else all != [] && all[0] == aspects[0] && all[1..] == rest
  {
  }

  lemma {:induction false} FilterKeepsAdvice(env: Env, aspects: seq<Aspect>, drop: Aspect -> bool, c: Context,
                                             index: nat)
    requires NoneLost(env, aspects, drop, c)
    ensures Collect(env, Filter(aspects, drop), c, index) == Collect(env, aspects, c, index)
    decreases |aspects|
  {
    if aspects != [] {
      var mine := if Matches(env, aspects[0].joinPoint, c) then |Numbered(aspects[0].id, aspects[0].advice, index)|
        else 0;
      FilterKeepsAdvice(env, aspects[1..], drop, c, index + mine);
      FilterUnfolds(aspects, drop);
    }
  }

  /** A filter leaves the injected sequence as it was exactly if it drops no aspect with advice for the node. */
  lemma FilterKeepsInjectionExactly(env: Env, aspects: seq<Aspect>, drop: Aspect -> bool, c: Context)
    ensures Injected(env, Filter(aspects, drop), c) == Injected(env, aspects, c) <==> NoneLost(env, aspects, drop, c)
  {
    CollectWeighs(env, aspects, c, 0);
    CollectWeighs(env, Filter(aspects, drop), c, 0);
    FilterWeighs(env, aspects, drop, c);
    if NoneLost(env, aspects, drop, c) {
      FilterKeepsAdvice(env, aspects, drop, c, 0);
    } else {
      assert |multiset(Injected(env, aspects, c))| == Weight(env, aspects, c);
      assert |multiset(Injected(env, Filter(aspects, drop), c))| == Weight(env, Filter(aspects, drop), c);
    }
  }

  lemma {:induction false} BothFilters(env: Env, aspects: seq<Aspect>, pkg: PackageContext, file: FileContext,
                                       drop: Aspect -> bool)
    requires forall a | a in aspects ::
               drop(a) <==> PackageMay(env, a.joinPoint, pkg) == NeverMatch || FileMay(a.joinPoint, file) == NeverMatch
    ensures KeepForFile(KeepForPackage(env, aspects, pkg), file) == Filter(aspects, drop)
    decreases |aspects|
  {
    if aspects != [] {
      var rest := KeepForPackage(env, aspects[1..], pkg);
      BothFilters(env, aspects[1..], pkg, file, drop);
      assert ([aspects[0]] + rest)[1..] == rest && [] + rest == rest;
    }
  }

  lemma {:induction false} FileFilter(aspects: seq<Aspect>, file: FileContext, drop: Aspect -> bool)
    requires forall a | a in aspects :: drop(a) <==> FileMay(a.joinPoint, file) == NeverMatch
    ensures KeepForFile(aspects, file) == Filter(aspects, drop)
    decreases |aspects|
  {
    if aspects != [] { FileFilter(aspects[1..], file, drop); }
  }

  /** No aspect with advice for this node is a hazard here. */
  predicate HazardFree(env: Env, aspects: seq<Aspect>, pkg: PackageContext, file: FileContext, c: Context) {
    forall a | a in aspects && Matches(env, a.joinPoint, c) && a.advice != [] ::
      !PackageHazard(env, a.joinPoint, pkg, c) && !FileHazard(a.joinPoint, file)
  }

  predicate FileHazardFree(env: Env, aspects: seq<Aspect>, file: FileContext, c: Context) {
    forall a | a in aspects && Matches(env, a.joinPoint, c) && a.advice != [] :: !FileHazard(a.joinPoint, file)
  }

  /**
   Both filters together leave the advice of a node as it was (which, in what order, under what
   index) exactly if none of it comes from an aspect that is a hazard there.
   */
  lemma PruningKeepsInjectionExactly(env: Env, aspects: seq<Aspect>, pkg: PackageContext, file: FileContext, c: Context)
    requires FromSource(c, pkg, file)
    ensures Injected(env, KeepForFile(KeepForPackage(env, aspects, pkg), file), c) == Injected(env, aspects, c)
       <==> HazardFree(env, aspects, pkg, file, c)
  {
    var drop := (a: Aspect) => PackageMay(env, a.joinPoint, pkg) == NeverMatch
      || FileMay(a.joinPoint, file) == NeverMatch;
    BothFilters(env, aspects, pkg, file, drop);
    FilterKeepsInjectionExactly(env, aspects, drop, c);
    forall a | a in aspects && Matches(env, a.joinPoint, c)
      ensures drop(a) <==> PackageHazard(env, a.joinPoint, pkg, c) || FileHazard(a.joinPoint, file)
    {
      PruningIsExact(env, a.joinPoint, pkg, file, c);
    }
  }

  lemma FileFilterKeepsInjectionExactly(env: Env, aspects: seq<Aspect>, pkg: PackageContext, file: FileContext,
                                        c: Context)
    requires FromSource(c, pkg, file)
    ensures Injected(env, KeepForFile(aspects, file), c) == Injected(env, aspects, c) <==>
              FileHazardFree(env, aspects, file, c)
  {
    var drop := (a: Aspect) => FileMay(a.joinPoint, file) == NeverMatch;
    FileFilter(aspects, file, drop);
    FilterKeepsInjectionExactly(env, aspects, drop, c);
    forall a | a in aspects && Matches(env, a.joinPoint, c) ensures drop(a) <==> FileHazard(a.joinPoint, file) {
      PruningIsExact(env, a.joinPoint, pkg, file, c);
    }
  }

  // ---------------------------------------------------------------- the order is unique

  lemma SorterIsTotal()
    ensures TotalPreorder(NotAfter)
  {
    AtMostIsTotal();
    forall x, y ensures NotAfter(x, y) || NotAfter(y, x) {
      assert AtMost(x.namespace, y.namespace) || AtMost(y.namespace, x.namespace);
    }
    forall x, y, z | NotAfter(x, y) && NotAfter(y, z) ensures NotAfter(x, z) {
      NamespaceFirst(x, y);
      NamespaceFirst(y, z);
      NamespaceFirst(x, z);
      assert AtMost(x.namespace, z.namespace);
      if x.namespace == z.namespace {
        assert TellsApart(AtMost, [x.namespace, y.namespace]);
        assert x.namespace in [x.namespace, y.namespace] && y.namespace in [x.namespace, y.namespace];
      }
    }
  }

  lemma NamespaceFirst(x: OrderedAdvice, y: OrderedAdvice)
    ensures NotAfter(x, y) <==>
            && AtMost(x.namespace, y.namespace)
            && (x.namespace == y.namespace ==> x.order < y.order || (x.order == y.order && x.index <= y.index))
  {
  }

  lemma {:induction false} NumberedIndices(aspectID: string, advice: seq<Advice>, index: nat)
    ensures var r := Numbered(aspectID, advice, index);
            |r| == |advice| && forall k | 0 <= k < |r| :: r[k] == NewOrderedAdvice(aspectID, advice[k], index + k)
  {
    if advice != [] { NumberedIndices(aspectID, advice[1..], index + 1); }
  }

  predicate IndexedFrom(s: seq<OrderedAdvice>, index: nat) {
    forall k | 0 <= k < |s| :: s[k].index == index + k
  }

  lemma IndexedConcat(a: seq<OrderedAdvice>, b: seq<OrderedAdvice>, index: nat)
    requires IndexedFrom(a, index) && IndexedFrom(b, index + |a|)
    ensures IndexedFrom(a + b, index)
  {
    forall k | 0 <= k < |a + b| ensures (a + b)[k].index == index + k {
      if k >= |a| { assert (a + b)[k] == b[k - |a|]; }
    }
  }

  /** Indices number the collected advice without a gap. */
  lemma {:induction false} CollectedIndices(env: Env, aspects: seq<Aspect>, c: Context, index: nat)
    ensures IndexedFrom(Collect(env, aspects, c, index), index)
    decreases |aspects|
  {
    if aspects != [] {
      if !Matches(env, aspects[0].joinPoint, c) {
        CollectedIndices(env, aspects[1..], c, index);
      } else {
        var mine := Numbered(aspects[0].id, aspects[0].advice, index);
        NumberedIndices(aspects[0].id, aspects[0].advice, index);
        CollectedIndices(env, aspects[1..], c, index + |mine|);
        IndexedConcat(mine, Collect(env, aspects[1..], c, index + |mine|), index);
      }
    }
  }

  lemma IndicesTellApart(s: seq<OrderedAdvice>)
    requires IndexedFrom(s, 0)
    ensures TellsApart(NotAfter, s)
  {
    forall x, y | x in s && y in s && NotAfter(x, y) && NotAfter(y, x) ensures x == y {
      NamespaceFirst(x, y);
      NamespaceFirst(y, x);
      AtMostIsTotal();
      assert TellsApart(AtMost, [x.namespace, y.namespace]);
      assert x.namespace in [x.namespace, y.namespace] && y.namespace in [x.namespace, y.namespace];
      var i :| 0 <= i < |s| && s[i] == x;
      var j :| 0 <= j < |s| && s[j] == y;
    }
  }

  /** There is one way to put the collected advice in the order of the sorter, and this is it. */
  lemma InjectionOrderIsUnique(env: Env, aspects: seq<Aspect>, c: Context, other: seq<OrderedAdvice>)
    ensures SortedBy(NotAfter, Injected(env, aspects, c))
    ensures multiset(Injected(env, aspects, c)) == multiset(Collect(env, aspects, c, 0))
    ensures multiset(other) == multiset(Collect(env, aspects, c, 0)) && SortedBy(NotAfter, other) ==>
              other == Injected(env, aspects, c)
  {
    var all := Collect(env, aspects, c, 0);
    SorterIsTotal();
    SortSorts(NotAfter, all);
    CollectedIndices(env, aspects, c, 0);
    IndicesTellApart(all);
    if multiset(other) == multiset(all) && SortedBy(NotAfter, other) {
      forall x | x in other ensures x in all { assert x in multiset(all); }
      SortedIsUnique(NotAfter, other, Injected(env, aspects, c));
    }
  }

  /** Advice without a place comes after that of another namespace exactly if this does not extend the default one. */
  lemma DefaultRunsLastExactly(a: OrderedAdvice, b: OrderedAdvice)
    requires a.namespace != DEFAULT_NAMESPACE && b.namespace == DEFAULT_NAMESPACE
    ensures AdviceSorter(a, b) < 0 <==> !(DEFAULT_NAMESPACE <= a.namespace)
  {
    assert DEFAULT_NAMESPACE == ['\U{10FFFF}'];
    if a.namespace != [] {
      var first := a.namespace[0];
      assert a.namespace[..1] == [first] && DEFAULT_NAMESPACE[1..] == [];
      assert first as int <= 0x10FFFF;
      assert first < '\U{10FFFF}' || first == '\U{10FFFF}';
      assert DEFAULT_NAMESPACE <= a.namespace <==> first == '\U{10FFFF}';
      assert Below(a.namespace, DEFAULT_NAMESPACE) <==> first < '\U{10FFFF}';
    }
  }

  // ---------------------------------------------------------------- the order as declared

  datatype Declared = Declared(aspectID: string, advice: Advice)

  function DueFrom(a: Aspect): seq<Declared> {
    seq(|a.advice|, k requires 0 <= k < |a.advice| => Declared(a.id, a.advice[k]))
  }

  /** The advice that is due, in definition order. */
  function Due(env: Env, aspects: seq<Aspect>, c: Context): seq<Declared> {
    if aspects == [] then []
    else
      (if Matches(env, aspects[0].joinPoint, c) then DueFrom(aspects[0]) else []) + Due(env, aspects[1..], c)
  }

  /** The place that advice declares, or the one at the end that it has without. */
  function DeclaredPlace(advice: Advice): Place {
    if advice.place.Some? then advice.place.value else Place("\U{10FFFF}", 0)
  }

  /** Advice runs by namespace, then by order, then in the order of its definition. */
  predicate RunsBefore(a: Advice, i: nat, b: Advice, j: nat) {
    var x, y := DeclaredPlace(a), DeclaredPlace(b);
    Below(x.namespace, y.namespace)
    || (x.namespace == y.namespace && (x.order < y.order || (x.order == y.order && i < j)))
  }

  /** All that is due is on the list, once, in the order that it declares. */
  ghost predicate InDeclaredOrder(list: seq<OrderedAdvice>, due: seq<Declared>) {
    && |list| == |due|
    && (forall k | 0 <= k < |list| ::
          list[k].index < |due| && due[list[k].index] == Declared(list[k].aspectID, list[k].advice))
    && forall i, j | 0 <= i < j < |list| ::
         list[i].index != list[j].index && RunsBefore(list[i].advice, list[i].index, list[j].advice, list[j].index)
  }

  ghost predicate Wraps(all: seq<OrderedAdvice>, due: seq<Declared>, index: nat) {
    && |all| == |due|
    && forall k | 0 <= k < |all| :: all[k] == NewOrderedAdvice(due[k].aspectID, due[k].advice, index + k)
  }

  lemma WrapsBoth(a: seq<OrderedAdvice>, x: seq<Declared>, b: seq<OrderedAdvice>, y: seq<Declared>, index: nat)
    requires Wraps(a, x, index) && Wraps(b, y, index + |a|)
    ensures Wraps(a + b, x + y, index)
  {
  }

  lemma {:induction false} CollectIsDue(env: Env, aspects: seq<Aspect>, c: Context, index: nat)
    ensures Wraps(Collect(env, aspects, c, index), Due(env, aspects, c), index)
    decreases |aspects|
  {
    if aspects != [] {
      var a := aspects[0];
      if Matches(env, a.joinPoint, c) {
        var mine := Numbered(a.id, a.advice, index);
        NumberedIndices(a.id, a.advice, index);
        CollectIsDue(env, aspects[1..], c, index + |mine|);
        WrapsBoth(mine, DueFrom(a), Collect(env, aspects[1..], c, index + |mine|), Due(env, aspects[1..], c), index);
      } else {
        CollectIsDue(env, aspects[1..], c, index);
      }
    }
  }

  lemma NotAfterAsDeclared(a: OrderedAdvice, b: OrderedAdvice)
    requires a == NewOrderedAdvice(a.aspectID, a.advice, a.index)
    requires b == NewOrderedAdvice(b.aspectID, b.advice, b.index)
    requires a.index != b.index && NotAfter(a, b)
    ensures RunsBefore(a.advice, a.index, b.advice, b.index)
  {
    NamespaceFirst(a, b);
  }

  /** The injected sequence is the advice that is due, in the order that it declares. */
  lemma InjectedAsDeclared(env: Env, aspects: seq<Aspect>, c: Context)
    ensures InDeclaredOrder(Injected(env, aspects, c), Due(env, aspects, c))
  {
    var all, due := Collect(env, aspects, c, 0), Due(env, aspects, c);
    CollectIsDue(env, aspects, c, 0);
    SorterIsTotal();
    SortSorts(NotAfter, all);
    SortedAsDeclared(Sort(NotAfter, all), all, due);
  }

  lemma SortedAsDeclared(list: seq<OrderedAdvice>, all: seq<OrderedAdvice>, due: seq<Declared>)
    requires Wraps(all, due, 0) && SortedBy(NotAfter, list) && multiset(list) == multiset(all)
    ensures InDeclaredOrder(list, due)
  {
    assert |list| == |multiset(list)| == |multiset(all)| == |all|;
    forall k | 0 <= k < |list| ensures list[k].index < |all| && list[k] == all[list[k].index] {
      assert list[k] in multiset(all);
    }
    forall i, j | 0 <= i < j < |list|
      ensures list[i].index != list[j].index && RunsBefore(list[i].advice, list[i].index, list[j].advice, list[j].index)
    {
      NoneTwice(list, all, i, j);
      NotAfterAsDeclared(list[i], list[j]);
    }
  }

  lemma NoneTwice(list: seq<OrderedAdvice>, all: seq<OrderedAdvice>, i: nat, j: nat)
    requires multiset(list) == multiset(all) && i < j < |list|
    requires forall k | 0 <= k < |all| :: all[k].index == k
    ensures list[i].index != list[j].index
  {
    assert list[i] in multiset(all) && list[j] in multiset(all);
    OnceEach(all, list[i]);
    if list[j] == list[i] {
      CountsTwice(list, i, j);
      assert false;
    }
  }

  lemma {:induction false} OnceEach(all: seq<OrderedAdvice>, x: OrderedAdvice)
    requires forall k | 0 <= k < |all| :: all[k].index == k
    ensures multiset(all)[x] <= 1 && (|all| <= x.index ==> x !in all)
    decreases |all|
  {
    if all != [] {
      var rest := all[..|all| - 1];
      OnceEach(rest, x);
      assert all == rest + [all[|all| - 1]];
      if all[|all| - 1] == x { assert x !in multiset(rest); }
    }
  }

  lemma CountsTwice(list: seq<OrderedAdvice>, i: nat, j: nat)
    requires i < j < |list| && list[i] == list[j]
    ensures multiset(list)[list[i]] >= 2
  {
    var x := list[i];
    assert list == list[..i] + [x] + list[i + 1..j] + [x] + list[j + 1..];
  }

  /**
   Where advice without a place runs: after all that has one, except in a namespace that begins with the highest
   code point. There it runs first, or by its order if the namespace is that code point alone.
   */
  lemma UnplacedRunsLastExactly(env: Env, aspects: seq<Aspect>, c: Context, i: nat, j: nat)
    requires i < |Injected(env, aspects, c)| && j < |Injected(env, aspects, c)|
    requires var list := Injected(env, aspects, c); list[i].advice.place.Some? && list[j].advice.place.None?
    ensures var list := Injected(env, aspects, c);
            var place := list[i].advice.place.value;
            i < j <==>
              || !("\U{10FFFF}" <= place.namespace)
              || (place.namespace == "\U{10FFFF}"
                  && (place.order < 0 || (place.order == 0 && list[i].index < list[j].index)))
  {
    var list := Injected(env, aspects, c);
    InjectedAsDeclared(env, aspects, c);
    var a, b := list[i], list[j];
    var place := a.advice.place.value;
    assert "\U{10FFFF}" == ['\U{10FFFF}'];
    if place.namespace != "\U{10FFFF}" {
      DefaultRunsLastExactly(NewOrderedAdvice(a.aspectID, a.advice, 0), NewOrderedAdvice(b.aspectID, b.advice, 0));
    }
    BelowConnected(place.namespace, "\U{10FFFF}");
    BelowIrreflexive(place.namespace);
    if Below(place.namespace, "\U{10FFFF}") && Below("\U{10FFFF}", place.namespace) {
      BelowTransitive(place.namespace, "\U{10FFFF}", place.namespace);
    }
  }

  // ---------------------------------------------------------------- the code

  method PackageFilterAspects(env: Env, aspects: seq<Aspect>, ctx: PackageContext) returns (kept: seq<Aspect>)
    ensures kept == KeepForPackage(env, aspects, ctx)
  {
    kept := [];
    for i := 0 to |aspects|
      invariant kept + KeepForPackage(env, aspects[i..], ctx) == KeepForPackage(env, aspects, ctx)
    {
      var answer := PackageMayMatch(env, aspects[i].joinPoint, ctx);
      assert aspects[i..][1..] == aspects[i + 1..];
      if answer != NeverMatch { kept := kept + [aspects[i]]; }
    }
  }

  method FileFilterAspects(aspects: seq<Aspect>, ctx: FileContext) returns (kept: seq<Aspect>)
    ensures kept == KeepForFile(aspects, ctx)
  {
    kept := [];
    for i := 0 to |aspects|
      invariant kept + KeepForFile(aspects[i..], ctx) == KeepForFile(aspects, ctx)
    {
      var answer := FileMayMatch(aspects[i].joinPoint, ctx);
      assert aspects[i..][1..] == aspects[i + 1..];
      if answer != NeverMatch { kept := kept + [aspects[i]]; }
    }
  }

  /** What one application reports: whether the tree changed, and whether it failed. */
  datatype Applied = Applied(changed: bool, failed: bool)

  /** Some application among the first `n` changed the tree. */
  ghost predicate SomeChanged(apply: seq<OrderedAdvice> -> Applied, list: seq<OrderedAdvice>, n: nat)
    requires n <= |list|
  {
    exists k :: 0 < k <= n && apply(list[..k]).changed
  }

  ghost predicate NoneFailed(apply: seq<OrderedAdvice> -> Applied, list: seq<OrderedAdvice>, n: nat)
    requires n <= |list|
  {
    forall k | 0 < k <= n :: !apply(list[..k]).failed
  }

  /**
   `injectNode`. What an application does depends on everything applied before it, so `apply`
   looks at the whole history, the current advice last. `n` applications were made.
   */
  method InjectNode(env: Env, ctx: Context, aspects: seq<Aspect>, apply: seq<OrderedAdvice> -> Applied)
    returns (mod: bool, failed: bool, n: nat)
    ensures var list := Injected(env, aspects, ctx);
            && n <= |list| && (mod <==> SomeChanged(apply, list, n))
            && (if failed then n > 0 && apply(list[..n]).failed && NoneFailed(apply, list, n - 1)
                else n == |list| && NoneFailed(apply, list, n))
    ensures InDeclaredOrder(Injected(env, aspects, ctx), Due(env, aspects, ctx))
  {
    InjectedAsDeclared(env, aspects, ctx);
    var ordered := CollectAdvice(env, ctx, aspects);
    if |ordered| == 0 { return false, false, 0; }
    var sorted := SortAdvice(ordered);
    mod, failed, n := ApplyAll(sorted, apply);
  }

  method ApplyAll(list: seq<OrderedAdvice>, apply: seq<OrderedAdvice> -> Applied)
    returns (mod: bool, failed: bool, n: nat)
    ensures n <= |list| && (mod <==> SomeChanged(apply, list, n))
    ensures if failed then n > 0 && apply(list[..n]).failed && NoneFailed(apply, list, n - 1)
            else n == |list| && NoneFailed(apply, list, n)
  {
    mod := false;
    for i := 0 to |list|
      invariant NoneFailed(apply, list, i) && (mod <==> SomeChanged(apply, list, i))
    {
      var outcome := apply(list[..i + 1]);
      mod := mod || outcome.changed;
      if outcome.failed { return mod, true, i + 1; }
    }
    failed, n := false, |list|;
  }

  /** `Sort` of order.go. */
  method SortAdvice(list: seq<OrderedAdvice>) returns (sorted: seq<OrderedAdvice>)
    ensures sorted == Sort(NotAfter, list)
  {
    var a := new OrderedAdvice[|list|](i requires 0 <= i < |list| => list[i]);
    assert a[..] == list;
    SorterIsTotal();
    SortInPlace(NotAfter, a);
    sorted := a[..];
  }

  method CollectAdvice(env: Env, ctx: Context, aspects: seq<Aspect>) returns (ordered: seq<OrderedAdvice>)
    ensures ordered == Collect(env, aspects, ctx, 0)
  {
    ordered := [];
    var index := 0;
    for i := 0 to |aspects|
      invariant index == |ordered|
      invariant ordered + Collect(env, aspects[i..], ctx, index) == Collect(env, aspects, ctx, 0)
    {
      var inj := aspects[i];
      ghost var before := ordered;
      CollectStep(env, aspects, ctx, i, index, before);
      if Matches(env, inj.joinPoint, ctx) {
        ghost var mine := Numbered(inj.id, inj.advice, index);
        ghost var start := index;
        NumberedIndices(inj.id, inj.advice, index);
        for j := 0 to |inj.advice|
          invariant index == |ordered| == start + j && ordered == before + mine[..j]
        {
          ordered := ordered + [NewOrderedAdvice(inj.id, inj.advice[j], index)];
          index := index + 1;
        }
        assert mine[..|inj.advice|] == mine;
      }
    }
  }

  lemma CollectStep(env: Env, aspects: seq<Aspect>, c: Context, i: nat, index: nat, before: seq<OrderedAdvice>)
    requires i < |aspects|
    ensures var mine := if Matches(env, aspects[i].joinPoint, c) then Numbered(aspects[i].id, aspects[i].advice, index)
              else [];
            before + Collect(env, aspects[i..], c, index) ==
              before + mine + Collect(env, aspects[i + 1..], c, index + |mine|)
  {
    assert aspects[i..][0] == aspects[i] && aspects[i..][1..] == aspects[i + 1..];
  }
}
