/**
 What join points claim about imports (ImpliesImported), and which import declarations survive
 the printing of a file (internal/injector/imports.go).
 */
module Imports {
  import opened Wrappers
  import opened Ordering
  import opened May
  import opened Syntax
  import opened Globstar
  import opened Join
  import opened Pruning

  // ---------------------------------------------------------------- ImpliesImported

  function Paths(types: seq<TypeName>): multiset<string> {
    if types == [] then multiset{}
    else (if types[0].importPath == "" then multiset{} else multiset{types[0].importPath}) + Paths(types[1..])
  }

  function OptionImplies(o: FunctionOption): multiset<string> {
    match o
    case Signature(args, results) => Paths(args) + Paths(results)
    case SignatureContains(args, results) => Paths(args) + Paths(results)
    case Receiver(typ) => multiset{typ.importPath}
    case _ => multiset{}
  }

  function OptionsImply(os: seq<FunctionOption>): multiset<string> {
    if os == [] then multiset{} else OptionImplies(os[0]) + OptionsImply(os[1..])
  }

  function NonBlank(path: string): multiset<string> {
    if path == "" then multiset{} else multiset{path}
  }

  /** The paths a join point lists, as often as it lists them. */
  function Implies(p: Point): multiset<string>
    decreases p, 1
  {
    match p
    case AllOf(points) => Sum(points)
    case OneOf(points) => Unanimous(Sum(points), |points|)
    case Function(options) => OptionsImply(options)
    case FunctionBody(inner) => Implies(inner)
    case ImportPath(path) => multiset{path}
    case DeclarationOf(path, _) => multiset{path}
    case FunctionCall(path, _) => multiset{path}
    case ValueDeclaration(typ) => NonBlank(typ.importPath)
    case StructDefinition(typ) => NonBlank(typ.importPath)
    case StructLiteral(typ, _, _) => NonBlank(typ.importPath)
    case MethodCall(typ, _, _) => NonBlank(typ.importPath)
    case _ => multiset{}
  }

  function Sum(points: seq<Point>): multiset<string>
    decreases points, 0
  {
    if points == [] then multiset{} else Implies(points[0]) + Sum(points[1..])
  }

  /** The paths that were counted exactly `total` times. */
  function Unanimous(counts: multiset<string>, total: nat): (r: multiset<string>)
    ensures forall p :: r[p] == if p in counts && counts[p] == total then 1 else 0
  {
    multiset(set p | p in counts && counts[p] == total)
  }

  /** The option, or join point, is about something of this package. */
  predicate OptionConcerns(o: FunctionOption, path: string) {
    match o
    case Signature(args, results) => path != "" && exists t :: t in args + results && t.importPath == path
    case SignatureContains(args, results) => path != "" && exists t :: t in args + results && t.importPath == path
    case Receiver(typ) => path == typ.importPath
    case _ => false
  }

  predicate Concerns(p: Point, path: string)
    requires IsLeaf(p)
  {
    match p
    case Function(options) => exists o :: o in options && OptionConcerns(o, path)
    case ImportPath(q) => path == q
    case DeclarationOf(q, _) => path == q
    case FunctionCall(q, _) => path == q
    case ValueDeclaration(typ) => path != "" && path == typ.importPath
    case StructDefinition(typ) => path != "" && path == typ.importPath
    case StructLiteral(typ, _, _) => path != "" && path == typ.importPath
    case MethodCall(typ, _, _) => path != "" && path == typ.importPath
    case _ => false
  }

  lemma {:induction false} PathsExactly(types: seq<TypeName>, path: string)
    ensures path in Paths(types) <==> path != "" && exists t :: t in types && t.importPath == path
  {
    if types != [] {
      PathsExactly(types[1..], path);
      assert types[0] in types && forall t :: t in types <==> t == types[0] || t in types[1..];
    }
  }

  lemma {:induction false} OptionsExactly(os: seq<FunctionOption>, path: string)
    ensures path in OptionsImply(os) <==> exists o :: o in os && OptionConcerns(o, path)
  {
    if os != [] {
      OptionsExactly(os[1..], path);
      assert os[0] in os && forall o :: o in os <==> o == os[0] || o in os[1..];
      OptionExactly(os[0], path);
    }
  }

  lemma OptionExactly(o: FunctionOption, path: string)
    ensures path in OptionImplies(o) <==> OptionConcerns(o, path)
  {
    if o.Signature? || o.SignatureContains? {
      PathsExactly(o.args, path);
      PathsExactly(o.results, path);
      assert forall t :: t in o.args + o.results <==> t in o.args || t in o.results;
    }
  }

  /**
   What is listed: by a leaf what it is about, by all-of what any of its parts lists, by function-body what is
   listed below, and by not nothing at all.
   */
  lemma ListedExactly(p: Point, path: string)
    ensures IsLeaf(p) ==> (path in Implies(p) <==> Concerns(p, path))
    ensures p.AllOf? ==> (path in Implies(p) <==> exists q :: q in p.points && path in Implies(q))
    ensures p.FunctionBody? ==> (path in Implies(p) <==> path in Implies(p.inner))
    ensures p.Not? ==> path !in Implies(p)
  {
    if p.Function? { OptionsExactly(p.options, path); }
    if p.AllOf? { SumLists(p.points, path); }
  }

  lemma {:induction false} SumLists(points: seq<Point>, path: string)
    ensures path in Sum(points) <==> exists q :: q in points && path in Implies(q)
  {
    if points != [] {
      SumLists(points[1..], path);
      assert points[0] in points && forall q :: q in points <==> q == points[0] || q in points[1..];
    }
  }

  predicate AllImply(points: seq<Point>, path: string) {
    forall q | q in points :: path in Implies(q)
  }

  /** How often candidates list the path beyond their first time. */
  function Surplus(points: seq<Point>, path: string): nat {
    if points == [] then 0
    else (if Implies(points[0])[path] > 1 then Implies(points[0])[path] - 1 else 0) + Surplus(points[1..], path)
  }

  /** How many candidates do not list the path. */
  function Missing(points: seq<Point>, path: string): nat {
    if points == [] then 0 else (if path in Implies(points[0]) then 0 else 1) + Missing(points[1..], path)
  }

  /** The count goes wrong: nobody is missing, or just as many as are made up for. */
  predicate Miscounts(points: seq<Point>, path: string) {
    Surplus(points, path) > 0 && (Missing(points, path) == 0 || Missing(points, path) == Surplus(points, path))
  }

  lemma {:induction false} SumSplits(points: seq<Point>, path: string)
    ensures Sum(points)[path] + Missing(points, path) == |points| + Surplus(points, path)
    ensures Missing(points, path) == 0 <==> AllImply(points, path)
  {
    if points != [] {
      SumSplits(points[1..], path);
      assert points[0] in points && forall q | q in points :: q == points[0] || q in points[1..];
    }
  }

  /** A path is assumed imported when all candidates imply it, exactly unless the count goes wrong. */
  lemma OneOfCountsExactly(points: seq<Point>, path: string)
    requires points != []
    ensures (path in Implies(OneOf(points)) <==> AllImply(points, path)) <==> !Miscounts(points, path)
  {
    SumSplits(points, path);
    assert path in Implies(OneOf(points)) <==> Sum(points)[path] == |points|;
  }

  // ---------------------------------------------------------------- what the claim is worth

  /** Nothing that vouches for this path can be relied on at this node. */
  predicate Unfounded(env: Env, p: Point, path: string, pkg: PackageContext, c: Context)
    decreases p
  {
    match p
    case AllOf(points) => forall q | q in points && path in Implies(q) :: Unfounded(env, q, path, pkg, c)
    case OneOf(points) =>
      forall q | q in points && Matches(env, q, c) :: path !in Implies(q) || Unfounded(env, q, path, pkg, c)
    case Not(_) => false
    case FunctionBody(inner) => c.Parent().Some? && Unfounded(env, inner, path, pkg, c.Parent().value)
    case _ => LeafPackageHazard(p, pkg, c)
  }

  lemma {:induction false} PathsAreImported(types: seq<TypeName>, pkg: PackageContext, path: string)
    requires AllImported(types, pkg) && path in Paths(types)
    ensures Imported(pkg, path)
  {
    assert types[0] in types;
    if path in Paths(types[1..]) {
      assert forall t | t in types[1..] :: t in types;
      PathsAreImported(types[1..], pkg, path);
    }
  }

  lemma {:induction false} OptionsAreImported(os: seq<FunctionOption>, pkg: PackageContext, path: string)
    requires path in OptionsImply(os) && forall o | o in os :: OptionPackageMay(o, pkg) != NeverMatch
    ensures Imported(pkg, path)
  {
    var o := os[0];
    assert o in os && forall q | q in os[1..] :: q in os;
    if path in OptionImplies(o) {
      match o
      case Signature(args, results) => TypesAreImported(args, results, pkg, path);
      case SignatureContains(args, results) => TypesAreImported(args, results, pkg, path);
      case Receiver(typ) =>
    } else {
      OptionsAreImported(os[1..], pkg, path);
    }
  }

  lemma TypesAreImported(args: seq<TypeName>, results: seq<TypeName>, pkg: PackageContext, path: string)
    requires path in Paths(args) + Paths(results) && ImportsAll(args, pkg).And(ImportsAll(results, pkg)) != NeverMatch
    ensures Imported(pkg, path)
  {
    ImportsAllNever(args, pkg);
    ImportsAllNever(results, pkg);
    if path in Paths(args) { PathsAreImported(args, pkg, path); } else { PathsAreImported(results, pkg, path); }
  }

  /** A leaf that may match imports all it lists. */
  lemma LeafListsImports(env: Env, p: Point, pkg: PackageContext, path: string)
    requires IsLeaf(p) && PackageMay(env, p, pkg) != NeverMatch && path in Implies(p)
    ensures Imported(pkg, path)
  {
    if p.Function? {
      OptionsPackageNever(p.options, pkg);
      OptionsAreImported(p.options, pkg, path);
    }
  }

  lemma ImpliedByLeaf(env: Env, p: Point, path: string, pkg: PackageContext, file: FileContext, c: Context)
    requires FromSource(c, pkg, file) && IsLeaf(p)
    requires Matches(env, p, c) && path in Implies(p) && !LeafPackageHazard(p, pkg, c)
    ensures Imported(pkg, path)
  {
    LeafPackagePruningIsExact(env, p, pkg, file, c);
    LeafListsImports(env, p, pkg, path);
  }

  lemma VoucherInAll(env: Env, points: seq<Point>, path: string, pkg: PackageContext, c: Context) returns (q: Point)
    requires Matches(env, AllOf(points), c) && path in Implies(AllOf(points))
    requires !Unfounded(env, AllOf(points), path, pkg, c)
    ensures q in points && Matches(env, q, c) && path in Implies(q) && !Unfounded(env, q, path, pkg, c)
  {
    q :| q in points && path in Implies(q) && !Unfounded(env, q, path, pkg, c);
  }

  lemma VoucherInOne(env: Env, points: seq<Point>, path: string, pkg: PackageContext, c: Context) returns (q: Point)
    requires !Unfounded(env, OneOf(points), path, pkg, c)
    ensures q in points && Matches(env, q, c) && path in Implies(q) && !Unfounded(env, q, path, pkg, c)
  {
    q :| q in points && Matches(env, q, c) && path in Implies(q) && !Unfounded(env, q, path, pkg, c);
  }

  /** Whatever a matching join point lists is imported, if anything sound vouches for it. */
  lemma {:induction false} ImpliedIsImported(env: Env, p: Point, path: string, pkg: PackageContext, file: FileContext,
                                             c: Context)
    requires FromSource(c, pkg, file)
    requires Matches(env, p, c) && path in Implies(p) && !Unfounded(env, p, path, pkg, c)
    ensures Imported(pkg, path)
    decreases p
  {
    if p.AllOf? {
      var q := VoucherInAll(env, p.points, path, pkg, c);
      ImpliedIsImported(env, q, path, pkg, file, c);
    } else if p.OneOf? {
      var q := VoucherInOne(env, p.points, path, pkg, c);
      ImpliedIsImported(env, q, path, pkg, file, c);
    } else if p.FunctionBody? {
      ImpliedIsImported(env, p.inner, path, pkg, file, c.Parent().value);
    } else if !p.Not? {
      ImpliedByLeaf(env, p, path, pkg, file, c);
    }
  }

  // ---------------------------------------------------------------- what a node tells about imports

  /** The packages that a type expression names. */
  function TypeNames(t: Node): set<string>
    decreases t
  {
    match t.kind
    case Ident(path, _) => {path}
    case SelectorExpr(x, _) => if x.kind.Ident? && x.kind.path == "" then {x.kind.ident} else {}
    case StarExpr(x) => TypeNames(x)
    case IndexExpr(x) => TypeNames(x)
    case IndexListExpr(x) => TypeNames(x)
    case _ => {}
  }

  function OptionalNames(t: Option<Node>): set<string> {
    if t.Some? then TypeNames(t.value) else {}
  }

  function FieldNames(fields: Option<seq<Node>>): set<string> {
    if fields.None? then {} else set t, q | t in fields.value && q in TypeNames(t) :: q
  }

  function NodeNames(n: Node): set<string> {
    match n.kind
    case FuncDecl(_, _, sig, _) => FieldNames(sig.params) + FieldNames(sig.results)
    case FuncLit(sig, _) => FieldNames(sig.params) + FieldNames(sig.results)
    case ValueSpec(_, typ) => OptionalNames(typ)
    case CallExpr(fun) =>
      if fun.kind.Ident? then {fun.kind.path}
      else if fun.kind.SelectorExpr? && fun.kind.x.kind.Ident? then {fun.kind.x.kind.path} else {}
    case CompositeLit(typ) => OptionalNames(typ)
    case UnaryExpr(_, x) => if x.kind.CompositeLit? then OptionalNames(x.kind.typ) else {}
    case _ => {}
  }

  /** The packages that a node and its ancestors name. */
  function Named(chain: Chain): set<string> {
    NodeNames(chain.node) + if chain.up.Some? then Named(chain.up.value) else {}
  }

  predicate AllResolved(names: set<string>, pkg: PackageContext) {
    forall q | q in names :: Resolved(q, pkg)
  }

  lemma {:induction false} TypeIsResolved(t: Node, pkg: PackageContext)
    ensures ResolvedType(t, pkg) <==> AllResolved(TypeNames(t), pkg)
    decreases t
  {
    match t.kind
    case StarExpr(x) => TypeIsResolved(x, pkg);
    case IndexExpr(x) => TypeIsResolved(x, pkg);
    case IndexListExpr(x) => TypeIsResolved(x, pkg);
    case _ =>
  }

  lemma FieldsAreResolved(fields: Option<seq<Node>>, pkg: PackageContext)
    ensures ResolvedFields(fields, pkg) <==> AllResolved(FieldNames(fields), pkg)
  {
    if fields.Some? {
      forall t | t in fields.value ensures ResolvedType(t, pkg) <==> AllResolved(TypeNames(t), pkg) {
        TypeIsResolved(t, pkg);
      }
      if ResolvedFields(fields, pkg) {
        forall q | q in FieldNames(fields) ensures Resolved(q, pkg) {
          var t :| t in fields.value && q in TypeNames(t);
          assert AllResolved(TypeNames(t), pkg);
        }
      }
    }
  }

  /** A node that was parsed in one package could have been in any that has what it names. */
  lemma NodeIsParsed(n: Node, pkg: PackageContext, other: PackageContext, file: FileContext)
    requires Parsed(n, pkg, file)
    ensures Parsed(n, other, file) <==> AllResolved(NodeNames(n), other)
  {
    match n.kind
    case FuncDecl(_, _, sig, _) => SignatureIsResolved(sig, other);
    case FuncLit(sig, _) => SignatureIsResolved(sig, other);
    case ValueSpec(_, typ) => if typ.Some? { TypeIsResolved(typ.value, other); }
    case CompositeLit(typ) => if typ.Some? { TypeIsResolved(typ.value, other); }
    case UnaryExpr(_, x) => if x.kind.CompositeLit? && x.kind.typ.Some? { TypeIsResolved(x.kind.typ.value, other); }
    case _ =>
  }

  lemma SignatureIsResolved(sig: FuncType, pkg: PackageContext)
    ensures ResolvedFields(sig.params, pkg) && ResolvedFields(sig.results, pkg)
       <==> AllResolved(FieldNames(sig.params) + FieldNames(sig.results), pkg)
  {
    FieldsAreResolved(sig.params, pkg);
    FieldsAreResolved(sig.results, pkg);
  }

  lemma {:induction false} ChainIsParsed(chain: Chain, pkg: PackageContext, other: PackageContext, file: FileContext)
    requires ParsedChain(chain, pkg, file)
    ensures ParsedChain(chain, other, file) <==> AllResolved(Named(chain), other)
    decreases chain
  {
    NodeIsParsed(chain.node, pkg, other, file);
    if chain.up.Some? { ChainIsParsed(chain.up.value, pkg, other, file); }
  }

  /** Imported in whatever package the node may have been parsed. */
  ghost predicate Known(c: Context, path: string) {
    forall pkg, file | FromSource(c, pkg, file) :: Imported(pkg, path)
  }

  /** A path is known exactly if it is the package's own, or the node or an ancestor names it. */
  lemma KnownExactly(c: Context, path: string, pkg: PackageContext, file: FileContext)
    requires FromSource(c, pkg, file)
    ensures Known(c, path) <==> path == "" || path == c.importPath || path in Named(c.chain)
  {
    forall other, f | FromSource(c, other, f) ensures AllResolved(Named(c.chain), other) {
      ChainIsParsed(c.chain, other, other, f);
    }
    var least := pkg.(importMap := map q | q in Named(c.chain) :: q);
    ChainIsParsed(c.chain, pkg, least, file);
    assert FromSource(c, least, file);
  }

  /**
   A path that a matching join point lists is known to be imported exactly if it is the
   package's own or the node or an ancestor names it; and it is if a sound voucher lists it
   wherever the node is parsed.
   */
  lemma ImpliedIsKnownExactly(env: Env, p: Point, path: string, pkg: PackageContext, file: FileContext, c: Context)
    requires FromSource(c, pkg, file) && Matches(env, p, c) && path in Implies(p)
    ensures Known(c, path) <==> path == "" || path == c.importPath || path in Named(c.chain)
    ensures (forall other, f | FromSource(c, other, f) :: !Unfounded(env, p, path, other, c)) ==> Known(c, path)
  {
    KnownExactly(c, path, pkg, file);
    forall other, f | FromSource(c, other, f) && !Unfounded(env, p, path, other, c) ensures Imported(other, path) {
      ImpliedIsImported(env, p, path, other, f, c);
    }
  }

  function TwoOfAKind(typ: TypeName): seq<Point> {
    [Function([Signature([typ, typ], [])]), Directive("x")]
  }

  lemma TwoOfAKindCount(typ: TypeName)
    requires typ.importPath != ""
    ensures typ.importPath in Implies(OneOf(TwoOfAKind(typ)))
  {
    var signature := Signature([typ, typ], []);
    assert [typ, typ][1..] == [typ] && [typ][1..] == [];
    assert Paths([]) == multiset{} && Paths([typ]) == multiset{typ.importPath};
    assert Paths([typ, typ]) == multiset{typ.importPath, typ.importPath};
    assert [signature][1..] == [];
    assert OptionsImply([signature]) == multiset{typ.importPath, typ.importPath};
    var points := TwoOfAKind(typ);
    assert points[1..] == [Directive("x")] && [Directive("x")][1..] == [];
    assert Sum(points[1..]) == multiset{};
    assert Sum(points)[typ.importPath] == 2;
  }

  /** A signature that names one package twice outvotes a candidate that says nothing about it. */
  lemma SignatureOutvotesDirective(pkg: PackageContext, file: FileContext, typ: TypeName) returns (c: Context)
    requires typ.importPath != "" && !Imported(pkg, typ.importPath) && Written("//x", file)
    ensures FromSource(c, pkg, file)
    ensures Matches(ANY_ENV, OneOf(TwoOfAKind(typ)), c) && typ.importPath in Implies(OneOf(TwoOfAKind(typ)))
  {
    TwoOfAKindCount(typ);
    var n := Chain(Node(0, ["//x"], Other), "Decls", map[], None);
    c := Context(n, pkg.importPath, file.packageName, false, map[]);
    assert "//x" in n.node.decorations && DirectiveText("x", "//x");
    assert Directive("x") in TwoOfAKind(typ) && Matches(ANY_ENV, Directive("x"), c);
  }

  // ---------------------------------------------------------------- which declaration survives

  /** An import declaration and its alias, if it has one. */
  datatype Spec = Spec(id: nat, alias: Option<string>)

  predicate Aliased(s: Spec) {
    s.alias.Some? && s.alias.value != "_"
  }

  predicate IsBlank(s: Spec) {
    s.alias == Some("_")
  }

  /** Where the first of a kind is, or the length. */
  function FirstOf(specs: seq<Spec>, kind: Spec -> bool): (k: nat)
    ensures k <= |specs| && (k < |specs| ==> kind(specs[k])) && forall i | 0 <= i < k :: !kind(specs[i])
  {
    if specs == [] || kind(specs[0]) then 0 else FirstOf(specs[1..], kind) + 1
  }

  /** As documented: a real alias is preferred over a blank one, and any alias over none; the first of the best kind. */
  function Preferred(specs: seq<Spec>): Spec
    requires specs != []
  {
    var a, b := FirstOf(specs, Aliased), FirstOf(specs, IsBlank);
    if a < |specs| then specs[a] else if b < |specs| then specs[b] else specs[0]
  }

  /** Two blank aliases come before the first real one. */
  ghost predicate StopsAtBlank(specs: seq<Spec>) {
    exists i, k :: 0 <= i < k < FirstOf(specs, Aliased) && IsBlank(specs[i]) && IsBlank(specs[k])
  }

  /** The declaration that is kept: the search ends at the second blank alias, too. */
  ghost function Retained(specs: seq<Spec>): Spec
    requires specs != []
  {
    if StopsAtBlank(specs) && FirstOf(specs, IsBlank) < |specs| then specs[FirstOf(specs, IsBlank)]
      else Preferred(specs)
  }

  /** The documented choice is made exactly unless two blank aliases come before a real one. */
  lemma PreferredExactly(specs: seq<Spec>)
    requires specs != []
    ensures Retained(specs) == Preferred(specs) <==> !(StopsAtBlank(specs) && FirstOf(specs, Aliased) < |specs|)
  {
    if StopsAtBlank(specs) {
      var i, k :| 0 <= i < k < FirstOf(specs, Aliased) && IsBlank(specs[i]) && IsBlank(specs[k]);
      assert FirstOf(specs, IsBlank) <= i;
    }
  }

  /** `retain` is the best of the first `i`, and nothing has ended the search yet. */
  ghost predicate Searching(specs: seq<Spec>, i: nat, retain: Spec) {
    exists j :: 0 <= j < i <= |specs| && retain == specs[j]
      && (forall k | j < k < i :: specs[k].alias.None?)
      && if retain.alias.None? then j == 0
         else if IsBlank(retain) then forall k | 0 <= k < j :: specs[k].alias.None?
         else (forall k | 0 <= k < j :: !Aliased(specs[k]))
              && forall h, k | 0 <= h < k < j :: !(IsBlank(specs[h]) && IsBlank(specs[k]))
  }

  method RetainOne(specs: seq<Spec>) returns (retain: Spec)
    requires specs != []
    ensures retain == Retained(specs)
  {
    retain := specs[0];
    var i := 1;
    while i < |specs|
      invariant 1 <= i <= |specs| && Searching(specs, i, retain)
    {
      var spec := specs[i];
      if spec.alias.Some? {
        if retain.alias.None? {
          retain := spec;
        } else if IsBlank(retain) && !IsBlank(spec) {
          retain := spec;
        } else {
          EndsAt(specs, i, retain);
          return;
        }
      }
      i := i + 1;
    }
    EndsAt(specs, i, retain);
  }

  lemma EndsAt(specs: seq<Spec>, i: nat, retain: Spec)
    requires Searching(specs, i, retain)
    requires i < |specs| ==> specs[i].alias.Some? && retain.alias.Some? && !(IsBlank(retain) && !IsBlank(specs[i]))
    ensures retain == Retained(specs)
  {
    var a, b := FirstOf(specs, Aliased), FirstOf(specs, IsBlank);
    var j :| 0 <= j < i <= |specs| && retain == specs[j] && forall k | j < k < i :: specs[k].alias.None?;
  }

  /** One declaration for every path. */
  method FilterExtraneousImports(byPath: map<string, seq<Spec>>) returns (result: set<Spec>)
    requires forall p | p in byPath :: byPath[p] != []
    ensures result == set p | p in byPath :: Retained(byPath[p])
  {
    result := {};
    var todo := byPath.Keys;
    while todo != {}
      invariant todo <= byPath.Keys
      invariant result == set p | p in byPath && p !in todo :: Retained(byPath[p])
    {
      var path :| path in todo;
      var retain := RetainOne(byPath[path]);
      result, todo := result + {retain}, todo - {path};
    }
  }

  // ---------------------------------------------------------------- the counting loop of one-of

  function TimesListed(lists: seq<seq<string>>, path: string): nat {
    if lists == [] then 0 else TimesListed(lists[..|lists| - 1], path) + multiset(lists[|lists| - 1])[path]
  }

  /** The paths that were listed as often as there are lists. */
  method CountUnanimous(lists: seq<seq<string>>) returns (list: seq<string>)
    ensures Distinct(list)
    ensures forall p :: p in list <==> TimesListed(lists, p) == |lists| && lists != []
  {
    var counts: map<string, nat> := map[];
    for i := 0 to |lists|
      invariant forall p :: (p in counts <==> TimesListed(lists[..i], p) > 0)
                  && (p in counts ==> counts[p] == TimesListed(lists[..i], p))
    {
      for k := 0 to |lists[i]|
        invariant forall p :: var n := TimesListed(lists[..i], p) + multiset(lists[i][..k])[p];
                    (p in counts <==> n > 0) && (p in counts ==> counts[p] == n)
      {
        var path := lists[i][k];
        assert lists[i][..k + 1] == lists[i][..k] + [path];
        counts := counts[path := if path in counts then counts[path] + 1 else 1];
      }
      assert lists[..i + 1][..i] == lists[..i] && lists[i][..|lists[i]|] == lists[i];
    }
    assert lists[..|lists|] == lists;
    list := [];
    var todo := counts.Keys;
    while todo != {}
      invariant todo <= counts.Keys && Distinct(list)
      invariant forall p :: p in list <==> p in counts && p !in todo && counts[p] == |lists|
    {
      var path :| path in todo;
      if counts[path] == |lists| { list := list + [path]; }
      todo := todo - {path};
    }
  }

  lemma {:induction false} SumOfMore(points: seq<Point>, q: Point)
    ensures Sum(points + [q]) == Sum(points) + Implies(q)
  {
    if points == [] {
      assert [q][1..] == [];
    } else {
      assert (points + [q])[1..] == points[1..] + [q];
      SumOfMore(points[1..], q);
    }
  }

  /** Counting what the candidates list is counting in their sum, so the loop computes what `Implies` says of one-of. */
  lemma {:induction false} ListedIsSum(points: seq<Point>, lists: seq<seq<string>>, path: string)
    requires |points| == |lists| && forall i | 0 <= i < |points| :: multiset(lists[i]) == Implies(points[i])
    ensures TimesListed(lists, path) == Sum(points)[path]
    ensures path in Implies(OneOf(points)) <==> TimesListed(lists, path) == |lists| && lists != []
    decreases |points|
  {
    if points != [] {
      var n := |points| - 1;
      ListedIsSum(points[..n], lists[..n], path);
      LastOfSum(points, path);
    }
  }

  lemma LastOfSum(points: seq<Point>, path: string)
    requires points != []
    ensures var n := |points| - 1; Sum(points)[path] == Sum(points[..n])[path] + Implies(points[n])[path]
  {
    var n := |points| - 1;
    SumOfMore(points[..n], points[n]);
    assert points == points[..n] + [points[n]];
  }
}
