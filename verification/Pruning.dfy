/**
 Pruning by the two cheap tests: `NeverMatch` means that no node of the package or file
 matches. The handful of leaves that break this promise, and the trees in which that shows,
 are named by `PackageHazard` and `FileHazard`, exactly.
 */
module Pruning {
  import opened Wrappers
  import opened Strings
  import opened May
  import opened Syntax
  import opened Globstar
  import opened Join

  // ---------------------------------------------------------------- hazards

  predicate Imported(pkg: PackageContext, path: string) {
    pkg.PackageImports(path) != NeverMatch
  }

  predicate AllImported(types: seq<TypeName>, pkg: PackageContext) {
    forall t | t in types :: Imported(pkg, t.importPath)
  }

  /** Some of the types come from a package that is imported, and some do not. */
  predicate Mixed(types: seq<TypeName>, pkg: PackageContext) {
    (exists t | t in types :: Imported(pkg, t.importPath)) && !AllImported(types, pkg)
  }

  /** The option asks for any of its types, but is pruned when one of them is not imported. */
  predicate OptionPackageHazard(o: FunctionOption, pkg: PackageContext) {
    o.SignatureContains? && Mixed(o.args + o.results, pkg)
  }

  /** A blank name, which only a function literal has, is never found in a file. */
  predicate OptionFileHazard(o: FunctionOption) {
    o == Name("")
  }

  /** Where the type of a called method's receiver comes from, if it is a name behind at most one pointer. */
  function ReceiverPackage(c: Context): Option<string> {
    var kind := c.chain.node.kind;
    if kind.CallExpr? && kind.fun.kind.SelectorExpr? && kind.fun.kind.x.id in c.types then
      var t := c.types[kind.fun.kind.x.id];
      var named := if t.Pointer? then t.elem else t;
      if named.Named? then named.pkg else None
    else None
  }

  /** A method is called on a value whose type comes from a package that is not imported. */
  predicate ForeignReceiver(pkg: PackageContext, c: Context) {
    ReceiverPackage(c).Some? && !Imported(pkg, ReceiverPackage(c).value)
  }

  predicate LeafPackageHazard(p: Point, pkg: PackageContext, c: Context)
    requires IsLeaf(p)
  {
    match p
    case Function(options) => exists o | o in options :: OptionPackageHazard(o, pkg)
    case ValueDeclaration(typ) => // an untyped declaration matches any type
      !Imported(pkg, typ.importPath) && c.chain.node.kind.ValueSpec? && c.chain.node.kind.typ.None?
    case MethodCall(_, _, _) => ForeignReceiver(pkg, c)
    case TestMain(_) => // below function-body, a test main package looks like any other
      c.testMain != pkg.testMain
    case _ => false
  }

  predicate LeafFileHazard(p: Point)
    requires IsLeaf(p)
  {
    p.Function? && exists o | o in p.options :: OptionFileHazard(o)
  }

  /** A hazard of a leaf that no other candidate of a one-of makes up for. */
  predicate PackageHazard(env: Env, p: Point, pkg: PackageContext, c: Context)
    decreases p
  {
    match p
    case AllOf(points) => exists q | q in points :: PackageHazard(env, q, pkg, c)
    case OneOf(points) =>
      && (forall q | q in points :: PackageMay(env, q, pkg) == NeverMatch)
      && exists q | q in points :: PackageHazard(env, q, pkg, c)
    case Not(_) => false
    case FunctionBody(inner) => c.Parent().Some? && PackageHazard(env, inner, pkg, c.Parent().value)
    case _ => LeafPackageHazard(p, pkg, c)
  }

  predicate FileHazard(p: Point, file: FileContext)
    decreases p
  {
    match p
    case AllOf(points) => exists q | q in points :: FileHazard(q, file)
    case OneOf(points) =>
      && (forall q | q in points :: FileMay(q, file) == NeverMatch)
      && exists q | q in points :: FileHazard(q, file)
    case Not(_) => false
    case FunctionBody(inner) => FileHazard(inner, file)
    case _ => LeafFileHazard(p)
  }

  // ---------------------------------------------------------------- folds of answers

  lemma {:induction false} AllPackageNever(env: Env, ps: seq<Point>, pkg: PackageContext)
    ensures AllPackageMay(env, ps, pkg) == NeverMatch <==> exists q :: q in ps && PackageMay(env, q, pkg) == NeverMatch
  {
    if ps != [] {
      AllPackageNever(env, ps[1..], pkg);
      assert ps[0] in ps && forall q | q in ps :: q == ps[0] || q in ps[1..];
    }
  }

  lemma {:induction false} AnyPackageNever(env: Env, ps: seq<Point>, pkg: PackageContext)
    ensures AnyPackageMay(env, ps, pkg) == NeverMatch <==> forall q | q in ps :: PackageMay(env, q, pkg) == NeverMatch
  {
    if ps != [] {
      AnyPackageNever(env, ps[1..], pkg);
      assert ps[0] in ps && forall q | q in ps :: q == ps[0] || q in ps[1..];
    }
  }

  lemma {:induction false} AllFileNever(ps: seq<Point>, file: FileContext)
    ensures AllFileMay(ps, file) == NeverMatch <==> exists q :: q in ps && FileMay(q, file) == NeverMatch
  {
    if ps != [] {
      AllFileNever(ps[1..], file);
      assert ps[0] in ps && forall q | q in ps :: q == ps[0] || q in ps[1..];
    }
  }

  lemma {:induction false} AnyFileNever(ps: seq<Point>, file: FileContext)
    ensures AnyFileMay(ps, file) == NeverMatch <==> forall q | q in ps :: FileMay(q, file) == NeverMatch
  {
    if ps != [] {
      AnyFileNever(ps[1..], file);
      assert ps[0] in ps && forall q | q in ps :: q == ps[0] || q in ps[1..];
    }
  }

  lemma {:induction false} OptionsPackageNever(os: seq<FunctionOption>, pkg: PackageContext)
    ensures OptionsPackageMay(os, pkg) == NeverMatch <==> exists o :: o in os && OptionPackageMay(o, pkg) == NeverMatch
  {
    if os != [] { OptionsPackageNever(os[1..], pkg); }
  }

  lemma {:induction false} OptionsFileNever(os: seq<FunctionOption>, file: FileContext)
    ensures OptionsFileMay(os, file) == NeverMatch <==> exists o :: o in os && OptionFileMay(o, file) == NeverMatch
  {
    if os != [] { OptionsFileNever(os[1..], file); }
  }

  lemma {:induction false} ImportsAllNever(types: seq<TypeName>, pkg: PackageContext)
    ensures ImportsAll(types, pkg) == NeverMatch <==> !AllImported(types, pkg)
  {
    if types != [] {
      ImportsAllNever(types[1..], pkg);
      assert types[0] in types && forall t | t in types :: t == types[0] || t in types[1..];
    }
  }

  // ---------------------------------------------------------------- leaves

  /** A type that matches an expression of the package comes from a package it knows. */
  lemma {:induction false} MatchedTypeIsImported(typ: TypeName, t: Node, pkg: PackageContext)
    requires typ.Matches(t) && ResolvedType(t, pkg)
    ensures Imported(pkg, typ.importPath)
    decreases t
  {
    match t.kind
    case StarExpr(x) => MatchedTypeIsImported(TypeName(typ.importPath, typ.name, false), x, pkg);
    case IndexExpr(x) => MatchedTypeIsImported(typ, x, pkg);
    case IndexListExpr(x) => MatchedTypeIsImported(typ, x, pkg);
    case _ =>
  }

  lemma SameTypesAreImported(expected: seq<TypeName>, fields: Option<seq<Node>>, pkg: PackageContext)
    requires SameTypes(expected, fields) && ResolvedFields(fields, pkg)
    ensures AllImported(expected, pkg)
  {
    forall e | e in expected ensures Imported(pkg, e.importPath) {
      var i :| 0 <= i < |expected| && expected[i] == e;
      MatchedTypeIsImported(e, FieldTypes(fields)[i], pkg);
    }
  }

  lemma {:induction false} ReceiverNameIsWritten(typ: TypeName, t: Node, file: FileContext)
    requires typ.Matches(t) && NamedReceiver(t, file)
    ensures Written(typ.name, file)
    decreases t
  {
    match t.kind
    case StarExpr(x) => ReceiverNameIsWritten(TypeName(typ.importPath, typ.name, false), x, file);
    case IndexExpr(x) => ReceiverNameIsWritten(typ, x, file);
    case IndexListExpr(x) => ReceiverNameIsWritten(typ, x, file);
    case _ =>
  }

  lemma WrittenIsFound(word: string, file: FileContext)
    ensures file.FileContains(word) == NeverMatch <==> !Written(word, file)
  {
    ContainsIsOccurs(file.content, word);
  }

  lemma {:induction false} AnyTypeIsImported(expected: seq<TypeName>, fields: Option<seq<Node>>, pkg: PackageContext)
    requires AnyType(expected, fields) && ResolvedFields(fields, pkg)
    ensures exists t | t in expected :: Imported(pkg, t.importPath)
  {
    var e, a :| e in expected && a in FieldTypes(fields) && e.Matches(a);
    MatchedTypeIsImported(e, a, pkg);
  }

  /** An option that holds was pruned exactly at a hazard. */
  lemma OptionPruningIsExact(o: FunctionOption, pkg: PackageContext, file: FileContext, c: Context)
    requires FromSource(c, pkg, file) && InfoOf(c).Some? && Evaluate(o, InfoOf(c).value)
    ensures OptionPackageMay(o, pkg) == NeverMatch <==> OptionPackageHazard(o, pkg)
    ensures OptionFileMay(o, file) == NeverMatch <==> OptionFileHazard(o)
  {
    var info := InfoOf(c).value;
    assert Parsed(c.chain.node, pkg, file);
    match o {
      case Name(name) => WrittenIsFound(name, file);
      case Signature(args, results) =>
        ImportsAllNever(args, pkg);
        ImportsAllNever(results, pkg);
        SameTypesAreImported(args, info.sig.params, pkg);
        SameTypesAreImported(results, info.sig.results, pkg);
      case SignatureContains(args, results) =>
        ContainsPruning(args, results, pkg);
        if AnyType(results, info.sig.results) {
          AnyTypeIsImported(results, info.sig.results, pkg);
        } else {
          AnyTypeIsImported(args, info.sig.params, pkg);
        }
      case Receiver(typ) =>
        WrittenIsFound(typ.name, file);
        ReceiverNameIsWritten(TypeName("", typ.name, typ.pointer), info.receiver.value, file);
      case HasReceiver(_) =>
    }
  }

  lemma ContainsPruning(args: seq<TypeName>, results: seq<TypeName>, pkg: PackageContext)
    ensures ImportsAll(args, pkg).And(ImportsAll(results, pkg)) == NeverMatch <==> !AllImported(args + results, pkg)
  {
    ImportsAllNever(args, pkg);
    ImportsAllNever(results, pkg);
    assert forall t :: t in args + results <==> t in args || t in results;
  }

  /** A decoration with the directive contains its text, after white space. */
  lemma DirectiveTextOccurs(name: string, dec: string)
    requires DirectiveText(name, dec)
    ensures Occurs("//" + name, dec)
  {
    var rest := TrimLeft(dec);
    TrimLeftDrops(dec);
    var text := "//" + name;
    assert rest == "//" + rest[2..] && rest[2..] == name + rest[|text|..];
    assert text <= rest;
    var n := |dec| - |rest|;
    assert dec[n..n + |text|] == rest[..|text|];
    assert At(dec, n, text);
  }

  lemma {:induction false} DirectiveIsWritten(name: string, chain: Chain, pkg: PackageContext, file: FileContext)
    requires DirectiveOnChain(name, chain) && ParsedChain(chain, pkg, file)
    ensures Written("//" + name, file)
  {
    if dec :| dec in chain.node.decorations && DirectiveText(name, dec) {
      DirectiveTextOccurs(name, dec);
      OccursTransitive("//" + name, dec, file.content);
    } else {
      DirectiveIsWritten(name, chain.up.value, pkg, file);
    }
  }

  lemma LiteralTypeIsImported(typ: TypeName, field: string, mode: LiteralMode, c: Context, pkg: PackageContext,
                              file: FileContext)
    requires FromSource(c, pkg, file) && MatchesStructLiteral(typ, field, mode, c.chain)
    ensures Imported(pkg, typ.importPath)
  {
    var n := c.chain.node;
    assert Parsed(n, pkg, file);
    if field != "" {
      assert ParsedChain(c.chain.up.value, pkg, file);
      MatchedTypeIsImported(typ, c.chain.up.value.node.kind.typ.value, pkg);
    } else if mode == PointerOnly {
      MatchedTypeIsImported(typ, n.kind.x.kind.typ.value, pkg);
    } else {
      MatchedTypeIsImported(typ, n.kind.typ.value, pkg);
    }
  }

  lemma FunctionPruningIsExact(env: Env, options: seq<FunctionOption>, pkg: PackageContext, file: FileContext,
                               c: Context)
    requires FromSource(c, pkg, file) && Matches(env, Function(options), c)
    ensures PackageMay(env, Function(options), pkg) == NeverMatch <==> LeafPackageHazard(Function(options), pkg, c)
    ensures FileMay(Function(options), file) == NeverMatch <==> LeafFileHazard(Function(options))
  {
    OptionsPackageNever(options, pkg);
    OptionsFileNever(options, file);
    forall o | o in options
      ensures OptionPackageMay(o, pkg) == NeverMatch <==> OptionPackageHazard(o, pkg)
      ensures OptionFileMay(o, file) == NeverMatch <==> OptionFileHazard(o)
    {
      OptionPruningIsExact(o, pkg, file, c);
    }
  }

  predicate IsLeaf(p: Point) {
    !p.AllOf? && !p.OneOf? && !p.Not? && !p.FunctionBody?
  }

  /** A leaf that matches a node was pruned by its package exactly when it is a hazard there. */
  lemma LeafPackagePruningIsExact(env: Env, p: Point, pkg: PackageContext, file: FileContext, c: Context)
    requires IsLeaf(p) && FromSource(c, pkg, file) && Matches(env, p, c)
    ensures PackageMay(env, p, pkg) == NeverMatch <==> LeafPackageHazard(p, pkg, c)
  {
    assert Parsed(c.chain.node, pkg, file);
    match p {
      case Function(options) => FunctionPruningIsExact(env, options, pkg, file, c);
      case ValueDeclaration(typ) =>
        if c.chain.node.kind.typ.Some? { MatchedTypeIsImported(typ, c.chain.node.kind.typ.value, pkg); }
      case StructLiteral(typ, field, mode) => LiteralTypeIsImported(typ, field, mode, c, pkg, file);
      case _ =>
    }
  }

  lemma LeafFilePruningIsExact(env: Env, p: Point, pkg: PackageContext, file: FileContext, c: Context)
    requires IsLeaf(p) && FromSource(c, pkg, file) && Matches(env, p, c)
    ensures FileMay(p, file) == NeverMatch <==> LeafFileHazard(p)
  {
    assert Parsed(c.chain.node, pkg, file);
    match p {
      case Function(options) => FunctionPruningIsExact(env, options, pkg, file, c);
      case DeclarationOf(_, name) => WrittenIsFound(name, file);
      case FunctionCall(_, name) => WrittenIsFound(name, file);
      case StructDefinition(_) => WrittenIsFound("struct", file);
      case MethodCall(_, name, _) => WrittenIsFound(name, file);
      case Directive(name) =>
        WrittenIsFound("//" + name, file);
        DirectiveIsWritten(name, c.chain, pkg, file);
      case _ =>
    }
  }

  // ---------------------------------------------------------------- whole join points

  /** `NeverMatch` and a match exclude each other. */
  predicate PackagePromise(env: Env, p: Point, pkg: PackageContext, c: Context) {
    PackageMay(env, p, pkg) == NeverMatch ==> !Matches(env, p, c)
  }

  predicate FilePromise(env: Env, p: Point, file: FileContext, c: Context) {
    FileMay(p, file) == NeverMatch ==> !Matches(env, p, c)
  }

  lemma ListPruningIsExact(env: Env, points: seq<Point>, pkg: PackageContext, file: FileContext, c: Context)
    requires forall q | q in points && Matches(env, q, c) ::
               && (PackageMay(env, q, pkg) == NeverMatch <==> PackageHazard(env, q, pkg, c))
               && (FileMay(q, file) == NeverMatch <==> FileHazard(q, file))
    ensures Matches(env, AllOf(points), c) ==>
              && (PackageMay(env, AllOf(points), pkg) == NeverMatch <==> PackageHazard(env, AllOf(points), pkg, c))
              && (FileMay(AllOf(points), file) == NeverMatch <==> FileHazard(AllOf(points), file))
    ensures Matches(env, OneOf(points), c) ==>
              && (PackageMay(env, OneOf(points), pkg) == NeverMatch <==> PackageHazard(env, OneOf(points), pkg, c))
              && (FileMay(OneOf(points), file) == NeverMatch <==> FileHazard(OneOf(points), file))
  {
    AllPackageNever(env, points, pkg);
    AnyPackageNever(env, points, pkg);
    AllFileNever(points, file);
    AnyFileNever(points, file);
  }

  /** A join point that matches a node was pruned by its package, or by its file, exactly at a hazard. */
  lemma {:induction false} PruningIsExact(env: Env, p: Point, pkg: PackageContext, file: FileContext, c: Context)
    requires FromSource(c, pkg, file) && Matches(env, p, c)
    ensures PackageMay(env, p, pkg) == NeverMatch <==> PackageHazard(env, p, pkg, c)
    ensures FileMay(p, file) == NeverMatch <==> FileHazard(p, file)
    decreases p
  {
    if p.AllOf? || p.OneOf? {
      forall q | q in p.points && Matches(env, q, c)
        ensures PackageMay(env, q, pkg) == NeverMatch <==> PackageHazard(env, q, pkg, c)
        ensures FileMay(q, file) == NeverMatch <==> FileHazard(q, file)
      {
        PruningIsExact(env, q, pkg, file, c);
      }
      ListPruningIsExact(env, p.points, pkg, file, c);
    } else if p.FunctionBody? {
      PruningIsExact(env, p.inner, pkg, file, c.Parent().value);
    } else if !p.Not? {
      LeafPackagePruningIsExact(env, p, pkg, file, c);
      LeafFilePruningIsExact(env, p, pkg, file, c);
    }
  }

  /** Away from hazards pruning keeps its promise, whether the node matches or not. */
  lemma PruningIsSound(env: Env, p: Point, pkg: PackageContext, file: FileContext, c: Context)
    requires FromSource(c, pkg, file)
    ensures !PackageHazard(env, p, pkg, c) ==> PackagePromise(env, p, pkg, c)
    ensures !FileHazard(p, file) ==> FilePromise(env, p, file, c)
  {
    if Matches(env, p, c) { PruningIsExact(env, p, pkg, file, c); }
  }

  // ---------------------------------------------------------------- what a package owes its nodes

  /** No method call breaks the promise at a node exactly if the receiver's type is from an imported package. */
  lemma MethodCallsAreSafeExactly(env: Env, pkg: PackageContext, c: Context)
    ensures (forall typ, name, call :: PackagePromise(env, MethodCall(typ, name, call), pkg, c))
       <==> !ForeignReceiver(pkg, c)
  {
    if ForeignReceiver(pkg, c) {
      var kind := c.chain.node.kind;
      var t := c.types[kind.fun.kind.x.id];
      var typ := TypeName(ReceiverPackage(c).value, (if t.Pointer? then t.elem else t).name, false);
      assert !PackagePromise(env, MethodCall(typ, kind.fun.kind.sel, AnyReceiver), pkg, c);
    }
  }

  /** signature-contains keeps its promise everywhere exactly if all its types are imported, or none is. */
  lemma SignatureContainsIsSafeExactly(env: Env, args: seq<TypeName>, results: seq<TypeName>, pkg: PackageContext,
                                       file: FileContext)
    ensures (forall c | FromSource(c, pkg, file) ::
              PackagePromise(env, Function([SignatureContains(args, results)]), pkg, c))
       <==> !Mixed(args + results, pkg)
  {
    var o := SignatureContains(args, results);
    assert o in [o] && forall x | x in [o] :: x == o;
    if Mixed(args + results, pkg) {
      var c := SomeMatch(env, args, results, pkg, file);
      FunctionPruningIsExact(env, [o], pkg, file, c);
    }
    forall c | FromSource(c, pkg, file) && !Mixed(args + results, pkg)
      ensures PackagePromise(env, Function([o]), pkg, c)
    {
      PruningIsSound(env, Function([o]), pkg, file, c);
    }
  }

  /** A function literal whose one parameter or result has an imported type of the list. */
  lemma SomeMatch(env: Env, args: seq<TypeName>, results: seq<TypeName>, pkg: PackageContext, file: FileContext)
    returns (c: Context)
    requires exists t | t in args + results :: Imported(pkg, t.importPath)
    ensures FromSource(c, pkg, file) && Matches(env, Function([SignatureContains(args, results)]), c)
  {
    var t :| t in args + results && Imported(pkg, t.importPath);
    var name := Node(1, [], Ident(t.importPath, t.name));
    var field := if t.pointer then Node(2, [], StarExpr(name)) else name;
    assert TypeName(t.importPath, t.name, false).Matches(name) && t.Matches(field);
    var sig := if t in args then FuncType(Some([field]), None) else FuncType(None, Some([field]));
    var lit := Chain(Node(0, [], FuncLit(sig, None)), "Fun", map[], None);
    c := Context(lit, pkg.importPath, file.packageName, false, map[]);
    assert field in FieldTypes(if t in args then sig.params else sig.results);
    assert Evaluate(SignatureContains(args, results), InfoOf(c).value);
  }

  // ---------------------------------------------------------------- the hazards are real

  const ANY_ENV := Env(None, (p: string, s: string) => Unmatched)

  /** An untyped declaration, `var x = ...`, matches every value-declaration, even of a type never imported. */
  lemma UntypedDeclarationIsPruned(pkg: PackageContext, file: FileContext, typ: TypeName) returns (c: Context)
    requires !Imported(pkg, typ.importPath) && Written("x", file)
    ensures FromSource(c, pkg, file) && Matches(ANY_ENV, ValueDeclaration(typ), c)
    ensures PackageMay(ANY_ENV, ValueDeclaration(typ), pkg) == NeverMatch
  {
    var decl := Chain(Node(0, [], GenDecl), "Decls", map[], None);
    var spec := Chain(Node(1, [], ValueSpec(["x"], None)), "Specs", map[], Some(decl));
    c := Context(spec, pkg.importPath, file.packageName, false, map[]);
  }

  /** signature-contains asks for any of its types; one that is not imported prunes the others. */
  lemma SignatureContainsIsPruned(pkg: PackageContext, file: FileContext, present: TypeName, absent: TypeName)
    returns (c: Context)
    requires !Imported(pkg, absent.importPath) && Imported(pkg, present.importPath) && !present.pointer
    ensures var p := Function([SignatureContains([present, absent], [])]);
            && FromSource(c, pkg, file) && Matches(ANY_ENV, p, c)
            && PackageMay(ANY_ENV, p, pkg) == NeverMatch
  {
    var o := SignatureContains([present, absent], []);
    var arg := Node(1, [], Ident(present.importPath, present.name));
    var lit := Chain(Node(0, [], FuncLit(FuncType(Some([arg]), None), None)), "Fun", map[], None);
    c := Context(lit, pkg.importPath, file.packageName, false, map[]);
    assert present in o.args && arg in FieldTypes(InfoOf(c).value.sig.params) && present.Matches(arg);
    assert absent in o.args;
    ImportsAllNever(o.args, pkg);
    OptionsPackageNever([o], pkg);
    assert o in [o] && OptionPackageMay(o, pkg) == NeverMatch;
  }

  /** `test-main: false` below function-body is pruned from a test main package, where it matches. */
  lemma TestMainBelowBodyIsPruned(pkg: PackageContext, file: FileContext) returns (c: Context)
    requires pkg.testMain && Written("f", file)
    ensures FromSource(c, pkg, file) && Matches(ANY_ENV, FunctionBody(TestMain(false)), c)
    ensures PackageMay(ANY_ENV, FunctionBody(TestMain(false)), pkg) == NeverMatch
  {
    var decl := Chain(Node(0, [], FuncDecl("f", None, FuncType(None, None), Some(1))), "Decls", map[], None);
    var body := Chain(Node(1, [], Other), "Body", map[], Some(decl));
    c := Context(body, pkg.importPath, file.packageName, true, map[]);
  }

  /** A function option with a blank name matches every function literal, and no file contains it. */
  lemma BlankNameIsPruned(pkg: PackageContext, file: FileContext) returns (c: Context)
    ensures FromSource(c, pkg, file) && Matches(ANY_ENV, Function([Name("")]), c)
    ensures FileMay(Function([Name("")]), file) == NeverMatch
  {
    var lit := Chain(Node(0, [], FuncLit(FuncType(None, None), None)), "Fun", map[], None);
    c := Context(lit, pkg.importPath, file.packageName, false, map[]);
    assert [Name("")][1..] == [];
  }
}
