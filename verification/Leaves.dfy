/**
 What the single join points mean (internal/injector/aspect/join, injector/typed/typename.go):
 how their modes divide the nodes between them, what they see of a node's surroundings, and
 how they answer where no package or file can be ruled out.
 */
module Leaves {
  import opened Wrappers
  import opened Strings
  import opened May
  import opened Syntax
  import opened Globstar
  import opened Join

  // ---------------------------------------------------------------- logic

  function Negated(points: seq<Point>): seq<Point> {
    seq(|points|, i requires 0 <= i < |points| => Not(points[i]))
  }

  /** Everywhere just one of a join point and its negation matches, and an empty list matches nowhere. */
  lemma NegationDivides(env: Env, p: Point, c: Context)
    ensures Matches(env, OneOf([p, Not(p)]), c) && !Matches(env, AllOf([p, Not(p)]), c)
    ensures !Matches(env, AllOf([]), c) && !Matches(env, OneOf([]), c)
  {
    assert p in [p, Not(p)] && Not(p) in [p, Not(p)];
  }

  /** De Morgan, for lists that are not empty. */
  lemma NegationDistributes(env: Env, points: seq<Point>, c: Context)
    requires points != []
    ensures Matches(env, Not(OneOf(points)), c) <==> Matches(env, AllOf(Negated(points)), c)
    ensures Matches(env, Not(AllOf(points)), c) <==> Matches(env, OneOf(Negated(points)), c)
  {
    var negated := Negated(points);
    forall q ensures q in negated <==> q.Not? && q.point in points {
      if q.Not? && q.point in points {
        var i :| 0 <= i < |points| && points[i] == q.point;
        assert negated[i] == q;
      }
    }
    assert forall q | q in points :: Not(q) in negated;
    assert forall q :: Matches(env, Not(q), c) <==> !Matches(env, q, c);
  }

  // ---------------------------------------------------------------- type names

  function AsNode(typ: TypeName): Node {
    var ident := Node(0, [], Ident(typ.importPath, typ.name));
    if typ.pointer then Node(0, [], StarExpr(ident)) else ident
  }

  /** The node made from a type name is matched by that name and no other. */
  lemma NodeNamesType(a: TypeName, b: TypeName)
    ensures a.Matches(AsNode(b)) <==> a == b
  {
  }

  /** The two are the same name for this type: `interface{}` is taken for `any` and for a pointer to it. */
  predicate SameName(a: TypeName, b: TypeName, t: Node) {
    a == b || (t.kind.InterfaceType? && a.importPath == b.importPath && a.name == b.name)
  }

  /** A type expression has at most one name, and it is a pointer's just if the expression has an asterisk. */
  lemma {:induction false} TypeHasOneName(a: TypeName, b: TypeName, t: Node)
    requires a.Matches(t)
    ensures b.Matches(t) <==> SameName(a, b, t)
    ensures !t.kind.InterfaceType? ==> (a.pointer <==> t.kind.StarExpr?)
    decreases t
  {
    match t.kind
    case StarExpr(x) =>
      if b.pointer {
        TypeHasOneName(TypeName(a.importPath, a.name, false), TypeName(b.importPath, b.name, false), x);
      }
    case IndexExpr(x) => TypeHasOneName(a, b, x);
    case IndexListExpr(x) => TypeHasOneName(a, b, x);
    case _ =>
  }

  /** Of all interface types only the empty one has a name, by itself or behind an asterisk. */
  lemma OnlyEmptyInterfacesAreNamed(typ: TypeName, t: Node, x: Node)
    requires x.kind.InterfaceType? && (t == x || t.kind == StarExpr(x))
    ensures typ.Matches(t) ==> x.kind.methods == 0 && typ.importPath == "" && typ.name == "any"
    ensures x.kind.methods == 0 ==> TypeName("", "any", t.kind.StarExpr?).Matches(t)
  {
    assert TypeName(typ.importPath, typ.name, false).Matches(x) <==>
      x.kind.methods == 0 && typ.importPath == "" && typ.name == "any";
    assert TypeName("", "any", false).Matches(x) <==> x.kind.methods == 0;
  }

  /** A type with type arguments has the names that it has without. */
  lemma TypeArgumentsAreIgnored(typ: TypeName, t: Node, x: Node)
    requires t.kind == IndexExpr(x) || t.kind == IndexListExpr(x)
    requires x.kind.Ident? || x.kind.SelectorExpr?
    ensures typ.Matches(t) <==> typ.Matches(x)
  {
    if typ.Matches(x) { TypeHasOneName(typ, typ, x); }
  }

  // ---------------------------------------------------------------- functions

  /** A declaration with exactly one receiver. */
  predicate IsMethod(n: Node) {
    n.kind.FuncDecl? && n.kind.recv.Some? && |n.kind.recv.value| == 1
  }

  predicate IsFunction(n: Node) {
    n.kind.FuncDecl? || n.kind.FuncLit?
  }

  /** Methods match `receiver: true`, and all other functions, literals among them, match `receiver: false`. */
  lemma ReceiverDividesExactly(env: Env, value: bool, c: Context)
    ensures Matches(env, Function([HasReceiver(value)]), c) <==>
              IsFunction(c.chain.node) && (if value then IsMethod(c.chain.node) else !IsMethod(c.chain.node))
  {
    assert HasReceiver(value) in [HasReceiver(value)];
  }

  /** A receiver of a given type is one, declared in the type's own package under its bare name. */
  lemma ReceiverIsMethod(env: Env, typ: TypeName, c: Context)
    ensures Matches(env, Function([Receiver(typ)]), c) <==>
              && IsMethod(c.chain.node) && c.importPath == typ.importPath
              && TypeName("", typ.name, typ.pointer).Matches(c.chain.node.kind.recv.value[0])
  {
    assert Receiver(typ) in [Receiver(typ)] && HasReceiver(true) in [HasReceiver(true)];
  }

  /** All options have to hold, in whatever order. */
  lemma OptionsConjoin(env: Env, some: seq<FunctionOption>, others: seq<FunctionOption>, c: Context)
    ensures Matches(env, Function(some + others), c) <==>
              Matches(env, Function(some), c) && Matches(env, Function(others), c)
    ensures Matches(env, Function([]), c) <==> IsFunction(c.chain.node)
  {
    if InfoOf(c).Some? {
      var info := InfoOf(c).value;
      assert (forall o | o in some + others :: Evaluate(o, info)) ==>
          (forall o | o in some :: Evaluate(o, info)) && (forall o | o in others :: Evaluate(o, info)) by {
        assert forall o | o in some || o in others :: o in some + others;
      }
    }
  }

  /** A literal has the blank name, and a declaration its own. */
  lemma NamesTellFunctions(env: Env, name: string, c: Context)
    ensures Matches(env, Function([Name(name)]), c) <==>
              || (c.chain.node.kind.FuncLit? && name == "")
              || (c.chain.node.kind.FuncDecl? && c.chain.node.kind.name == name)
  {
    assert Name(name) in [Name(name)];
  }

  function SignatureOf(n: Node): FuncType
    requires IsFunction(n)
  {
    n.kind.sig
  }

  function AsNodes(types: seq<TypeName>): seq<Node> {
    seq(|types|, i requires 0 <= i < |types| => AsNode(types[i]))
  }

  predicate SameNames(a: seq<TypeName>, b: seq<TypeName>, fields: Option<seq<Node>>) {
    |a| == |b| == |FieldTypes(fields)| && forall i | 0 <= i < |a| :: SameName(a[i], b[i], FieldTypes(fields)[i])
  }

  /** Of all signatures one matches a function, but for what names the empty interface. */
  lemma SignatureIsUnique(env: Env, args: seq<TypeName>, results: seq<TypeName>, c: Context, args': seq<TypeName>,
                          results': seq<TypeName>)
    requires Matches(env, Function([Signature(args, results)]), c)
    ensures IsFunction(c.chain.node)
    ensures var sig := SignatureOf(c.chain.node);
            Matches(env, Function([Signature(args', results')]), c) <==>
              SameNames(args, args', sig.params) && SameNames(results, results', sig.results)
  {
    var info := InfoOf(c).value;
    assert Signature(args, results) in [Signature(args, results)];
    assert Signature(args', results') in [Signature(args', results')];
    SameTypesAgree(args, args', info.sig.params);
    SameTypesAgree(results, results', info.sig.results);
  }

  lemma SameTypesAgree(a: seq<TypeName>, b: seq<TypeName>, fields: Option<seq<Node>>)
    requires SameTypes(a, fields)
    ensures SameTypes(b, fields) <==> SameNames(a, b, fields)
  {
    if |a| == |b| {
      forall i | 0 <= i < |a|
        ensures b[i].Matches(FieldTypes(fields)[i]) <==> SameName(a[i], b[i], FieldTypes(fields)[i])
      {
        TypeHasOneName(a[i], b[i], FieldTypes(fields)[i]);
      }
    }
  }

  /** A function made to measure for a signature matches it, so arguments and results are not exchanged. */
  lemma SignatureDescribes(env: Env, args: seq<TypeName>, results: seq<TypeName>, c: Context)
    requires IsFunction(c.chain.node)
    requires SignatureOf(c.chain.node) == FuncType(Some(AsNodes(args)), Some(AsNodes(results)))
    ensures Matches(env, Function([Signature(args, results)]), c)
  {
    forall t | t in args + results ensures t.Matches(AsNode(t)) { NodeNamesType(t, t); }
  }

  /**
   `signature-contains` looks for one type: it matches if one of the arguments asked for is among the function's,
   or one of the results. With nothing to ask for it never does.
   */
  lemma SignatureContainsOne(env: Env, args: seq<TypeName>, results: seq<TypeName>, c: Context)
    ensures Matches(env, Function([SignatureContains(args, results)]), c) <==>
              || (exists t :: t in args && Matches(env, Function([SignatureContains([t], [])]), c))
              || (exists t :: t in results && Matches(env, Function([SignatureContains([], [t])]), c))
    ensures !Matches(env, Function([SignatureContains([], [])]), c)
  {
    forall a: seq<TypeName>, r: seq<TypeName> ensures SignatureContains(a, r) in [SignatureContains(a, r)] {}
    if InfoOf(c).Some? {
      var sig := InfoOf(c).value.sig;
      AnyTypeSplits(args, sig.params);
      AnyTypeSplits(results, sig.results);
    }
  }

  lemma AnyTypeSplits(types: seq<TypeName>, fields: Option<seq<Node>>)
    ensures AnyType(types, fields) <==> exists t :: t in types && AnyType([t], fields)
  {
    if AnyType(types, fields) {
      var e, a :| e in types && a in FieldTypes(fields) && e.Matches(a);
      assert e in [e] && AnyType([e], fields);
    }
  }

  /** Exactly the body of a function that matches below matches `function-body`, declared or literal. */
  lemma FunctionBodyExactly(env: Env, options: seq<FunctionOption>, c: Context)
    ensures Matches(env, FunctionBody(Function(options)), c) <==>
              && c.chain.up.Some? && IsFunction(c.chain.up.value.node)
              && c.chain.up.value.node.kind.body == Some(c.chain.node.id)
              && Matches(env, Function(options), c.(chain := c.chain.up.value))
  {
  }

  // ---------------------------------------------------------------- packages and files

  /** Each of these divides the packages: just one import path, package name and test-main value matches. */
  lemma PackageHasOneOfEach(env: Env, c: Context, path: string, name: string, value: bool)
    ensures Matches(env, ImportPath(path), c) <==> path == c.importPath
    ensures Matches(env, PackageName(name), c) <==> name == c.packageName
    ensures Matches(env, TestMain(value), c) <==> !Matches(env, TestMain(!value), c)
    ensures Matches(env, TestMain(true), c) <==> c.testMain
  {
  }

  /** A filter on the root module matches below it what the same filter without the module matches relative to it. */
  lemma RootFilterIsRelative(env: Env, pattern: string, rest: string)
    requires env.rootModule.Some? && env.rootModule.value != ""
    requires pattern != ""
    ensures rest != "" ==>
              (FilterMatches(env, true, pattern, env.rootModule.value + "/" + rest) <==>
               FilterMatches(env, false, pattern, rest))
    ensures FilterMatches(env, true, pattern, env.rootModule.value + "/") <==>
              pattern == "*" || GlobMatch(env.pathMatch, pattern, "") == Matched
    ensures FilterMatches(env, true, pattern, env.rootModule.value) <==> FilterMatches(env, false, pattern, ".")
  {
    var root := env.rootModule.value;
    assert root + "/" <= root + "/" + rest && (root + "/" + rest)[|root| + 1..] == rest;
    assert (root + "/")[|root| + 1..] == "";
  }

  /**
   With `path.Match` as it is promised: a literal path with a slash and a globstar stands for it and all below, in
   the root module for that part of the module, and a literal alone for itself.
   */
  lemma FilterAcceptsExactly(env: Env, d: string, p: string)
    requires MatchesLiterals(env.pathMatch) && Globstar.Literal(d) && d != ""
    ensures FilterMatches(env, false, d + "/**", p) <==> p == d || d + "/" <= p
    ensures env.rootModule.Some? && env.rootModule.value != "" ==>
              var root := env.rootModule.value;
              FilterMatches(env, true, d + "/**", root + "/" + p) <==> p == d || d + "/" <= p
    ensures '/' !in p && p != "" ==> (FilterMatches(env, false, d, p) <==> p == d)
  {
    SlashGlobstar(env.pathMatch, d, p);
    assert (d + "/**")[|d|] == '/' && d + "/**" != "*";
    if env.rootModule.Some? && env.rootModule.value != "" {
      var root := env.rootModule.value;
      assert root + "/" <= root + "/" + p && (root + "/" + p)[|root| + 1..] == p;
    }
    assert d[0] in d && "*"[0] == '*';
    if Contains(d, ANY) { GlobstarIsNoLiteral(d); }
  }

  lemma GlobstarIsNoLiteral(d: string)
    requires Contains(d, ANY)
    ensures !Globstar.Literal(d)
  {
    var i := Index(d, ANY).value;
    assert d[i..i + 2][0] == d[i] && d[i] in d;
  }

  /** Without a pattern it matches the module and all below it, and a filter of neither kind nothing. */
  lemma EmptyPatternMeansRootExactly(env: Env, root: bool, importPath: string)
    ensures FilterMatches(env, root, "", importPath) <==>
              && root && importPath != "" && env.rootModule.Some?
              && (importPath == env.rootModule.value
                  || exists rest :: importPath == env.rootModule.value + "/" + rest)
    ensures FilterMatches(env, false, "*", importPath) <==> importPath != ""
    ensures forall pattern | FilterMatches(env, true, pattern, importPath) :: FilterMatches(env, true, "", importPath)
  {
    if env.rootModule.Some? && env.rootModule.value + "/" <= importPath {
      var prefix := env.rootModule.value + "/";
      assert importPath == prefix + importPath[|prefix|..];
    }
  }

  // ---------------------------------------------------------------- literals and calls

  function LiteralPoint(typ: TypeName, mode: LiteralMode): Point {
    StructLiteral(typ, "", mode)
  }

  /** The node is the operand of an `&`. */
  predicate AddressTaken(chain: Chain) {
    chain.up.Some? && chain.up.value.node.kind.UnaryExpr? && chain.up.value.node.kind.op == AND
      && chain.up.value.node.kind.x == chain.node
  }

  /** Whoever is above a node has it as operand, if it takes an address. */
  predicate Attached(chain: Chain) {
    chain.up.Some? && chain.up.value.node.kind.UnaryExpr? ==> chain.up.value.node.kind.x == chain.node
  }

  /**
   Every literal of the type is matched by exactly one of the two modes: as a value where it stands, or as
   a pointer at the `&` above it.
   */
  lemma LiteralModesDivide(env: Env, typ: TypeName, c: Context)
    requires Attached(c.chain)
    ensures Matches(env, LiteralPoint(typ, AnyLiteral), c) <==> IsLiteral(typ, c.chain.node)
    ensures Matches(env, LiteralPoint(typ, ValueOnly), c) <==> IsLiteral(typ, c.chain.node) && !AddressTaken(c.chain)
    ensures AddressTaken(c.chain) ==>
              (Matches(env, LiteralPoint(typ, PointerOnly), c.(chain := c.chain.up.value)) <==>
               IsLiteral(typ, c.chain.node))
    ensures IsLiteral(typ, c.chain.node) ==> !Matches(env, LiteralPoint(typ, PointerOnly), c)
  {
  }

  predicate IsLiteral(typ: TypeName, n: Node) {
    n.kind.CompositeLit? && n.kind.typ.Some? && typ.Matches(n.kind.typ.value)
  }

  /** A field is matched where it is given a value by name, in a literal that matches, whatever the mode. */
  lemma FieldIsSetInLiteral(env: Env, typ: TypeName, field: string, mode: LiteralMode, c: Context)
    requires field != ""
    ensures Matches(env, StructLiteral(typ, field, mode), c) <==>
              && c.chain.up.Some? && Matches(env, LiteralPoint(typ, AnyLiteral), c.(chain := c.chain.up.value))
              && c.chain.node.kind.KeyValueExpr? && c.chain.node.kind.key.kind.Ident?
              && c.chain.node.kind.key.kind.ident == field
  {
  }

  /** A method call on a named type is one on the value or on a pointer to it, and not both. */
  lemma CallModesDivide(env: Env, typ: TypeName, name: string, c: Context)
    ensures var any, pointer, value := Matches(env, MethodCall(typ, name, AnyReceiver), c),
              Matches(env, MethodCall(typ, name, PointerReceiver), c),
              Matches(env, MethodCall(typ, name, ValueReceiver), c);
            (any <==> pointer || value) && !(pointer && value)
    ensures Matches(env, MethodCall(typ, name, PointerReceiver), c) <==>
              Calls(c, name) && ReceiverType(c) == Some(Pointer(Named(Some(typ.importPath), typ.name)))
    ensures Matches(env, MethodCall(typ, name, ValueReceiver), c) <==>
              Calls(c, name) && ReceiverType(c) == Some(Named(Some(typ.importPath), typ.name))
  {
  }

  predicate Calls(c: Context, name: string) {
    var kind := c.chain.node.kind;
    kind.CallExpr? && kind.fun.kind.SelectorExpr? && kind.fun.kind.sel == name
  }

  function ReceiverType(c: Context): Option<GoType> {
    var kind := c.chain.node.kind;
    if kind.CallExpr? && kind.fun.kind.SelectorExpr? && kind.fun.kind.x.id in c.types
    then Some(c.types[kind.fun.kind.x.id]) else None
  }

  /** A call names just one function: a package's, or, behind a selector, one of that package. */
  lemma CallNamesOneFunction(env: Env, path: string, name: string, path': string, name': string, c: Context)
    requires Matches(env, FunctionCall(path, name), c)
    ensures Matches(env, FunctionCall(path', name'), c) <==> path == path' && name == name'
    ensures c.chain.node.kind.CallExpr? && (Calls(c, name) || c.chain.node.kind.fun.kind == Ident(path, name))
  {
  }

  /** A name is declared by a function of the package or in one of its declaration groups. */
  lemma DeclaredByFunctionOrGroup(env: Env, path: string, name: string, typ: TypeName, c: Context)
    ensures var kind, declares := c.chain.node.kind, Matches(env, DeclarationOf(path, name), c);
            && (declares ==> path == c.importPath)
            && (kind.FuncDecl? && path == c.importPath ==> (declares <==> Matches(env, Function([Name(name)]), c)))
            && (kind.ValueSpec? && path == c.importPath ==> (declares <==> name in kind.names && InGroup(c.chain)))
            && (!kind.FuncDecl? && !kind.ValueSpec? ==> !declares)
    ensures Matches(env, ValueDeclaration(typ), c) <==>
              && c.chain.node.kind.ValueSpec? && InGroup(c.chain)
              && (c.chain.node.kind.typ.Some? ==> typ.Matches(c.chain.node.kind.typ.value))
  {
    NamesTellFunctions(env, name, c);
  }

  predicate InGroup(chain: Chain) {
    chain.up.Some? && chain.up.value.node.kind.GenDecl?
  }

  /** A struct definition is the definition of the one struct type of that name in its own package. */
  lemma StructHasOneDefinition(env: Env, typ: TypeName, c: Context)
    ensures Matches(env, StructDefinition(typ), c) <==>
              && c.chain.node.kind.TypeSpec? && c.chain.node.kind.def.kind.StructType?
              && c.chain.node.kind.typeName.Some?
              && typ == TypeName(c.importPath, c.chain.node.kind.typeName.value, false)
  {
  }

  // ---------------------------------------------------------------- looking up the chain

  /** The ancestor that many levels up. */
  function Above(chain: Chain, n: nat): Option<Chain> {
    if n == 0 then Some(chain) else if chain.up.None? then None else Above(chain.up.value, n - 1)
  }

  /** The nearest setting of a key is the one that counts. */
  lemma {:induction false} NearestSettingCounts(chain: Chain, key: string, value: string)
    ensures ConfigValue(chain, key) == Some(value) <==>
              exists n: nat :: NearestWith(chain, n, key) && Above(chain, n).value.config[key] == value
    decreases chain
  {
    if key in chain.config {
      assert Above(chain, 0) == Some(chain);
      assert NearestWith(chain, 0, key);
      forall n: nat | NearestWith(chain, n, key) ensures n == 0 { assert !(0 < n); }
    } else if chain.up.Some? {
      NearestSettingCounts(chain.up.value, key, value);
      forall n: nat ensures n > 0 ==> (NearestWith(chain, n, key) <==> NearestWith(chain.up.value, n - 1, key)) {
        if n > 0 { NearestFromAbove(chain, n, key); }
      }
      if n: nat :| NearestWith(chain.up.value, n, key) && Above(chain.up.value, n).value.config[key] == value {
        assert Above(chain, n + 1) == Above(chain.up.value, n);
        NearestFromAbove(chain, n + 1, key);
      }
    }
  }

  lemma NearestFromAbove(chain: Chain, n: nat, key: string)
    requires n > 0 && chain.up.Some? && key !in chain.config
    ensures NearestWith(chain, n, key) <==> NearestWith(chain.up.value, n - 1, key)
  {
    if NearestWith(chain.up.value, n - 1, key) {
      forall k: nat | k < n ensures Above(chain, k).Some? && key !in Above(chain, k).value.config {
        if k > 0 { assert Above(chain, k) == Above(chain.up.value, k - 1); }
      }
    }
    if NearestWith(chain, n, key) {
      forall k: nat | k < n - 1
        ensures Above(chain.up.value, k).Some? && key !in Above(chain.up.value, k).value.config
      {
        assert Above(chain, k + 1) == Above(chain.up.value, k);
      }
    }
  }

  /** This ancestor has the setting, and none below it. */
  ghost predicate NearestWith(chain: Chain, n: nat, key: string) {
    && Above(chain, n).Some? && key in Above(chain, n).value.config
    && forall k: nat | k < n :: Above(chain, k).Some? && key !in Above(chain, k).value.config
  }

  /** Requirements are independent of each other. */
  lemma ConfigurationConjoins(env: Env, required: map<string, string>, c: Context)
    ensures Matches(env, Configuration(required), c) <==>
              forall k | k in required :: Matches(env, Configuration(map[k := required[k]]), c)
  {
    forall k | k in required
      ensures Matches(env, Configuration(map[k := required[k]]), c) <==> ConfigValue(c.chain, k) == Some(required[k])
    {
      RequiredSetting(env, k, required[k], c);
    }
  }

  lemma RequiredSetting(env: Env, key: string, value: string, c: Context)
    ensures Matches(env, Configuration(map[key := value]), c) <==> ConfigValue(c.chain, key) == Some(value)
  {
    assert key in map[key := value];
  }

  // ---------------------------------------------------------------- directives

  predicate ReadsAs(dec: string, indent: string, name: string, rest: string) {
    && dec == indent + "//" + name + rest && (forall x | x in indent :: IsSpace(x))
    && (rest != "" ==> IsSpace(rest[0]))
  }

  /** A decoration carries the directive if it is a comment that begins with it, alone or before white space. */
  lemma DirectiveTextExactly(name: string, dec: string)
    ensures DirectiveText(name, dec) <==> exists indent, rest :: ReadsAs(dec, indent, name, rest)
  {
    if DirectiveText(name, dec) {
      var indent, rest := ReadDirective(name, dec);
    }
    forall indent, rest | ReadsAs(dec, indent, name, rest) ensures DirectiveText(name, dec) {
      ReadsAsDirective(dec, indent, name, rest);
    }
  }

  lemma ReadDirective(name: string, dec: string) returns (indent: string, rest: string)
    requires DirectiveText(name, dec)
    ensures ReadsAs(dec, indent, name, rest)
  {
    var trimmed := TrimLeft(dec);
    TrimLeftDrops(dec);
    TrimLeftLeavesSpace(dec);
    indent, rest := dec[..|dec| - |trimmed|], trimmed[2 + |name|..];
    assert trimmed == "//" + name + rest by { assert trimmed[2..][..|name|] == name; }
    assert dec == indent + trimmed;
    assert indent + trimmed == indent + "//" + name + rest;
  }

  lemma ReadsAsDirective(dec: string, indent: string, name: string, rest: string)
    requires ReadsAs(dec, indent, name, rest)
    ensures DirectiveText(name, dec)
  {
    var text := "//" + name + rest;
    assert dec == indent + text;
    TrimLeftOf(indent, text);
    assert text[2..] == name + rest && "//" <= text;
  }

  lemma {:induction false} TrimLeftLeavesSpace(s: string)
    ensures |TrimLeft(s)| <= |s| && forall x | x in s[..|s| - |TrimLeft(s)|] :: IsSpace(x)
  {
    if s != [] && IsSpace(s[0]) {
      TrimLeftLeavesSpace(s[1..]);
      var n := |s| - |TrimLeft(s)|;
      assert s[..n] == [s[0]] + s[1..][..n - 1];
    }
  }

  lemma {:induction false} TrimLeftOf(indent: string, text: string)
    requires (forall x | x in indent :: IsSpace(x)) && text != "" && !IsSpace(text[0])
    ensures TrimLeft(indent + text) == text
  {
    if indent == [] {
      assert indent + text == text;
    } else {
      assert indent[0] in indent && (indent + text)[1..] == indent[1..] + text;
      TrimLeftOf(indent[1..], text);
    }
  }

  predicate Carries(name: string, n: Node) {
    exists dec :: dec in n.decorations && DirectiveText(name, dec)
  }

  /** The node shares its parent's directives. */
  predicate Shares(chain: Chain) {
    chain.up.Some? && (IsSpec(chain.node) || Forwards(chain.up.value.node, chain.property))
  }

  /** A directive applies to a node if an ancestor carries it and everything on the way down shares it. */
  lemma {:induction false} DirectiveReachesDown(name: string, chain: Chain)
    ensures DirectiveOnChain(name, chain) <==> exists n: nat :: SharedFrom(name, chain, n)
    decreases chain
  {
    if Carries(name, chain.node) {
      assert Above(chain, 0) == Some(chain);
      assert SharedFrom(name, chain, 0);
    }
    if Shares(chain) {
      DirectiveReachesDown(name, chain.up.value);
      forall n: nat | SharedFrom(name, chain.up.value, n) ensures SharedFrom(name, chain, n + 1) {
        forall k: nat | k < n + 1 ensures Above(chain, k).Some? && Shares(Above(chain, k).value) {
          if k > 0 { assert Above(chain, k) == Above(chain.up.value, k - 1); }
        }
      }
      forall n: nat | n > 0 && SharedFrom(name, chain, n) ensures SharedFrom(name, chain.up.value, n - 1) {
        forall k: nat | k < n - 1 ensures Above(chain.up.value, k).Some? && Shares(Above(chain.up.value, k).value) {
          assert Above(chain, k + 1) == Above(chain.up.value, k);
        }
      }
    }
    forall n: nat | SharedFrom(name, chain, n) ensures n == 0 ==> Carries(name, chain.node)
      ensures n > 0 ==> Shares(chain)
    {
      if n > 0 { assert Above(chain, 0) == Some(chain); }
    }
  }

  ghost predicate SharedFrom(name: string, chain: Chain, n: nat) {
    && Above(chain, n).Some? && Carries(name, Above(chain, n).value.node)
    && forall k: nat | k < n :: Above(chain, k).Some? && Shares(Above(chain, k).value)
  }

  /**
   Which children share a directive: all specs of a declaration; what is called, but not its arguments; what is sent,
   but not the channel; what is assigned, and with `:=` also what is declared; all that a wrapping statement holds.
   Everything else keeps it to itself.
   */
  lemma SharingExactly(chain: Chain, parent: Chain)
    requires chain.up == Some(parent)
    ensures var kind, property, own := parent.node.kind, chain.property, chain.node.kind;
            var isSpec := own.ValueSpec? || own.TypeSpec? || own.ImportSpec?;
            && (isSpec ==> Shares(chain))
            && (!isSpec ==>
                  && (kind.CallExpr? ==> (Shares(chain) <==> property == "Fun"))
                  && (kind.SendStmt? ==> (Shares(chain) <==> property == "Value"))
                  && (kind == AssignStmt(DEFINE) ==> (Shares(chain) <==> property in {"Lhs", "Rhs"}))
                  && (kind.AssignStmt? && kind.tok != DEFINE ==> (Shares(chain) <==> property == "Rhs"))
                  && (!kind.CallExpr? && !kind.SendStmt? && !kind.AssignStmt? ==>
                        (Shares(chain) <==> kind in {DeferStmt, ExprStmt, GoStmt, ReturnStmt})))
  {
  }

  // ---------------------------------------------------------------- answers

  /** How much an answer promises not to match: `Match` nothing at all. */
  function Chance(m: MatchType): int {
    if m == NeverMatch then 0 else if m == Unknown then 1 else 2
  }

  /** All-of takes the least chance, one-of the greatest, and not makes a certain no of nothing. */
  lemma AnswersAreOrdered(a: MatchType, b: MatchType, c: MatchType)
    ensures Chance(c) <= Chance(a.And(b)) <==> Chance(c) <= Chance(a) && Chance(c) <= Chance(b)
    ensures Chance(a.Or(b)) <= Chance(c) <==> Chance(a) <= Chance(c) && Chance(b) <= Chance(c)
    ensures a.Not() != NeverMatch && (a.Not() == Match <==> a == NeverMatch)
  {
  }

  /** An all-of, or one-of, answers like its least, or most, likely candidate. */
  lemma {:induction false} ListsAnswerLikeExtremes(env: Env, ps: seq<Point>, pkg: PackageContext, m: MatchType)
    ensures Chance(m) <= Chance(PackageMay(env, AllOf(ps), pkg)) <==>
              forall p | p in ps :: Chance(m) <= Chance(PackageMay(env, p, pkg))
    ensures Chance(PackageMay(env, OneOf(ps), pkg)) <= Chance(m) <==>
              forall p | p in ps :: Chance(PackageMay(env, p, pkg)) <= Chance(m)
    decreases |ps|
  {
    if ps != [] {
      ListsAnswerLikeExtremes(env, ps[1..], pkg, m);
      var first := PackageMay(env, ps[0], pkg);
      assert PackageMay(env, AllOf(ps), pkg) == first.And(PackageMay(env, AllOf(ps[1..]), pkg));
      assert PackageMay(env, OneOf(ps), pkg) == first.Or(PackageMay(env, OneOf(ps[1..]), pkg));
      AnswersAreOrdered(first, PackageMay(env, AllOf(ps[1..]), pkg), m);
      AnswersAreOrdered(first, PackageMay(env, OneOf(ps[1..]), pkg), m);
      assert ps[0] in ps && forall p :: p in ps <==> p == ps[0] || p in ps[1..];
    }
  }

  lemma {:induction false} ListsAnswerLikeExtremesInFiles(ps: seq<Point>, file: FileContext, m: MatchType)
    ensures Chance(m) <= Chance(FileMay(AllOf(ps), file)) <==>
              forall p | p in ps :: Chance(m) <= Chance(FileMay(p, file))
    ensures Chance(FileMay(OneOf(ps), file)) <= Chance(m) <==>
              forall p | p in ps :: Chance(FileMay(p, file)) <= Chance(m)
    decreases |ps|
  {
    if ps != [] {
      ListsAnswerLikeExtremesInFiles(ps[1..], file, m);
      var first := FileMay(ps[0], file);
      assert FileMay(AllOf(ps), file) == first.And(FileMay(AllOf(ps[1..]), file));
      assert FileMay(OneOf(ps), file) == first.Or(FileMay(OneOf(ps[1..]), file));
      AnswersAreOrdered(first, FileMay(AllOf(ps[1..]), file), m);
      AnswersAreOrdered(first, FileMay(OneOf(ps[1..]), file), m);
      assert ps[0] in ps && forall p :: p in ps <==> p == ps[0] || p in ps[1..];
    }
  }

  /** The package whose import decides, for join points that need one. */
  function Needs(p: Point): Option<string> {
    match p
    case DeclarationOf(path, _) => Some(path)
    case FunctionCall(path, _) => Some(path)
    case ValueDeclaration(typ) => Some(typ.importPath)
    case StructLiteral(typ, _, _) => Some(typ.importPath)
    case MethodCall(typ, _, _) => Some(typ.importPath)
    case _ => None
  }

  predicate Has(pkg: PackageContext, path: string) {
    path in pkg.importMap || path == pkg.importPath
  }

  /** Of a package it is said that it may match if it has the named package that is needed, and nothing if none is. */
  lemma NeedsAreAnswered(env: Env, p: Point, pkg: PackageContext)
    requires Needs(p).Some?
    ensures var path, r := Needs(p).value, PackageMay(env, p, pkg);
            r == if path == "" then Unknown else if Has(pkg, path) then Match else NeverMatch
  {
  }

  /** Nothing is said where the package cannot tell, and a type is defined and has methods in its own alone. */
  lemma OthersAreAnswered(env: Env, typ: TypeName, name: string, value: bool, required: map<string, string>,
                          pkg: PackageContext)
    ensures PackageMay(env, PackageName(name), pkg) == Unknown && PackageMay(env, Directive(name), pkg) == Unknown
    ensures PackageMay(env, Configuration(required), pkg) == Unknown
    ensures OptionPackageMay(Name(name), pkg) == Unknown && OptionPackageMay(HasReceiver(value), pkg) == Unknown
    ensures var own := if pkg.importPath == typ.importPath then Match else NeverMatch;
            PackageMay(env, StructDefinition(typ), pkg) == own && OptionPackageMay(Receiver(typ), pkg) == own
  {
  }

  /** What a file has to contain. */
  function Word(p: Point): Option<string> {
    match p
    case DeclarationOf(_, name) => Some(name)
    case FunctionCall(_, name) => Some(name)
    case MethodCall(_, name, _) => Some(name)
    case Directive(name) => Some("//" + name)
    case StructDefinition(_) => Some("struct")
    case _ => None
  }

  /** Of a file it is said that it may match if it contains the word that is needed, and nothing if none is. */
  lemma FilesAreAnswered(p: Point, file: FileContext)
    requires !p.AllOf? && !p.OneOf? && !p.Not? && !p.Function? && !p.FunctionBody? && !p.PackageName?
    ensures FileMay(p, file) ==
              if Word(p).None? then Unknown
              else if Word(p).value != "" && Occurs(Word(p).value, file.content) then Match else NeverMatch
  {
    if Word(p).Some? { ContainsIsOccurs(file.content, Word(p).value); }
  }

  lemma FileOptionsAreAnswered(o: FunctionOption, file: FileContext)
    ensures OptionFileMay(o, file) ==
              if !o.Name? && !o.Receiver? then Unknown
              else
                var word := if o.Name? then o.name else o.typ.name;
                if word != "" && Occurs(word, file.content) then Match else NeverMatch
  {
    if o.Name? { ContainsIsOccurs(file.content, o.name); }
    if o.Receiver? { ContainsIsOccurs(file.content, o.typ.name); }
  }

  /** The package alone decides these. */
  predicate DecidedByPackage(p: Point) {
    p.ImportPath? || p.PackageFilter? || p.TestMain?
  }

  /** For what the package alone decides the answer is what will be, wherever its test-main flag is known. */
  lemma PackagePointsAreForetold(env: Env, p: Point, pkg: PackageContext, c: Context)
    requires DecidedByPackage(p) && c.importPath == pkg.importPath && c.testMain == pkg.testMain
    ensures PackageMay(env, p, pkg) == if Matches(env, p, c) then Match else NeverMatch
  {
  }

  lemma PackageNameIsForetold(env: Env, name: string, file: FileContext, c: Context)
    requires c.packageName == file.packageName
    ensures FileMay(PackageName(name), file) == if Matches(env, PackageName(name), c) then Match else NeverMatch
  {
  }
}
