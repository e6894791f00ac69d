/**
 Join points (internal/injector/aspect/join): what they match, and the two cheap tests that
 let a whole package or file skip them.
 */
module Join {
  import opened Wrappers
  import opened Strings
  import opened May
  import opened Syntax
  import opened Globstar

  datatype LiteralMode = AnyLiteral | ValueOnly | PointerOnly
  datatype CallMode = AnyReceiver | PointerReceiver | ValueReceiver

  datatype FunctionOption =
    | Name(name: string)
    | Signature(args: seq<TypeName>, results: seq<TypeName>)
    | SignatureContains(args: seq<TypeName>, results: seq<TypeName>)
    | Receiver(typ: TypeName)
    | HasReceiver(value: bool)

  datatype Point =
    | AllOf(points: seq<Point>)
    | OneOf(points: seq<Point>)
    | Not(point: Point)
    | Function(options: seq<FunctionOption>)
    | FunctionBody(inner: Point)
    | ImportPath(path: string)
    | PackageName(name: string)
    | PackageFilter(root: bool, pattern: string)
    | DeclarationOf(path: string, name: string)
    | ValueDeclaration(typ: TypeName)
    | Directive(name: string)
    | FunctionCall(path: string, name: string)
    | StructDefinition(typ: TypeName)
    | StructLiteral(typ: TypeName, field: string, mode: LiteralMode)
    | MethodCall(typ: TypeName, name: string, call: CallMode)
    | TestMain(value: bool)
    | Configuration(required: map<string, string>)

  // ---------------------------------------------------------------- matching

  datatype FunctionInfo = FunctionInfo(receiver: Option<Node>, sig: FuncType, importPath: string, name: string)

  function InfoOf(c: Context): Option<FunctionInfo> {
    match c.chain.node.kind
    case FuncDecl(name, recv, sig, _) =>
      var receiver := if recv.Some? && |recv.value| == 1 then Some(recv.value[0]) else None;
      Some(FunctionInfo(receiver, sig, c.importPath, name))
    case FuncLit(sig, _) => Some(FunctionInfo(None, sig, c.importPath, ""))
    case _ => None
  }

  function FieldTypes(fields: Option<seq<Node>>): seq<Node> {
    match fields
    case None => []
    case Some(list) => list
  }

  /** The listed types are the field types, in order. */
  predicate SameTypes(expected: seq<TypeName>, fields: Option<seq<Node>>) {
    var actual := FieldTypes(fields);
    |actual| == |expected| && forall i | 0 <= i < |expected| :: expected[i].Matches(actual[i])
  }

  predicate AnyType(expected: seq<TypeName>, fields: Option<seq<Node>>) {
    var actual := FieldTypes(fields);
    exists e, a :: e in expected && a in actual && e.Matches(a)
  }

  predicate Evaluate(o: FunctionOption, info: FunctionInfo) {
    match o
    case Name(name) => info.name == name
    case Signature(args, results) => SameTypes(results, info.sig.results) && SameTypes(args, info.sig.params)
    case SignatureContains(args, results) => AnyType(results, info.sig.results) || AnyType(args, info.sig.params)
    case Receiver(typ) => info.receiver.Some? && typ.MatchesDefinition(info.receiver.value, info.importPath)
    case HasReceiver(value) => info.receiver.Some? == value
  }

  predicate IsSpec(n: Node) {
    n.kind.ValueSpec? || n.kind.TypeSpec? || n.kind.ImportSpec?
  }

  /** The parent's directives apply to the child found under this property. */
  predicate Forwards(parent: Node, property: string) {
    match parent.kind
    case AssignStmt(tok) => property == "Rhs" || (tok == DEFINE && property == "Lhs")
    case CallExpr(_) => property == "Fun"
    case SendStmt => property == "Value"
    case DeferStmt => true
    case ExprStmt => true
    case GoStmt => true
    case ReturnStmt => true
    case _ => false
  }

  predicate DirectiveText(name: string, dec: string) {
    var rest := TrimLeft(dec);
    && "//" <= rest && name <= rest[2..]
    && (|rest| == 2 + |name| || IsSpace(rest[2 + |name|]))
  }

  predicate DirectiveOnChain(name: string, chain: Chain) {
    || (exists dec :: dec in chain.node.decorations && DirectiveText(name, dec))
    || (chain.up.Some?
        && (IsSpec(chain.node) || Forwards(chain.up.value.node, chain.property))
        && DirectiveOnChain(name, chain.up.value))
  }

  predicate MatchesLiteral(typ: TypeName, n: Node) {
    n.kind.CompositeLit? && n.kind.typ.Some? && typ.Matches(n.kind.typ.value)
  }

  predicate IsAddressOf(n: Node) {
    n.kind.UnaryExpr? && n.kind.op == AND
  }

  predicate MatchesStructLiteral(typ: TypeName, field: string, mode: LiteralMode, chain: Chain) {
    var n := chain.node;
    if field == "" then
      match mode
      case PointerOnly => IsAddressOf(n) && MatchesLiteral(typ, n.kind.x)
      case ValueOnly => !(chain.up.Some? && IsAddressOf(chain.up.value.node)) && MatchesLiteral(typ, n)
      case AnyLiteral => MatchesLiteral(typ, n)
    else
      && n.kind.KeyValueExpr?
      && chain.up.Some? && MatchesLiteral(typ, chain.up.value.node)
      && n.kind.key.kind.Ident? && n.kind.key.kind.ident == field
  }

  predicate IsNamed(t: GoType, typ: TypeName) {
    t.Named? && t.pkg == Some(typ.importPath) && t.name == typ.name
  }

  predicate MatchesReceiverType(typ: TypeName, call: CallMode, t: GoType) {
    match call
    case PointerReceiver => t.Pointer? && IsNamed(t.elem, typ)
    case ValueReceiver => IsNamed(t, typ)
    case AnyReceiver => IsNamed(if t.Pointer? then t.elem else t, typ)
  }

  predicate MatchesMethodCall(typ: TypeName, name: string, call: CallMode, c: Context) {
    var n := c.chain.node;
    && n.kind.CallExpr? && n.kind.fun.kind.SelectorExpr? && n.kind.fun.kind.sel == name
    && n.kind.fun.kind.x.id in c.types && MatchesReceiverType(typ, call, c.types[n.kind.fun.kind.x.id])
  }

  predicate UnderGenDecl(chain: Chain) {
    chain.up.Some? && chain.up.value.node.kind.GenDecl?
  }

  predicate Matches(env: Env, p: Point, c: Context)
    decreases p
  {
    var n := c.chain.node;
    match p
    case AllOf(points) => |points| > 0 && forall q | q in points :: Matches(env, q, c)
    case OneOf(points) => exists q | q in points :: Matches(env, q, c)
    case Not(point) => !Matches(env, point, c)
    case Function(options) => InfoOf(c).Some? && forall o | o in options :: Evaluate(o, InfoOf(c).value)
    case FunctionBody(inner) =>
      && c.Parent().Some? && Matches(env, inner, c.Parent().value)
      && var parent := c.Parent().value.chain.node;
         (parent.kind.FuncDecl? || parent.kind.FuncLit?) && parent.kind.body == Some(n.id)
    case ImportPath(path) => c.importPath == path
    case PackageName(name) => c.packageName == name
    case PackageFilter(root, pattern) => FilterMatches(env, root, pattern, c.importPath)
    case DeclarationOf(path, name) =>
      && c.importPath == path
      && ((n.kind.FuncDecl? && n.kind.name == name)
          || (n.kind.ValueSpec? && UnderGenDecl(c.chain) && name in n.kind.names))
    case ValueDeclaration(typ) =>
      && UnderGenDecl(c.chain) && n.kind.ValueSpec?
      && (n.kind.typ.None? || typ.Matches(n.kind.typ.value))
    case Directive(name) => DirectiveOnChain(name, c.chain)
    case FunctionCall(path, name) =>
      && n.kind.CallExpr?
      && (match n.kind.fun.kind
          case Ident(p, i) => p == path && i == name
          case SelectorExpr(x, sel) => sel == name && x.kind.Ident? && x.kind.path == path
          case _ => false)
    case StructDefinition(typ) =>
      && !typ.pointer && n.kind.TypeSpec? && n.kind.typeName == Some(typ.name)
      && n.kind.def.kind.StructType? && c.importPath == typ.importPath
    case StructLiteral(typ, field, mode) => MatchesStructLiteral(typ, field, mode, c.chain)
    case MethodCall(typ, name, call) => MatchesMethodCall(typ, name, call, c)
    case TestMain(value) => c.testMain == value
    case Configuration(required) =>
      forall k | k in required :: ConfigValue(c.chain, k) == Some(required[k])
  }

  // ---------------------------------------------------------------- the two tests

  /** All the listed types come from packages that this one imports. */
  function ImportsAll(types: seq<TypeName>, pkg: PackageContext): MatchType {
    if types == [] then Match
    else pkg.PackageImports(types[0].importPath).And(ImportsAll(types[1..], pkg))
  }

  function OptionPackageMay(o: FunctionOption, pkg: PackageContext): MatchType {
    match o
    case Name(_) => Unknown
    case Signature(args, results) => ImportsAll(args, pkg).And(ImportsAll(results, pkg))
    case SignatureContains(args, results) => ImportsAll(args, pkg).And(ImportsAll(results, pkg))
    case Receiver(typ) => if pkg.importPath == typ.importPath then Match else NeverMatch
    case HasReceiver(_) => Unknown
  }

  function OptionFileMay(o: FunctionOption, file: FileContext): MatchType {
    match o
    case Name(name) => file.FileContains(name)
    case Receiver(typ) => file.FileContains(typ.name)
    case _ => Unknown
  }

  function OptionsPackageMay(os: seq<FunctionOption>, pkg: PackageContext): MatchType {
    if os == [] then Match else OptionPackageMay(os[0], pkg).And(OptionsPackageMay(os[1..], pkg))
  }

  function OptionsFileMay(os: seq<FunctionOption>, file: FileContext): MatchType {
    if os == [] then Match else OptionFileMay(os[0], file).And(OptionsFileMay(os[1..], file))
  }

  function PackageMay(env: Env, p: Point, pkg: PackageContext): MatchType
    decreases p, 1
  {
    match p
    case AllOf(points) => AllPackageMay(env, points, pkg)
    case OneOf(points) => AnyPackageMay(env, points, pkg)
    case Not(point) => PackageMay(env, point, pkg).Not()
    case Function(options) => OptionsPackageMay(options, pkg)
    case FunctionBody(inner) => PackageMay(env, inner, pkg)
    case ImportPath(path) => if pkg.importPath == path then Match else NeverMatch
    case PackageName(_) => Unknown
    case PackageFilter(root, pattern) => if FilterMatches(env, root, pattern, pkg.importPath) then Match else NeverMatch
    case DeclarationOf(path, _) => pkg.PackageImports(path)
    case ValueDeclaration(typ) => pkg.PackageImports(typ.importPath)
    case Directive(_) => Unknown
    case FunctionCall(path, _) => pkg.PackageImports(path)
    case StructDefinition(typ) => if pkg.importPath == typ.importPath then Match else NeverMatch
    case StructLiteral(typ, _, _) => pkg.PackageImports(typ.importPath)
    case MethodCall(typ, _, _) => pkg.PackageImports(typ.importPath)
    case TestMain(value) => if pkg.testMain == value then Match else NeverMatch
    case Configuration(_) => Unknown
  }

  function AllPackageMay(env: Env, ps: seq<Point>, pkg: PackageContext): MatchType
    decreases ps, 0
  {
    if ps == [] then Match else PackageMay(env, ps[0], pkg).And(AllPackageMay(env, ps[1..], pkg))
  }

  function AnyPackageMay(env: Env, ps: seq<Point>, pkg: PackageContext): MatchType
    decreases ps, 0
  {
    if ps == [] then NeverMatch else PackageMay(env, ps[0], pkg).Or(AnyPackageMay(env, ps[1..], pkg))
  }

  function FileMay(p: Point, file: FileContext): MatchType
    decreases p, 1
  {
    match p
    case AllOf(points) => AllFileMay(points, file)
    case OneOf(points) => AnyFileMay(points, file)
    case Not(point) => FileMay(point, file).Not()
    case Function(options) => OptionsFileMay(options, file)
    case FunctionBody(inner) => FileMay(inner, file)
    case PackageName(name) => if file.packageName == name then Match else NeverMatch
    case DeclarationOf(_, name) => file.FileContains(name)
    case Directive(name) => file.FileContains("//" + name)
    case FunctionCall(_, name) => file.FileContains(name)
    case StructDefinition(_) => file.FileContains("struct")
    case MethodCall(_, name, _) => file.FileContains(name)
    case _ => Unknown
  }

  function AllFileMay(ps: seq<Point>, file: FileContext): MatchType
    decreases ps, 0
  {
    if ps == [] then Match else FileMay(ps[0], file).And(AllFileMay(ps[1..], file))
  }

  function AnyFileMay(ps: seq<Point>, file: FileContext): MatchType
    decreases ps, 0
  {
    if ps == [] then NeverMatch else FileMay(ps[0], file).Or(AnyFileMay(ps[1..], file))
  }
}
