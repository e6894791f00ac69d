/**
 Syntax nodes, reduced to what join points look at, and the chain of ancestors through
 which they look (internal/injector/aspect/context). Node identity is an id.
 */
module Syntax {
  import opened Wrappers
  import opened Strings
  import opened May

  datatype Token = AND | DEFINE | OtherToken

  /** Types of the fields of a signature; a missing field list is None. */
  datatype FuncType = FuncType(params: Option<seq<Node>>, results: Option<seq<Node>>)

  datatype Node = Node(id: nat, decorations: seq<string>, kind: Kind)

  datatype Kind =
    | FuncDecl(name: string, recv: Option<seq<Node>>, sig: FuncType, body: Option<nat>)
    | FuncLit(sig: FuncType, body: Option<nat>)
    | GenDecl
    | ValueSpec(names: seq<string>, typ: Option<Node>)
    | TypeSpec(typeName: Option<string>, def: Node)
    | ImportSpec
    | Ident(path: string, ident: string)
    | SelectorExpr(x: Node, sel: string)
    | StarExpr(x: Node)
    | IndexExpr(x: Node)
    | IndexListExpr(x: Node)
    | InterfaceType(methods: nat)
    | StructType
    | CallExpr(fun: Node)
    | CompositeLit(typ: Option<Node>)
    | KeyValueExpr(key: Node)
    | UnaryExpr(op: Token, x: Node)
    | AssignStmt(tok: Token)
    | SendStmt | DeferStmt | ExprStmt | GoStmt | ReturnStmt
    | Other

  datatype Chain = Chain(node: Node, property: string, config: map<string, string>, up: Option<Chain>)

  datatype GoType = Pointer(elem: GoType) | Named(pkg: Option<string>, name: string) | OtherType

  datatype Context = Context(
    chain: Chain, importPath: string, packageName: string, testMain: bool, types: map<nat, GoType>)
  {
    /** The context of the parent node. It does not remember whether this is a test main package. */
    function Parent(): Option<Context> {
      match chain.up
      case None => None
      case Some(up) => Some(Context(up, importPath, packageName, false, types))
    }
  }

  function ConfigValue(chain: Chain, key: string): Option<string> {
    if key in chain.config then Some(chain.config[key])
    else match chain.up
         case None => None
         case Some(up) => ConfigValue(up, key)
  }

  datatype TypeName = TypeName(importPath: string, name: string, pointer: bool)
  {
    predicate Matches(t: Node)
      decreases t
    {
      match t.kind
      case Ident(path, ident) => !pointer && importPath == path && name == ident
      case SelectorExpr(x, sel) =>
        x.kind.Ident? && x.kind.path == "" && !pointer && importPath == x.kind.ident && name == sel
      case StarExpr(x) => pointer && TypeName(importPath, name, false).Matches(x)
      case IndexExpr(x) => !pointer && Matches(x)
      case IndexListExpr(x) => !pointer && Matches(x)
      case InterfaceType(methods) => methods == 0 && importPath == "" && name == "any"
      case _ => false
    }

    predicate MatchesDefinition(t: Node, inPackage: string) {
      importPath == inPackage && TypeName("", name, pointer).Matches(t)
    }
  }

  // ---------------------------------------------------------------- nodes that were parsed

  /** A word of the source: an identifier or a keyword. */
  ghost predicate Written(word: string, file: FileContext) {
    word != "" && Occurs(word, file.content)
  }

  /** A package that type checking can name: local, this one, or imported. */
  predicate Resolved(path: string, pkg: PackageContext) {
    path == "" || path in pkg.importMap || path == pkg.importPath
  }

  /** The package that a type expression refers to is resolved. */
  predicate ResolvedType(t: Node, pkg: PackageContext)
    decreases t
  {
    match t.kind
    case Ident(path, _) => Resolved(path, pkg)
    case SelectorExpr(x, _) => x.kind.Ident? && x.kind.path == "" ==> Resolved(x.kind.ident, pkg)
    case StarExpr(x) => ResolvedType(x, pkg)
    case IndexExpr(x) => ResolvedType(x, pkg)
    case IndexListExpr(x) => ResolvedType(x, pkg)
    case _ => true
  }

  /** A receiver's type is a name, possibly behind a pointer or with type arguments. */
  ghost predicate NamedReceiver(t: Node, file: FileContext)
    decreases t
  {
    match t.kind
    case Ident(_, ident) => Written(ident, file)
    case StarExpr(x) => NamedReceiver(x, file)
    case IndexExpr(x) => NamedReceiver(x, file)
    case IndexListExpr(x) => NamedReceiver(x, file)
    case _ => false
  }

  predicate ResolvedFields(fields: Option<seq<Node>>, pkg: PackageContext) {
    fields.Some? ==> forall t | t in fields.value :: ResolvedType(t, pkg)
  }

  /**
   What parsing and type checking a file guarantee of its nodes: names, keywords and comments
   are written in it, and the packages its names refer to are known to the package.
   */
  ghost predicate Parsed(n: Node, pkg: PackageContext, file: FileContext) {
    && (forall dec | dec in n.decorations :: Occurs(dec, file.content))
    && match n.kind
       case FuncDecl(name, recv, sig, _) =>
         && Written(name, file)
         && (recv.Some? ==> forall t | t in recv.value :: NamedReceiver(t, file))
         && ResolvedFields(sig.params, pkg) && ResolvedFields(sig.results, pkg)
       case FuncLit(sig, _) => ResolvedFields(sig.params, pkg) && ResolvedFields(sig.results, pkg)
       case ValueSpec(names, typ) =>
         && (forall name | name in names :: Written(name, file))
         && (typ.Some? ==> ResolvedType(typ.value, pkg))
       case TypeSpec(name, def) => def.kind.StructType? ==> Written("struct", file)
       case CallExpr(fun) =>
         && (fun.kind.Ident? ==> Written(fun.kind.ident, file) && Resolved(fun.kind.path, pkg))
         && (fun.kind.SelectorExpr? ==>
               Written(fun.kind.sel, file) && (fun.kind.x.kind.Ident? ==> Resolved(fun.kind.x.kind.path, pkg)))
       case CompositeLit(typ) => typ.Some? ==> ResolvedType(typ.value, pkg)
       case UnaryExpr(_, x) => x.kind.CompositeLit? && x.kind.typ.Some? ==> ResolvedType(x.kind.typ.value, pkg)
       case _ => true
  }

  ghost predicate ParsedChain(chain: Chain, pkg: PackageContext, file: FileContext) {
    Parsed(chain.node, pkg, file) && (chain.up.Some? ==> ParsedChain(chain.up.value, pkg, file))
  }

  /** A position in a parsed file of the package. */
  ghost predicate FromSource(c: Context, pkg: PackageContext, file: FileContext) {
    c.importPath == pkg.importPath && c.packageName == file.packageName && ParsedChain(c.chain, pkg, file)
  }
}
