/**
 Fingerprints of join points (the Hash methods of internal/injector/aspect/join). Two join
 points share one exactly when they differ at most in calling a package name an import path.
 */
module JoinHash {
  import opened Wrappers
  import opened Ordering
  import opened Decimal
  import opened Syntax
  import opened Join
  import opened Fingerprint

  function BoolValue(b: bool): Value {
    Text(LeafText(Leaf.Bool(b)))
  }

  function TypeValue(t: TypeName): Value {
    Value.Named("type-name", [Text(t.name), Text(t.importPath), BoolValue(t.pointer)])
  }

  function TypeValues(types: seq<TypeName>): (r: seq<Value>)
    ensures |r| == |types| && forall i | 0 <= i < |r| :: r[i] == TypeValue(types[i])
  {
    seq(|types|, i requires 0 <= i < |types| => TypeValue(types[i]))
  }

  function OptionValue(o: FunctionOption): Value {
    match o
    case Name(name) => Value.Named("name", [Text(name)])
    case Signature(args, results) => Value.Named("signature", [List(TypeValues(args)), List(TypeValues(results))])
    case SignatureContains(args, results) => Value.Named("signature-contains",
      [List(TypeValues(args)), List(TypeValues(results))])
    case Receiver(typ) => Value.Named("receiver", [TypeValue(typ)])
    case HasReceiver(value) => Value.Named("receiver", [BoolValue(value)])
  }

  function OptionValues(os: seq<FunctionOption>): (r: seq<Value>)
    ensures |r| == |os| && forall i | 0 <= i < |r| :: r[i] == OptionValue(os[i])
  {
    seq(|os|, i requires 0 <= i < |os| => OptionValue(os[i]))
  }

  function LiteralNumber(mode: LiteralMode): nat {
    match mode case AnyLiteral => 0 case ValueOnly => 1 case PointerOnly => 2
  }

  function CallNumber(call: CallMode): nat {
    match call case AnyReceiver => 0 case PointerReceiver => 1 case ValueReceiver => 2
  }

  // ---------------------------------------------------------------- configurations

  ghost predicate InOrder(order: seq<string>, keys: set<string>) {
    Distinct(order) && SortedBy(AtMost, order) && forall k :: k in order <==> k in keys
  }

  lemma {:induction false} OrderExists(keys: set<string>) returns (order: seq<string>)
    ensures InOrder(order, keys)
    decreases |keys|
  {
    if keys == {} { return []; }
    var k :| k in keys;
    var rest := OrderExists(keys - {k});
    order := Sort(AtMost, rest + [k]);
    AtMostIsTotal();
    SortSorts(AtMost, rest + [k]);
    PermutationIsDistinct(rest + [k], order);
    forall x ensures x in order <==> x in rest + [k] {
      assert x in order <==> x in multiset(order);
      assert x in rest + [k] <==> x in multiset(rest + [k]);
    }
  }

  ghost function KeysInOrder(keys: set<string>): (order: seq<string>)
    ensures InOrder(order, keys)
  {
    assert exists order :: InOrder(order, keys) by { var order := OrderExists(keys); }
    var order :| InOrder(order, keys);
    order
  }

  ghost function ConfigItems(m: map<string, string>): (r: seq<Item>)
    ensures var order := KeysInOrder(m.Keys);
            |r| == |order| && forall i | 0 <= i < |r| :: order[i] in m && r[i] == Item(order[i], Text(m[order[i]]))
  {
    var order := KeysInOrder(m.Keys);
    assert forall i | 0 <= i < |order| :: order[i] in order;
    seq(|order|, i requires 0 <= i < |order| => Item(order[i], Text(m[order[i]])))
  }

  function PairItem(pair: (string, string)): Item {
    Item(pair.0, Text(pair.1))
  }

  // ---------------------------------------------------------------- join points

  function Tag(p: Point): string {
    match p
    case AllOf(_) => "all-of"
    case OneOf(_) => "one-of"
    case Not(_) => "not"
    case Function(_) => "function"
    case FunctionBody(_) => "function-body"
    case ImportPath(_) => "import-path"
    case PackageName(_) => "import-path"
    case PackageFilter(_, _) => "package-filter"
    case DeclarationOf(_, _) => "declaration-of"
    case ValueDeclaration(_) => "value-declaration"
    case Directive(_) => "directive"
    case FunctionCall(_, _) => "function-call"
    case StructDefinition(_) => "struct-definition"
    case StructLiteral(_, _, _) => "struct-literal"
    case MethodCall(_, _, _) => "method-call"
    case TestMain(_) => "test-main"
    case Configuration(_) => "configuration"
  }

  ghost function PointValue(p: Point): Value
    decreases p, 1
  {
    Value.Named(Tag(p), PointItems(p))
  }

  ghost function PointItems(p: Point): seq<Value>
    decreases p, 0
  {
    match p
    case AllOf(points) => [List(PointValues(points))]
    case OneOf(points) => [List(PointValues(points))]
    case Not(point) => [PointValue(point)]
    case Function(options) => [List(OptionValues(options))]
    case FunctionBody(inner) => [PointValue(inner)]
    case ImportPath(path) => [Text(path)]
    case PackageName(name) => [Text(name)]
    case PackageFilter(root, pattern) => [BoolValue(root), Text(pattern)]
    case DeclarationOf(path, name) => [Text(path), Text(name)]
    case ValueDeclaration(typ) => [TypeValue(typ)]
    case Directive(name) => [Text(name)]
    case FunctionCall(path, name) => [Text(path), Text(name)]
    case StructDefinition(typ) => [TypeValue(typ)]
    case StructLiteral(typ, field, mode) =>
      [TypeValue(typ), Text(field), Value.Named("struct-literal-match", [Text(Itoa(LiteralNumber(mode)))])]
    case MethodCall(typ, name, call) =>
      [TypeValue(typ), Text(name), Value.Named("method-call-match", [Text(Itoa(CallNumber(call)))])]
    case TestMain(value) => [BoolValue(value)]
    case Configuration(required) => [MapValue(ConfigItems(required))]
  }

  ghost function PointValues(points: seq<Point>): seq<Value>
    decreases points, 0
  {
    if points == [] then [] else [PointValue(points[0])] + PointValues(points[1..])
  }

  /** The join point with every package name called an import path. */
  function Renamed(p: Point): Point
    decreases p
  {
    match p
    case AllOf(points) => AllOf(RenamedAll(points))
    case OneOf(points) => OneOf(RenamedAll(points))
    case Not(point) => Not(Renamed(point))
    case FunctionBody(inner) => FunctionBody(Renamed(inner))
    case PackageName(name) => ImportPath(name)
    case _ => p
  }

  function RenamedAll(points: seq<Point>): seq<Point>
    decreases points
  {
    if points == [] then [] else [Renamed(points[0])] + RenamedAll(points[1..])
  }

  lemma {:induction false} RenamingKeepsValue(p: Point)
    ensures PointValue(Renamed(p)) == PointValue(p)
    decreases p, 1
  {
    match p
    case AllOf(points) => RenamingKeepsValues(points);
    case OneOf(points) => RenamingKeepsValues(points);
    case Not(point) => RenamingKeepsValue(point);
    case FunctionBody(inner) => RenamingKeepsValue(inner);
    case _ =>
  }

  lemma {:induction false} RenamingKeepsValues(points: seq<Point>)
    ensures PointValues(RenamedAll(points)) == PointValues(points)
    decreases points, 0
  {
    if points != [] {
      RenamingKeepsValue(points[0]);
      RenamingKeepsValues(points[1..]);
      assert RenamedAll(points)[1..] == RenamedAll(points[1..]);
    }
  }

  // ---------------------------------------------------------------- telling apart

  predicate SameKind(p: Point, q: Point) {
    && (p.AllOf? <==> q.AllOf?) && (p.OneOf? <==> q.OneOf?) && (p.Not? <==> q.Not?)
    && (p.Function? <==> q.Function?) && (p.FunctionBody? <==> q.FunctionBody?)
    && (p.ImportPath? || p.PackageName? <==> q.ImportPath? || q.PackageName?)
    && (p.PackageFilter? <==> q.PackageFilter?) && (p.DeclarationOf? <==> q.DeclarationOf?)
    && (p.ValueDeclaration? <==> q.ValueDeclaration?) && (p.Directive? <==> q.Directive?)
    && (p.FunctionCall? <==> q.FunctionCall?) && (p.StructDefinition? <==> q.StructDefinition?)
    && (p.StructLiteral? <==> q.StructLiteral?) && (p.MethodCall? <==> q.MethodCall?)
    && (p.TestMain? <==> q.TestMain?) && (p.Configuration? <==> q.Configuration?)
  }

  /** Length and two letters are enough to tell the tags apart. */
  lemma TagsTellKinds(p: Point, q: Point)
    requires Tag(p) == Tag(q)
    ensures SameKind(p, q)
  {
    var s, t := Tag(p), Tag(q);
    assert |s| == |t| && s[0] == t[0] && (|s| > 9 ==> s[9] == t[9]);
  }

  lemma BoolsTellApart(a: bool, b: bool)
    requires BoolValue(a) == BoolValue(b)
    ensures a == b
  {
    assert |"true"| != |"false"|;
  }

  lemma TypesTellApart(s: TypeName, t: TypeName)
    requires TypeValue(s) == TypeValue(t)
    ensures s == t
  {
    assert TypeValue(s).vals[0] == TypeValue(t).vals[0] && TypeValue(s).vals[1] == TypeValue(t).vals[1];
    assert TypeValue(s).vals[2] == TypeValue(t).vals[2];
    BoolsTellApart(s.pointer, t.pointer);
  }

  lemma ListsTellApart(a: seq<Value>, b: seq<Value>)
    requires List(a) == List(b)
    ensures a == b
  {
    assert List(a).vals[1..] == a && List(b).vals[1..] == b;
  }

  lemma TypeListsTellApart(a: seq<TypeName>, b: seq<TypeName>)
    requires List(TypeValues(a)) == List(TypeValues(b))
    ensures a == b
  {
    ListsTellApart(TypeValues(a), TypeValues(b));
    forall i | 0 <= i < |a| ensures a[i] == b[i] { TypesTellApart(a[i], b[i]); }
  }

  lemma ConfigsTellApart(a: map<string, string>, b: map<string, string>)
    requires MapValue(ConfigItems(a)) == MapValue(ConfigItems(b))
    ensures a == b
  {
    var x, y := ConfigItems(a), ConfigItems(b);
    assert MapValue(x).vals[1..] == ItemValues(x) && MapValue(y).vals[1..] == ItemValues(y);
    MapEncodingTellsApart(x, y);
    forall k ensures (k in a <==> k in b) && (k in a && k in b ==> a[k] == b[k]) {
      ConfigItem(a, k);
      ConfigItem(b, k);
    }
    assert a.Keys == b.Keys;
  }

  lemma ConfigItem(m: map<string, string>, k: string)
    ensures k in m ==> Item(k, Text(m[k])) in ConfigItems(m)
    ensures forall x | x in ConfigItems(m) && x.key == k :: k in m && x.val == Text(m[k])
  {
    var order := KeysInOrder(m.Keys);
    if k in m {
      var i :| 0 <= i < |order| && order[i] == k;
      assert ConfigItems(m)[i] == Item(k, Text(m[k]));
    }
  }

  lemma OptionsTellApart(o: FunctionOption, q: FunctionOption)
    requires OptionValue(o) == OptionValue(q)
    ensures o == q
  {
    var v, w := OptionValue(o), OptionValue(q);
    assert |v.name| == |w.name| && v.vals == w.vals;
    match o {
      case Name(name) => assert q.Name? && v.vals[0] == Text(name) && w.vals[0] == Text(q.name);
      case Signature(args, results) => SignaturesTellApart(args, results, q.args, q.results);
      case SignatureContains(args, results) => SignaturesTellApart(args, results, q.args, q.results);
      case Receiver(typ) =>
        assert v.vals[0] == w.vals[0] && q.Receiver?;
        TypesTellApart(typ, q.typ);
      case HasReceiver(value) =>
        assert v.vals[0] == w.vals[0] && q.HasReceiver?;
        BoolsTellApart(value, q.value);
    }
  }

  lemma SignaturesTellApart(a: seq<TypeName>, r: seq<TypeName>, b: seq<TypeName>, s: seq<TypeName>)
    requires [List(TypeValues(a)), List(TypeValues(r))] == [List(TypeValues(b)), List(TypeValues(s))]
    ensures a == b && r == s
  {
    var v, w := [List(TypeValues(a)), List(TypeValues(r))], [List(TypeValues(b)), List(TypeValues(s))];
    assert v[0] == w[0] && v[1] == w[1];
    TypeListsTellApart(a, b);
    TypeListsTellApart(r, s);
  }

  lemma OptionListsTellApart(a: seq<FunctionOption>, b: seq<FunctionOption>)
    requires List(OptionValues(a)) == List(OptionValues(b))
    ensures a == b
  {
    ListsTellApart(OptionValues(a), OptionValues(b));
    forall i | 0 <= i < |a| ensures a[i] == b[i] { OptionsTellApart(a[i], b[i]); }
  }

  lemma FirstItem(a: seq<Value>, b: seq<Value>)
    requires a == b && a != []
    ensures a[0] == b[0] && (|a| > 1 ==> a[1] == b[1]) && (|a| > 2 ==> a[2] == b[2])
  {
  }

  /** Leaves with the same tag and items are the same, up to what they are called. */
  lemma LeavesTellApart(p: Point, q: Point)
    requires SameKind(p, q) && PointItems(p) == PointItems(q)
    requires !p.AllOf? && !p.OneOf? && !p.Not? && !p.FunctionBody?
    ensures Renamed(p) == Renamed(q)
  {
    FirstItem(PointItems(p), PointItems(q));
    match p
    case Function(options) => OptionListsTellApart(options, q.options);
    case PackageFilter(root, _) => BoolsTellApart(root, q.root);
    case ValueDeclaration(typ) => TypesTellApart(typ, q.typ);
    case StructDefinition(typ) => TypesTellApart(typ, q.typ);
    case StructLiteral(typ, _, mode) =>
      TypesTellApart(typ, q.typ);
      NumbersTellApart(LiteralNumber(mode), LiteralNumber(q.mode), "struct-literal-match");
    case MethodCall(typ, _, call) =>
      TypesTellApart(typ, q.typ);
      NumbersTellApart(CallNumber(call), CallNumber(q.call), "method-call-match");
    case TestMain(value) => BoolsTellApart(value, q.value);
    case Configuration(required) => ConfigsTellApart(required, q.required);
    case _ =>
  }

  lemma NumbersTellApart(m: nat, n: nat, tag: string)
    requires Value.Named(tag, [Text(Itoa(m))]) == Value.Named(tag, [Text(Itoa(n))])
    ensures m == n
  {
    assert Value.Named(tag, [Text(Itoa(m))]).vals[0] == Value.Named(tag, [Text(Itoa(n))]).vals[0];
    ItoaIsInjective(m, n);
  }

  lemma {:induction false} PointsTellApart(p: Point, q: Point)
    requires PointValue(p) == PointValue(q)
    ensures Renamed(p) == Renamed(q)
    decreases p, 1
  {
    TagsTellKinds(p, q);
    if p.AllOf? || p.OneOf? {
      FirstItem(PointItems(p), PointItems(q));
      ListsTellApart(PointValues(p.points), PointValues(q.points));
      PointListsTellApart(p.points, q.points);
    } else if p.Not? {
      FirstItem(PointItems(p), PointItems(q));
      PointsTellApart(p.point, q.point);
    } else if p.FunctionBody? {
      FirstItem(PointItems(p), PointItems(q));
      PointsTellApart(p.inner, q.inner);
    } else {
      LeavesTellApart(p, q);
    }
  }

  lemma {:induction false} PointListsTellApart(a: seq<Point>, b: seq<Point>)
    requires PointValues(a) == PointValues(b)
    ensures RenamedAll(a) == RenamedAll(b)
    decreases a, 0
  {
    if a != [] && b != [] {
      assert PointValues(a)[1..] == PointValues(a[1..]) && PointValues(b)[1..] == PointValues(b[1..]);
      assert PointValues(a)[0] == PointValues(b)[0];
      PointsTellApart(a[0], b[0]);
      PointListsTellApart(a[1..], b[1..]);
    }
  }

  /** Equal fingerprints mean equal join points, except that package names pass for import paths. */
  lemma SameFingerprintExactly(p: Point, q: Point)
    requires Plain(PointValue(p)) && Plain(PointValue(q))
    ensures Encode(PointValue(p)) == Encode(PointValue(q)) <==> Renamed(p) == Renamed(q)
  {
    FingerprintIsInjective(PointValue(p), PointValue(q));
    SameValueExactly(p, q);
  }

  lemma SameValueExactly(p: Point, q: Point)
    ensures PointValue(p) == PointValue(q) <==> Renamed(p) == Renamed(q)
  {
    if PointValue(p) == PointValue(q) {
      PointsTellApart(p, q);
    }
    if Renamed(p) == Renamed(q) {
      RenamingKeepsValue(p);
      RenamingKeepsValue(q);
    }
  }

  // ---------------------------------------------------------------- configurations are mapped

  lemma {:induction false} ImageOfPairs(m: map<string, string>, order: seq<string>, pairs: seq<(string, string)>,
                                        items: seq<Item>)
    requires |pairs| == |order| == |items|
    requires forall i | 0 <= i < |order| ::
               order[i] in m && pairs[i] == (order[i], m[order[i]]) && items[i] == Item(order[i], Text(m[order[i]]))
    ensures Image(PairItem, pairs) == items
  {
    if pairs != [] {
      ImageOfPairs(m, order[1..], pairs[1..], items[1..]);
      assert items == [items[0]] + items[1..];
    }
  }

  lemma ConfigIsMapped(m: map<string, string>)
    ensures Mapped(m.Items, PairItem, ConfigItems(m))
  {
    var order := KeysInOrder(m.Keys);
    assert forall i | 0 <= i < |order| :: order[i] in order;
    var pairs := seq(|order|, i requires 0 <= i < |order| => (order[i], m[order[i]]));
    ImageOfPairs(m, order, pairs, ConfigItems(m));
    PairsAreItems(m, order, pairs);
    ConfigIsSorted(m);
  }

  lemma ConfigIsSorted(m: map<string, string>)
    ensures SortedBy(KeyAtMost, ConfigItems(m))
  {
    var order, items := KeysInOrder(m.Keys), ConfigItems(m);
    forall i, j | 0 <= i < j < |items| ensures KeyAtMost(items[i], items[j]) { assert AtMost(order[i], order[j]); }
  }

  /** Whatever order a configuration is iterated in, `Map` lists it like this. */
  lemma MapListsConfig(m: map<string, string>, items: seq<Item>)
    requires Mapped(m.Items, PairItem, items)
    ensures items == ConfigItems(m)
  {
    ConfigIsMapped(m);
    assert Consistent(m.Items, PairItem);
    MappedAreEqual(m.Items, PairItem, items, ConfigItems(m));
  }

  lemma PairsAreItems(m: map<string, string>, order: seq<string>, pairs: seq<(string, string)>)
    requires InOrder(order, m.Keys) && |pairs| == |order|
    requires forall i | 0 <= i < |order| :: order[i] in m && pairs[i] == (order[i], m[order[i]])
    ensures multiset(pairs) == multiset(m.Items)
  {
    assert Distinct(pairs);
    CountsOfDistinct(pairs);
    forall x ensures multiset(pairs)[x] == multiset(m.Items)[x] {
      assert x in pairs <==> x in multiset(pairs);
      if x in m.Items {
        assert x.0 in order;
        var i :| 0 <= i < |order| && order[i] == x.0;
        assert pairs[i] == x;
      }
    }
  }
}
