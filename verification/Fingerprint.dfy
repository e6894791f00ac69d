/**
 Fingerprints (internal/fingerprint). A hashable value is a tree: a leaf writes its text,
 everything else goes through `Named`. What reaches the hash function is one stream, and
 two values share a fingerprint exactly when their streams are equal (collisions of the
 hash function aside). Text is modelled by its characters: UTF-8 keeps the three beacon
 bytes apart from every other character.
 */
module Fingerprint {
  import opened Decimal
  import opened Ordering

  datatype Value = Text(text: string) | Named(name: string, vals: seq<Value>)

  const SOH: char := '\U{0001}' // start of a key-value pair
  const STX: char := '\U{0002}' // end of the key, start of the value
  const ETX: char := '\U{0003}' // end of a key-value pair

  predicate Beacon(c: char) {
    c == SOH || c == STX || c == ETX
  }

  predicate Clear(s: string) {
    forall c | c in s :: !Beacon(c)
  }

  /** No name and no leaf text contains a beacon. */
  predicate Plain(v: Value) {
    match v
    case Text(s) => Clear(s)
    case Named(n, vals) => Clear(n) && forall x | x in vals :: Plain(x)
  }

  /** What ends up as a leaf. */
  datatype Leaf = Bool(b: bool) | Int(n: int) | String(s: string)

  function LeafText(leaf: Leaf): string {
    match leaf
    case Bool(b) => if b then "true" else "false"
    case Int(n) => Itoa(n)
    case String(s) => s
  }

  /** Leaves write the same text exactly if they are equal, or one is a string that spells the other. */
  lemma LeavesTellApartExactly(x: Leaf, y: Leaf)
    ensures LeafText(x) == LeafText(y) <==> x == y || x == String(LeafText(y)) || y == String(LeafText(x))
  {
    match (x, y)
    case (Int(m), Int(n)) => ItoaIsInjective(m, n);
    case (Bool(b), Int(n)) => NumberIsNoWord(n);
    case (Int(n), Bool(b)) => NumberIsNoWord(n);
    case (Bool(b), Bool(d)) => assert "true"[0] != "false"[0];
    case _ =>
  }

  lemma NumberIsNoWord(n: int)
    ensures Itoa(n) != "true" && Itoa(n) != "false"
  {
    assert if n < 0 then Itoa(n)[0] == '-' else Itoa(n)[0] in Digits(n);
    assert "true"[0] == 't' && "false"[0] == 'f';
  }

  function Encode(v: Value): string {
    match v
    case Text(s) => s
    case Named(n, vals) => [SOH] + n + [STX] + EncodeItems(vals, 0) + [ETX] + n
  }

  function EncodeItems(vals: seq<Value>, idx: nat): string {
    if vals == [] then []
    else [SOH] + Itoa(idx) + [STX] + Encode(vals[0]) + [ETX] + EncodeItems(vals[1..], idx + 1)
  }

  /** What several calls of Named leave behind. */
  function EncodeAll(calls: seq<Value>): string {
    if calls == [] then [] else Encode(calls[0]) + EncodeAll(calls[1..])
  }

  // ---------------------------------------------------------------- unique decoding

  predicate Stops(r: string) {
    r == [] || Beacon(r[0])
  }

  lemma ItoaIsClear(n: int)
    ensures Clear(Itoa(n))
  {
  }

  lemma {:induction false} ClearPrefixIsUnique(s: string, t: string, r: string, q: string)
    requires Clear(s) && Clear(t) && Stops(r) && Stops(q) && s + r == t + q
    ensures s == t && r == q
    decreases |s|
  {
    if s == [] || t == [] {
      assert s == [] ==> s + r == r;
      assert t == [] ==> t + q == q;
    } else {
      assert (s + r)[0] == s[0] && (t + q)[0] == t[0];
      assert (s + r)[1..] == s[1..] + r && (t + q)[1..] == t[1..] + q;
      ClearPrefixIsUnique(s[1..], t[1..], r, q);
      assert s == [s[0]] + s[1..] && t == [t[0]] + t[1..];
    }
  }

  lemma Peel(c: char, r: string, q: string)
    requires [c] + r == [c] + q
    ensures r == q
  {
    assert r == ([c] + r)[1..] && q == ([c] + q)[1..];
  }

  /** The stream of `v` followed by `rest`, one beacon at a time. */
  function Put(v: Value, rest: string): string
    decreases v, 1
  {
    match v
    case Text(s) => s + rest
    case Named(n, vals) => [SOH] + (n + ([STX] + PutItems(vals, 0, [ETX] + (n + rest))))
  }

  function PutItems(vals: seq<Value>, idx: nat, rest: string): string
    decreases vals, 0
  {
    if vals == [] then rest
    else [SOH] + (Itoa(idx) + ([STX] + Put(vals[0], [ETX] + PutItems(vals[1..], idx + 1, rest))))
  }

  lemma {:induction false} PutIsEncode(v: Value, rest: string)
    ensures Put(v, rest) == Encode(v) + rest
    decreases v, 1
  {
    match v
    case Text(s) =>
    case Named(n, vals) =>
      var tail, items := [ETX] + (n + rest), EncodeItems(vals, 0);
      PutItemsIsEncode(vals, 0, tail);
      assert [ETX] + n + rest == tail;
      assert Encode(v) + rest == [SOH] + (n + ([STX] + (items + tail)));
  }

  lemma {:induction false} PutItemsIsEncode(vals: seq<Value>, idx: nat, rest: string)
    ensures PutItems(vals, idx, rest) == EncodeItems(vals, idx) + rest
    decreases vals, 0
  {
    if vals != [] {
      var more := EncodeItems(vals[1..], idx + 1);
      PutItemsIsEncode(vals[1..], idx + 1, rest);
      PutIsEncode(vals[0], [ETX] + (more + rest));
      Nest(Itoa(idx), Encode(vals[0]), more, rest);
    }
  }

  lemma Nest(head: string, one: string, more: string, rest: string)
    ensures [SOH] + head + [STX] + one + [ETX] + more + rest ==
              [SOH] + (head + ([STX] + (one + ([ETX] + (more + rest)))))
  {
  }

  lemma {:induction false} NamedIsUnique(v: Value, w: Value, r: string, q: string)
    requires v.Named? && w.Named? && Plain(v) && Plain(w)
    requires Stops(r) && Stops(q) && Put(v, r) == Put(w, q)
    ensures v == w && r == q
    decreases v, 1
  {
    var r1, q1 := [ETX] + (v.name + r), [ETX] + (w.name + q);
    var r2, q2 := [STX] + PutItems(v.vals, 0, r1), [STX] + PutItems(w.vals, 0, q1);
    Peel(SOH, v.name + r2, w.name + q2);
    ClearPrefixIsUnique(v.name, w.name, r2, q2);
    Peel(STX, PutItems(v.vals, 0, r1), PutItems(w.vals, 0, q1));
    ItemsAreUnique(v.vals, w.vals, 0, r1, q1);
    Peel(ETX, v.name + r, w.name + q);
    ClearPrefixIsUnique(v.name, w.name, r, q);
  }

  lemma {:induction false} ItemsAreUnique(vs: seq<Value>, ws: seq<Value>, idx: nat, r: string, q: string)
    requires forall x | x in vs :: Plain(x)
    requires forall x | x in ws :: Plain(x)
    requires r != [] && q != [] && r[0] == ETX && q[0] == ETX
    requires PutItems(vs, idx, r) == PutItems(ws, idx, q)
    ensures vs == ws && r == q
    decreases vs, 0
  {
    if vs != [] && ws != [] {
      var r1 := [ETX] + PutItems(vs[1..], idx + 1, r);
      var q1 := [ETX] + PutItems(ws[1..], idx + 1, q);
      var r2, q2 := [STX] + Put(vs[0], r1), [STX] + Put(ws[0], q1);
      Peel(SOH, Itoa(idx) + r2, Itoa(idx) + q2);
      ItoaIsClear(idx);
      ClearPrefixIsUnique(Itoa(idx), Itoa(idx), r2, q2);
      Peel(STX, Put(vs[0], r1), Put(ws[0], q1));
      ValueIsUnique(vs[0], ws[0], r1, q1);
      Peel(ETX, PutItems(vs[1..], idx + 1, r), PutItems(ws[1..], idx + 1, q));
      ItemsAreUnique(vs[1..], ws[1..], idx + 1, r, q);
      assert vs == [vs[0]] + vs[1..] && ws == [ws[0]] + ws[1..];
    }
  }

  /** Inside an item the value is followed by the closing beacon, which settles leaf or tree. */
  lemma {:induction false} ValueIsUnique(v: Value, w: Value, r: string, q: string)
    requires Plain(v) && Plain(w)
    requires r != [] && q != [] && r[0] == ETX && q[0] == ETX
    requires Put(v, r) == Put(w, q)
    ensures v == w && r == q
    decreases v, 2
  {
    if v.Named? && w.Named? {
      NamedIsUnique(v, w, r, q);
    } else if v.Text? && w.Text? {
      ClearPrefixIsUnique(v.text, w.text, r, q);
    } else if v.Text? {
      LeafIsNoTree(v.text, w, r, q);
    } else {
      LeafIsNoTree(w.text, v, q, r);
    }
  }

  lemma LeafIsNoTree(s: string, w: Value, r: string, q: string)
    requires Clear(s) && w.Named? && r != [] && r[0] == ETX
    ensures s + r != Put(w, q)
  {
    assert Put(w, q)[0] == SOH;
    assert (s + r)[0] == if s == [] then ETX else s[0];
    assert s != [] ==> s[0] in s;
  }

  /** Equal streams, equal values. */
  lemma FingerprintIsInjective(v: Value, w: Value)
    requires Plain(v) && Plain(w)
    ensures Encode(v) == Encode(w) <==> v == w
  {
    if Encode(v) == Encode(w) {
      PutIsEncode(v, [ETX]);
      PutIsEncode(w, [ETX]);
      ValueIsUnique(v, w, [ETX], [ETX]);
    }
  }

  lemma EncodeAllStarts(calls: seq<Value>)
    requires forall v | v in calls :: v.Named?
    ensures Stops(EncodeAll(calls)) && (EncodeAll(calls) == [] <==> calls == [])
  {
    if calls != [] {
      assert calls[0] in calls;
      assert Encode(calls[0])[0] == SOH;
    }
  }

  /** Calls of Named made one after the other cannot be confused with any other calls. */
  lemma {:induction false} SequencesAreUnique(vs: seq<Value>, ws: seq<Value>)
    requires forall v | v in vs :: v.Named? && Plain(v)
    requires forall w | w in ws :: w.Named? && Plain(w)
    requires EncodeAll(vs) == EncodeAll(ws)
    ensures vs == ws
    decreases |vs|
  {
    EncodeAllStarts(vs);
    EncodeAllStarts(ws);
    if vs != [] && ws != [] {
      EncodeAllStarts(vs[1..]);
      EncodeAllStarts(ws[1..]);
      PutIsEncode(vs[0], EncodeAll(vs[1..]));
      PutIsEncode(ws[0], EncodeAll(ws[1..]));
      NamedIsUnique(vs[0], ws[0], EncodeAll(vs[1..]), EncodeAll(ws[1..]));
      SequencesAreUnique(vs[1..], ws[1..]);
      assert vs == [vs[0]] + vs[1..] && ws == [ws[0]] + ws[1..];
    }
  }

  /** A beacon in a leaf is enough to forge a second item. */
  lemma BeaconsCollide()
    ensures var forged := Text("a" + [ETX, SOH] + "1" + [STX] + "b");
            Encode(Named("n", [forged])) == Encode(Named("n", [Text("a"), Text("b")]))
  {
    var forged := Text("a" + [ETX, SOH] + "1" + [STX] + "b");
    var two := [Text("a"), Text("b")];
    assert Itoa(0) == "0" && Itoa(1) == "1";
    assert two[1..] == [Text("b")] && two[1..][1..] == [] && [forged][1..] == [];
    assert EncodeItems(two[1..], 1) == [SOH] + "1" + [STX] + "b" + [ETX];
    assert EncodeItems(two, 0) == [SOH] + "0" + [STX] + "a" + [ETX] + [SOH] + "1" + [STX] + "b" + [ETX];
    assert EncodeItems([forged], 0) == [SOH] + "0" + [STX] + forged.text + [ETX];
  }

  // ---------------------------------------------------------------- lists and maps

  function List(vals: seq<Value>): Value {
    Named("list", [Text(Itoa(|vals|))] + vals)
  }

  datatype Item = Item(key: string, val: Value)

  predicate KeyAtMost(a: Item, b: Item) {
    AtMost(a.key, b.key)
  }

  function Image<E>(fn: E -> Item, entries: seq<E>): seq<Item> {
    if entries == [] then [] else [fn(entries[0])] + Image(fn, entries[1..])
  }

  /**
   A possible result of `Map` on a map with these entries: the mapped entries, met in some
   order, sorted by key with an unstable sort.
   */
  ghost predicate Mapped<E(!new)>(entries: set<E>, fn: E -> Item, items: seq<Item>) {
    && SortedBy(KeyAtMost, items)
    && exists met :: multiset(met) == multiset(entries) && multiset(items) == multiset(Image(fn, met))
  }

  function MapValue(items: seq<Item>): Value {
    Named("map", [Text(Itoa(|items|))] + ItemValues(items))
  }

  function ItemValues(items: seq<Item>): seq<Value> {
    if items == [] then [] else [Named(items[0].key, [items[0].val])] + ItemValues(items[1..])
  }

  /** Entries that map to the same key map to the same value. */
  ghost predicate Consistent<E>(entries: set<E>, fn: E -> Item) {
    forall a, b | a in entries && b in entries && fn(a).key == fn(b).key :: fn(a) == fn(b)
  }

  lemma KeyOrderIsTotal()
    ensures TotalPreorder(KeyAtMost)
  {
    AtMostIsTotal();
  }

  lemma {:induction false} ImageOfConcat<E>(fn: E -> Item, a: seq<E>, b: seq<E>)
    ensures Image(fn, a + b) == Image(fn, a) + Image(fn, b)
  {
    if a == [] {
      assert a + b == b;
    } else {
      assert (a + b)[1..] == a[1..] + b;
      ImageOfConcat(fn, a[1..], b);
    }
  }

  /** The order in which entries are met does not change what is met. */
  lemma {:induction false} ImageIgnoresOrder<E>(fn: E -> Item, a: seq<E>, b: seq<E>)
    requires multiset(a) == multiset(b)
    ensures multiset(Image(fn, a)) == multiset(Image(fn, b))
    decreases |a|
  {
    assert |multiset(a)| == |a| && |multiset(b)| == |b|;
    if a != [] {
      var i, rest := TakeFirst(a, b);
      ImageIgnoresOrder(fn, a[1..], rest);
      ImageWithout(fn, b, i);
    }
  }

  /** Without the first element of one, and its counterpart in the other, the rest still agrees. */
  lemma TakeFirst<E>(a: seq<E>, b: seq<E>) returns (i: nat, rest: seq<E>)
    requires multiset(a) == multiset(b) && a != []
    ensures i < |b| && b[i] == a[0] && rest == b[..i] + b[i + 1..] && multiset(a[1..]) == multiset(rest)
  {
    assert a[0] in multiset(b);
    i := Position(b, a[0]);
    rest := b[..i] + b[i + 1..];
    TakeOut(a, 0);
    TakeOut(b, i);
    assert a[..0] + a[1..] == a[1..];
  }

  lemma Position<T>(s: seq<T>, x: T) returns (i: nat)
    requires x in multiset(s)
    ensures i < |s| && s[i] == x
  {
    i :| 0 <= i < |s| && s[i] == x;
  }

  lemma ImageWithout<E>(fn: E -> Item, b: seq<E>, i: nat)
    requires i < |b|
    ensures multiset(Image(fn, b)) == multiset(Image(fn, b[..i] + b[i + 1..])) + multiset{fn(b[i])}
  {
    var before, after := b[..i], b[i + 1..];
    ImageOfConcat(fn, before, after);
    ImageOfConcat(fn, before, [b[i]] + after);
    ImageOfConcat(fn, [b[i]], after);
    ImageOfOne(fn, b[i]);
    assert b == before + ([b[i]] + after);
  }

  lemma ImageOfOne<E>(fn: E -> Item, x: E)
    ensures Image(fn, [x]) == [fn(x)]
  {
    assert [x][1..] == [];
  }

  lemma TakeOut<T>(s: seq<T>, i: nat)
    requires i < |s|
    ensures multiset(s[..i] + s[i + 1..]) == multiset(s) - multiset{s[i]}
  {
    assert s == s[..i] + ([s[i]] + s[i + 1..]);
  }

  lemma {:induction false} ImageMembers<E>(fn: E -> Item, met: seq<E>, x: Item)
    ensures x in Image(fn, met) <==> exists e :: e in met && fn(e) == x
  {
    if met != [] { ImageMembers(fn, met[1..], x); }
  }

  lemma MappedMembers<E(!new)>(entries: set<E>, fn: E -> Item, items: seq<Item>, x: Item)
    requires Mapped(entries, fn, items)
    ensures x in items <==> exists e :: e in entries && fn(e) == x
  {
    var met :| multiset(met) == multiset(entries) && multiset(items) == multiset(Image(fn, met));
    ImageMembers(fn, met, x);
    assert x in items <==> x in multiset(items);
    assert x in Image(fn, met) <==> x in multiset(Image(fn, met));
    forall e ensures e in met <==> e in entries { assert e in met <==> e in multiset(met); }
  }

  lemma MappedAreEqual<E(!new)>(entries: set<E>, fn: E -> Item, one: seq<Item>, two: seq<Item>)
    requires Mapped(entries, fn, one) && Mapped(entries, fn, two) && Consistent(entries, fn)
    ensures one == two
  {
    var a :| multiset(a) == multiset(entries) && multiset(one) == multiset(Image(fn, a));
    var b :| multiset(b) == multiset(entries) && multiset(two) == multiset(Image(fn, b));
    ImageIgnoresOrder(fn, a, b);
    KeyOrderIsTotal();
    forall x, y | x in one && y in one && KeyAtMost(x, y) && KeyAtMost(y, x) ensures x == y {
      AtMostIsTotal();
      assert TellsApart(AtMost, [x.key, y.key]) && x.key in [x.key, y.key] && y.key in [x.key, y.key];
      MappedMembers(entries, fn, one, x);
      MappedMembers(entries, fn, one, y);
    }
    SortedIsUnique(KeyAtMost, one, two);
  }

  /** Between two items with the same key there is nothing but that key, so they can trade places. */
  lemma SwapStaysMapped<E(!new)>(entries: set<E>, fn: E -> Item, items: seq<Item>, i: nat, j: nat)
    requires Mapped(entries, fn, items) && i < j < |items| && items[i].key == items[j].key
    ensures Mapped(entries, fn, items[i := items[j]][j := items[i]])
  {
    var swapped := items[i := items[j]][j := items[i]];
    var met :| multiset(met) == multiset(entries) && multiset(items) == multiset(Image(fn, met));
    assert multiset(swapped) == multiset(items);
    SwapStaysSorted(items, i, j);
  }

  lemma SwapStaysSorted(items: seq<Item>, i: nat, j: nat)
    requires SortedBy(KeyAtMost, items) && i < j < |items| && items[i].key == items[j].key
    ensures SortedBy(KeyAtMost, items[i := items[j]][j := items[i]])
  {
    var swapped := items[i := items[j]][j := items[i]];
    forall a, b | 0 <= a < b < |swapped| ensures KeyAtMost(swapped[a], swapped[b]) {
      assert swapped[a].key == items[a].key && swapped[b].key == items[b].key;
    }
  }

  lemma {:induction false} MapEncodingTellsApart(one: seq<Item>, two: seq<Item>)
    requires ItemValues(one) == ItemValues(two)
    ensures one == two
    decreases |one|
  {
    if one != [] && two != [] {
      assert ItemValues(one)[1..] == ItemValues(one[1..]) && ItemValues(two)[1..] == ItemValues(two[1..]);
      MapEncodingTellsApart(one[1..], two[1..]);
      assert one == [one[0]] + one[1..] && two == [two[0]] + two[1..];
    }
  }

  lemma {:induction false} ItemValuesArePlain(items: seq<Item>)
    requires forall x | x in items :: Clear(x.key) && Plain(x.val)
    ensures forall v | v in ItemValues(items) :: Plain(v)
  {
    if items != [] { ItemValuesArePlain(items[1..]); }
  }

  /** Map iteration order shows in the fingerprint exactly when two entries share a key but not a value. */
  lemma MapFingerprintIgnoresOrderExactly<E(!new)>(entries: set<E>, fn: E -> Item, items: seq<Item>)
    requires Mapped(entries, fn, items)
    requires forall e | e in entries :: Clear(fn(e).key) && Plain(fn(e).val)
    ensures Consistent(entries, fn) <==>
            forall other | Mapped(entries, fn, other) :: Encode(MapValue(other)) == Encode(MapValue(items))
  {
    if Consistent(entries, fn) {
      forall other | Mapped(entries, fn, other) ensures Encode(MapValue(other)) == Encode(MapValue(items)) {
        MappedAreEqual(entries, fn, items, other);
      }
    } else {
      var other := OtherMapped(entries, fn, items);
      MapValuesDiffer(entries, fn, items, other);
    }
  }

  lemma SharedKey<E(!new)>(entries: set<E>, fn: E -> Item, items: seq<Item>) returns (lo: nat, hi: nat)
    requires Mapped(entries, fn, items) && !Consistent(entries, fn)
    ensures lo < hi < |items| && items[lo].key == items[hi].key && items[lo] != items[hi]
  {
    var a, b :| a in entries && b in entries && fn(a).key == fn(b).key && fn(a) != fn(b);
    MappedMembers(entries, fn, items, fn(a));
    MappedMembers(entries, fn, items, fn(b));
    var i :| 0 <= i < |items| && items[i] == fn(a);
    var j :| 0 <= j < |items| && items[j] == fn(b);
    lo, hi := if i < j then i else j, if i < j then j else i;
  }

  lemma OtherMapped<E(!new)>(entries: set<E>, fn: E -> Item, items: seq<Item>) returns (other: seq<Item>)
    requires Mapped(entries, fn, items) && !Consistent(entries, fn)
    ensures Mapped(entries, fn, other) && other != items
  {
    var lo, hi := SharedKey(entries, fn, items);
    SwapStaysMapped(entries, fn, items, lo, hi);
    other := items[lo := items[hi]][hi := items[lo]];
    assert other[lo] != items[lo];
  }

  lemma MapValuesDiffer<E(!new)>(entries: set<E>, fn: E -> Item, one: seq<Item>, two: seq<Item>)
    requires Mapped(entries, fn, one) && Mapped(entries, fn, two) && one != two
    requires forall e | e in entries :: Clear(fn(e).key) && Plain(fn(e).val)
    ensures Encode(MapValue(one)) != Encode(MapValue(two))
  {
    MapValueIsPlain(entries, fn, one);
    MapValueIsPlain(entries, fn, two);
    if ItemValues(one) == ItemValues(two) { MapEncodingTellsApart(one, two); }
    assert MapValue(one).vals[1..] == ItemValues(one) && MapValue(two).vals[1..] == ItemValues(two);
    FingerprintIsInjective(MapValue(one), MapValue(two));
  }

  lemma MapValueIsPlain<E(!new)>(entries: set<E>, fn: E -> Item, items: seq<Item>)
    requires Mapped(entries, fn, items)
    requires forall e | e in entries :: Clear(fn(e).key) && Plain(fn(e).val)
    ensures Plain(MapValue(items))
  {
    forall x | x in items ensures Clear(x.key) && Plain(x.val) { MappedMembers(entries, fn, items, x); }
    ItemValuesArePlain(items);
    ItoaIsClear(|items|);
  }

  // ---------------------------------------------------------------- the code

  class Hasher {
    var stream: string // what the hash function has been fed so far

    constructor ()
      ensures stream == []
    {
      stream := [];
    }

    method Write(s: string)
      modifies this
      ensures stream == old(stream) + s
    {
      stream := stream + s;
    }

    method HashLeaf(leaf: Leaf)
      modifies this
      ensures stream == old(stream) + Encode(Text(LeafText(leaf)))
    {
      match leaf
      case Bool(b) => if b { Write("true"); } else { Write("false"); }
      case Int(n) => Write(Itoa(n));
      case String(s) => Write(s);
    }

    method Hash(v: Value)
      modifies this
      ensures stream == old(stream) + Encode(v)
      decreases v, 1
    {
      match v
      case Text(s) => Write(s);
      case Named(n, vals) => Named(n, vals, v);
    }

    /** `v` is the tree this call stands for. */
    method Named(name: string, vals: seq<Value>, ghost v: Value)
      requires v == Value.Named(name, vals)
      modifies this
      ensures stream == old(stream) + Encode(v)
      decreases v, 0
    {
      Write([SOH]);
      Write(name);
      Write([STX]);
      ghost var start := stream;
      assert start == old(stream) + ([SOH] + name + [STX]);
      assert vals[0..] == vals;
      for idx := 0 to |vals|
        invariant stream + EncodeItems(vals[idx..], idx) == start + EncodeItems(vals, 0)
      {
        ghost var before := stream;
        NextItem(vals, idx, before);
        Write([SOH]);
        Write(Itoa(idx));
        Write([STX]);
        Hash(vals[idx]);
        Write([ETX]);
        assert stream == before + [SOH] + Itoa(idx) + [STX] + Encode(vals[idx]) + [ETX];
      }
      assert stream + [] == stream;
      Write([ETX]);
      Write(name);
      Reassociate(old(stream), [SOH] + name + [STX], EncodeItems(vals, 0), [ETX], name);
    }
  }

  lemma Reassociate(a: string, b: string, c: string, d: string, e: string)
    ensures a + b + c + d + e == a + (b + c + d + e)
  {
  }

  lemma NextItem(vals: seq<Value>, idx: nat, before: string)
    requires idx < |vals|
    ensures before + [SOH] + Itoa(idx) + [STX] + Encode(vals[idx]) + [ETX] + EncodeItems(vals[idx + 1..], idx + 1)
         == before + EncodeItems(vals[idx..], idx)
  {
    assert vals[idx..][1..] == vals[idx + 1..];
    var a, b, c, d := [SOH], Itoa(idx), [STX], Encode(vals[idx]);
    var e := EncodeItems(vals[idx + 1..], idx + 1);
    assert before + a + b + c + d + [ETX] + e == before + (a + b + c + d + [ETX] + e);
  }

  /** `Map`: collect the mapped entries in whatever order they come, then sort by key. */
  method Map<E(!new)>(entries: set<E>, fn: E -> Item) returns (items: seq<Item>)
    ensures Mapped(entries, fn, items)
  {
    var res: seq<Item>, todo := [], entries;
    ghost var met: seq<E> := [];
    while todo != {}
      invariant todo <= entries
      invariant multiset(met) == multiset(entries) - multiset(todo) && res == Image(fn, met)
    {
      var e :| e in todo;
      ImageOfConcat(fn, met, [e]);
      res, met, todo := res + [fn(e)], met + [e], todo - {e};
    }
    items := Sort(KeyAtMost, res);
    KeyOrderIsTotal();
    SortSorts(KeyAtMost, res);
  }
}
