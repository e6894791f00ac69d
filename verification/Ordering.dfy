/**
 Strings in the order of Go's `strings.Compare`, and sorting by an arbitrary order.
 A sort is described by its result alone: whatever algorithm produced it, a sorted
 permutation is unique as soon as the order tells the elements apart.
 */
module Ordering {

  /** Strict lexicographic order. */
  predicate Below(a: string, b: string) {
    |b| > 0 && (|a| == 0 || a[0] < b[0] || (a[0] == b[0] && Below(a[1..], b[1..])))
  }

  predicate AtMost(a: string, b: string) {
    a == b || Below(a, b)
  }

  /** One string comes first if it ends, or has the smaller character, where the two part. */
  lemma {:induction false} BelowExactly(a: string, b: string)
    ensures Below(a, b) <==>
              exists k: nat :: k <= |a| && k < |b| && a[..k] == b[..k] && (k == |a| || a[k] < b[k])
  {
    if a != [] && b != [] && a[0] == b[0] {
      BelowExactly(a[1..], b[1..]);
      if Below(a[1..], b[1..]) {
        var k: nat :| k < |a| && k < |b| - 1 && a[1..][..k] == b[1..][..k]
                      && (k == |a| - 1 || a[1..][k] < b[1..][k]);
        assert a[..k + 1] == [a[0]] + a[1..][..k] && b[..k + 1] == [b[0]] + b[1..][..k];
      }
      forall k: nat | k <= |a| && k < |b| && a[..k] == b[..k] && (k == |a| || a[k] < b[k])
        ensures Below(a, b)
      {
        assert k > 0;
        assert a[1..][..k - 1] == a[..k][1..] && b[1..][..k - 1] == b[..k][1..];
        assert k == |a| || a[1..][k - 1] < b[1..][k - 1];
      }
    } else {
      assert a != [] && b != [] ==> a[..0] == b[..0];
    }
  }

  lemma {:induction false} BelowIrreflexive(a: string)
    ensures !Below(a, a)
  {
    if a != [] { BelowIrreflexive(a[1..]); }
  }

  lemma {:induction false} BelowTransitive(a: string, b: string, c: string)
    requires Below(a, b) && Below(b, c)
    ensures Below(a, c)
  {
    if a != [] && a[0] == b[0] && b[0] == c[0] { BelowTransitive(a[1..], b[1..], c[1..]); }
  }

  lemma {:induction false} BelowConnected(a: string, b: string)
    ensures a == b || Below(a, b) || Below(b, a)
  {
    if a != [] && b != [] && a[0] == b[0] {
      BelowConnected(a[1..], b[1..]);
      assert a == [a[0]] + a[1..] && b == [b[0]] + b[1..];
    }
  }

  /** Any two elements compare, and comparisons chain. */
  ghost predicate TotalPreorder<T(!new)>(leq: (T, T) -> bool) {
    && (forall x, y :: leq(x, y) || leq(y, x))
    && (forall x, y, z :: leq(x, y) && leq(y, z) ==> leq(x, z))
  }

  /** No two different elements of `s` are equivalent under `leq`. */
  ghost predicate TellsApart<T(!new)>(leq: (T, T) -> bool, s: seq<T>) {
    forall x, y | x in s && y in s && leq(x, y) && leq(y, x) :: x == y
  }

  predicate SortedBy<T>(leq: (T, T) -> bool, s: seq<T>) {
    forall i, j | 0 <= i < j < |s| :: leq(s[i], s[j])
  }

  lemma AtMostIsTotal()
    ensures TotalPreorder(AtMost)
    ensures forall s: seq<string> :: TellsApart(AtMost, s)
  {
    forall x: string, y: string ensures AtMost(x, y) || AtMost(y, x) { BelowConnected(x, y); }
    forall x: string, y: string, z: string | AtMost(x, y) && AtMost(y, z) ensures AtMost(x, z) {
      if Below(x, y) && Below(y, z) { BelowTransitive(x, y, z); }
    }
    forall x: string, y: string | AtMost(x, y) && AtMost(y, x) ensures x == y {
      if Below(x, y) && Below(y, x) { BelowTransitive(x, y, x); BelowIrreflexive(x); }
    }
  }

  function Insert<T>(leq: (T, T) -> bool, x: T, s: seq<T>): (r: seq<T>)
    ensures multiset(r) == multiset(s) + multiset{x}
  {
    if s == [] then [x]
    else if leq(s[0], x) then
      assert s == [s[0]] + s[1..];
      [s[0]] + Insert(leq, x, s[1..])
    else [x] + s
  }

  /** The stable sort of `s`: equivalent elements keep their relative order. */
  function Sort<T>(leq: (T, T) -> bool, s: seq<T>): (r: seq<T>)
    ensures multiset(r) == multiset(s)
  {
    if s == [] then []
    else
      assert s == s[..|s| - 1] + [s[|s| - 1]];
      Insert(leq, s[|s| - 1], Sort(leq, s[..|s| - 1]))
  }

  lemma {:induction false} InsertKeepsOrder<T(!new)>(leq: (T, T) -> bool, x: T, s: seq<T>)
    requires TotalPreorder(leq) && SortedBy(leq, s)
    ensures SortedBy(leq, Insert(leq, x, s))
  {
    if s != [] && leq(s[0], x) {
      InsertKeepsOrder(leq, x, s[1..]);
      var rest := Insert(leq, x, s[1..]);
      forall j | 0 <= j < |rest| ensures leq(s[0], rest[j]) {
        assert rest[j] in multiset(s[1..]) + multiset{x};
        if rest[j] != x {
          assert rest[j] in s[1..];
        }
      }
    }
  }

  lemma {:induction false} SortSorts<T(!new)>(leq: (T, T) -> bool, s: seq<T>)
    requires TotalPreorder(leq)
    ensures SortedBy(leq, Sort(leq, s))
  {
    if s != [] {
      SortSorts(leq, s[..|s| - 1]);
      InsertKeepsOrder(leq, s[|s| - 1], Sort(leq, s[..|s| - 1]));
    }
  }

  lemma FirstIsLeast<T(!new)>(leq: (T, T) -> bool, s: seq<T>, x: T)
    requires SortedBy(leq, s) && TotalPreorder(leq) && x in s
    ensures leq(s[0], x)
  {
    var i :| 0 <= i < |s| && s[i] == x;
    if i == 0 { assert leq(x, x); }
  }

  lemma RestOf<T>(a: seq<T>, b: seq<T>)
    requires multiset(a) == multiset(b) && a != [] && b != [] && a[0] == b[0]
    ensures multiset(a[1..]) == multiset(b[1..])
  {
    assert a == [a[0]] + a[1..] && b == [b[0]] + b[1..];
    assert multiset(a[1..]) == multiset(a) - multiset{a[0]};
    assert multiset(b[1..]) == multiset(b) - multiset{b[0]};
  }

  /** Two sorted arrangements of the same elements are the same sequence. */
  lemma {:induction false} SortedIsUnique<T(!new)>(leq: (T, T) -> bool, a: seq<T>, b: seq<T>)
    requires SortedBy(leq, a) && SortedBy(leq, b) && multiset(a) == multiset(b)
    requires TotalPreorder(leq) && TellsApart(leq, a)
    ensures a == b
    decreases |a|
  {
    assert |multiset(a)| == |a| && |multiset(b)| == |b|;
    if a != [] {
      assert a[0] in multiset(b) && b[0] in multiset(a);
      FirstIsLeast(leq, a, b[0]);
      FirstIsLeast(leq, b, a[0]);
      assert a[0] == b[0];
      RestOf(a, b);
      assert TellsApart(leq, a[1..]);
      assert SortedBy(leq, a[1..]) && SortedBy(leq, b[1..]);
      SortedIsUnique(leq, a[1..], b[1..]);
    }
  }

  /** Sorting forgets the order in which the elements were met. */
  lemma SortIgnoresOrder<T(!new)>(leq: (T, T) -> bool, a: seq<T>, b: seq<T>)
    requires TotalPreorder(leq) && TellsApart(leq, a) && multiset(a) == multiset(b)
    ensures Sort(leq, a) == Sort(leq, b)
  {
    SortSorts(leq, a);
    SortSorts(leq, b);
    forall x | x in Sort(leq, a) ensures x in a { assert x in multiset(a); }
    SortedIsUnique(leq, Sort(leq, a), Sort(leq, b));
  }

  /** Where the element goes: after all that are at most it. */
  lemma {:induction false} InsertSplits<T(!new)>(leq: (T, T) -> bool, s: seq<T>, x: T, j: nat)
    requires j <= |s| && (forall k | 0 <= k < j :: leq(s[k], x)) && (j < |s| ==> !leq(s[j], x))
    ensures var r := Insert(leq, x, s);
            |r| == |s| + 1 && r[j] == x
              && (forall k | 0 <= k < j :: r[k] == s[k]) && (forall k | j < k <= |s| :: r[k] == s[k - 1])
    decreases |s|
  {
    if j > 0 {
      InsertSplits(leq, s[1..], x, j - 1);
    }
  }

  lemma AllBelow<T(!new)>(leq: (T, T) -> bool, s: seq<T>, x: T, j: nat)
    requires SortedBy(leq, s) && TotalPreorder(leq) && j <= |s| && (j > 0 ==> leq(s[j - 1], x))
    ensures forall k | 0 <= k < j :: leq(s[k], x)
  {
    forall k | 0 <= k < j ensures leq(s[k], x) {
      if k < j - 1 { assert leq(s[k], s[j - 1]); }
    }
  }

  /** One step of an insertion sort: the element at `i` moves down to its place. */
  method InsertInPlace<T(!new)>(leq: (T, T) -> bool, a: array<T>, i: nat)
    requires i < a.Length && SortedBy(leq, a[..i]) && TotalPreorder(leq)
    modifies a
    ensures a[..i + 1] == Insert(leq, old(a[i]), old(a[..i]))
    ensures forall k | i < k < a.Length :: a[k] == old(a[k])
  {
    var x, j := a[i], i;
    ghost var sorted := a[..i];
    while j > 0 && !leq(a[j - 1], x)
      invariant 0 <= j <= i
      invariant forall k | 0 <= k < j :: a[k] == sorted[k]
      invariant forall k | j < k <= i :: a[k] == sorted[k - 1] && !leq(a[k], x)
      invariant forall k | i < k < a.Length :: a[k] == old(a[k])
    {
      a[j] := a[j - 1];
      j := j - 1;
    }
    AllBelow(leq, sorted, x, j);
    assert j < i ==> !leq(sorted[j], x) by { assert j < i ==> a[j + 1] == sorted[j]; }
    InsertSplits(leq, sorted, x, j);
    a[j] := x;
  }

  lemma SortOneMore<T(!new)>(leq: (T, T) -> bool, s: seq<T>, i: nat)
    requires TotalPreorder(leq) && i < |s|
    ensures SortedBy(leq, Sort(leq, s[..i])) && Sort(leq, s[..i + 1]) == Insert(leq, s[i], Sort(leq, s[..i]))
  {
    SortSorts(leq, s[..i]);
    assert s[..i + 1][..i] == s[..i] && s[..i + 1][i] == s[i];
  }

  /** A stable sort in place. */
  method SortInPlace<T(!new)>(leq: (T, T) -> bool, a: array<T>)
    requires TotalPreorder(leq)
    modifies a
    ensures a[..] == Sort(leq, old(a[..]))
  {
    ghost var all := a[..];
    for i := 0 to a.Length
      invariant a[..i] == Sort(leq, all[..i])
      invariant forall k | i <= k < a.Length :: a[k] == all[k]
    {
      SortOneMore(leq, all, i);
      InsertInPlace(leq, a, i);
    }
    assert all[..a.Length] == all;
  }

  predicate Distinct<T(==)>(s: seq<T>) {
    forall i, j | 0 <= i < j < |s| :: s[i] != s[j]
  }

  /** The keys of a map, collected in whatever order and then sorted. */
  method SortedKeys<V>(m: map<string, V>) returns (paths: seq<string>)
    ensures Distinct(paths) && SortedBy(AtMost, paths)
    ensures forall d :: d in paths <==> d in m
  {
    var list: seq<string>, todo := [], m.Keys;
    while todo != {}
      invariant todo <= m.Keys && Distinct(list)
      invariant forall d :: d in list <==> d in m && d !in todo
    {
      var d :| d in todo;
      list, todo := list + [d], todo - {d};
    }
    paths := Sort(AtMost, list);
    AtMostIsTotal();
    SortSorts(AtMost, list);
    forall d ensures d in paths <==> d in list {
      assert d in paths <==> d in multiset(paths);
      assert d in list <==> d in multiset(list);
    }
    PermutationIsDistinct(list, paths);
  }

  lemma {:induction false} CountsOfDistinct<T>(s: seq<T>)
    ensures Distinct(s) <==> forall x :: multiset(s)[x] <= 1
  {
    if s != [] {
      var n := |s| - 1;
      assert s == s[..n] + [s[n]];
      CountsOfDistinct(s[..n]);
      assert s[n] in s[..n] <==> multiset(s[..n])[s[n]] > 0;
      if Distinct(s) {
        assert s[n] !in s[..n];
      } else if Distinct(s[..n]) {
        assert s[n] in s[..n];
        assert multiset(s)[s[n]] == 2;
      } else {
        var x :| multiset(s[..n])[x] > 1;
        assert multiset(s)[x] > 1;
      }
    }
  }

  lemma PermutationIsDistinct<T>(a: seq<T>, b: seq<T>)
    requires Distinct(a) && multiset(a) == multiset(b)
    ensures Distinct(b)
  {
    CountsOfDistinct(a);
    CountsOfDistinct(b);
  }

  lemma SameMembersSameCounts<T>(a: seq<T>, b: seq<T>)
    requires Distinct(a) && Distinct(b) && forall x :: x in a <==> x in b
    ensures multiset(a) == multiset(b)
  {
    CountsOfDistinct(a);
    CountsOfDistinct(b);
    forall x ensures multiset(a)[x] == multiset(b)[x] {
      assert x in a <==> x in multiset(a);
      assert x in b <==> x in multiset(b);
    }
  }
}
