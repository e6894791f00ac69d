/** The parts of Go's `strings` package that the models need, on sequences of characters. */
module Strings {
  import opened Wrappers

  predicate HasPrefix(s: string, p: string) {
    p <= s
  }

  predicate HasSuffix(s: string, p: string) {
    |p| <= |s| && s[|s| - |p|..] == p
  }

  predicate At(s: string, i: int, p: string) {
    0 <= i <= |s| - |p| && s[i..i + |p|] == p
  }

  lemma AtLater(s: string, n: nat, i: int, p: string)
    requires n <= |s|
    ensures At(s[n..], i, p) <==> i >= 0 && At(s, n + i, p)
  {
    if 0 <= i <= |s| - n - |p| {
      var a, b := s[n..][i..i + |p|], s[n + i..n + i + |p|];
      assert forall k | 0 <= k < |p| :: a[k] == s[n + i + k] == b[k];
    }
  }

  /** Where `p` first occurs in `s`. */
  function Index(s: string, p: string): (r: Option<nat>)
    ensures r.Some? ==> At(s, r.value, p) && forall i | i < r.value :: !At(s, i, p)
    ensures r.None? ==> forall i :: !At(s, i, p)
  {
    if p <= s then
      assert At(s, 0, p);
      Some(0)
    else
      assert !At(s, 0, p);
      if s == [] then None
      else
        assert forall i | i != 0 :: At(s, i, p) <==> At(s[1..], i - 1, p) by {
          forall i | i != 0 ensures At(s, i, p) <==> At(s[1..], i - 1, p) { AtLater(s, 1, i - 1, p); }
        }
        var rest := Index(s[1..], p);
        if rest.None? then None else Some(rest.value + 1)
  }

  predicate Contains(s: string, p: string) {
    Index(s, p).Some?
  }

  /** `p` occurs somewhere in `s`. */
  ghost predicate Occurs(p: string, s: string) {
    exists i :: At(s, i, p)
  }

  lemma ContainsIsOccurs(s: string, p: string)
    ensures Contains(s, p) <==> Occurs(p, s)
  {
    var r := Index(s, p);
  }

  lemma OccursTransitive(p: string, q: string, s: string)
    requires Occurs(p, q) && Occurs(q, s)
    ensures Occurs(p, s)
  {
    var i :| At(q, i, p);
    var j :| At(s, j, q);
    var a, b := s[j + i..j + i + |p|], q[i..i + |p|];
    assert forall k | 0 <= k < |p| :: a[k] == s[j + i + k] == q[i + k] == b[k];
    assert At(s, j + i, p);
  }

  /** Pieces of `s` between the occurrences of a non-empty separator, read from the left. */
  function Split(s: string, sep: string): (r: seq<string>)
    requires sep != []
    ensures r != []
    decreases |s|
  {
    if s == [] then [""]
    else if sep <= s then [""] + Split(s[|sep|..], sep)
    else
      var rest := Split(s[1..], sep);
      [[s[0]] + rest[0]] + rest[1..]
  }

  function Join(parts: seq<string>, sep: string): string {
    if parts == [] then [] else if |parts| == 1 then parts[0]
    else parts[0] + sep + Join(parts[1..], sep)
  }

  /** Nothing is lost: the pieces, joined again, are the text. */
  lemma {:induction false} JoinSplit(s: string, sep: string)
    requires sep != []
    ensures Join(Split(s, sep), sep) == s
    decreases |s|
  {
    if s == [] {
    } else if sep <= s {
      JoinSplit(s[|sep|..], sep);
      JoinCons("", Split(s[|sep|..], sep), sep);
      AfterPrefix(s, sep);
    } else {
      JoinSplit(s[1..], sep);
      JoinGrows(s[0], Split(s[1..], sep), sep);
      AfterPrefix(s, [s[0]]);
    }
  }

  lemma AfterPrefix(s: string, p: string)
    requires p <= s
    ensures s == p + s[|p|..] && p == "" + p
  {
  }

  lemma JoinCons(first: string, rest: seq<string>, sep: string)
    requires rest != []
    ensures Join([first] + rest, sep) == first + sep + Join(rest, sep)
  {
    assert ([first] + rest)[1..] == rest;
  }

  lemma JoinGrows(c: char, parts: seq<string>, sep: string)
    requires parts != []
    ensures Join([[c] + parts[0]] + parts[1..], sep) == [c] + Join(parts, sep)
  {
    var more := parts[1..];
    assert ([[c] + parts[0]] + more)[1..] == more;
    if more != [] {
      var rest := Join(more, sep);
      assert [c] + parts[0] + sep + rest == [c] + (parts[0] + sep + rest);
    }
  }

  /** Text before and after the first occurrence of `sep`. */
  function Cut(s: string, sep: string): (string, string, bool)
  {
    match Index(s, sep)
    case None => (s, "", false)
    case Some(i) => (s[..i], s[i + |sep|..], true)
  }

  /** White space as `unicode.IsSpace` knows it. */
  predicate IsSpace(c: char) {
    || '\U{0009}' <= c <= '\U{000D}' || c == ' ' || c == '\U{0085}' || c == '\U{00A0}'
    || c == '\U{1680}' || '\U{2000}' <= c <= '\U{200A}' || c == '\U{2028}' || c == '\U{2029}'
    || c == '\U{202F}' || c == '\U{205F}' || c == '\U{3000}'
  }

  function TrimLeft(s: string): string {
    if s != [] && IsSpace(s[0]) then TrimLeft(s[1..]) else s
  }

  function TrimRight(s: string): string {
    if s != [] && IsSpace(s[|s| - 1]) then TrimRight(s[..|s| - 1]) else s
  }

  lemma {:induction false} TrimLeftDrops(s: string)
    ensures var r := TrimLeft(s); |r| <= |s| && r == s[|s| - |r|..] && (r == "" || !IsSpace(r[0]))
  {
    if s != [] && IsSpace(s[0]) { TrimLeftDrops(s[1..]); }
  }

  lemma {:induction false} TrimRightDrops(s: string)
    ensures var r := TrimRight(s); r <= s && (r == "" || !IsSpace(r[|r| - 1]))
  {
    if s != [] && IsSpace(s[|s| - 1]) { TrimRightDrops(s[..|s| - 1]); }
  }

  function TrimSpace(s: string): string {
    TrimRight(TrimLeft(s))
  }
}
