/**
 Canonical environments (internal/jobserver/pkgs/resolve.go): requests that differ only in
 the order, in repetitions or in ignored variables share one cache entry.
 */
module Environ {
  import opened Wrappers
  import opened Ordering
  import opened Strings

  function NameOf(kv: string): string {
    Cut(kv, "=").0
  }

  function ValueOf(kv: string): string {
    Cut(kv, "=").1
  }

  const GOTMPDIR := "GOTMPDIR"
  const TOOLEXEC_IMPORTPATH := "TOOLEXEC_IMPORTPATH"
  const PARENT_ID := "ORCHESTRION_PKG.RESOLVE_PARENT_ID"
  const RESOLVING_TEST_VARIANTS := "ORCHESTRION_RESOLVING_TEST_VARIANTS"

  predicate Ignored(name: string) {
    name in ["PWD", GOTMPDIR, TOOLEXEC_IMPORTPATH, PARENT_ID, RESOLVING_TEST_VARIANTS]
  }

  /** The binding of a variable that wins: the last one. */
  function Last(env: seq<string>, name: string): (r: Option<string>)
    ensures r.Some? ==> NameOf(r.value) == name
  {
    if env == [] then None
    else if NameOf(env[|env| - 1]) == name then Some(env[|env| - 1])
    else Last(env[..|env| - 1], name)
  }

  /** The variables that count, in the order in which they first occur. */
  function Names(env: seq<string>): (r: seq<string>)
    ensures Distinct(r)
    ensures forall name :: name in r <==> !Ignored(name) && Last(env, name).Some?
  {
    if env == [] then []
    else
      var rest, name := Names(env[..|env| - 1]), NameOf(env[|env| - 1]);
      if Ignored(name) || name in rest then rest else rest + [name]
  }

  function Bindings(env: seq<string>, names: seq<string>): (r: seq<string>)
    requires forall name | name in names :: Last(env, name).Some?
    ensures |r| == |names| && forall i | 0 <= i < |r| :: r[i] == Last(env, names[i]).value
  {
    seq(|names|, i requires 0 <= i < |names| => Last(env, names[i]).value)
  }

  function SortedNames(env: seq<string>): (r: seq<string>)
    ensures forall name :: name in r <==> !Ignored(name) && Last(env, name).Some?
    ensures Distinct(r) && multiset(r) == multiset(Names(env))
  {
    var r := Sort(AtMost, Names(env));
    assert forall name :: name in r <==> name in multiset(r);
    assert forall name :: name in Names(env) <==> name in multiset(Names(env));
    PermutationIsDistinct(Names(env), r);
    r
  }

  /** The last binding of every variable that counts, in the order of their names. */
  function Canonical(env: seq<string>): seq<string> {
    Bindings(env, SortedNames(env))
  }

  /** What a request carries beside its environment is taken from the ignored variables. */
  function LastValue(env: seq<string>, name: string, default: string): string {
    match Last(env, name) case None => default case Some(kv) => ValueOf(kv)
  }

  /** An explicit temporary directory wins, then the first one in the environment that is not blank. */
  function TempDirOf(env: seq<string>, dir: string): string {
    if dir != "" || env == [] then dir
    else TempDirOf(env[1..], if NameOf(env[0]) == GOTMPDIR then ValueOf(env[0]) else "")
  }

  lemma {:induction false} TempDirOfMore(env: seq<string>, kv: string, dir: string)
    ensures var before := TempDirOf(env, dir);
            TempDirOf(env + [kv], dir) == if before == "" && NameOf(kv) == GOTMPDIR then ValueOf(kv) else before
  {
    if dir == "" {
      if env == [] {
        assert ([] + [kv])[1..] == [] && ([] + [kv])[0] == kv;
      } else {
        assert (env + [kv])[1..] == env[1..] + [kv];
        TempDirOfMore(env[1..], kv, if NameOf(env[0]) == GOTMPDIR then ValueOf(env[0]) else "");
      }
    }
  }

  lemma TakeOneMore(env: seq<string>, k: nat)
    requires k < |env|
    ensures env[..k + 1] == env[..k] + [env[k]] && env[..k + 1][..k] == env[..k]
  {
  }

  /** What the loop knows of the variables that count. */
  ghost predicate Named(env: seq<string>, names: seq<string>, named: map<string, string>) {
    && names == Names(env) && (forall name :: name in named <==> name in names)
    && forall name | name in named :: Last(env, name) == Some(named[name])
  }

  lemma NamedMore(env: seq<string>, kv: string, names: seq<string>, named: map<string, string>)
    requires Named(env, names, named)
    ensures var name := NameOf(kv);
            if Ignored(name) then Named(env + [kv], names, named)
            else Named(env + [kv], if name in named then names else names + [name], named[name := kv])
  {
    LastOfMore(env, kv);
    var name := NameOf(kv);
    if !Ignored(name) {
      var next := named[name := kv];
      forall n | n in next ensures Last(env + [kv], n) == Some(next[n]) {}
    }
  }

  lemma LastOfMore(env: seq<string>, kv: string)
    ensures forall n :: Last(env + [kv], n) == if NameOf(kv) == n then Some(kv) else Last(env, n)
    ensures var name := NameOf(kv);
            Names(env + [kv]) == if Ignored(name) || name in Names(env) then Names(env) else Names(env) + [name]
  {
    assert (env + [kv])[..|env|] == env;
  }

  /** What it has taken from the ignored ones. */
  predicate Carried(env: seq<string>, dir: string, importPath: string, parent: string, dir0: string,
                    importPath0: string, parent0: string)
  {
    && dir == TempDirOf(env, dir0)
    && importPath == LastValue(env, TOOLEXEC_IMPORTPATH, importPath0)
    && parent == LastValue(env, PARENT_ID, parent0)
  }

  class ResolveRequest {
    var Env: seq<string>
    var TempDir: string
    var toolexecImportpath: string
    var resolveParentID: string

    /** The callbacks of the ignored variables. */
    method Absorb(name: string, val: string)
      modifies `TempDir, `toolexecImportpath, `resolveParentID
      ensures TempDir == if old(TempDir) == "" && name == GOTMPDIR then val else old(TempDir)
      ensures toolexecImportpath == if name == TOOLEXEC_IMPORTPATH then val else old(toolexecImportpath)
      ensures resolveParentID == if name == PARENT_ID then val else old(resolveParentID)
    {
      if name == GOTMPDIR {
        if TempDir != "" { return; }
        TempDir := val;
      } else if name == TOOLEXEC_IMPORTPATH {
        toolexecImportpath := val;
      } else if name == PARENT_ID {
        resolveParentID := val;
      }
    }

    method CanonicalizeEnviron()
      modifies this
      ensures Env == Canonical(old(Env))
      ensures TempDir == TempDirOf(old(Env), old(TempDir))
      ensures toolexecImportpath == LastValue(old(Env), TOOLEXEC_IMPORTPATH, old(toolexecImportpath))
      ensures resolveParentID == LastValue(old(Env), PARENT_ID, old(resolveParentID))
    {
      var env := Env;
      var named: map<string, string>, names: seq<string> := map[], [];
      for k := 0 to |env|
        invariant Named(env[..k], names, named)
        invariant Carried(env[..k], TempDir, toolexecImportpath, resolveParentID,
                          old(TempDir), old(toolexecImportpath), old(resolveParentID))
      {
        var kv := env[k];
        var (name, val, _) := Cut(kv, "=");
        TakeOneMore(env, k);
        NamedMore(env[..k], kv, names, named);
        TempDirOfMore(env[..k], kv, old(TempDir));
        if Ignored(name) {
          Absorb(name, val);
          continue;
        }
        if name !in named {
          names := names + [name];
        }
        named := named[name := kv];
      }
      assert env[..|env|] == env;
      names := Sort(AtMost, names);
      assert names == SortedNames(env);
      Env := Listed(env, named, names);
    }
  }

  method Listed(env: seq<string>, named: map<string, string>, names: seq<string>) returns (list: seq<string>)
    requires forall name | name in names :: name in named && Last(env, name) == Some(named[name])
    ensures list == Bindings(env, names)
  {
    list := [];
    for k := 0 to |names|
      invariant list == Bindings(env, names)[..k]
    {
      assert names[k] in names;
      list := list + [named[names[k]]];
    }
  }

  // ---------------------------------------------------------------- what identifies a request

  /** Canonicalising keeps the binding of every variable that counts, and nothing else. */
  lemma CanonicalKeepsBindings(env: seq<string>, name: string)
    ensures Last(Canonical(env), name) == if Ignored(name) then None else Last(env, name)
  {
    var names := SortedNames(env);
    LastOfBindings(env, names, name);
  }

  lemma {:induction false} LastOfBindings(env: seq<string>, names: seq<string>, name: string)
    requires forall n | n in names :: Last(env, n).Some?
    ensures Last(Bindings(env, names), name) == if name in names then Last(env, name) else None
  {
    if names != [] {
      var rest := names[..|names| - 1];
      assert names == rest + [names[|names| - 1]];
      assert Bindings(env, names)[..|names| - 1] == Bindings(env, rest);
      LastOfBindings(env, rest, name);
    }
  }

  lemma SameBindings(a: seq<string>, b: seq<string>, names: seq<string>)
    requires forall n | n in names :: Last(a, n).Some? && Last(b, n) == Last(a, n)
    ensures Bindings(a, names) == Bindings(b, names)
  {
    forall i | 0 <= i < |names| ensures Last(a, names[i]) == Last(b, names[i]) { assert names[i] in names; }
  }

  /** Two environments have the same canonical form exactly if the same bindings win in both. */
  lemma SameCanonicalExactly(a: seq<string>, b: seq<string>)
    ensures Canonical(a) == Canonical(b) <==> forall name | !Ignored(name) :: Last(a, name) == Last(b, name)
  {
    if Canonical(a) == Canonical(b) {
      forall name | !Ignored(name) ensures Last(a, name) == Last(b, name) {
        CanonicalKeepsBindings(a, name);
        CanonicalKeepsBindings(b, name);
      }
    }
    if forall name | !Ignored(name) :: Last(a, name) == Last(b, name) {
      SameMembersSameCounts(Names(a), Names(b));
      AtMostIsTotal();
      SortIgnoresOrder(AtMost, Names(a), Names(b));
      var names := SortedNames(a);
      SameBindings(a, b, names);
    }
  }

  lemma CanonicalIsIdempotent(env: seq<string>)
    ensures Canonical(Canonical(env)) == Canonical(env)
  {
    forall name | !Ignored(name) ensures Last(Canonical(env), name) == Last(env, name) {
      CanonicalKeepsBindings(env, name);
    }
    SameCanonicalExactly(Canonical(env), env);
  }

  lemma {:induction false} LastOfBoth(a: seq<string>, b: seq<string>, name: string)
    ensures Last(a + b, name) == if Last(b, name).Some? then Last(b, name) else Last(a, name)
  {
    if b == [] {
      assert a + b == a;
    } else {
      assert (a + b)[..|a + b| - 1] == a + b[..|b| - 1];
      LastOfBoth(a, b[..|b| - 1], name);
    }
  }

  /**
   One more binding, wherever it is put, makes no difference exactly if its variable is one of these five, is bound
   again later, or had that very binding before.
   */
  lemma OneMoreMakesNoDifferenceExactly(a: seq<string>, kv: string, b: seq<string>)
    ensures Canonical(a + [kv] + b) == Canonical(a + b) <==>
              || NameOf(kv) in {"PWD", "GOTMPDIR", "TOOLEXEC_IMPORTPATH", "ORCHESTRION_PKG.RESOLVE_PARENT_ID",
                                "ORCHESTRION_RESOLVING_TEST_VARIANTS"}
              || Last(b, NameOf(kv)).Some? || Last(a, NameOf(kv)) == Some(kv)
  {
    SameCanonicalExactly(a + [kv] + b, a + b);
    IgnoredOnes(NameOf(kv));
    forall name
      ensures Last(a + [kv] + b, name) == Last(a + b, name) <==>
                name != NameOf(kv) || Last(b, name).Some? || Last(a, name) == Some(kv)
    {
      OneMoreWins(a, kv, b, name);
    }
  }

  lemma OneMoreWins(a: seq<string>, kv: string, b: seq<string>, name: string)
    ensures Last(a + [kv] + b, name) == Last(a + b, name) <==>
              name != NameOf(kv) || Last(b, name).Some? || Last(a, name) == Some(kv)
  {
    LastOfBoth(a + [kv], b, name);
    LastOfBoth(a, b, name);
    LastOfMore(a, kv);
  }

  lemma IgnoredOnes(name: string)
    ensures Ignored(name) <==>
              name in {"PWD", "GOTMPDIR", "TOOLEXEC_IMPORTPATH", "ORCHESTRION_PKG.RESOLVE_PARENT_ID",
                       "ORCHESTRION_RESOLVING_TEST_VARIANTS"}
  {
  }
}
