/**
 The cycle detector of the job server (internal/jobserver/common/graph.go).

 `Path` ranges over Go maps, so every call may meet the children of a node in another
 order. A `Trace` records one such run: the children met, in order, each with the trace of
 the recursive call it caused. What the literal search returns is a function of its trace,
 so a statement about every trace is a statement about every iteration order.
 */
module Graph {
  import opened Wrappers

  type Edges = map<string, set<string>>

  function Succ(g: Edges, v: string): set<string> {
    if v in g then g[v] else {}
  }

  ghost predicate Walk(g: Edges, x: string, y: string, n: nat)
    decreases n
  {
    if n == 0 then x == y else exists z :: z in Succ(g, x) && Walk(g, z, y, n - 1)
  }

  ghost predicate Reaches(g: Edges, x: string, y: string) {
    exists n: nat :: Walk(g, x, y, n)
  }

  /** `y` is reached from `x` over at least one edge. */
  ghost predicate Follows(g: Edges, x: string, y: string) {
    exists z :: z in Succ(g, x) && Reaches(g, z, y)
  }

  ghost predicate Acyclic(g: Edges) {
    forall v :: !Follows(g, v, v)
  }

  function Link(g: Edges, from: string, to: string): Edges {
    g[from := Succ(g, from) + {to}]
  }

  function Unlink(g: Edges, from: string, to: string): Edges {
    if from !in g then g
    else if g[from] - {to} == {} then g - {from}
    else g[from := g[from] - {to}]
  }

  // ---------------------------------------------------------------- walks

  lemma {:induction false} WalksCompose(g: Edges, x: string, y: string, z: string, m: nat, n: nat)
    requires Walk(g, x, y, m) && Walk(g, y, z, n)
    ensures Walk(g, x, z, m + n)
    decreases m
  {
    if m > 0 {
      var c :| c in Succ(g, x) && Walk(g, c, y, m - 1);
      WalksCompose(g, c, y, z, m - 1, n);
    }
  }

  lemma ReachesTransitive(g: Edges, x: string, y: string, z: string)
    requires Reaches(g, x, y) && Reaches(g, y, z)
    ensures Reaches(g, x, z)
  {
    var m: nat :| Walk(g, x, y, m);
    var n: nat :| Walk(g, y, z, n);
    WalksCompose(g, x, y, z, m, n);
  }

  lemma ReachesUnfolds(g: Edges, x: string, y: string)
    ensures Reaches(g, x, y) <==> x == y || Follows(g, x, y)
  {
    if Reaches(g, x, y) {
      var n: nat :| Walk(g, x, y, n);
      if n > 0 {
        var z :| z in Succ(g, x) && Walk(g, z, y, n - 1);
        assert Reaches(g, z, y);
      }
    }
    if x == y { assert Walk(g, x, y, 0); }
    if Follows(g, x, y) {
      var z :| z in Succ(g, x) && Reaches(g, z, y);
      var n: nat :| Walk(g, z, y, n);
      assert Walk(g, x, y, n + 1);
    }
  }

  // A walk in a graph with one more edge either avoids that edge or ends after its last use.
  lemma {:induction false} WalkWithOneMoreEdge(g: Edges, from: string, to: string, x: string, y: string, n: nat)
    requires Walk(Link(g, from, to), x, y, n)
    ensures Reaches(g, x, y) || (Reaches(g, x, from) && Reaches(g, to, y))
    decreases n
  {
    ReachesUnfolds(g, x, y);
    if n > 0 {
      var z :| z in Succ(Link(g, from, to), x) && Walk(Link(g, from, to), z, y, n - 1);
      WalkWithOneMoreEdge(g, from, to, z, y, n - 1);
      ReachesUnfolds(g, x, from);
      if z in Succ(g, x) {
        if !Reaches(g, z, y) { assert Follows(g, x, from); }
      } else {
        assert x == from && z == to;
      }
    }
  }

  lemma {:induction false} WalkSurvives(g: Edges, h: Edges, x: string, y: string, n: nat)
    requires Walk(g, x, y, n)
    requires forall v :: Succ(g, v) <= Succ(h, v)
    ensures Walk(h, x, y, n)
    decreases n
  {
    if n > 0 {
      var z :| z in Succ(g, x) && Walk(g, z, y, n - 1);
      WalkSurvives(g, h, z, y, n - 1);
    }
  }

  lemma FollowsSurvives(g: Edges, h: Edges, x: string, y: string)
    requires Follows(g, x, y)
    requires forall v :: Succ(g, v) <= Succ(h, v)
    ensures Follows(h, x, y)
  {
    var z :| z in Succ(g, x) && Reaches(g, z, y);
    var n: nat :| Walk(g, z, y, n);
    WalkSurvives(g, h, z, y, n);
  }

  /** A new edge closes a cycle exactly when its target already reaches its source. */
  lemma LinkClosesCycle(g: Edges, from: string, to: string)
    requires Acyclic(g)
    ensures Acyclic(Link(g, from, to)) <==> !Reaches(g, to, from)
  {
    var h := Link(g, from, to);
    if Reaches(g, to, from) {
      var n: nat :| Walk(g, to, from, n);
      WalkSurvives(g, h, to, from, n);
      assert Follows(h, from, from);
    } else if v :| Follows(h, v, v) {
      var z :| z in Succ(h, v) && Reaches(h, z, v);
      var n: nat :| Walk(h, z, v, n);
      WalkWithOneMoreEdge(g, from, to, z, v, n);
      if z in Succ(g, v) {
        assert !Follows(g, v, v);
        assert Reaches(g, z, from) && Reaches(g, to, v);
        ReachesUnfolds(g, v, from);
        ReachesTransitive(g, to, v, from);
      }
      assert false;
    }
  }

  lemma UnlinkKeepsAcyclic(g: Edges, from: string, to: string)
    requires Acyclic(g)
    ensures Acyclic(Unlink(g, from, to))
    ensures forall v :: Succ(Unlink(g, from, to), v) == if v == from then Succ(g, v) - {to} else Succ(g, v)
  {
    var h := Unlink(g, from, to);
    if v :| Follows(h, v, v) {
      FollowsSurvives(h, g, v, v);
      assert false;
    }
  }

  // ---------------------------------------------------------------- the search and its traces

  datatype Visit = Visit(child: string, below: Trace)
  datatype Trace = Trace(visits: seq<Visit>)

  ghost function Children(visits: seq<Visit>): set<string> {
    set i | 0 <= i < |visits| :: visits[i].child
  }

  lemma ChildrenOfBoth(a: seq<Visit>, b: seq<Visit>)
    ensures Children(a + b) == Children(a) + Children(b)
  {
    forall x | x in Children(a) + Children(b) ensures x in Children(a + b) {
      if x in Children(a) {
        var i :| 0 <= i < |a| && a[i].child == x;
        assert (a + b)[i].child == x;
      } else {
        var i :| 0 <= i < |b| && b[i].child == x;
        assert (a + b)[|a| + i].child == x;
      }
    }
  }

  /** `tr` records a complete run of `path(v, t)` on `g`: all children once each, or up to `t`. */
  ghost predicate TraceOf(g: Edges, v: string, t: string, tr: Trace)
    decreases tr
  {
    && (forall i, j | 0 <= i < j < |tr.visits| :: tr.visits[i].child != tr.visits[j].child)
    && (forall i | 0 <= i < |tr.visits| :: tr.visits[i].child in Succ(g, v))
    && (forall i | 0 <= i < |tr.visits| ::
          if tr.visits[i].child == t then i == |tr.visits| - 1
          else TraceOf(g, tr.visits[i].child, t, tr.visits[i].below))
    && (Direct(t, tr) || Children(tr.visits) == Succ(g, v))
  }

  /** The run stopped on an edge that leads straight to `t`. */
  predicate Direct(t: string, tr: Trace) {
    |tr.visits| > 0 && tr.visits[|tr.visits| - 1].child == t
  }

  function Length(path: Option<seq<string>>): nat {
    if path.Some? then |path.value| else 0
  }

  /** The loop's update: a nil path has length 0, so it replaces any path found before. */
  function Better(best: Option<seq<string>>, candidate: Option<seq<string>>): Option<seq<string>> {
    if best.None? || Length(candidate) < Length(best) then candidate else best
  }

  function Found(v: string, t: string, tr: Trace): Option<seq<string>>
    decreases tr, 1
  {
    if Direct(t, tr) then Some([v, t])
    else match Best(t, tr, |tr.visits|)
         case None => None
         case Some(p) => Some([v] + p)
  }

  /** The loop variable after the first `n` children. */
  function Best(t: string, tr: Trace, n: nat): Option<seq<string>>
    requires n <= |tr.visits|
    decreases tr, 0, n
  {
    if n == 0 then None
    else
      var last := tr.visits[n - 1];
      Better(Best(t, tr, n - 1), Found(last.child, t, last.below))
  }

  predicate IsPath(g: Edges, p: seq<string>, x: string, y: string) {
    && |p| >= 2 && p[0] == x && p[|p| - 1] == y
    && forall i | 0 <= i < |p| - 1 :: p[i + 1] in Succ(g, p[i])
  }

  lemma {:induction false} PathIsWalk(g: Edges, p: seq<string>, x: string, y: string)
    requires IsPath(g, p, x, y)
    ensures Follows(g, x, y) && Walk(g, x, y, |p| - 1)
    decreases |p|
  {
    if |p| == 2 {
      assert Walk(g, y, y, 0);
    } else {
      PathIsWalk(g, p[1..], p[1], y);
    }
    assert Walk(g, p[1], y, |p| - 2) && Reaches(g, p[1], y);
  }

  /** Whatever the order, a path that is returned is a path. */
  lemma {:induction false} FoundIsPath(g: Edges, v: string, t: string, tr: Trace)
    requires TraceOf(g, v, t, tr) && Found(v, t, tr).Some?
    ensures IsPath(g, Found(v, t, tr).value, v, t)
    decreases tr, 1
  {
    if !Direct(t, tr) { BestIsPath(g, v, t, tr, |tr.visits|); }
  }

  lemma {:induction false} BestIsPath(g: Edges, v: string, t: string, tr: Trace, n: nat)
    requires TraceOf(g, v, t, tr) && !Direct(t, tr) && n <= |tr.visits|
    requires Best(t, tr, n).Some?
    ensures Best(t, tr, n).value != [] && Best(t, tr, n).value[0] in Succ(g, v)
    ensures IsPath(g, Best(t, tr, n).value, Best(t, tr, n).value[0], t)
    decreases tr, 0, n
  {
    var last := tr.visits[n - 1];
    if Best(t, tr, n - 1).Some? { BestIsPath(g, v, t, tr, n - 1); }
    if Found(last.child, t, last.below).Some? { FoundIsPath(g, last.child, t, last.below); }
  }

  lemma BetterIsCandidate(best: Option<seq<string>>, candidate: Option<seq<string>>)
    requires best.Some? ==> best.value != []
    ensures Better(best, candidate).Some? <==> candidate.Some?
  {
  }

  /** The outcome hangs on the last child alone: a nil there wipes out everything found before. */
  lemma LastChildDecides(g: Edges, v: string, t: string, tr: Trace)
    requires TraceOf(g, v, t, tr) && !Direct(t, tr) && tr.visits != []
    ensures var last := tr.visits[|tr.visits| - 1];
            Found(v, t, tr).Some? <==> Found(last.child, t, last.below).Some?
  {
    var n := |tr.visits|;
    var last := tr.visits[n - 1];
    if Best(t, tr, n - 1).Some? { BestIsPath(g, v, t, tr, n - 1); }
    BetterIsCandidate(Best(t, tr, n - 1), Found(last.child, t, last.below));
  }

  // ---------------------------------------------------------------- when the search succeeds

  ghost function Nodes(g: Edges): set<string> {
    set x, y | x in g && y in g[x] :: y
  }

  /** Everything below `v`; it shrinks along every edge of an acyclic graph. */
  ghost function Descendants(g: Edges, v: string): set<string> {
    set y | y in Nodes(g) && Follows(g, v, y)
  }

  lemma {:induction false} ReachedIsNode(g: Edges, x: string, y: string, n: nat)
    requires Walk(g, x, y, n) && n > 0
    ensures y in Nodes(g)
    decreases n
  {
    var z :| z in Succ(g, x) && Walk(g, z, y, n - 1);
    if n > 1 { ReachedIsNode(g, z, y, n - 1); }
  }

  lemma DescendantsShrink(g: Edges, v: string, c: string)
    requires Acyclic(g) && c in Succ(g, v)
    ensures Descendants(g, c) < Descendants(g, v)
  {
    assert Walk(g, c, c, 0) && Reaches(g, c, c);
    assert Follows(g, v, c) && c in Descendants(g, v) && c !in Descendants(g, c);
    forall y | y in Descendants(g, c) ensures y in Descendants(g, v) {
      ReachesUnfolds(g, c, y);
    }
  }

  /** Every walk out of `v` runs into a node with an edge to `t` before it can stop. */
  ghost predicate Caught(g: Edges, v: string, t: string)
    requires Acyclic(g)
    decreases Descendants(g, v)
  {
    || t in Succ(g, v)
    || (&& Succ(g, v) != {}
        && forall c | c in Succ(g, v) :: (DescendantsShrink(g, v, c); Caught(g, c, t)))
  }

  /** In an acyclic graph the search ends: some run of it is complete. */
  lemma {:induction false} SomeTrace(g: Edges, v: string, t: string) returns (tr: Trace)
    requires Acyclic(g)
    ensures TraceOf(g, v, t, tr)
    decreases Descendants(g, v), 1
  {
    if t in Succ(g, v) {
      tr := Trace([Visit(t, Trace([]))]);
    } else {
      tr := SomeVisits(g, v, t, Succ(g, v));
    }
  }

  /** Children can be met in any order, so any of them can come first, with any run of its own. */
  lemma {:induction false} SomeVisits(g: Edges, v: string, t: string, todo: set<string>) returns (tr: Trace)
    requires Acyclic(g) && todo <= Succ(g, v) && t !in Succ(g, v)
    ensures Children(tr.visits) == todo
    ensures forall i, j | 0 <= i < j < |tr.visits| :: tr.visits[i].child != tr.visits[j].child
    ensures forall i | 0 <= i < |tr.visits| :: TraceOf(g, tr.visits[i].child, t, tr.visits[i].below)
    decreases Descendants(g, v), 0, todo
  {
    if todo == {} {
      tr := Trace([]);
    } else {
      var c :| c in todo;
      DescendantsShrink(g, v, c);
      var below := SomeTrace(g, c, t);
      var rest := SomeVisits(g, v, t, todo - {c});
      forall i | 0 <= i < |rest.visits| ensures rest.visits[i].child != c {
        assert rest.visits[i].child in Children(rest.visits);
      }
      tr := Trace([Visit(c, below)] + rest.visits);
      ChildrenOfBoth([Visit(c, below)], rest.visits);
      assert [Visit(c, below)][0].child == c;
    }
  }

  /** Some order visits `c` last, after any given run below it. */
  lemma TraceEndingWith(g: Edges, v: string, t: string, c: string, below: Trace) returns (tr: Trace)
    requires Acyclic(g) && t !in Succ(g, v) && c in Succ(g, v) && TraceOf(g, c, t, below)
    ensures TraceOf(g, v, t, tr) && !Direct(t, tr)
    ensures tr.visits != [] && tr.visits[|tr.visits| - 1] == Visit(c, below)
  {
    var rest := SomeVisits(g, v, t, Succ(g, v) - {c});
    forall i | 0 <= i < |rest.visits| ensures rest.visits[i].child in Succ(g, v) - {c} {
      assert rest.visits[i].child in Children(rest.visits);
    }
    tr := Trace(rest.visits + [Visit(c, below)]);
    ChildrenOfBoth(rest.visits, [Visit(c, below)]);
    assert [Visit(c, below)][0].child == c;
  }

  /** Some iteration order finds a path exactly when there is one. */
  lemma {:induction false} FoundInSomeOrder(g: Edges, v: string, t: string)
    requires Acyclic(g)
    ensures Follows(g, v, t) <==> exists tr :: TraceOf(g, v, t, tr) && Found(v, t, tr).Some?
    decreases Descendants(g, v)
  {
    if tr :| TraceOf(g, v, t, tr) && Found(v, t, tr).Some? {
      FoundIsPath(g, v, t, tr);
      PathIsWalk(g, Found(v, t, tr).value, v, t);
    }
    if Follows(g, v, t) {
      if t in Succ(g, v) {
        assert TraceOf(g, v, t, Trace([Visit(t, Trace([]))]));
        assert Found(v, t, Trace([Visit(t, Trace([]))])).Some?;
      } else {
        var c :| c in Succ(g, v) && Reaches(g, c, t);
        ReachesUnfolds(g, c, t);
        DescendantsShrink(g, v, c);
        FoundInSomeOrder(g, c, t);
        var below :| TraceOf(g, c, t, below) && Found(c, t, below).Some?;
        var tr := TraceEndingWith(g, v, t, c, below);
        LastChildDecides(g, v, t, tr);
      }
    }
  }

  lemma MissedByAnUncaughtChild(g: Edges, v: string, t: string, c: string, below: Trace)
    requires Acyclic(g) && t !in Succ(g, v) && c in Succ(g, v)
    requires TraceOf(g, c, t, below) && Found(c, t, below).None?
    ensures exists tr :: TraceOf(g, v, t, tr) && Found(v, t, tr).None?
  {
    var tr := TraceEndingWith(g, v, t, c, below);
    LastChildDecides(g, v, t, tr);
  }

  /** Every iteration order finds a path exactly when `t` is inescapable from `v`. */
  lemma {:induction false} FoundInEveryOrder(g: Edges, v: string, t: string)
    requires Acyclic(g)
    ensures Caught(g, v, t) <==> forall tr | TraceOf(g, v, t, tr) :: Found(v, t, tr).Some?
    decreases Descendants(g, v)
  {
    forall c | c in Succ(g, v)
      ensures Caught(g, c, t) <==> forall tr | TraceOf(g, c, t, tr) :: Found(c, t, tr).Some?
    {
      DescendantsShrink(g, v, c);
      FoundInEveryOrder(g, c, t);
    }
    if Caught(g, v, t) {
      forall tr | TraceOf(g, v, t, tr) ensures Found(v, t, tr).Some? {
        if !Direct(t, tr) {
          assert t !in Children(tr.visits);
          assert tr.visits == [] ==> Children(tr.visits) == {};
          LastChildDecides(g, v, t, tr);
        }
      }
    } else if Succ(g, v) == {} {
      assert TraceOf(g, v, t, Trace([])) && Found(v, t, Trace([])).None?;
    } else {
      var c :| c in Succ(g, v) && !Caught(g, c, t);
      var below :| TraceOf(g, c, t, below) && Found(c, t, below).None?;
      MissedByAnUncaughtChild(g, v, t, c, below);
    }
  }

  lemma CaughtIsFound(g: Edges, v: string, t: string, tr: Trace)
    requires Acyclic(g) && Caught(g, v, t) && TraceOf(g, v, t, tr)
    ensures Found(v, t, tr).Some?
  {
    FoundInEveryOrder(g, v, t);
  }

  lemma FoundIsMeant(g: Edges, v: string, t: string, tr: Trace)
    requires TraceOf(g, v, t, tr)
    ensures Found(v, t, tr).Some? ==> IsPath(g, Found(v, t, tr).value, v, t)
    ensures Acyclic(g) && Caught(g, v, t) ==> Found(v, t, tr).Some?
  {
    if Found(v, t, tr).Some? { FoundIsPath(g, v, t, tr); }
    if Acyclic(g) && Caught(g, v, t) { CaughtIsFound(g, v, t, tr); }
  }

  lemma CaughtChildrenAreFound(g: Edges, v: string, t: string, tr: Trace)
    requires Acyclic(g) && Caught(g, v, t) && TraceOf(g, v, t, tr) && !Direct(t, tr)
    ensures t !in Succ(g, v) && Children(tr.visits) == Succ(g, v)
    ensures forall k | 0 <= k < |tr.visits| ::
              Caught(g, tr.visits[k].child, t) && Found(tr.visits[k].child, t, tr.visits[k].below).Some?
  {
    assert t !in Children(tr.visits);
    forall k | 0 <= k < |tr.visits|
      ensures Caught(g, tr.visits[k].child, t) && Found(tr.visits[k].child, t, tr.visits[k].below).Some?
    {
      CaughtIsFound(g, tr.visits[k].child, t, tr.visits[k].below);
    }
  }

  lemma FoundIsNoLonger(v: string, t: string, tr: Trace, i: nat)
    requires !Direct(t, tr) && i < |tr.visits|
    requires forall k | 0 <= k < |tr.visits| :: Found(tr.visits[k].child, t, tr.visits[k].below).Some?
    ensures Found(v, t, tr).Some?
    ensures |Found(v, t, tr).value| <= |Found(tr.visits[i].child, t, tr.visits[i].below).value| + 1
  {
    BestIsNoLonger(t, tr, i, |tr.visits|);
  }

  lemma VisitsAreTraced(g: Edges, v: string, t: string, tr: Trace, i: nat)
    requires TraceOf(g, v, t, tr) && !Direct(t, tr) && i < |tr.visits|
    ensures tr.visits[i].child != t && TraceOf(g, tr.visits[i].child, t, tr.visits[i].below)
  {
  }

  /** The first step of a walk is among the children met. */
  lemma VisitTowards(g: Edges, v: string, t: string, tr: Trace, n: nat) returns (i: nat)
    requires Children(tr.visits) == Succ(g, v) && t !in Succ(g, v) && n > 0 && Walk(g, v, t, n)
    ensures n > 1 && i < |tr.visits| && Walk(g, tr.visits[i].child, t, n - 1)
  {
    var c :| c in Succ(g, v) && Walk(g, c, t, n - 1);
    i :| 0 <= i < |tr.visits| && tr.visits[i].child == c;
  }

  /** Under that condition the path is also a shortest one, in every order. */
  lemma {:induction false} CaughtPathIsShortest(g: Edges, v: string, t: string, tr: Trace, n: nat)
    requires Acyclic(g) && Caught(g, v, t) && TraceOf(g, v, t, tr)
    requires n > 0 && Walk(g, v, t, n)
    ensures Found(v, t, tr).Some? && |Found(v, t, tr).value| <= n + 1
    decreases n
  {
    CaughtIsFound(g, v, t, tr);
    if !Direct(t, tr) {
      CaughtChildrenAreFound(g, v, t, tr);
      var i := VisitTowards(g, v, t, tr, n);
      VisitsAreTraced(g, v, t, tr, i);
      CaughtPathIsShortest(g, tr.visits[i].child, t, tr.visits[i].below, n - 1);
      FoundIsNoLonger(v, t, tr, i);
    }
  }

  /** As long as no child comes back empty-handed the loop keeps the minimum. */
  lemma {:induction false} BestIsNoLonger(t: string, tr: Trace, i: nat, n: nat)
    requires i < n <= |tr.visits|
    requires forall k | 0 <= k < n :: Found(tr.visits[k].child, t, tr.visits[k].below).Some?
    ensures Best(t, tr, n).Some?
    ensures Length(Best(t, tr, n)) <= Length(Found(tr.visits[i].child, t, tr.visits[i].below))
    decreases n
  {
    if i < n - 1 { BestIsNoLonger(t, tr, i, n - 1); }
    else if n > 1 { BestIsNoLonger(t, tr, 0, n - 1); }
  }

  // ---------------------------------------------------------------- when the search ends

  /** The graph as the search for `t` sees it: `t` itself is not searched. */
  function Avoiding(g: Edges, t: string): Edges {
    map v | v in g :: g[v] - {t}
  }

  /** A cycle that avoids `t` can be reached from `v` without meeting `t`. */
  ghost predicate Loops(g: Edges, v: string, t: string) {
    exists u :: Reaches(Avoiding(g, t), v, u) && Follows(Avoiding(g, t), u, u)
  }

  lemma ChildIsOnNoLoop(g: Edges, v: string, t: string, c: string)
    requires !Loops(g, v, t) && c in Succ(g, v) && c != t
    ensures !Loops(g, c, t) && Descendants(Avoiding(g, t), c) < Descendants(Avoiding(g, t), v)
  {
    var h := Avoiding(g, t);
    assert c in Succ(h, v);
    assert Walk(h, c, c, 0) && Reaches(h, c, c);
    assert Follows(h, v, c);
    ReachesUnfolds(h, v, c);
    forall u | Reaches(h, c, u) ensures Reaches(h, v, u) && !Follows(h, u, u) {
      ReachesTransitive(h, v, c, u);
    }
    assert c in Descendants(h, v) by { ReachedIsNode(h, v, c, 1); }
    forall y | y in Descendants(h, c) ensures y in Descendants(h, v) { ReachesUnfolds(h, c, y); }
  }

  lemma AcyclicHasNoLoops(g: Edges, v: string, t: string)
    requires Acyclic(g)
    ensures !Loops(g, v, t)
  {
    forall u ensures !Follows(Avoiding(g, t), u, u) {
      if Follows(Avoiding(g, t), u, u) { FollowsSurvives(Avoiding(g, t), g, u, u); }
    }
  }

  lemma LoopGoesOn(g: Edges, v: string, t: string) returns (c: string)
    requires Loops(g, v, t)
    ensures c in Succ(g, v) && c != t && Loops(g, c, t)
  {
    var h := Avoiding(g, t);
    var u :| Reaches(h, v, u) && Follows(h, u, u);
    ReachesUnfolds(h, v, u);
    c :| c in Succ(h, v) && Reaches(h, c, u);
  }

  /** Each call of the search, known by the calls it is nested in, meets the children in an order of its own. */
  ghost predicate Orders(g: Edges, order: seq<string> -> seq<string>) {
    forall stack: seq<string> | stack != [] :: Lists(order(stack), Succ(g, stack[|stack| - 1]))
  }

  predicate Lists(s: seq<string>, of: set<string>) {
    (forall i, j | 0 <= i < j < |s| :: s[i] != s[j]) && (forall x | x in s :: x in of) && forall x | x in of :: x in s
  }

  /** A run that meets children in these orders. */
  ghost predicate Obeys(order: seq<string> -> seq<string>, stack: seq<string>, t: string, tr: Trace)
    decreases tr
  {
    && |tr.visits| <= |order(stack)|
    && forall i | 0 <= i < |tr.visits| ::
         && tr.visits[i].child == order(stack)[i]
         && (tr.visits[i].child != t ==> Obeys(order, stack + [tr.visits[i].child], t, tr.visits[i].below))
  }

  lemma {:induction false} RunEnds(g: Edges, order: seq<string> -> seq<string>, stack: seq<string>, t: string)
    returns (tr: Trace)
    requires Orders(g, order) && stack != [] && !Loops(g, stack[|stack| - 1], t)
    ensures TraceOf(g, stack[|stack| - 1], t, tr) && Obeys(order, stack, t, tr)
    decreases Descendants(Avoiding(g, t), stack[|stack| - 1]), 2
  {
    var v, children := stack[|stack| - 1], order(stack);
    assert Lists(children, Succ(g, v));
    if t in Succ(g, v) {
      var n :| 0 <= n < |children| && children[n] == t;
      var visits := VisitsInOrder(g, order, stack, t, n);
      tr := Trace(visits + [Visit(t, Trace([]))]);
      StoppedRun(g, order, stack, t, visits);
    } else {
      assert forall k | 0 <= k < |children| :: children[k] in children;
      var visits := VisitsInOrder(g, order, stack, t, |children|);
      tr := Trace(visits);
      FullRun(g, order, stack, t, visits);
    }
  }

  /** The first visits, all complete. */
  ghost predicate VisitsObey(g: Edges, order: seq<string> -> seq<string>, stack: seq<string>, t: string,
                             visits: seq<Visit>)
  {
    && |visits| <= |order(stack)|
    && forall i | 0 <= i < |visits| ::
         && visits[i].child == order(stack)[i] && visits[i].child != t
         && TraceOf(g, visits[i].child, t, visits[i].below)
         && Obeys(order, stack + [visits[i].child], t, visits[i].below)
  }

  lemma OneMoreVisit(g: Edges, order: seq<string> -> seq<string>, stack: seq<string>, t: string,
                     visits: seq<Visit>, next: Visit)
    requires VisitsObey(g, order, stack, t, visits) && |visits| < |order(stack)|
    requires next.child == order(stack)[|visits|] && next.child != t && TraceOf(g, next.child, t, next.below)
    requires Obeys(order, stack + [next.child], t, next.below)
    ensures VisitsObey(g, order, stack, t, visits + [next])
  {
  }

  lemma NextChild(g: Edges, order: seq<string> -> seq<string>, stack: seq<string>, t: string, n: nat)
    returns (c: string)
    requires Orders(g, order) && stack != [] && !Loops(g, stack[|stack| - 1], t)
    requires n < |order(stack)| && order(stack)[n] != t
    ensures c == order(stack)[n] && !Loops(g, c, t)
    ensures Descendants(Avoiding(g, t), c) < Descendants(Avoiding(g, t), stack[|stack| - 1])
  {
    c := order(stack)[n];
    assert Lists(order(stack), Succ(g, stack[|stack| - 1])) && c in order(stack);
    ChildIsOnNoLoop(g, stack[|stack| - 1], t, c);
  }

  lemma {:induction false} NextVisit(g: Edges, order: seq<string> -> seq<string>, stack: seq<string>, t: string,
                                     n: nat)
    returns (next: Visit)
    requires Orders(g, order) && stack != [] && !Loops(g, stack[|stack| - 1], t)
    requires n < |order(stack)| && order(stack)[n] != t
    ensures next.child == order(stack)[n] && TraceOf(g, next.child, t, next.below)
    ensures Obeys(order, stack + [next.child], t, next.below)
    decreases Descendants(Avoiding(g, t), stack[|stack| - 1]), 0
  {
    var c := NextChild(g, order, stack, t, n);
    var below := RunEnds(g, order, stack + [c], t);
    next := Visit(c, below);
  }

  lemma {:induction false} VisitsInOrder(g: Edges, order: seq<string> -> seq<string>, stack: seq<string>, t: string,
                                         n: nat)
    returns (visits: seq<Visit>)
    requires Orders(g, order) && stack != [] && !Loops(g, stack[|stack| - 1], t)
    requires n <= |order(stack)| && forall k | 0 <= k < n :: order(stack)[k] != t
    ensures |visits| == n && VisitsObey(g, order, stack, t, visits)
    decreases Descendants(Avoiding(g, t), stack[|stack| - 1]), 1, n
  {
    if n == 0 {
      visits := [];
    } else {
      var before := VisitsInOrder(g, order, stack, t, n - 1);
      var next := NextVisit(g, order, stack, t, n - 1);
      visits := before + [next];
      OneMoreVisit(g, order, stack, t, before, next);
    }
  }

  lemma StoppedRun(g: Edges, order: seq<string> -> seq<string>, stack: seq<string>, t: string, visits: seq<Visit>)
    requires stack != [] && Lists(order(stack), Succ(g, stack[|stack| - 1])) && VisitsObey(g, order, stack, t, visits)
    requires |visits| < |order(stack)| && order(stack)[|visits|] == t
    ensures var tr := Trace(visits + [Visit(t, Trace([]))]);
            TraceOf(g, stack[|stack| - 1], t, tr) && Obeys(order, stack, t, tr)
  {
  }

  lemma FullRun(g: Edges, order: seq<string> -> seq<string>, stack: seq<string>, t: string, visits: seq<Visit>)
    requires stack != [] && Lists(order(stack), Succ(g, stack[|stack| - 1])) && VisitsObey(g, order, stack, t, visits)
    requires |visits| == |order(stack)|
    ensures TraceOf(g, stack[|stack| - 1], t, Trace(visits)) && Obeys(order, stack, t, Trace(visits))
  {
    var v, children := stack[|stack| - 1], order(stack);
    forall c | c in Succ(g, v) ensures c in Children(visits) {
      var i :| 0 <= i < |children| && children[i] == c;
      assert visits[i].child == c;
    }
    forall c | c in Children(visits) ensures c in Succ(g, v) {
      var i :| 0 <= i < |visits| && visits[i].child == c;
      assert children[i] in children;
    }
  }

  /** An order of the children that goes on along a loop, if there is one. */
  ghost predicate GoesRound(g: Edges, v: string, t: string, children: seq<string>) {
    Lists(children, Succ(g, v)) && (Loops(g, v, t) ==> children != [] && children[0] != t && Loops(g, children[0], t))
  }

  lemma {:induction false} SomeList(of: set<string>) returns (s: seq<string>)
    ensures Lists(s, of)
    decreases of
  {
    if of == {} { return []; }
    var x :| x in of;
    var rest := SomeList(of - {x});
    s := [x] + rest;
  }

  lemma SomeRound(g: Edges, v: string, t: string)
    ensures exists children :: GoesRound(g, v, t, children)
  {
    if Loops(g, v, t) {
      var c := LoopGoesOn(g, v, t);
      var rest := SomeList(Succ(g, v) - {c});
      assert GoesRound(g, v, t, [c] + rest);
    } else {
      var children := SomeList(Succ(g, v));
      assert GoesRound(g, v, t, children);
    }
  }

  ghost function Round(g: Edges, v: string, t: string): (children: seq<string>)
    ensures GoesRound(g, v, t, children)
  {
    SomeRound(g, v, t);
    var children :| GoesRound(g, v, t, children);
    children
  }

  lemma FirstVisit(g: Edges, order: seq<string> -> seq<string>, stack: seq<string>, t: string, tr: Trace)
    requires stack != [] && Loops(g, stack[|stack| - 1], t) && GoesRound(g, stack[|stack| - 1], t, order(stack))
    requires TraceOf(g, stack[|stack| - 1], t, tr) && Obeys(order, stack, t, tr)
    ensures tr.visits != [] && Loops(g, tr.visits[0].child, t)
    ensures TraceOf(g, tr.visits[0].child, t, tr.visits[0].below)
    ensures Obeys(order, stack + [tr.visits[0].child], t, tr.visits[0].below)
  {
    var v := stack[|stack| - 1];
    assert order(stack)[0] in order(stack) && order(stack)[0] in Succ(g, v);
    assert tr.visits == [] ==> Children(tr.visits) == {};
  }

  lemma {:induction false} NoRunGoesRound(g: Edges, order: seq<string> -> seq<string>, stack: seq<string>, t: string,
                                          tr: Trace)
    requires stack != [] && Loops(g, stack[|stack| - 1], t)
    requires forall s: seq<string> | s != [] :: GoesRound(g, s[|s| - 1], t, order(s))
    ensures !(TraceOf(g, stack[|stack| - 1], t, tr) && Obeys(order, stack, t, tr))
    decreases tr
  {
    if TraceOf(g, stack[|stack| - 1], t, tr) && Obeys(order, stack, t, tr) {
      FirstVisit(g, order, stack, t, tr);
      NoRunGoesRound(g, order, stack + [tr.visits[0].child], t, tr.visits[0].below);
    }
  }

  ghost predicate EndsIn(g: Edges, v: string, t: string, order: seq<string> -> seq<string>) {
    exists tr :: TraceOf(g, v, t, tr) && Obeys(order, [v], t, tr)
  }

  lemma RoundNeverEnds(g: Edges, v: string, t: string) returns (order: seq<string> -> seq<string>)
    requires Loops(g, v, t)
    ensures Orders(g, order) && !EndsIn(g, v, t, order)
  {
    order := stack => if stack == [] then [] else Round(g, stack[|stack| - 1], t);
    forall stack: seq<string> | stack != [] ensures GoesRound(g, stack[|stack| - 1], t, order(stack)) {}
    forall tr ensures !(TraceOf(g, v, t, tr) && Obeys(order, [v], t, tr)) { NoRunGoesRound(g, order, [v], t, tr); }
  }

  /**
   On any graph, cyclic or not, the search ends in every iteration order exactly if it can reach
   no cycle that avoids its target.
   */
  lemma SearchEndsExactly(g: Edges, v: string, t: string)
    ensures (forall order | Orders(g, order) :: EndsIn(g, v, t, order)) <==> !Loops(g, v, t)
  {
    if Loops(g, v, t) {
      var order := RoundNeverEnds(g, v, t);
    } else {
      forall order | Orders(g, order) ensures EndsIn(g, v, t, order) {
        var tr := RunEnds(g, order, [v], t);
      }
    }
  }

  // ---------------------------------------------------------------- AddEdge

  /** AddEdge keeps the graph as it is: the edge is a self-loop, or the search found a way back. */
  ghost predicate Rejects(from: string, to: string, tr: Trace) {
    from == to || Found(to, from, tr).Some?
  }

  ghost function Added(g: Edges, from: string, to: string, tr: Trace): Edges {
    if Rejects(from, to, tr) then g else Link(g, from, to)
  }

  /** What AddEdge needs in order to notice the cycle whatever the iteration order. */
  ghost predicate Guarded(g: Edges, from: string, to: string)
    requires Acyclic(g)
  {
    from == to || (Follows(g, to, from) ==> Caught(g, to, from))
  }

  /**
   The acyclicity that AddEdge is there for, exactly: it survives under every iteration order
   if and only if the way back, when there is one, cannot be missed.
   */
  lemma AddEdgeKeepsAcyclicExactly(g: Edges, from: string, to: string)
    requires Acyclic(g)
    ensures (forall tr | TraceOf(g, to, from, tr) :: Acyclic(Added(g, from, to, tr))) <==> Guarded(g, from, to)
  {
    FoundInEveryOrder(g, to, from);
    FoundInSomeOrder(g, to, from);
    LinkClosesCycle(g, from, to);
    ReachesUnfolds(g, to, from);
    if from != to && Follows(g, to, from) && !Caught(g, to, from) {
      var tr :| TraceOf(g, to, from, tr) && Found(to, from, tr).None?;
      assert !Acyclic(Added(g, from, to, tr));
    }
  }

  /** A guarded call decides exactly; an unguarded one still never rejects without cause. */
  lemma AddEdgeRejectsCycles(g: Edges, from: string, to: string, tr: Trace)
    requires Acyclic(g) && TraceOf(g, to, from, tr)
    ensures Rejects(from, to, tr) ==> !Acyclic(Link(g, from, to))
    ensures Guarded(g, from, to) ==> (Rejects(from, to, tr) <==> !Acyclic(Link(g, from, to)))
  {
    LinkClosesCycle(g, from, to);
    ReachesUnfolds(g, to, from);
    if Found(to, from, tr).Some? {
      FoundIsPath(g, to, from, tr);
      PathIsWalk(g, Found(to, from, tr).value, to, from);
    } else if from != to && Caught(g, to, from) {
      CaughtIsFound(g, to, from, tr);
    }
  }

  /** The literal rule misses a cycle: b leads to a through c, but the dead end d is met last. */
  lemma AddEdgeMissesACycle()
    ensures var g := map["b" := {"c", "d"}, "c" := {"a"}];
            var tr := Trace([Visit("c", Trace([Visit("a", Trace([]))])), Visit("d", Trace([]))]);
            TraceOf(g, "b", "a", tr) && !Rejects("a", "b", tr) && Follows(Added(g, "a", "b", tr), "a", "a")
  {
    var g := map["b" := {"c", "d"}, "c" := {"a"}];
    var inner := Trace([Visit("a", Trace([]))]);
    var outer := Trace([Visit("c", inner), Visit("d", Trace([]))]);
    assert inner.visits[0].child == "a" && outer.visits[0].child == "c" && outer.visits[1].child == "d";
    assert Children(outer.visits) == {"c", "d"};
    assert TraceOf(g, "c", "a", inner) && TraceOf(g, "d", "a", Trace([]));
    assert Best("a", outer, 1) == Some(["c", "a"]);
    var h := Link(g, "a", "b");
    assert Walk(h, "a", "a", 0);
    assert "a" in Succ(h, "c") && Walk(h, "c", "a", 1);
    assert "c" in Succ(h, "b") && Walk(h, "b", "a", 2);
    assert Reaches(h, "b", "a");
  }

  // ---------------------------------------------------------------- runs

  datatype Op = Add(from: string, to: string, order: Trace) | Remove(from: string, to: string)

  ghost function Apply(g: Edges, op: Op): Edges {
    match op
    case Add(from, to, tr) => Added(g, from, to, tr)
    case Remove(from, to) => Unlink(g, from, to)
  }

  ghost function Run(g: Edges, ops: seq<Op>): Edges
    decreases |ops|
  {
    if ops == [] then g else Run(Apply(g, ops[0]), ops[1..])
  }

  /** Each insertion searched its own graph in some order; none of them was unguarded. */
  ghost predicate GuardedRun(g: Edges, ops: seq<Op>)
    decreases |ops|
  {
    ops == [] ||
    (&& (ops[0].Add? ==>
           Acyclic(g) && TraceOf(g, ops[0].to, ops[0].from, ops[0].order) && Guarded(g, ops[0].from, ops[0].to))
     && GuardedRun(Apply(g, ops[0]), ops[1..]))
  }

  lemma {:induction false} RunStaysAcyclic(g: Edges, ops: seq<Op>)
    requires Acyclic(g) && GuardedRun(g, ops)
    ensures Acyclic(Run(g, ops))
    decreases |ops|
  {
    if ops != [] {
      match ops[0] {
        case Add(from, to, tr) => AddEdgeKeepsAcyclicExactly(g, from, to);
        case Remove(from, to) => UnlinkKeepsAcyclic(g, from, to);
      }
      RunStaysAcyclic(Apply(g, ops[0]), ops[1..]);
    }
  }

  /** No node waits for two others at once. */
  predicate SingleFile(g: Edges) {
    forall v | v in g :: |g[v]| <= 1
  }

  lemma {:induction false} SingleFileIsCaught(g: Edges, v: string, t: string)
    requires Acyclic(g) && SingleFile(g) && Follows(g, v, t)
    ensures Caught(g, v, t)
    decreases Descendants(g, v)
  {
    if t !in Succ(g, v) {
      var c :| c in Succ(g, v) && Reaches(g, c, t);
      ReachesUnfolds(g, c, t);
      DescendantsShrink(g, v, c);
      SingleFileIsCaught(g, c, t);
      assert |g[v] - {c}| == 0;
      assert g[v] == {c} + (g[v] - {c}) == {c};
    }
  }

  /** Every insertion searched its own graph in some order, and the graphs met are single file. */
  ghost predicate SingleFileRun(g: Edges, ops: seq<Op>)
    decreases |ops|
  {
    && SingleFile(g)
    && (ops == [] ||
        (&& (ops[0].Add? ==> TraceOf(g, ops[0].to, ops[0].from, ops[0].order))
         && SingleFileRun(Apply(g, ops[0]), ops[1..])))
  }

  /** Without branching no iteration order matters: every insertion of such a run is decided exactly. */
  lemma {:induction false} SingleFileRunIsGuarded(g: Edges, ops: seq<Op>)
    requires Acyclic(g) && SingleFileRun(g, ops)
    ensures GuardedRun(g, ops)
    decreases |ops|
  {
    if ops != [] {
      match ops[0] {
        case Add(from, to, tr) =>
          if Follows(g, to, from) { SingleFileIsCaught(g, to, from); }
          AddEdgeKeepsAcyclicExactly(g, from, to);
        case Remove(from, to) => UnlinkKeepsAcyclic(g, from, to);
      }
      SingleFileRunIsGuarded(Apply(g, ops[0]), ops[1..]);
    }
  }

  lemma {:induction false} BestIgnoresLater(t: string, visits: seq<Visit>, last: Visit, n: nat)
    requires n <= |visits|
    ensures Best(t, Trace(visits + [last]), n) == Best(t, Trace(visits), n)
    decreases n
  {
    if n > 0 { BestIgnoresLater(t, visits, last, n - 1); }
  }

  /** What the loop of `path` has recorded while the children in `todo` are still to come. */
  ghost predicate PartialTrace(g: Edges, v: string, t: string, visits: seq<Visit>, todo: set<string>) {
    && todo <= Succ(g, v) && Children(visits) == Succ(g, v) - todo
    && (forall i, j | 0 <= i < j < |visits| :: visits[i].child != visits[j].child)
    && (forall i | 0 <= i < |visits| ::
          && visits[i].child in Succ(g, v) - todo && visits[i].child != t
          && TraceOf(g, visits[i].child, t, visits[i].below))
  }

  lemma PartialTraceGrows(g: Edges, v: string, t: string, visits: seq<Visit>, todo: set<string>, next: Visit)
    requires PartialTrace(g, v, t, visits, todo)
    requires next.child in todo && next.child != t && TraceOf(g, next.child, t, next.below)
    ensures PartialTrace(g, v, t, visits + [next], todo - {next.child})
  {
    ChildrenOfBoth(visits, [next]);
    assert [next][0].child == next.child;
  }

  lemma BestGrows(t: string, visits: seq<Visit>, next: Visit)
    ensures Best(t, Trace(visits + [next]), |visits + [next]|)
         == Better(Best(t, Trace(visits), |visits|), Found(next.child, t, next.below))
  {
    BestIgnoresLater(t, visits, next, |visits|);
  }

  lemma PartialTraceEnds(g: Edges, v: string, t: string, visits: seq<Visit>, todo: set<string>)
    requires PartialTrace(g, v, t, visits, todo)
    ensures todo == {} ==> TraceOf(g, v, t, Trace(visits)) && !Direct(t, Trace(visits))
    ensures t in todo ==> TraceOf(g, v, t, Trace(visits + [Visit(t, Trace([]))]))
  {
  }

  // ---------------------------------------------------------------- the code

  lemma EdgeIsDecided(g: Edges, from: string, to: string, tr: Trace)
    requires Acyclic(g) && (from != to ==> TraceOf(g, to, from, tr))
    ensures Guarded(g, from, to) ==> Acyclic(Added(g, from, to, tr))
    ensures Guarded(g, from, to) ==> (Rejects(from, to, tr) <==> !Acyclic(Link(g, from, to)))
  {
    if from == to {
      LinkClosesCycle(g, from, to);
      ReachesUnfolds(g, to, from);
    } else {
      AddEdgeKeepsAcyclicExactly(g, from, to);
      AddEdgeRejectsCycles(g, from, to, tr);
    }
  }

  lemma PathIsClosed(g: Edges, from: string, to: string, path: seq<string>)
    requires IsPath(g, path, to, from)
    ensures IsPath(Link(g, from, to), path + [to], to, to)
  {
  }

  class Graph {
    var nodes: Edges

    constructor ()
      ensures nodes == map[]
    {
      nodes := map[];
    }

    /** Returns the cycle the edge would close, if the search sees it. */
    method AddEdge(from: string, to: string) returns (cycle: Option<seq<string>>, ghost order: Trace)
      requires from == to || !Loops(nodes, to, from)
      modifies this
      ensures from != to ==> TraceOf(old(nodes), to, from, order)
      ensures nodes == Added(old(nodes), from, to, order)
      ensures cycle.Some? <==> Rejects(from, to, order)
      ensures cycle.Some? ==> IsPath(Link(old(nodes), from, to), cycle.value, to, to)
      ensures Acyclic(old(nodes)) && Guarded(old(nodes), from, to) ==> Acyclic(nodes)
      ensures Acyclic(old(nodes)) && Guarded(old(nodes), from, to) ==>
                (cycle.None? <==> Acyclic(Link(old(nodes), from, to)))
    {
      if from == to {
        order := Trace([]);
        if Acyclic(nodes) { EdgeIsDecided(nodes, from, to, order); }
        return Some([from, to]), order;
      }
      var path;
      path, order := Path(to, from);
      if Acyclic(nodes) { EdgeIsDecided(nodes, from, to, order); }
      if Length(path) > 0 {
        PathIsClosed(nodes, from, to, path.value);
        return Some(path.value + [to]), order;
      }
      var edges := if from in nodes then nodes[from] else {};
      nodes := nodes[from := edges + {to}];
      cycle := None;
    }

    method RemoveEdge(from: string, to: string)
      modifies this
      ensures nodes == Unlink(old(nodes), from, to)
      ensures forall v :: Succ(nodes, v) == if v == from then Succ(old(nodes), v) - {to} else Succ(old(nodes), v)
      ensures Acyclic(old(nodes)) ==> Acyclic(nodes)
    {
      ghost var before := nodes;
      if from in nodes {
        nodes := nodes[from := nodes[from] - {to}];
        if nodes[from] == {} {
          nodes := nodes - {from};
        }
      }
      assert nodes == Unlink(before, from, to);
      if Acyclic(before) { UnlinkKeepsAcyclic(before, from, to); }
    }

    /** The recursion ends as long as no cycle can be reached that avoids the target. */
    method Path(from: string, to: string) returns (result: Option<seq<string>>, ghost order: Trace)
      requires !Loops(nodes, from, to)
      ensures TraceOf(nodes, from, to, order) && result == Found(from, to, order)
      ensures result.Some? ==> IsPath(nodes, result.value, from, to)
      ensures Acyclic(nodes) && Caught(nodes, from, to) ==> result.Some?
      decreases Descendants(Avoiding(nodes, to), from)
    {
      var path: Option<seq<string>> := None;
      var todo := if from in nodes then nodes[from] else {};
      ghost var visits: seq<Visit> := [];
      while todo != {}
        invariant PartialTrace(nodes, from, to, visits, todo)
        invariant path == Best(to, Trace(visits), |visits|)
      {
        var child :| child in todo;
        if child == to {
          order := Trace(visits + [Visit(child, Trace([]))]);
          PartialTraceEnds(nodes, from, to, visits, todo);
          FoundIsMeant(nodes, from, to, order);
          return Some([from, to]), order;
        }
        ChildIsOnNoLoop(nodes, from, to, child);
        var childPath;
        ghost var below;
        childPath, below := Path(child, to);
        PartialTraceGrows(nodes, from, to, visits, todo, Visit(child, below));
        BestGrows(to, visits, Visit(child, below));
        if path.None? || Length(childPath) < Length(path) {
          path := childPath;
        }
        visits, todo := visits + [Visit(child, below)], todo - {child};
        assert path == Best(to, Trace(visits), |visits|);
      }
      order := Trace(visits);
      PartialTraceEnds(nodes, from, to, visits, todo);
      FoundIsMeant(nodes, from, to, order);
      if path.Some? {
        result := Some([from] + path.value);
      } else {
        result := None;
      }
    }
  }
}
