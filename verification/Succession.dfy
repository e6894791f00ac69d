/**
 When a second process is elected although a server is running (internal/cmd/server.go). The
 runs here are any runs: the URL file may have been removed, and URLs may have been written
 over longer ones.
 */
module Succession {
  import opened Wrappers
  import opened Fresh
  import opened Election

  // ---------------------------------------------------------------- what every step keeps

  /** The lock that goes with a phase, and the server. */
  predicate Orderly(proc: Proc) {
    && (proc.phase.Leaving? || proc.held == HeldIn(proc.phase))
    && proc.server == ServerIn(proc.phase)
    && (proc.server.Some? ==> proc.server.value != "")
  }

  /** About to overwrite the file. */
  predicate Writes(phase: Phase) {
    phase.Starting? || phase.Started? || phase.Written?
  }

  /** What a server has written is there, or something longer is. */
  predicate Covered(w: World, proc: Proc) {
    proc.phase.Written? || proc.phase.Serving? ==>
      ContentOf(w, proc.inode) == proc.phase.url || |ContentOf(w, proc.inode)| > |proc.phase.url|
  }

  /** A write lock excludes every other lock on the same file. */
  predicate Apart(x: Proc, y: Proc) {
    x.inode == y.inode && x.held == Some(Exclusive) ==> y.held.None?
  }

  /** Nobody is about to overwrite the URL of a running server; and no two servers have the same URL. */
  predicate Guarded(w: World, x: Proc, y: Proc) {
    && (x.inode == y.inode && x.phase.Serving? && ContentOf(w, x.inode) == x.phase.url ==> !Writes(y.phase))
    && (x.server.Some? ==> y.server != x.server)
  }

  ghost predicate Steady(w: World) {
    && (forall p | p in w.procs :: Orderly(w.procs[p]) && Covered(w, w.procs[p]))
    && (forall p, q | p in w.procs && q in w.procs && p != q ::
           Apart(w.procs[p], w.procs[q]) && Guarded(w, w.procs[p], w.procs[q]))
  }

  lemma MoveStaysSteady(w: World, p: nat, proc: Proc)
    requires Steady(w) && Orderly(proc) && Covered(w, proc)
    requires forall q | q in w.procs && q != p ::
               && Apart(w.procs[q], proc) && Apart(proc, w.procs[q])
               && Guarded(w, w.procs[q], proc) && Guarded(w, proc, w.procs[q])
    ensures Steady(Put(w, p, proc))
  {
    var t := Put(w, p, proc);
    forall q | q in t.procs ensures Orderly(t.procs[q]) && Covered(t, t.procs[q]) {
      if q != p { assert Orderly(w.procs[q]) && Covered(w, w.procs[q]); }
    }
    forall q, r | q in t.procs && r in t.procs && q != r
      ensures Apart(t.procs[q], t.procs[r]) && Guarded(t, t.procs[q], t.procs[r])
    {
      if q != p && r != p { assert Apart(w.procs[q], w.procs[r]) && Guarded(w, w.procs[q], w.procs[r]); }
    }
  }

  lemma OverwriteExactly(url: string, before: string)
    ensures Overwrite(url, before) == url <==> |before| <= |url|
    ensures |Overwrite(url, before)| >= |before| && |Overwrite(url, before)| >= |url|
  {
  }

  lemma WriteStaysSteady(w: World, p: nat)
    requires Steady(w) && OnWrite(w, p).Some?
    ensures Steady(OnWrite(w, p).value)
  {
    var t, me := OnWrite(w, p).value, w.procs[p];
    OverwriteExactly(me.phase.url, ContentOf(w, me.inode));
    assert Orderly(me);
    forall q | q in t.procs ensures Orderly(t.procs[q]) && Covered(t, t.procs[q]) {
      if q != p {
        assert Orderly(w.procs[q]) && Covered(w, w.procs[q]) && Apart(me, w.procs[q]) && Guarded(w, w.procs[q], me);
      }
    }
    forall q, r | q in t.procs && r in t.procs && q != r
      ensures Apart(t.procs[q], t.procs[r]) && Guarded(t, t.procs[q], t.procs[r])
    {
      assert Apart(w.procs[q], w.procs[r]) && Guarded(w, w.procs[q], w.procs[r]);
      if q != p { assert Covered(w, w.procs[q]) && Guarded(w, w.procs[q], me); }
    }
  }

  lemma CheckStaysSteady(w: World, p: nat, stray: bool)
    requires Steady(w) && OnCheck(w, p, stray).Some?
    ensures Steady(OnCheck(w, p, stray).value)
  {
    var t := OnCheck(w, p, stray).value;
    assert Orderly(w.procs[p]);
    forall q | q in w.procs && q != p
      ensures Apart(w.procs[q], t.procs[p]) && Apart(t.procs[p], w.procs[q])
      ensures Guarded(w, w.procs[q], t.procs[p]) && Guarded(w, t.procs[p], w.procs[q])
    {
      assert Orderly(w.procs[q]) && Apart(w.procs[q], w.procs[p]) && Apart(w.procs[p], w.procs[q]);
      assert Guarded(w, w.procs[q], w.procs[p]) && Guarded(w, w.procs[p], w.procs[q]);
      if w.procs[q].phase.Serving? { assert Live(w, w.procs[q].phase.url); }
    }
    MoveStaysSteady(w, p, t.procs[p]);
  }

  lemma StartStaysSteady(w: World, p: nat, url: string)
    requires Steady(w) && OnStart(w, p, url).Some?
    ensures Steady(OnStart(w, p, url).value)
  {
    var t := OnStart(w, p, url).value;
    assert Orderly(w.procs[p]);
    forall q | q in w.procs && q != p
      ensures Apart(w.procs[q], t.procs[p]) && Apart(t.procs[p], w.procs[q])
      ensures Guarded(w, w.procs[q], t.procs[p]) && Guarded(w, t.procs[p], w.procs[q])
    {
      assert Apart(w.procs[q], w.procs[p]) && Apart(w.procs[p], w.procs[q]);
      assert Guarded(w, w.procs[q], w.procs[p]) && Guarded(w, w.procs[p], w.procs[q]);
      assert w.procs[q].server != Some(url);
    }
    MoveStaysSteady(w, p, t.procs[p]);
  }

  lemma LockStaysSteady(w: World, windows: bool, a: Action)
    requires Steady(w) && Step(w, windows, a).Some? && (a.RLock? || a.Upgrade? || a.Acquire?)
    ensures Steady(Step(w, windows, a).value)
  {
    var t := Step(w, windows, a).value;
    var p := a.p;
    assert Orderly(w.procs[p]);
    forall q | q in w.procs && q != p
      ensures Apart(w.procs[q], t.procs[p]) && Apart(t.procs[p], w.procs[q])
      ensures Guarded(w, w.procs[q], t.procs[p]) && Guarded(w, t.procs[p], w.procs[q])
    {
      assert Orderly(w.procs[q]) && Apart(w.procs[q], w.procs[p]) && Apart(w.procs[p], w.procs[q]);
      assert Guarded(w, w.procs[q], w.procs[p]) && Guarded(w, w.procs[p], w.procs[q]);
    }
    MoveStaysSteady(w, p, t.procs[p]);
  }

  lemma ReleaseStaysSteady(w: World, windows: bool, a: Action)
    requires Steady(w) && Step(w, windows, a).Some? && (a.Unlock? || a.Stop? || a.Exit?)
    ensures Steady(Step(w, windows, a).value)
  {
    var t := Step(w, windows, a).value;
    var p := a.p;
    assert Orderly(w.procs[p]) && Covered(w, w.procs[p]);
    forall q | q in w.procs && q != p
      ensures Apart(w.procs[q], t.procs[p]) && Apart(t.procs[p], w.procs[q])
      ensures Guarded(w, w.procs[q], t.procs[p]) && Guarded(w, t.procs[p], w.procs[q])
    {
      assert Orderly(w.procs[q]) && Apart(w.procs[q], w.procs[p]) && Apart(w.procs[p], w.procs[q]);
      assert Guarded(w, w.procs[q], w.procs[p]) && Guarded(w, w.procs[p], w.procs[q]);
    }
    MoveStaysSteady(w, p, t.procs[p]);
  }

  lemma OpenStaysSteady(w: World, p: nat)
    requires Steady(w) && p !in w.procs
    ensures Steady(OnOpen(w, p).value)
  {
    var t := OnOpen(w, p).value;
    forall q | q in w.procs
      ensures Apart(w.procs[q], t.procs[p]) && Guarded(w, w.procs[q], t.procs[p]) && Guarded(w, t.procs[p], w.procs[q])
    {
      assert Orderly(w.procs[q]);
    }
    MoveStaysSteady(w, p, t.procs[p]);
  }

  lemma StepStaysSteady(w: World, windows: bool, a: Action)
    requires Steady(w) && Step(w, windows, a).Some?
    ensures Steady(Step(w, windows, a).value)
  {
    match a {
      case Check(p, stray) => CheckStaysSteady(w, p, stray);
      case Start(p, url) => StartStaysSteady(w, p, url);
      case Write(p) => WriteStaysSteady(w, p);
      case Unlink => UnlinkStaysSteady(w);
      case Open(p) => OpenStaysSteady(w, p);
      case RLock(_) => LockStaysSteady(w, windows, a);
      case Upgrade(_) => LockStaysSteady(w, windows, a);
      case Acquire(_) => LockStaysSteady(w, windows, a);
      case _ => ReleaseStaysSteady(w, windows, a);
    }
  }

  lemma UnlinkStaysSteady(w: World)
    requires Steady(w)
    ensures Steady(w.(path := w.path + 1))
  {
    var t := w.(path := w.path + 1);
    forall q | q in t.procs ensures Orderly(t.procs[q]) && Covered(t, t.procs[q]) {
      assert Orderly(w.procs[q]) && Covered(w, w.procs[q]);
    }
    forall q, r | q in t.procs && r in t.procs && q != r
      ensures Apart(t.procs[q], t.procs[r]) && Guarded(t, t.procs[q], t.procs[r])
    {
      assert Apart(w.procs[q], w.procs[r]) && Guarded(w, w.procs[q], w.procs[r]);
    }
  }

  lemma {:induction false} RunStaysSteady(w: World, windows: bool, actions: seq<Action>)
    requires Steady(w) && Run(w, windows, actions).Some?
    ensures Steady(Run(w, windows, actions).value)
    decreases |actions|
  {
    if actions != [] {
      StepStaysSteady(w, windows, actions[0]);
      RunStaysSteady(Step(w, windows, actions[0]).value, windows, actions[1..]);
    }
  }

  lemma ReachableIsSteady(w: World, windows: bool)
    requires Reachable(w, windows)
    ensures Steady(w)
  {
    var actions :| Run(EMPTY, windows, actions) == Some(w);
    RunStaysSteady(EMPTY, windows, actions);
  }

  // ---------------------------------------------------------------- being replaced

  /** A run in which `p` does nothing and the file keeps its name. */
  predicate Quiet(actions: seq<Action>, p: nat) {
    forall a | a in actions :: !a.Unlink? && a.p != p
  }

  /** Such a run may let a process in that was not there, and have it pass both checks. */
  ghost predicate Replaced(w: World, windows: bool, p: nat) {
    exists actions, q ::
      Quiet(actions, p) && Run(w, windows, actions).Some? && Newcomer(w, Run(w, windows, actions).value, q)
  }

  predicate Newcomer(w: World, t: World, q: nat) {
    q !in w.procs && q in t.procs && HasPassed(t.procs[q].phase)
  }

  /** A process that would overwrite the URL with something else. */
  predicate Spoils(w: World, r: nat, url: string) {
    && r in w.procs && w.procs[r].inode == w.path
    && (w.procs[r].phase.Starting? || (w.procs[r].phase.Started? && !(w.procs[r].phase.url <= url)))
  }

  /** The file that processes find under its name does not hold the URL, or will not for long. */
  ghost predicate Exposed(w: World, p: nat, url: string) {
    ContentOf(w, w.path) != url || exists r :: r != p && Spoils(w, r, url)
  }

  predicate Serves(w: World, p: nat, url: string) {
    p in w.procs && w.procs[p].phase == Serving(url) && w.procs[p].server == Some(url) && url != ""
  }

  ghost predicate Holds(start: World, w: World, p: nat, url: string) {
    && Serves(w, p, url) && w.path == start.path && ContentOf(w, w.path) == url
    && (forall r | r != p :: !Spoils(w, r, url))
    && forall q | q in w.procs && q !in start.procs :: w.procs[q].inode == w.path && !HasPassed(w.procs[q].phase)
  }

  lemma StepHolds(start: World, w: World, windows: bool, p: nat, url: string, a: Action)
    requires Holds(start, w, p, url) && p in start.procs && Step(w, windows, a).Some? && !a.Unlink? && a.p != p
    ensures Holds(start, Step(w, windows, a).value, p, url)
  {
    var t := Step(w, windows, a).value;
    assert Live(w, url);
    if a.Write? {
      assert !Spoils(w, a.p, url);
      if w.procs[a.p].inode == w.path { assert w.procs[a.p].phase.url <= url; }
    }
    forall r | r != p ensures !Spoils(t, r, url) { assert !Spoils(w, r, url); }
  }

  lemma {:induction false} RunHolds(start: World, w: World, windows: bool, p: nat, url: string, actions: seq<Action>)
    requires Holds(start, w, p, url) && p in start.procs && Run(w, windows, actions).Some? && Quiet(actions, p)
    ensures Holds(start, Run(w, windows, actions).value, p, url)
    decreases |actions|
  {
    if actions != [] {
      assert actions[0] in actions && forall a | a in actions[1..] :: a in actions;
      StepHolds(start, w, windows, p, url, actions[0]);
      RunHolds(start, Step(w, windows, actions[0]).value, windows, p, url, actions[1..]);
    }
  }

  // ---------------------------------------------------------------- the way in

  ghost predicate Leads(w: World, windows: bool, p: nat, t: World) {
    exists actions :: Quiet(actions, p) && Run(w, windows, actions) == Some(t)
  }

  lemma Stay(w: World, windows: bool, p: nat)
    ensures Leads(w, windows, p, w)
  {
    assert Quiet([], p) && Run(w, windows, []) == Some(w);
  }

  lemma Go(w: World, windows: bool, p: nat, t: World, a: Action) returns (u: World)
    requires Leads(w, windows, p, t) && Step(t, windows, a).Some? && !a.Unlink? && a.p != p
    ensures Leads(w, windows, p, u) && Step(t, windows, a) == Some(u)
  {
    var actions :| Quiet(actions, p) && Run(w, windows, actions) == Some(t);
    RunOneMore(w, windows, actions, a);
    assert Quiet(actions + [a], p);
    u := Step(t, windows, a).value;
  }

  /** These have gone; the others and the files are as they were. */
  predicate Deserted(t: World, u: World, gone: set<nat>) {
    && u.procs.Keys == t.procs.Keys && u.content == t.content && u.path == t.path
    && forall q | q in u.procs ::
         if q in gone then u.procs[q].held.None? && u.procs[q].server.None? else u.procs[q] == t.procs[q]
  }

  lemma OneLeaves(w: World, windows: bool, p: nat, t: World, q: nat) returns (u: World)
    requires Leads(w, windows, p, t) && Steady(t) && q in t.procs && q != p
    ensures Leads(w, windows, p, u) && Steady(u) && Deserted(t, u, {q})
  {
    assert Orderly(t.procs[q]);
    u := t;
    if !t.procs[q].phase.Gone? {
      u := Go(w, windows, p, t, Exit(q));
      StepStaysSteady(t, windows, Exit(q));
    }
  }

  lemma {:induction false} TheyLeave(w: World, windows: bool, p: nat, t: World, gone: set<nat>) returns (u: World)
    requires Leads(w, windows, p, t) && Steady(t) && gone <= t.procs.Keys - {p}
    ensures Leads(w, windows, p, u) && Deserted(t, u, gone)
    decreases |gone|
  {
    if gone == {} { return t; }
    var q :| q in gone;
    var v := OneLeaves(w, windows, p, t, q);
    u := TheyLeave(w, windows, p, v, gone - {q});
  }

  /** On the way to the second check. */
  predicate Approaches(phase: Phase) {
    phase.Reading? || phase.FirstCheck? || phase.Upgrading? || phase.WaitingWrite? || phase.SecondCheck?
  }

  /** Steps left until a process that nobody stops has passed both checks. */
  function StepsLeft(phase: Phase): nat {
    match phase
    case Reading => 5
    case FirstCheck => 4
    case Upgrading => 3
    case WaitingWrite => 2
    case SecondCheck => 1
    case _ => 0
  }

  /** Nobody holds a lock besides this process, and no server is behind its file. */
  ghost predicate Unhindered(t: World, q: nat) {
    && q in t.procs && (Approaches(t.procs[q].phase) || HasPassed(t.procs[q].phase))
    && (forall r | r in t.procs && r != q :: t.procs[r].held.None?)
    && !Live(t, ContentOf(t, t.procs[q].inode)) && t.procs[q].server.None?
  }

  lemma Advance(w: World, windows: bool, p: nat, t: World, q: nat) returns (u: World)
    requires Leads(w, windows, p, t) && q != p && Unhindered(t, q) && Approaches(t.procs[q].phase)
    ensures Leads(w, windows, p, u) && Unhindered(u, q) && StepsLeft(u.procs[q].phase) < StepsLeft(t.procs[q].phase)
  {
    var a := match t.procs[q].phase
      case Reading => RLock(q)
      case Upgrading => Upgrade(q)
      case WaitingWrite => Acquire(q)
      case _ => Check(q, false);
    u := Go(w, windows, p, t, a);
    NobodyNew(t, u);
  }

  lemma {:induction false} PassUnhindered(w: World, windows: bool, p: nat, t: World, q: nat) returns (u: World)
    requires Leads(w, windows, p, t) && q != p && Unhindered(t, q)
    ensures Leads(w, windows, p, u) && q in u.procs && HasPassed(u.procs[q].phase)
    decreases StepsLeft(t.procs[q].phase)
  {
    u := t;
    if Approaches(t.procs[q].phase) {
      u := Advance(w, windows, p, t, q);
      u := PassUnhindered(w, windows, p, u, q);
    }
  }

  /** With nobody else around, a process that comes and finds no server behind the file is elected. */
  lemma LetIn(w: World, windows: bool, p: nat, t: World, q: nat) returns (u: World)
    requires Leads(w, windows, p, t) && q !in t.procs && q != p
    requires (forall r | r in t.procs :: t.procs[r].held.None?) && !Live(t, ContentOf(t, t.path))
    ensures Leads(w, windows, p, u) && q in u.procs && HasPassed(u.procs[q].phase)
  {
    u := Go(w, windows, p, t, Open(q));
    NobodyNew(t, u);
    u := PassUnhindered(w, windows, p, u, q);
  }

  lemma AnotherProcess(w: World) returns (q: nat)
    ensures q !in w.procs
  {
    q := Above(w.procs.Keys);
  }

  /** A file that does not hold the URL of the server lets the next process in. */
  lemma WrongContentLetsIn(w: World, windows: bool, p: nat, url: string, t: World)
    requires Leads(w, windows, p, t) && Steady(t) && Serves(t, p, url) && t.procs[p].held.None?
    requires t.procs.Keys == w.procs.Keys
    requires ContentOf(t, t.path) != url
    ensures Replaced(w, windows, p)
  {
    var u := TheyLeave(w, windows, p, t, t.procs.Keys - {p});
    var q := AnotherProcess(u);
    assert ContentOf(u, u.path) == ContentOf(t, t.path) && !Live(u, ContentOf(u, u.path));
    var v := LetIn(w, windows, p, u, q);
    var actions :| Quiet(actions, p) && Run(w, windows, actions) == Some(v);
    assert Newcomer(w, v, q);
  }

  /** A process on its way to overwrite the URL does so. */
  lemma Spoil(w: World, windows: bool, p: nat, url: string, r: nat) returns (t: World)
    requires Steady(w) && Serves(w, p, url) && r != p && Spoils(w, r, url) && ContentOf(w, w.path) == url
    ensures Leads(w, windows, p, t) && Steady(t) && Serves(t, p, url) && t.procs[p] == w.procs[p]
    ensures t.procs.Keys == w.procs.Keys && ContentOf(t, t.path) != url
  {
    Stay(w, windows, p);
    t := w;
    if w.procs[r].phase.Starting? { t := StartLonger(w, windows, p, url, r); }
    var before := t;
    t := Go(w, windows, p, t, Write(r));
    StepStaysSteady(before, windows, Write(r));
    PrefixStays(before.procs[r].phase.url, url);
  }

  lemma StartLonger(w: World, windows: bool, p: nat, url: string, r: nat) returns (t: World)
    requires Steady(w) && r in w.procs && r != p && w.procs[r].phase.Starting?
    ensures Leads(w, windows, p, t) && Steady(t) && t.path == w.path && t.content == w.content
    ensures t.procs.Keys == w.procs.Keys
    ensures forall q | q in w.procs && q != r :: t.procs[q] == w.procs[q]
    ensures t.procs[r].inode == w.procs[r].inode && t.procs[r].phase.Started? && |url| < |t.procs[r].phase.url|
  {
    Stay(w, windows, p);
    var live := set q | q in w.procs && w.procs[q].server.Some? :: w.procs[q].server.value;
    var longer := LongerThanAll(live + {url});
    forall q | q in w.procs && w.procs[q].server.Some? ensures w.procs[q].server.value != longer {
      assert w.procs[q].server.value in live;
    }
    t := Go(w, windows, p, w, Start(r, longer));
    StepStaysSteady(w, windows, Start(r, longer));
  }

  lemma PrefixStays(u: string, url: string)
    ensures Overwrite(u, url) == url <==> u <= url
  {
  }

  /**
   While one process serves, another that comes later can be elected without its doing exactly
   if the file found under the name does not hold its URL, or somebody is about to overwrite it.
   */
  lemma ReplacedExactly(w: World, windows: bool, p: nat, url: string)
    requires Reachable(w, windows) && p in w.procs && w.procs[p].phase == Serving(url)
    ensures Replaced(w, windows, p) <==> Exposed(w, p, url)
  {
    ReachableIsSteady(w, windows);
    assert Orderly(w.procs[p]);
    Stay(w, windows, p);
    if ContentOf(w, w.path) != url {
      WrongContentLetsIn(w, windows, p, url, w);
    } else if r :| r != p && Spoils(w, r, url) {
      var t := Spoil(w, windows, p, url, r);
      WrongContentLetsIn(w, windows, p, url, t);
    } else {
      forall actions, q | Quiet(actions, p) && Run(w, windows, actions).Some?
        ensures !Newcomer(w, Run(w, windows, actions).value, q)
      {
        RunHolds(w, w, windows, p, url, actions);
      }
    }
  }

  /** As long as the file keeps its name, that is whether it holds the URL. */
  lemma ReplacedOnItsFileExactly(w: World, windows: bool, p: nat, url: string)
    requires Reachable(w, windows) && p in w.procs && w.procs[p].phase == Serving(url) && w.procs[p].inode == w.path
    ensures Replaced(w, windows, p) <==> ContentOf(w, w.path) != url
  {
    ReachableIsSteady(w, windows);
    ReplacedExactly(w, windows, p, url);
    forall r | r != p && ContentOf(w, w.path) == url ensures !Spoils(w, r, url) {
      if r in w.procs { assert Guarded(w, w.procs[p], w.procs[r]); }
    }
  }

  // ---------------------------------------------------------------- two elected at once

  /** A run in which `p` does nothing and the file keeps its name may have another process pass both checks. */
  ghost predicate Rivaled(w: World, windows: bool, p: nat) {
    exists actions, q ::
      Quiet(actions, p) && Run(w, windows, actions).Some? && Rival(Run(w, windows, actions).value, p, q)
  }

  predicate Rival(t: World, p: nat, q: nat) {
    q != p && q in t.procs && HasPassed(t.procs[q].phase)
  }

  /** Another process that has passed both checks, or will not find the URL in the file that it has open. */
  predicate Strays(w: World, p: nat, url: string, r: nat) {
    && r != p && r in w.procs
    && (HasPassed(w.procs[r].phase) || (Approaches(w.procs[r].phase) && ContentOf(w, w.procs[r].inode) != url))
  }

  ghost predicate Contested(w: World, p: nat, url: string) {
    ContentOf(w, w.path) != url || exists r :: Strays(w, p, url, r)
  }

  ghost predicate Uncontested(w: World, p: nat, url: string) {
    Serves(w, p, url) && !Contested(w, p, url)
  }

  lemma StepStaysUncontested(w: World, windows: bool, p: nat, url: string, a: Action)
    requires Uncontested(w, p, url) && Step(w, windows, a).Some? && !a.Unlink? && a.p != p
    ensures Uncontested(Step(w, windows, a).value, p, url)
  {
    var t := Step(w, windows, a).value;
    assert Live(w, url);
    assert !Strays(w, p, url, a.p);
    forall r ensures !Strays(t, p, url, r) { assert !Strays(w, p, url, r); }
  }

  lemma {:induction false} RunStaysUncontested(w: World, windows: bool, p: nat, url: string, actions: seq<Action>)
    requires Uncontested(w, p, url) && Run(w, windows, actions).Some? && Quiet(actions, p)
    ensures Uncontested(Run(w, windows, actions).value, p, url)
    decreases |actions|
  {
    if actions != [] {
      assert actions[0] in actions && forall a | a in actions[1..] :: a in actions;
      StepStaysUncontested(w, windows, p, url, actions[0]);
      RunStaysUncontested(Step(w, windows, actions[0]).value, windows, p, url, actions[1..]);
    }
  }

  /** A process that does not find the URL is elected once the others have left. */
  lemma StrayIsElected(w: World, windows: bool, p: nat, url: string, r: nat)
    requires Steady(w) && Serves(w, p, url) && Strays(w, p, url, r)
    ensures Rivaled(w, windows, p)
  {
    Stay(w, windows, p);
    var u := w;
    if !HasPassed(w.procs[r].phase) {
      u := TheyLeave(w, windows, p, w, w.procs.Keys - {p, r});
      assert Orderly(w.procs[p]) && Orderly(w.procs[r]);
      u := PassUnhindered(w, windows, p, u, r);
    }
    var actions :| Quiet(actions, p) && Run(w, windows, actions) == Some(u);
    assert Rival(u, p, r);
  }

  /**
   While one process serves, another can be elected without its doing exactly if the file found
   under the name does not hold its URL, or another process has passed both checks already, or is
   on its way and has a file open that does not hold the URL.
   */
  lemma RivaledExactly(w: World, windows: bool, p: nat, url: string)
    requires Reachable(w, windows) && p in w.procs && w.procs[p].phase == Serving(url)
    ensures Rivaled(w, windows, p) <==> Contested(w, p, url)
  {
    ReachableIsSteady(w, windows);
    assert Orderly(w.procs[p]);
    if ContentOf(w, w.path) != url {
      Stay(w, windows, p);
      WrongContentLetsIn(w, windows, p, url, w);
      var actions, q :|
        Quiet(actions, p) && Run(w, windows, actions).Some? && Newcomer(w, Run(w, windows, actions).value, q);
      assert Rival(Run(w, windows, actions).value, p, q);
    } else if r :| Strays(w, p, url, r) {
      StrayIsElected(w, windows, p, url, r);
    } else {
      forall actions, q | Quiet(actions, p) && Run(w, windows, actions).Some?
        ensures !Rival(Run(w, windows, actions).value, p, q)
      {
        RunStaysUncontested(w, windows, p, url, actions);
        assert !Strays(Run(w, windows, actions).value, p, url, q);
      }
    }
  }

  /** As long as the file keeps its name for everybody, a new election depends on its content alone. */
  lemma RivaledOnOneFileExactly(w: World, windows: bool, p: nat, url: string)
    requires Reachable(w, windows) && p in w.procs && w.procs[p].phase == Serving(url)
    requires forall q | q in w.procs :: w.procs[q].inode == w.path
    ensures Rivaled(w, windows, p) <==> ContentOf(w, w.path) != url || exists r :: Rival(w, p, r)
  {
    RivaledExactly(w, windows, p, url);
    forall r | ContentOf(w, w.path) == url ensures Strays(w, p, url, r) <==> Rival(w, p, r) {}
  }

  /** Strays whatever is written to the file under the name. */
  predicate StraysBeside(w: World, p: nat, url: string, r: nat) {
    Strays(w, p, url, r) && (w.procs[r].inode == w.path ==> HasPassed(w.procs[r].phase))
  }

  /** The write that decides about it: a URL is safe exactly if nothing longer was there and nobody strays. */
  lemma ShorterURLIsRivaledExactly(w: World, windows: bool, p: nat)
    requires Reachable(w, windows) && p in w.procs && w.procs[p].phase.Started? && w.procs[p].inode == w.path
    ensures var url := w.procs[p].phase.url;
            && Step(w, windows, Write(p)).Some? && Step(Step(w, windows, Write(p)).value, windows, Unlock(p)).Some?
            && var t := Step(Step(w, windows, Write(p)).value, windows, Unlock(p)).value;
               Rivaled(t, windows, p)
               <==> |ContentOf(w, w.path)| > |url| || exists r :: StraysBeside(w, p, url, r)
  {
    var url := w.procs[p].phase.url;
    var t := Follow(w, windows, Write(p));
    t := Follow(t, windows, Unlock(p));
    OverwriteExactly(url, ContentOf(w, w.path));
    RivaledExactly(t, windows, p, url);
    forall r | |ContentOf(w, w.path)| <= |url| ensures Strays(t, p, url, r) <==> StraysBeside(w, p, url, r) {}
  }

  // ---------------------------------------------------------------- a file of another name

  /** Process 0 has file 0 open, whose name now leads to file 1, where "a" is left of process 1. */
  predicate Moved(w: World, proc: Proc) {
    && w.path == 1 && ContentOf(w, 1) == "a"
    && w.procs == map[0 := proc, 1 := Proc(Gone, 1, None, None, None)]
  }

  lemma Renamed() returns (w: World)
    ensures Reachable(w, false) && w.path == 1 && w.content == map[]
    ensures w.procs == map[0 := Proc(Reading, 0, None, None, None)]
  {
    assert Run(EMPTY, false, []) == Some(EMPTY);
    w := Follow(EMPTY, false, Open(0));
    w := Follow(w, false, Unlink);
  }

  lemma Begin() returns (w: World)
    ensures Reachable(w, false) && Moved(w, Proc(Reading, 0, None, None, None)) && ContentOf(w, 0) == ""
  {
    var first := Renamed();
    var second := Elect(first, 1, "a");
    OverwriteExactly("a", "");
    assert second.content == map[][1 := Overwrite("a", "")];
    w := Follow(second, false, Exit(1));
    assert w.procs == second.procs[1 := Proc(Gone, 1, None, None, None)] && w.content == second.content && w.path == 1;
  }

  lemma Proceed(w: World, proc: Proc, a: Action, next: Proc) returns (t: World)
    requires Reachable(w, false) && Moved(w, proc) && Step(w, false, a).Some?
    requires Step(w, false, a).value.procs == w.procs[0 := next] && Step(w, false, a).value.path == 1
    requires ContentOf(Step(w, false, a).value, 1) == "a"
    ensures Reachable(t, false) && Moved(t, next) && Step(w, false, a) == Some(t)
  {
    t := Follow(w, false, a);
  }

  lemma GetLock() returns (t: World)
    ensures Reachable(t, false) && Moved(t, Proc(SecondCheck, 0, Some(Exclusive), Some(Exclusive), None))
    ensures ContentOf(t, 0) == ""
  {
    t := Begin();
    t := Proceed(t, t.procs[0], RLock(0), Proc(FirstCheck, 0, Some(Shared), Some(Shared), None));
    t := Proceed(t, t.procs[0], Check(0, false), Proc(Upgrading, 0, Some(Shared), Some(Shared), None));
    t := Proceed(t, t.procs[0], Upgrade(0), Proc(SecondCheck, 0, Some(Exclusive), Some(Exclusive), None));
  }

  lemma GetServer() returns (t: World)
    ensures Reachable(t, false) && Moved(t, Proc(Serving("a"), 0, None, None, Some("a")))
  {
    t := GetLock();
    t := Proceed(t, t.procs[0], Check(0, false), Proc(Starting, 0, Some(Exclusive), Some(Exclusive), None));
    t := Proceed(t, t.procs[0], Start(0, "a"), Proc(Started("a"), 0, Some(Exclusive), Some(Exclusive), Some("a")));
    t := Proceed(t, t.procs[0], Write(0), Proc(Written("a"), 0, Some(Exclusive), Some(Exclusive), Some("a")));
    t := Proceed(t, t.procs[0], Unlock(0), Proc(Serving("a"), 0, None, None, Some("a")));
  }

  /** Another file under the name does no harm if it happens to hold the same URL. */
  lemma SameURLElsewhere() returns (w: World)
    ensures Reachable(w, false) && 0 in w.procs && w.procs[0].phase == Serving("a") && w.procs[0].inode != w.path
    ensures !Replaced(w, false, 0)
  {
    w := GetServer();
    ReplacedExactly(w, false, 0, "a");
  }

  /**
   A process that had the file open before it was removed is elected beside the server under its
   name, although nobody who comes later is.
   */
  lemma EarlyReaderIsElected() returns (w: World)
    ensures Reachable(w, false) && 1 in w.procs && w.procs[1].phase == Serving("a") && w.procs[1].inode == w.path
    ensures !Replaced(w, false, 1) && Rivaled(w, false, 1)
  {
    var first := Renamed();
    w := Elect(first, 1, "a");
    OverwriteExactly("a", "");
    assert ContentOf(w, 1) == "a" && ContentOf(w, 0) == "";
    ReplacedOnItsFileExactly(w, false, 1, "a");
    assert Strays(w, 1, "a", 0);
    RivaledExactly(w, false, 1, "a");
  }
}
