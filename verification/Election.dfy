/**
 Which process runs the job server (internal/cmd/server.go): any number of processes share a
 URL file and its advisory lock (internal/filelock). Connecting, starting a server and exiting
 are steps that the environment may take at any time.
 */
module Election {
  import opened Wrappers
  import opened Fresh

  datatype Mode = Shared | Exclusive

  /** Where startWithURLFile stands. */
  datatype Phase =
    | Reading            // in RLock
    | FirstCheck
    | Upgrading          // about to call Lock
    | WaitingWrite       // in Lock, having given up the read lock
    | SecondCheck
    | Starting           // passed both checks
    | Started(url: string)
    | Written(url: string)
    | Serving(url: string)
    | Leaving
    | Gone

  /** `locked` is the field of the mutex, `held` what the kernel knows. */
  datatype Proc = Proc(phase: Phase, inode: nat, locked: Option<Mode>, held: Option<Mode>, server: Option<string>)

  /** `path` is the inode that the file name leads to. */
  datatype World = World(procs: map<nat, Proc>, content: map<nat, string>, path: nat)

  const EMPTY := World(map[], map[], 0)

  datatype Action =
    | Open(p: nat)
    | RLock(p: nat)
    | Check(p: nat, stray: bool) // somebody else may answer at the URL
    | Upgrade(p: nat)
    | Acquire(p: nat)
    | Start(p: nat, url: string)
    | Write(p: nat)
    | Unlock(p: nat)
    | Stop(p: nat)
    | Exit(p: nat)
    | Unlink

  function ContentOf(w: World, inode: nat): string {
    if inode in w.content then w.content[inode] else ""
  }

  predicate Live(w: World, url: string) {
    exists p :: p in w.procs && w.procs[p].server == Some(url)
  }

  /** No other process has the inode locked, or locked in that mode. */
  predicate Free(w: World, p: nat, mode: Mode) {
    p in w.procs
    && forall q | q in w.procs && q != p && w.procs[q].inode == w.procs[p].inode && w.procs[q].held.Some? ::
         mode == Shared && w.procs[q].held == Some(Shared)
  }

  function Put(w: World, p: nat, proc: Proc): World {
    w.(procs := w.procs[p := proc])
  }

  /** The URL read from the file leads to a running server. */
  predicate Answers(w: World, p: nat, stray: bool)
    requires p in w.procs
  {
    var url := ContentOf(w, w.procs[p].inode);
    url != "" && (Live(w, url) || stray)
  }

  /** A write at offset zero leaves what was beyond it. */
  function Overwrite(url: string, before: string): string {
    url + if |url| <= |before| then before[|url|..] else ""
  }

  // ---------------------------------------------------------------- the steps

  function OnOpen(w: World, p: nat): Option<World> {
    if p in w.procs then None else Some(Put(w, p, Proc(Reading, w.path, None, None, None)))
  }

  function OnRLock(w: World, p: nat): Option<World> {
    if p !in w.procs || w.procs[p].phase != Reading || !Free(w, p, Shared) then None
    else Some(Put(w, p, w.procs[p].(phase := FirstCheck, locked := Some(Shared), held := Some(Shared))))
  }

  function OnCheck(w: World, p: nat, stray: bool): Option<World> {
    if p !in w.procs || !(w.procs[p].phase.FirstCheck? || w.procs[p].phase.SecondCheck?) then None
    else if Answers(w, p, stray) then Some(Put(w, p, w.procs[p].(phase := Leaving)))
    else Some(Put(w, p, w.procs[p].(phase := if w.procs[p].phase.FirstCheck? then Upgrading else Starting)))
  }

  /** Unlocks first on Windows; flock converts the lock if it can, and gives it up to wait if it cannot. */
  function OnUpgrade(w: World, windows: bool, p: nat): Option<World> {
    if p !in w.procs || w.procs[p].phase != Upgrading then None
    else if windows then Some(Put(w, p, w.procs[p].(phase := WaitingWrite, locked := None, held := None)))
    else if Free(w, p, Exclusive) then
      Some(Put(w, p, w.procs[p].(phase := SecondCheck, locked := Some(Exclusive), held := Some(Exclusive))))
    else Some(Put(w, p, w.procs[p].(phase := WaitingWrite, held := None)))
  }

  function OnAcquire(w: World, p: nat): Option<World> {
    if p !in w.procs || w.procs[p].phase != WaitingWrite || !Free(w, p, Exclusive) then None
    else Some(Put(w, p, w.procs[p].(phase := SecondCheck, locked := Some(Exclusive), held := Some(Exclusive))))
  }

  function OnStart(w: World, p: nat, url: string): Option<World> {
    if p !in w.procs || w.procs[p].phase != Starting || url == "" || Live(w, url) then None
    else Some(Put(w, p, w.procs[p].(phase := Started(url), server := Some(url))))
  }

  function OnWrite(w: World, p: nat): Option<World> {
    if p !in w.procs || !w.procs[p].phase.Started? then None else
    var proc := w.procs[p];
    Some(Put(w, p, proc.(phase := Written(proc.phase.url)))
           .(content := w.content[proc.inode := Overwrite(proc.phase.url, ContentOf(w, proc.inode))]))
  }

  function OnUnlock(w: World, p: nat): Option<World> {
    if p !in w.procs || !w.procs[p].phase.Written? then None
    else Some(Put(w, p, w.procs[p].(phase := Serving(w.procs[p].phase.url), locked := None, held := None)))
  }

  function OnStop(w: World, p: nat): Option<World> {
    if p !in w.procs || !w.procs[p].phase.Serving? then None
    else Some(Put(w, p, w.procs[p].(phase := Leaving, server := None)))
  }

  /** However the process ends, its locks and its server go with it. */
  function OnExit(w: World, p: nat): Option<World> {
    if p !in w.procs || w.procs[p].phase.Gone? then None
    else Some(Put(w, p, Proc(Gone, w.procs[p].inode, None, None, None)))
  }

  /** The name is removed; the next process to open it creates another file. */
  function OnUnlink(w: World): Option<World> {
    Some(w.(path := w.path + 1))
  }

  function Step(w: World, windows: bool, a: Action): Option<World> {
    match a
    case Open(p) => OnOpen(w, p)
    case RLock(p) => OnRLock(w, p)
    case Check(p, stray) => OnCheck(w, p, stray)
    case Upgrade(p) => OnUpgrade(w, windows, p)
    case Acquire(p) => OnAcquire(w, p)
    case Start(p, url) => OnStart(w, p, url)
    case Write(p) => OnWrite(w, p)
    case Unlock(p) => OnUnlock(w, p)
    case Stop(p) => OnStop(w, p)
    case Exit(p) => OnExit(w, p)
    case Unlink => OnUnlink(w)
  }

  /** The file keeps its name, and a new URL is written over all of the old content. */
  predicate Tame(w: World, a: Action) {
    !a.Unlink?
    && (a.Write? && a.p in w.procs && w.procs[a.p].phase.Started? ==>
          |ContentOf(w, w.procs[a.p].inode)| <= |w.procs[a.p].phase.url|)
  }

  function Run(w: World, windows: bool, actions: seq<Action>): Option<World>
    decreases |actions|
  {
    if actions == [] then Some(w)
    else match Step(w, windows, actions[0])
      case None => None
      case Some(next) => Run(next, windows, actions[1..])
  }

  predicate TameRun(w: World, windows: bool, actions: seq<Action>)
    decreases |actions|
  {
    actions == [] || (Tame(w, actions[0])
      && (Step(w, windows, actions[0]).Some? ==> TameRun(Step(w, windows, actions[0]).value, windows, actions[1..])))
  }

  // ---------------------------------------------------------------- what every step keeps

  predicate HasPassed(phase: Phase) {
    phase.Starting? || phase.Started? || phase.Written? || phase.Serving?
  }

  /** The lock that goes with a phase other than Leaving. */
  function HeldIn(phase: Phase): Option<Mode> {
    match phase
    case FirstCheck => Some(Shared)
    case Upgrading => Some(Shared)
    case SecondCheck => Some(Exclusive)
    case Starting => Some(Exclusive)
    case Started(_) => Some(Exclusive)
    case Written(_) => Some(Exclusive)
    case _ => None
  }

  /** The server that goes with a phase. */
  function ServerIn(phase: Phase): Option<string> {
    match phase
    case Started(url) => Some(url)
    case Written(url) => Some(url)
    case Serving(url) => Some(url)
    case _ => None
  }

  predicate GoodProc(w: World, windows: bool, proc: Proc) {
    && proc.inode == w.path
    && (proc.phase.Leaving? || proc.held == HeldIn(proc.phase))
    && (proc.locked == proc.held || (!windows && proc.phase.WaitingWrite? && proc.locked == Some(Shared)))
    && proc.server == ServerIn(proc.phase)
    && (proc.server.Some? ==> proc.server.value != "")
    && (proc.phase.Written? || proc.phase.Serving? ==> ContentOf(w, w.path) == proc.phase.url)
  }

  ghost predicate GoodProcs(w: World, windows: bool) {
    forall p | p in w.procs :: GoodProc(w, windows, w.procs[p])
  }

  /** A write lock excludes every other lock. */
  ghost predicate Exclusion(w: World) {
    forall p, q | p in w.procs && q in w.procs && p != q && w.procs[p].held == Some(Exclusive) :: w.procs[q].held.None?
  }

  /** Next to a live server nobody else has passed both checks. */
  ghost predicate OneServer(w: World) {
    forall p, q | p in w.procs && q in w.procs && p != q && w.procs[p].server.Some? :: !HasPassed(w.procs[q].phase)
  }

  ghost predicate Invariant(w: World, windows: bool) {
    GoodProcs(w, windows) && Exclusion(w) && OneServer(w)
  }

  /** One process moved to `proc`, the content of the file staying as it was. */
  lemma MoveKeepsInvariant(w: World, windows: bool, p: nat, proc: Proc)
    requires Invariant(w, windows) && GoodProc(w, windows, proc)
    requires proc.held == Some(Exclusive) ==> forall q | q in w.procs && q != p :: w.procs[q].held.None?
    requires proc.held.Some? ==> forall q | q in w.procs && q != p :: w.procs[q].held != Some(Exclusive)
    requires HasPassed(proc.phase) ==> forall q | q in w.procs && q != p :: w.procs[q].server.None?
    requires proc.server.Some? ==> forall q | q in w.procs && q != p :: !HasPassed(w.procs[q].phase)
    ensures Invariant(Put(w, p, proc), windows)
  {
    var t := Put(w, p, proc);
    forall q | q in t.procs ensures GoodProc(t, windows, t.procs[q]) {
      if q != p { assert GoodProc(w, windows, w.procs[q]); }
    }
  }

  lemma CheckKeepsInvariant(w: World, windows: bool, p: nat, stray: bool)
    requires Invariant(w, windows) && OnCheck(w, p, stray).Some?
    ensures Invariant(OnCheck(w, p, stray).value, windows)
  {
    var t := OnCheck(w, p, stray).value;
    assert GoodProc(w, windows, w.procs[p]);
    if t.procs[p].phase.Starting? {
      forall q | q in w.procs && w.procs[q].server.Some? ensures Live(w, w.procs[q].server.value) {}
      forall q | q in w.procs && q != p ensures w.procs[q].server.None? { assert GoodProc(w, windows, w.procs[q]); }
    }
    MoveKeepsInvariant(w, windows, p, t.procs[p]);
  }

  lemma WriteKeepsInvariant(w: World, windows: bool, p: nat)
    requires Invariant(w, windows) && OnWrite(w, p).Some? && Tame(w, Write(p))
    ensures Invariant(OnWrite(w, p).value, windows)
  {
    var t := OnWrite(w, p).value;
    assert GoodProc(w, windows, w.procs[p]);
    forall q | q in t.procs ensures GoodProc(t, windows, t.procs[q]) {
      if q != p {
        assert GoodProc(w, windows, w.procs[q]);
        assert !HasPassed(w.procs[q].phase);
      }
    }
  }

  lemma LockStepKeepsInvariant(w: World, windows: bool, a: Action)
    requires Invariant(w, windows) && Step(w, windows, a).Some? && (a.RLock? || a.Upgrade? || a.Acquire? || a.Unlock?)
    ensures Invariant(Step(w, windows, a).value, windows)
  {
    assert GoodProc(w, windows, w.procs[a.p]);
    MoveKeepsInvariant(w, windows, a.p, Step(w, windows, a).value.procs[a.p]);
  }

  lemma ServerStepKeepsInvariant(w: World, windows: bool, a: Action)
    requires Invariant(w, windows) && Step(w, windows, a).Some? && (a.Open? || a.Start? || a.Stop? || a.Exit?)
    ensures Invariant(Step(w, windows, a).value, windows)
  {
    if a.p in w.procs { assert GoodProc(w, windows, w.procs[a.p]); }
    MoveKeepsInvariant(w, windows, a.p, Step(w, windows, a).value.procs[a.p]);
  }

  lemma StepKeepsInvariant(w: World, windows: bool, a: Action)
    requires Invariant(w, windows) && Step(w, windows, a).Some? && Tame(w, a)
    ensures Invariant(Step(w, windows, a).value, windows) && Step(w, windows, a).value.path == w.path
  {
    match a {
      case Check(p, stray) => CheckKeepsInvariant(w, windows, p, stray);
      case Write(p) => WriteKeepsInvariant(w, windows, p);
      case RLock(_) => LockStepKeepsInvariant(w, windows, a);
      case Upgrade(_) => LockStepKeepsInvariant(w, windows, a);
      case Acquire(_) => LockStepKeepsInvariant(w, windows, a);
      case Unlock(_) => LockStepKeepsInvariant(w, windows, a);
      case _ => ServerStepKeepsInvariant(w, windows, a);
    }
  }

  lemma {:induction false} RunKeepsInvariant(w: World, windows: bool, actions: seq<Action>)
    requires Invariant(w, windows) && Run(w, windows, actions).Some? && TameRun(w, windows, actions)
    ensures Invariant(Run(w, windows, actions).value, windows)
    decreases |actions|
  {
    if actions != [] {
      StepKeepsInvariant(w, windows, actions[0]);
      RunKeepsInvariant(Step(w, windows, actions[0]).value, windows, actions[1..]);
    }
  }

  // ---------------------------------------------------------------- election

  /** While the server of one process is reachable, no other process has passed both checks. */
  lemma AtMostOneElected(windows: bool, actions: seq<Action>, p: nat, q: nat)
    requires Run(EMPTY, windows, actions).Some? && TameRun(EMPTY, windows, actions) && p != q
    requires var w := Run(EMPTY, windows, actions).value;
             p in w.procs && q in w.procs && w.procs[p].server.Some?
    ensures var w := Run(EMPTY, windows, actions).value; !HasPassed(w.procs[q].phase) && w.procs[q].server.None?
  {
    RunKeepsInvariant(EMPTY, windows, actions);
    var w := Run(EMPTY, windows, actions).value;
    assert GoodProc(w, windows, w.procs[q]);
  }

  lemma FreshURL(w: World) returns (url: string)
    ensures url != "" && !Live(w, url)
  {
    url := LongerThanAll(set p | p in w.procs && w.procs[p].server.Some? :: w.procs[p].server.value);
    forall p | p in w.procs && w.procs[p].server.Some? ensures w.procs[p].server.value != url {
      assert w.procs[p].server.value in set q | q in w.procs && w.procs[q].server.Some? :: w.procs[q].server.value;
    }
  }

  /** Whoever holds a lock can go on by itself. */
  lemma HolderIsReady(w: World, windows: bool, q: nat) returns (a: Action)
    requires q in w.procs && GoodProc(w, windows, w.procs[q]) && w.procs[q].held.Some?
    ensures !a.Unlink? && a.p == q && Step(w, windows, a).Some? && (a == Exit(q) ==> w.procs[q].phase.Leaving?)
  {
    match w.procs[q].phase
    case Upgrading => a := Upgrade(q);
    case Starting =>
      var url := FreshURL(w);
      a := Start(q, url);
    case Started(_) => a := Write(q);
    case Written(_) => a := Unlock(q);
    case Leaving => a := Exit(q);
    case _ => a := Check(q, false);
  }

  /** Whoever has to wait for a lock waits for a process that can go on: upgrading readers do not block each other. */
  lemma WaitingForSomebodyReady(windows: bool, actions: seq<Action>, p: nat) returns (q: nat, a: Action)
    requires Run(EMPTY, windows, actions).Some? && TameRun(EMPTY, windows, actions)
    requires var w := Run(EMPTY, windows, actions).value;
             && p in w.procs && (w.procs[p].phase.Reading? || w.procs[p].phase.WaitingWrite?)
             && OnRLock(w, p).None? && OnAcquire(w, p).None?
    ensures var w := Run(EMPTY, windows, actions).value;
            && q != p && q in w.procs && w.procs[q].held.Some?
            && (w.procs[p].phase.Reading? ==> w.procs[q].held == Some(Exclusive))
            && !a.Unlink? && a.p == q && Step(w, windows, a).Some? && (a == Exit(q) ==> w.procs[q].phase.Leaving?)
  {
    RunKeepsInvariant(EMPTY, windows, actions);
    var w := Run(EMPTY, windows, actions).value;
    if w.procs[p].phase.Reading? {
      q :| q in w.procs && q != p && w.procs[q].held.Some? && w.procs[q].held != Some(Shared);
      assert w.procs[q].held.value.Exclusive?;
    } else {
      q :| q in w.procs && q != p && w.procs[q].held.Some?;
    }
    assert GoodProc(w, windows, w.procs[q]);
    a := HolderIsReady(w, windows, q);
  }

  /** How far a process has come. */
  function Stage(phase: Phase): nat {
    match phase
    case Reading => 0
    case FirstCheck => 1
    case Upgrading => 2
    case WaitingWrite => 3
    case SecondCheck => 4
    case Starting => 5
    case Started(_) => 6
    case Written(_) => 7
    case Serving(_) => 8
    case Leaving => 9
    case Gone => 10
  }

  /** A process only goes forward, and leaves the others where they are. */
  lemma StepsGoForward(w: World, windows: bool, a: Action)
    requires Step(w, windows, a).Some? && !a.Unlink?
    ensures var t := Step(w, windows, a).value;
            && a.p in t.procs && (a.p in w.procs ==> Stage(w.procs[a.p].phase) < Stage(t.procs[a.p].phase))
            && t.procs.Keys == w.procs.Keys + {a.p} && forall q | q in w.procs && q != a.p :: t.procs[q] == w.procs[q]
  {
  }

  /** No process is ever stuck but for a lock: it can go on by itself, and ends only when it has nothing else to do. */
  lemma EveryoneGoesOn(w: World, windows: bool, p: nat) returns (a: Action)
    requires p in w.procs && !w.procs[p].phase.Gone?
    requires w.procs[p].phase.Reading? ==>
               forall q | q in w.procs && q != p && w.procs[q].inode == w.procs[p].inode ::
                 w.procs[q].held != Some(Exclusive)
    requires w.procs[p].phase.WaitingWrite? ==>
               forall q | q in w.procs && q != p && w.procs[q].inode == w.procs[p].inode :: w.procs[q].held.None?
    ensures !a.Unlink? && a.p == p && Step(w, windows, a).Some? && (a == Exit(p) ==> w.procs[p].phase.Leaving?)
  {
    forall q | q in w.procs && w.procs[q].held.Some?
      ensures w.procs[q].held == Some(Shared) || w.procs[q].held == Some(Exclusive)
    {
      assert w.procs[q].held.value.Shared? || w.procs[q].held.value.Exclusive?;
    }
    match w.procs[p].phase
    case Reading => a := RLock(p);
    case Upgrading => a := Upgrade(p);
    case WaitingWrite => a := Acquire(p);
    case Starting =>
      var url := FreshURL(w);
      a := Start(p, url);
    case Started(_) => a := Write(p);
    case Written(_) => a := Unlock(p);
    case Serving(_) => a := Stop(p);
    case Leaving => a := Exit(p);
    case _ => a := Check(p, false);
  }

  // ---------------------------------------------------------------- what goes wrong otherwise

  ghost predicate Reachable(w: World, windows: bool) {
    exists actions :: Run(EMPTY, windows, actions) == Some(w)
  }

  lemma {:induction false} RunOneMore(w: World, windows: bool, actions: seq<Action>, a: Action)
    requires Run(w, windows, actions).Some?
    ensures Run(w, windows, actions + [a]) == Step(Run(w, windows, actions).value, windows, a)
    decreases |actions|
  {
    if actions == [] {
      assert ([a])[1..] == [];
    } else {
      assert (actions + [a])[1..] == actions[1..] + [a];
      RunOneMore(Step(w, windows, actions[0]).value, windows, actions[1..], a);
    }
  }

  lemma Follow(w: World, windows: bool, a: Action) returns (t: World)
    requires Reachable(w, windows) && Step(w, windows, a).Some?
    ensures Reachable(t, windows) && Step(w, windows, a) == Some(t)
  {
    var actions :| Run(EMPTY, windows, actions) == Some(w);
    RunOneMore(EMPTY, windows, actions, a);
    t := Step(w, windows, a).value;
  }

  /** A process that opens a file nobody has locked can read it. */
  lemma ReadUp(w: World, p: nat) returns (t: World)
    requires Reachable(w, false) && p !in w.procs
    requires forall q | q in w.procs && w.procs[q].inode == w.path :: w.procs[q].held.None?
    ensures Reachable(t, false)
    ensures t == w.(procs := w.procs[p := Proc(FirstCheck, w.path, Some(Shared), Some(Shared), None)])
  {
    t := Follow(w, false, Open(p));
    t := Follow(t, false, RLock(p));
    assert t.procs == w.procs[p := Proc(FirstCheck, w.path, Some(Shared), Some(Shared), None)];
  }

  /** If it finds no server it gets the write lock. */
  lemma LockUp(w: World, p: nat) returns (t: World)
    requires Reachable(w, false) && p !in w.procs
    requires forall q | q in w.procs && w.procs[q].inode == w.path :: w.procs[q].held.None?
    requires ContentOf(w, w.path) == "" || !Live(w, ContentOf(w, w.path))
    ensures Reachable(t, false)
    ensures t == w.(procs := w.procs[p := Proc(SecondCheck, w.path, Some(Exclusive), Some(Exclusive), None)])
  {
    t := ReadUp(w, p);
    NobodyNew(w, t);
    t := Follow(t, false, Check(p, false));
    t := Follow(t, false, Upgrade(p));
    assert t.procs == w.procs[p := Proc(SecondCheck, w.path, Some(Exclusive), Some(Exclusive), None)];
  }

  /** If there is still none it starts one. */
  lemma StartUp(w: World, p: nat, url: string) returns (t: World)
    requires Reachable(w, false) && p in w.procs
    requires w.procs[p] == Proc(SecondCheck, w.path, Some(Exclusive), Some(Exclusive), None)
    requires url != "" && !Live(w, url) && (ContentOf(w, w.path) == "" || !Live(w, ContentOf(w, w.path)))
    ensures Reachable(t, false)
    ensures t == w.(procs := w.procs[p := Proc(Started(url), w.path, Some(Exclusive), Some(Exclusive), Some(url))])
  {
    t := Follow(w, false, Check(p, false));
    NobodyNew(w, t);
    t := Follow(t, false, Start(p, url));
    assert t.procs == w.procs[p := Proc(Started(url), w.path, Some(Exclusive), Some(Exclusive), Some(url))];
  }

  lemma TakeOver(w: World, p: nat, url: string) returns (t: World)
    requires Reachable(w, false) && p in w.procs
    requires w.procs[p] == Proc(SecondCheck, w.path, Some(Exclusive), Some(Exclusive), None)
    requires url != "" && !Live(w, url) && (ContentOf(w, w.path) == "" || !Live(w, ContentOf(w, w.path)))
    ensures Reachable(t, false) && t.path == w.path
    ensures t.content == w.content[w.path := Overwrite(url, ContentOf(w, w.path))]
    ensures t.procs == w.procs[p := Proc(Serving(url), w.path, None, None, Some(url))]
  {
    t := StartUp(w, p, url);
    t := Follow(t, false, Write(p));
    t := Follow(t, false, Unlock(p));
  }

  lemma Elect(w: World, p: nat, url: string) returns (t: World)
    requires Reachable(w, false) && p !in w.procs && url != "" && !Live(w, url)
    requires forall q | q in w.procs && w.procs[q].inode == w.path :: w.procs[q].held.None?
    requires ContentOf(w, w.path) == "" || !Live(w, ContentOf(w, w.path))
    ensures Reachable(t, false) && t.path == w.path
    ensures t.content == w.content[w.path := Overwrite(url, ContentOf(w, w.path))]
    ensures t.procs == w.procs[p := Proc(Serving(url), w.path, None, None, Some(url))]
  {
    t := LockUp(w, p);
    NobodyNew(w, t);
    t := TakeOver(t, p, url);
  }

  lemma NobodyNew(w: World, t: World)
    requires forall p | p in t.procs && t.procs[p].server.Some? ::
               p in w.procs && w.procs[p].server == t.procs[p].server
    ensures forall url :: Live(t, url) ==> Live(w, url)
  {
  }

  /** A server that exited has left its URL behind. */
  lemma StaleURL() returns (w: World)
    ensures Reachable(w, false) && w.path == 0 && w.content == map[0 := "aa"]
    ensures w.procs == map[0 := Proc(Gone, 0, None, None, None)]
  {
    assert Run(EMPTY, false, []) == Some(EMPTY);
    var t := Elect(EMPTY, 0, "aa");
    w := Follow(t, false, Exit(0));
    assert w.procs == map[0 := Proc(Gone, 0, None, None, None)];
    assert w.content == map[0 := Overwrite("aa", "")] && Overwrite("aa", "") == "aa";
  }

  /** A longer stale URL leaves its tail behind a shorter new one, and the next process is elected as well. */
  lemma StaleTailElectsTwo() returns (w: World)
    ensures Reachable(w, false) && w.path == 0
    ensures 1 in w.procs && 2 in w.procs && w.procs[1].phase == Serving("b") && w.procs[2].phase == Serving("c")
  {
    var t := StaleURL();
    w := Elect(t, 1, "b");
    assert ContentOf(w, 0) == "ba";
    w := Elect(w, 2, "c");
  }

  /** Removing the file splits the lock: the next process locks another inode. */
  lemma UnlinkElectsTwo() returns (w: World)
    ensures Reachable(w, false)
    ensures 0 in w.procs && 1 in w.procs && w.procs[0].phase == Serving("a") && w.procs[1].phase == Serving("b")
  {
    assert Run(EMPTY, false, []) == Some(EMPTY);
    w := Elect(EMPTY, 0, "a");
    w := Follow(w, false, Unlink);
    w := Elect(w, 1, "b");
  }
}
