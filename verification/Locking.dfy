/**
 The mutex of a process that takes part in the election (internal/cmd/server.go:116-191 over
 internal/filelock): its lock steps are calls on the mutex, in any run.
 */
module Locking {
  import opened Wrappers
  import opened Election
  import F = Filelock

  function StateOf(mode: Option<Mode>): F.LockState {
    match mode
    case None => F.Unlocked
    case Some(Shared) => F.RLocked
    case Some(Exclusive) => F.WLocked
  }

  /** The call that a step makes on the mutex of a process; one that has to wait has been refused so far. */
  function CallOf(w: World, windows: bool, a: Action, p: nat): seq<F.Call> {
    match a
    case RLock(q) => if q == p then [F.Acquire(F.RLocked, true, true, F.Granted)] else []
    case Upgrade(q) =>
      var outcome := if !windows && Free(w, p, Exclusive) then F.Granted else F.Refused(true);
      if q == p then [F.Acquire(F.WLocked, true, true, outcome)] else []
    case Acquire(q) => if q == p then [F.Acquire(F.WLocked, true, true, F.Granted)] else []
    case Unlock(q) => if q == p then [F.Call.Release(true, true)] else []
    case _ => []
  }

  function CallsOf(w: World, windows: bool, actions: seq<Action>, p: nat): (calls: seq<F.Call>)
    ensures forall c | c in calls && c.Acquire? :: c.to != F.Unlocked
    decreases |actions|
  {
    if actions == [] || Step(w, windows, actions[0]).None? then []
    else CallOf(w, windows, actions[0], p) + CallsOf(Step(w, windows, actions[0]).value, windows, actions[1..], p)
  }

  /** The lock that goes with a phase, and what the mutex knows of it. */
  predicate Lawful(windows: bool, proc: Proc) {
    && (proc.locked == proc.held || (!windows && proc.phase.WaitingWrite? && proc.locked == Some(Shared)))
    && (proc.phase.Leaving? || proc.held == HeldIn(proc.phase))
    && (!windows && proc.phase.WaitingWrite? ==> proc.locked == Some(Shared))
  }

  /** The mutex of the process is in that state; before the process there is, in a new one. */
  predicate Tracks(w: World, windows: bool, p: nat, s: F.State) {
    if p !in w.procs then s == F.NEW
    else
      && Lawful(windows, w.procs[p])
      && (!w.procs[p].phase.Gone? ==>
            F.Sound(s) && s.locked == StateOf(w.procs[p].locked) && s.held == StateOf(w.procs[p].held))
  }

  lemma CallTracks(w: World, windows: bool, a: Action, p: nat, s: F.State)
    requires Tracks(w, windows, p, s) && Step(w, windows, a).Some? && CallOf(w, windows, a, p) != []
    ensures Tracks(Step(w, windows, a).value, windows, p, F.After(s, windows, CallOf(w, windows, a, p)[0]))
  {
  }

  lemma StepTracks(w: World, windows: bool, a: Action, p: nat, s: F.State)
    requires Tracks(w, windows, p, s) && Step(w, windows, a).Some?
    ensures Tracks(Step(w, windows, a).value, windows, p, F.AfterAll(s, windows, CallOf(w, windows, a, p)))
  {
    var calls := CallOf(w, windows, a, p);
    if calls != [] {
      CallTracks(w, windows, a, p, s);
      assert calls[1..] == [];
      assert F.AfterAll(s, windows, calls) == F.After(s, windows, calls[0]);
    }
  }

  lemma {:induction false} OneAfterAnother(s: F.State, windows: bool, first: seq<F.Call>, rest: seq<F.Call>)
    requires |first| <= 1
    ensures F.AfterAll(s, windows, first + rest) == F.AfterAll(F.AfterAll(s, windows, first), windows, rest)
  {
    if first == [] {
      assert first + rest == rest;
    } else {
      assert (first + rest)[1..] == rest && first[1..] == [];
      assert F.AfterAll(s, windows, first) == F.After(s, windows, first[0]);
    }
  }

  lemma {:induction false} RunTracks(w: World, windows: bool, actions: seq<Action>, p: nat, s: F.State)
    requires Tracks(w, windows, p, s) && Run(w, windows, actions).Some?
    ensures Tracks(Run(w, windows, actions).value, windows, p, F.AfterAll(s, windows, CallsOf(w, windows, actions, p)))
    decreases |actions|
  {
    if actions != [] {
      var next := Step(w, windows, actions[0]).value;
      var calls := CallOf(w, windows, actions[0], p);
      StepTracks(w, windows, actions[0], p, s);
      RunTracks(next, windows, actions[1..], p, F.AfterAll(s, windows, calls));
      OneAfterAnother(s, windows, calls, CallsOf(next, windows, actions[1..], p));
    }
  }

  /**
   In any run the mutex of a process is where its calls have taken it, and knows what lock is
   held unless the process waits, away from Windows, for the lock that it gave up: the one
   kind of call that may lose a lock.
   */
  lemma FieldAgreesWithLockExactly(windows: bool, actions: seq<Action>, p: nat)
    requires Run(EMPTY, windows, actions).Some?
    requires var w := Run(EMPTY, windows, actions).value; p in w.procs && !w.procs[p].phase.Gone?
    ensures var proc, calls := Run(EMPTY, windows, actions).value.procs[p], CallsOf(EMPTY, windows, actions, p);
            && F.AfterAll(F.NEW, windows, calls).locked == StateOf(proc.locked)
            && F.AfterAll(F.NEW, windows, calls).held == StateOf(proc.held)
            && (proc.locked == proc.held <==> windows || !proc.phase.WaitingWrite?)
            && (proc.locked == proc.held <==> !F.LostForGood(F.NEW, windows, calls))
  {
    RunTracks(EMPTY, windows, actions, p, F.NEW);
    F.FieldAgreesExactly(F.NEW, windows, CallsOf(EMPTY, windows, actions, p));
  }
}
