/**
 The file-based mutex (internal/filelock): what it believes about its lock, and what the
 kernel knows. Whether a system call succeeds is a parameter.
 */
module Filelock {

  datatype LockState = Unlocked | RLocked | WLocked

  /** What becomes of a lock call. A refused conversion may have cost the lock that was to be converted. */
  datatype Outcome = Granted | Refused(dropped: bool)

  /** A mutex: whether its file is open, what it records, and what the kernel holds for it. */
  datatype State = State(isOpen: bool, locked: LockState, held: LockState)

  const NEW := State(false, Unlocked, Unlocked)

  /** A call on the mutex with the answers of the system: opening, unlocking first, locking; unlocking and closing. */
  datatype Call =
    | Acquire(to: LockState, opens: bool, releases: bool, outcome: Outcome)
    | Release(releases: bool, closes: bool)

  /** The file can be opened, and what is held is not what is asked for. */
  predicate Changes(s: State, to: LockState, opens: bool) {
    (s.isOpen || opens) && s.locked != to
  }

  /** On Windows another lock is given up before the call, if that succeeds. */
  predicate GoesOn(s: State, windows: bool, releases: bool) {
    !windows || s.locked == Unlocked || releases
  }

  function AfterAcquire(s: State, windows: bool, c: Call): State
    requires c.Acquire?
  {
    if !Changes(s, c.to, c.opens) then s.(isOpen := s.isOpen || c.opens)
    else if !GoesOn(s, windows, c.releases) then s.(isOpen := true)
    else if c.outcome == Granted then State(true, c.to, c.to)
    else if windows && s.locked != Unlocked then State(true, Unlocked, Unlocked)
    else State(true, s.locked, if c.outcome.dropped then Unlocked else s.held)
  }

  function AfterRelease(s: State, c: Call): State
    requires c.Release?
  {
    if !s.isOpen || !c.releases then s else State(!c.closes, Unlocked, Unlocked)
  }

  function After(s: State, windows: bool, c: Call): State {
    if c.Acquire? then AfterAcquire(s, windows, c) else AfterRelease(s, c)
  }

  /** The call reports success; asking for the lock that is recorded always does. */
  predicate Succeeds(s: State, windows: bool, c: Call) {
    match c
    case Acquire(to, opens, releases, outcome) =>
      (s.isOpen || opens) && (s.locked == to || (GoesOn(s, windows, releases) && outcome == Granted))
    case Release(releases, closes) => !s.isOpen || (releases && closes)
  }

  function AfterAll(s: State, windows: bool, calls: seq<Call>): State
    decreases |calls|
  {
    if calls == [] then s else AfterAll(After(s, windows, calls[0]), windows, calls[1..])
  }

  // ---------------------------------------------------------------- what the mutex knows

  predicate Agrees(s: State) {
    s.locked == s.held
  }

  /** A lock goes with an open file, and one that is held is the one recorded. */
  predicate Sound(s: State) {
    (s.locked != Unlocked ==> s.isOpen) && (s.held != Unlocked ==> s.locked == s.held)
  }

  /** The call reached the kernel and the kernel did as asked: a lock was granted, or given up. */
  predicate Settles(s: State, windows: bool, c: Call) {
    match c
    case Acquire(to, opens, releases, outcome) =>
      && Changes(s, to, opens) && GoesOn(s, windows, releases)
      && (outcome == Granted || (windows && s.locked != Unlocked))
    case Release(releases, _) => s.isOpen && releases
  }

  /** flock refused to convert the lock that is held, and gave it up. */
  predicate Loses(s: State, windows: bool, c: Call) {
    && c.Acquire? && !windows && Changes(s, c.to, c.opens) && c.outcome == Refused(true) && s.held != Unlocked
  }

  /** Some call lost the lock, and no later one set things right. */
  predicate LostForGood(s: State, windows: bool, calls: seq<Call>)
    decreases |calls|
  {
    && calls != []
    && var next := After(s, windows, calls[0]);
       || LostForGood(next, windows, calls[1..])
       || (Loses(s, windows, calls[0]) && NeverSettles(next, windows, calls[1..]))
  }

  predicate NeverSettles(s: State, windows: bool, calls: seq<Call>)
    decreases |calls|
  {
    calls == [] || (!Settles(s, windows, calls[0]) && NeverSettles(After(s, windows, calls[0]), windows, calls[1..]))
  }

  lemma OneCall(s: State, windows: bool, c: Call)
    requires Sound(s) && (c.Acquire? ==> c.to != Unlocked)
    ensures Sound(After(s, windows, c))
    ensures Agrees(After(s, windows, c)) <==> Settles(s, windows, c) || (Agrees(s) && !Loses(s, windows, c))
  {
  }

  lemma {:induction false} WrongUntilSettled(s: State, windows: bool, calls: seq<Call>)
    requires Sound(s) && !Agrees(s) && forall c | c in calls && c.Acquire? :: c.to != Unlocked
    ensures Agrees(AfterAll(s, windows, calls)) <==> !NeverSettles(s, windows, calls) && !LostForGood(s, windows, calls)
    decreases |calls|
  {
    if calls != [] {
      assert calls[0] in calls && forall c | c in calls[1..] :: c in calls;
      OneCall(s, windows, calls[0]);
      var next := After(s, windows, calls[0]);
      if Agrees(next) {
        FieldAgreesExactly(next, windows, calls[1..]);
      } else {
        WrongUntilSettled(next, windows, calls[1..]);
      }
    }
  }

  /**
   After any sequence of calls the mutex knows which lock it holds exactly if no refused
   conversion has lost a lock since the kernel last did as asked.
   */
  lemma {:induction false} FieldAgreesExactly(s: State, windows: bool, calls: seq<Call>)
    requires Sound(s) && Agrees(s) && forall c | c in calls && c.Acquire? :: c.to != Unlocked
    ensures Agrees(AfterAll(s, windows, calls)) <==> !LostForGood(s, windows, calls)
    decreases |calls|
  {
    if calls != [] {
      assert calls[0] in calls && forall c | c in calls[1..] :: c in calls;
      OneCall(s, windows, calls[0]);
      var next := After(s, windows, calls[0]);
      if Agrees(next) {
        FieldAgreesExactly(next, windows, calls[1..]);
      } else {
        WrongUntilSettled(next, windows, calls[1..]);
      }
    }
  }

  /** On Windows, where a lock is given up before it is changed, the mutex always knows. */
  lemma {:induction false} WindowsAlwaysAgrees(s: State, calls: seq<Call>)
    requires Sound(s) && Agrees(s) && forall c | c in calls && c.Acquire? :: c.to != Unlocked
    ensures Agrees(AfterAll(s, true, calls))
    decreases |calls|
  {
    if calls != [] {
      assert calls[0] in calls && forall c | c in calls[1..] :: c in calls;
      OneCall(s, true, calls[0]);
      WindowsAlwaysAgrees(After(s, true, calls[0]), calls[1..]);
    }
  }

  /** A call that reports success has got what it asked for, unless the mutex was wrong about having it. */
  lemma SuccessMeansLocked(s: State, windows: bool, c: Call)
    requires c.Acquire? && Succeeds(s, windows, c)
    ensures var t := After(s, windows, c);
            t.isOpen && t.locked == c.to && (t.held == c.to <==> s.locked != c.to || s.held == c.to)
  {
  }

  /** After a conversion that was refused and cost the lock, asking for the read lock succeeds without any lock. */
  lemma LostLockLooksHeld() returns (s: State)
    ensures var calls := [Acquire(RLocked, true, true, Granted), Acquire(WLocked, true, true, Refused(true))];
            s == AfterAll(NEW, false, calls) && Succeeds(s, false, Acquire(RLocked, true, true, Granted))
              && s.held == Unlocked
  {
    var first, second := Acquire(RLocked, true, true, Granted), Acquire(WLocked, true, true, Refused(true));
    s := After(After(NEW, false, first), false, second);
    assert [first, second][1..] == [second] && [second][1..] == [];
    assert AfterAll(After(NEW, false, first), false, [second]) == s;
  }

  // ---------------------------------------------------------------- the code

  class Mutex {
    const windows: bool
    var isOpen: bool
    var locked: LockState
    ghost var held: LockState

    ghost function Fields(): State
      reads this
    {
      State(isOpen, locked, held)
    }

    constructor (windows: bool)
      ensures Fields() == NEW && this.windows == windows
    {
      this.windows, isOpen, locked, held := windows, false, Unlocked, Unlocked;
    }

    /** Releases the lock, but keeps the file open. */
    method GiveUp(succeeds: bool) returns (ok: bool)
      modifies `locked, `held
      ensures ok == succeeds
      ensures if ok then locked == Unlocked && held == Unlocked else locked == old(locked) && held == old(held)
    {
      if !succeeds { return false; }
      held, locked := Unlocked, Unlocked;
      ok := true;
    }

    /** Whether to go on to the lock call; on Windows a lock must be given up before it is changed. */
    method BeforeLockChange(to: LockState, releases: bool) returns (cont: bool, ok: bool)
      modifies `locked, `held
      ensures cont <==> ok && old(locked) != to
      ensures ok <==> old(locked) == to || GoesOn(old(Fields()), windows, releases)
      ensures if windows && cont && old(locked) != Unlocked then locked == Unlocked && held == Unlocked
              else locked == old(locked) && held == old(held)
    {
      if !windows { return locked != to, true; }
      if locked == to { return false, true; }
      if locked == Unlocked { return true, true; }
      ok := GiveUp(releases);
      cont := ok;
    }

    /** RLock and Lock, which differ only in the state they ask for. */
    method Change(to: LockState, opens: bool, releases: bool, outcome: Outcome) returns (ok: bool)
      modifies this
      ensures Fields() == After(old(Fields()), windows, Acquire(to, opens, releases, outcome))
      ensures ok == Succeeds(old(Fields()), windows, Acquire(to, opens, releases, outcome))
    {
      if !isOpen {
        if !opens { return false; }
        isOpen := true;
      }
      var cont;
      cont, ok := BeforeLockChange(to, releases);
      if !cont { return; }
      match outcome {
        case Granted => held, locked, ok := to, to, true;
        case Refused(dropped) =>
          if dropped { held := Unlocked; }
          ok := false;
      }
    }

    method RLock(opens: bool, releases: bool, outcome: Outcome) returns (ok: bool)
      modifies this
      ensures Fields() == After(old(Fields()), windows, Acquire(RLocked, opens, releases, outcome))
      ensures ok == Succeeds(old(Fields()), windows, Acquire(RLocked, opens, releases, outcome))
    {
      ok := Change(RLocked, opens, releases, outcome);
    }

    method Lock(opens: bool, releases: bool, outcome: Outcome) returns (ok: bool)
      modifies this
      ensures Fields() == After(old(Fields()), windows, Acquire(WLocked, opens, releases, outcome))
      ensures ok == Succeeds(old(Fields()), windows, Acquire(WLocked, opens, releases, outcome))
    {
      ok := Change(WLocked, opens, releases, outcome);
    }

    method Unlock(releases: bool, closes: bool) returns (ok: bool)
      modifies this
      ensures Fields() == After(old(Fields()), windows, Call.Release(releases, closes))
      ensures ok == Succeeds(old(Fields()), windows, Call.Release(releases, closes))
    {
      if !isOpen { return true; }
      ok := GiveUp(releases);
      if !ok { return; }
      if closes { isOpen := false; }
      ok := closes;
    }
  }
}
