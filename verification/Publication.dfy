/**
 What a cancelled request does to the outcome of a build (internal/jobserver/nbt/nbt.go): the
 barrier of a build hangs on the context of the first request, so it may open before anything
 is published. When that is harmless, and when it is not.
 */
module Publication {
  import opened Wrappers
  import opened Fresh
  import opened Nbt

  /** What a start is told once the barrier is open. */
  function Answer(b: Build): StartOutcome {
    if b.error.Some? then Failed(b.error.value) else if b.files == map[] then Canceled else Reuse(b.files)
  }

  /** A start that waited for this build has returned. */
  predicate Waiter(s: Server, c: nat, key: string) {
    && c in s.callers && s.callers[c].StartReturned? && StartKey(s.callers[c].start) == key
    && (s.callers[c].result.Failed? || s.callers[c].result.Reuse? || s.callers[c].result.Canceled?)
  }

  /** The winner has recorded its outcome, and has only the barrier left to open, if that. */
  predicate Complete(s: Server, key: string) {
    && key in s.builds && s.builds[key].winner.Some? && s.builds[key].winner.value in s.callers
    && var w := s.callers[s.builds[key].winner.value];
       (w.Closing? || w.FinishReturned?) && Published(w.finish, key, s.builds[key])
  }

  predicate Sealed(s: Server, key: string) {
    Complete(s, key) && s.builds[key].done
  }

  ghost predicate AllAgree(s: Server, key: string) {
    key in s.builds && forall c | Waiter(s, c, key) :: s.callers[c].result == Answer(s.builds[key])
  }

  predicate SameOutcome(s: Server, t: Server, key: string) {
    key in s.builds && key in t.builds && t.builds[key].files == s.builds[key].files
      && t.builds[key].error == s.builds[key].error
  }

  // ---------------------------------------------------------------- a sealed outcome

  predicate SameWinner(s: Server, t: Server, key: string) {
    key in s.builds && key in t.builds && t.builds[key].winner == s.builds[key].winner
      && (s.builds[key].done ==> t.builds[key].done)
  }

  lemma OutcomeStays(s: Server, a: Action, key: string)
    requires Around(s, a, key) && Step(s, a).Some? && Sealed(s, key)
    ensures SameOutcome(s, Step(s, a).value, key) && SameWinner(s, Step(s, a).value, key)
  {
  }

  lemma WinnerStays(s: Server, a: Action, key: string)
    requires Around(s, a, key) && Step(s, a).Some? && Sealed(s, key)
    ensures var t, w := Step(s, a).value, s.builds[key].winner.value;
            && w in s.callers && w in t.callers && (t.callers[w].Closing? || t.callers[w].FinishReturned?)
            && t.callers[w].finish == s.callers[w].finish
  {
  }

  lemma SealedStays(s: Server, a: Action, key: string)
    requires Around(s, a, key) && Step(s, a).Some? && Sealed(s, key)
    ensures var t := Step(s, a).value; Sealed(t, key) && SameOutcome(s, t, key)
  {
    OutcomeStays(s, a, key);
    WinnerStays(s, a, key);
  }

  lemma AgreementStays(s: Server, a: Action, key: string)
    requires Around(s, a, key) && Step(s, a).Some? && Sealed(s, key) && AllAgree(s, key)
    ensures AllAgree(Step(s, a).value, key)
  {
    var t := Step(s, a).value;
    SealedStays(s, a, key);
    forall c | Waiter(t, c, key)
      ensures t.callers[c].result == Answer(t.builds[key])
    {
      WaiterIsOldOrWakes(s, a, c, key);
    }
  }

  lemma WaiterIsOldOrWakes(s: Server, a: Action, c: nat, key: string)
    requires Step(s, a).Some? && Waiter(Step(s, a).value, c, key)
    ensures (Waiter(s, c, key) && Step(s, a).value.callers[c] == s.callers[c])
         || (a == Wake(c) && key in s.builds && Step(s, a).value.callers[c].result == Answer(s.builds[key]))
  {
  }

  /** From then on no step changes the outcome, and everybody who waited is told the same. */
  lemma {:induction false} SealedForGood(s: Server, actions: seq<Action>, key: string)
    requires Invariant(s) && Run(s, actions).Some? && Sealed(s, key) && AllAgree(s, key)
    ensures var t := Run(s, actions).value; Sealed(t, key) && AllAgree(t, key) && SameOutcome(s, t, key)
    decreases |actions|
  {
    if actions != [] {
      var next := Step(s, actions[0]).value;
      InvariantAround(s, actions[0], key);
      SealedStays(s, actions[0], key);
      AgreementStays(s, actions[0], key);
      StepKeepsInvariant(s, actions[0]);
      SealedForGood(next, actions[1..], key);
    }
  }

  // ---------------------------------------------------------------- opening the barrier

  /** The request of whoever waits for an open barrier can be any start for this build. */
  ghost predicate NamedStarts(s: Server) {
    forall c | c in s.callers :: NamedStart(s.callers[c])
  }

  predicate NamedStart(caller: Caller) {
    match caller
    case StartCalled(r) => r.importPath != "" && r.buildID != ""
    case StartFound(r, _) => r.importPath != "" && r.buildID != ""
    case Waiting(r) => r.importPath != "" && r.buildID != ""
    case StartReturned(r, result) => result.InvalidStart? || (r.importPath != "" && r.buildID != "")
    case _ => true
  }

  ghost predicate CancelledIsDone(s: Server) {
    forall key | key in s.cancelled :: key in s.builds && s.builds[key].done
  }

  lemma StepKeepsNames(s: Server, a: Action)
    requires NamedStarts(s) && CancelledIsDone(s) && Step(s, a).Some?
    ensures NamedStarts(Step(s, a).value) && CancelledIsDone(Step(s, a).value)
  {
    var t := Step(s, a).value;
    if !a.Cancel? && a.c in s.callers { assert NamedStart(s.callers[a.c]); }
    forall c | c in t.callers ensures NamedStart(t.callers[c]) {
      if a.Cancel? || c != a.c { assert NamedStart(s.callers[c]); }
    }
  }

  lemma {:induction false} RunKeepsNames(s: Server, actions: seq<Action>)
    requires NamedStarts(s) && CancelledIsDone(s) && Run(s, actions).Some?
    ensures NamedStarts(Run(s, actions).value) && CancelledIsDone(Run(s, actions).value)
    decreases |actions|
  {
    if actions != [] {
      StepKeepsNames(s, actions[0]);
      RunKeepsNames(Step(s, actions[0]).value, actions[1..]);
    }
  }

  predicate WinnerIsClosing(s: Server, key: string) {
    && key in s.builds && s.builds[key].winner.Some? && s.builds[key].winner.value in s.callers
    && s.callers[s.builds[key].winner.value].Closing?
  }

  /**
   Cancelling a build that is still closed leaves a complete outcome exactly if the winner has only to
   open the barrier.
   */
  lemma CancelIsHarmlessExactly(s: Server, key: string)
    requires Invariant(s) && key !in s.cancelled && OnCancel(s, key).Some? && !s.builds[key].done
    ensures Sealed(OnCancel(s, key).value, key) <==> WinnerIsClosing(s, key)
  {
    assert GoodBuild(s, key, s.builds[key]);
    if s.builds[key].winner.Some? && s.callers[s.builds[key].winner.value].Copying? {
      var w := s.callers[s.builds[key].winner.value];
      var name :| name in w.todo;
      assert name !in Stored(key, w.finish.files.Keys - w.todo) && name in Stored(key, w.finish.files.Keys);
    }
  }

  /** Any other step that opens the barrier is the winner's last. */
  lemma ReleaseSeals(s: Server, a: Action, key: string)
    requires Around(s, a, key) && key !in s.cancelled && !s.builds[key].done
    requires Step(s, a).Some? && Step(s, a).value.builds[key].done && a != Cancel(key)
    ensures Sealed(Step(s, a).value, key)
  {
  }

  lemma NobodyWaited(s: Server, key: string)
    requires Invariant(s) && key in s.builds && key !in s.cancelled && !s.builds[key].done
    ensures forall c :: !Waiter(s, c, key)
  {
    forall c ensures !Waiter(s, c, key) {
      if c in s.callers { assert GoodCaller(s, c, s.callers[c]); }
    }
  }

  lemma OpeningReturnsNobody(s: Server, a: Action, key: string)
    requires Around(s, a, key) && (forall c :: !Waiter(s, c, key)) && !s.builds[key].done
    requires Step(s, a).Some? && Step(s, a).value.builds[key].done
    ensures forall c :: !Waiter(Step(s, a).value, c, key)
  {
    var t := Step(s, a).value;
    forall c ensures !Waiter(t, c, key) { assert !Waiter(s, c, key); }
  }

  /** In whatever way the run goes on, everybody who waits is told the same complete outcome. */
  ghost predicate WaitersAlwaysAgree(t: Server, key: string) {
    forall more, c | Run(t, more).Some? && Waiter(Run(t, more).value, c, key) ::
      && Sealed(Run(t, more).value, key) && SameOutcome(t, Run(t, more).value, key)
      && Run(t, more).value.callers[c].result == Answer(t.builds[key])
  }

  /** What opens the barrier leaves a complete outcome, unless it is a cancellation that came too early. */
  lemma OpeningSealsExactly(s: Server, a: Action, key: string)
    requires Invariant(s) && CancelledIsDone(s) && key in s.builds && !s.builds[key].done
    requires Step(s, a).Some? && Step(s, a).value.builds[key].done
    ensures Sealed(Step(s, a).value, key) <==> (a == Cancel(key) ==> WinnerIsClosing(s, key))
  {
    InvariantAround(s, a, key);
    if a == Cancel(key) { CancelIsHarmlessExactly(s, key); } else { ReleaseSeals(s, a, key); }
  }

  lemma NobodyWaitsYet(s: Server, a: Action, key: string)
    requires Invariant(s) && CancelledIsDone(s) && key in s.builds && !s.builds[key].done
    requires Step(s, a).Some? && Step(s, a).value.builds[key].done
    ensures forall c :: !Waiter(Step(s, a).value, c, key)
  {
    InvariantAround(s, a, key);
    NobodyWaited(s, key);
    OpeningReturnsNobody(s, a, key);
  }

  lemma ReachableIsNamed(s: Server)
    requires Reachable(s)
    ensures NamedStarts(s) && CancelledIsDone(s)
  {
    var actions :| Run(EMPTY, actions) == Some(s);
    RunKeepsNames(EMPTY, actions);
  }

  /**
   When the barrier of a build opens, all present and future waiters will be told the same
   complete outcome exactly if it was not a cancellation that came before the winner was done.
   */
  lemma WaitersAgreeExactly(s: Server, a: Action, key: string)
    requires Reachable(s) && key in s.builds && !s.builds[key].done
    requires Step(s, a).Some? && Step(s, a).value.builds[key].done
    ensures WaitersAlwaysAgree(Step(s, a).value, key) <==> (a == Cancel(key) ==> WinnerIsClosing(s, key))
  {
    var t := Step(s, a).value;
    ReachableKeepsInvariant(s);
    ReachableIsNamed(s);
    OpeningSealsExactly(s, a, key);
    StepKeepsInvariant(s, a);
    if Sealed(t, key) {
      NobodyWaitsYet(s, a, key);
      SealedMeansAgreement(t, key);
    } else {
      StepKeepsNames(s, a);
      InvariantAround(s, a, key);
      OpenHasToken(s, a, key);
      LaterWaiterDisagrees(t, key);
    }
  }

  lemma OpenHasToken(s: Server, a: Action, key: string)
    requires Around(s, a, key) && !s.builds[key].done
    requires Step(s, a).Some? && Step(s, a).value.builds[key].done
    ensures Step(s, a).value.builds[key].token != ""
  {
  }

  lemma SealedMeansAgreement(t: Server, key: string)
    requires Invariant(t) && Sealed(t, key) && forall c :: !Waiter(t, c, key)
    ensures WaitersAlwaysAgree(t, key)
  {
    forall more, c | Run(t, more).Some? && Waiter(Run(t, more).value, c, key)
      ensures Sealed(Run(t, more).value, key) && SameOutcome(t, Run(t, more).value, key)
      ensures Run(t, more).value.callers[c].result == Answer(t.builds[key])
    {
      SealedForGood(t, more, key);
    }
  }

  lemma LaterWaiterDisagrees(t: Server, key: string)
    requires Invariant(t) && NamedStarts(t) && key in t.builds && t.builds[key].done && t.builds[key].token != ""
    requires !Sealed(t, key)
    ensures !WaitersAlwaysAgree(t, key)
  {
    var more, c := NextWaiter(t, key);
    assert !Sealed(Run(t, more).value, key);
  }

  lemma FreshCaller(s: Server) returns (c: nat)
    ensures c !in s.callers
  {
    c := Above(s.callers.Keys);
  }

  /** A start for a build that exists finds it and waits. */
  lemma LateStart(t: Server, c: nat, r: StartRequest, uuid: string) returns (s1: Server, s2: Server, s3: Server)
    requires c !in t.callers && r.importPath != "" && r.buildID != "" && StartKey(r) in t.builds
    requires t.builds[StartKey(r)].token != "" && t.builds[StartKey(r)].buildID == r.buildID
    requires uuid != "" && uuid !in t.tokens
    ensures Step(t, CallStart(c, r)) == Some(s1) && Step(s1, LoadOrStore(c)) == Some(s2)
    ensures Step(s2, Initialise(c, uuid)) == Some(s3)
    ensures s3.builds == t.builds && s3.callers == t.callers[c := Waiting(r)]
  {
    s1 := At(t, c, StartCalled(r));
    s2 := At(t, c, StartFound(r, true));
    assert s1.callers[c := StartFound(r, true)] == s2.callers;
    var tokens := t.tokens + {t.builds[StartKey(r)].token};
    s3 := Set(s2, StartKey(r), t.builds[StartKey(r)], c, Waiting(r)).(tokens := tokens);
    assert s3.builds == t.builds && s3.callers == t.callers[c := Waiting(r)];
  }

  /** The next start for the build finds the barrier open and returns with whatever is there. */
  lemma NextWaiter(t: Server, key: string) returns (more: seq<Action>, c: nat)
    requires Invariant(t) && NamedStarts(t) && key in t.builds && t.builds[key].done && t.builds[key].token != ""
    ensures Run(t, more).Some? && Waiter(Run(t, more).value, c, key)
    ensures var u := Run(t, more).value;
            u.builds == t.builds && forall d | d in t.callers :: d in u.callers && u.callers[d] == t.callers[d]
  {
    var b := t.builds[key];
    assert GoodBuild(t, key, b) && NamedStart(t.callers[b.opener]);
    var r := t.callers[b.opener].start;
    c := FreshCaller(t);
    var uuid := LongerThanAll(t.tokens);
    more := [CallStart(c, r), LoadOrStore(c), Initialise(c, uuid), Wake(c)];
    var s1, s2, s3 := LateStart(t, c, r, uuid);
    FourSteps(t, more, s1, s2, s3);
    WakeReturns(s3, c, key);
  }

  lemma WakeReturns(s: Server, c: nat, key: string)
    requires c in s.callers && s.callers[c].Waiting? && StartKey(s.callers[c].start) == key
    requires key in s.builds && s.builds[key].done
    ensures Step(s, Wake(c)).Some? && Waiter(Step(s, Wake(c)).value, c, key)
    ensures var u := Step(s, Wake(c)).value;
            u.builds == s.builds
              && forall d | d in s.callers && d != c :: d in u.callers && u.callers[d] == s.callers[d]
  {
  }

  lemma FourSteps(t: Server, more: seq<Action>, s1: Server, s2: Server, s3: Server)
    requires |more| == 4 && Step(t, more[0]) == Some(s1) && Step(s1, more[1]) == Some(s2)
    requires Step(s2, more[2]) == Some(s3)
    ensures Run(t, more) == Step(s3, more[3])
  {
    assert Run(s3, more[3..]) == Step(s3, more[3]) by { assert more[3..][1..] == []; }
    assert Run(s2, more[2..]) == Step(s3, more[3]) by { assert more[2..][1..] == more[3..]; }
    assert Run(s1, more[1..]) == Step(s3, more[3]) by { assert more[1..][1..] == more[2..]; }
  }

  // ---------------------------------------------------------------- progress

  lemma {:induction false} WaitingStays(s: Server, actions: seq<Action>, c: nat)
    requires Run(s, actions).Some? && c in s.callers && (s.callers[c].Waiting? || s.callers[c].StartReturned?)
    ensures var t := Run(s, actions).value;
            c in t.callers && (t.callers[c] == s.callers[c] || t.callers[c].StartReturned?)
    decreases |actions|
  {
    if actions != [] { WaitingStays(Step(s, actions[0]).value, actions[1..], c); }
  }

  /**
   However the others interleave and whatever fails, a waiter has returned or can do so once the winner
   has had its turns.
   */
  lemma WaitersReturn(s: Server, actions: seq<Action>, key: string, c: nat)
    requires Invariant(s) && Run(s, actions).Some? && key in s.builds && s.builds[key].winner.Some?
    requires s.builds[key].winner.value in s.callers
    requires Turns(actions, s.builds[key].winner.value) >= Rank(s.callers[s.builds[key].winner.value])
    requires c in s.callers && s.callers[c].Waiting? && StartKey(s.callers[c].start) == key
    ensures var t := Run(s, actions).value;
            c in t.callers && (t.callers[c].StartReturned? || (t.callers[c] == s.callers[c] && Step(t, Wake(c)).Some?))
  {
    EveryPathReleases(s, actions, key);
    WaitingStays(s, actions, c);
  }
}
