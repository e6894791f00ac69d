/**
 What becomes of a call (internal/jobserver/nbt/nbt.go): who may build, which finish is taken,
 and what it is told, however the other calls interleave.
 */
module Finishing {
  import opened Wrappers
  import opened Fresh
  import opened Nbt
  import Publication

  // ---------------------------------------------------------------- starts

  /**
   The first start for a build is given a token of its own, any later one waits, or is turned away if the
   key was made from another build ID.
   */
  lemma StartIsAnswered(s: Server, c: nat, r: StartRequest, uuid: string)
    requires c !in s.callers && uuid != "" && uuid !in s.tokens
    requires r.importPath != "" && r.buildID != ""
    ensures var t, n := Run(s, [CallStart(c, r), LoadOrStore(c), Initialise(c, uuid)]), StartKey(r);
            t.Some? && if n in s.builds then Later(s, t.value, c, r, n) else First(s, t.value, c, r, n, uuid)
  {
    var s1 := At(s, c, StartCalled(r));
    var s2 := OnLoadOrStore(s1, c).value;
    ThreeSteps(s, CallStart(c, r), LoadOrStore(c), Initialise(c, uuid), s1, s2);
    if StartKey(r) in s.builds { LaterIsAnswered(s, c, r, uuid); } else { FirstIsAnswered(s, c, r, uuid); }
  }

  predicate First(s: Server, t: Server, c: nat, r: StartRequest, n: string, uuid: string) {
    && t.callers == s.callers[c := StartReturned(r, Token(uuid))]
    && n in t.builds && t.builds == s.builds[n := t.builds[n]]
    && t.builds[n].token == uuid && t.builds[n].buildID == r.buildID && !t.builds[n].isDone && !t.builds[n].done
  }

  predicate Later(s: Server, t: Server, c: nat, r: StartRequest, n: string)
    requires n in s.builds
  {
    && t.callers ==
       s.callers[c := if s.builds[n].buildID == r.buildID then Waiting(r) else StartReturned(r, Mismatch)]
    && n in t.builds && t.builds[n].token != "" && t.builds == s.builds[n := s.builds[n].(token := t.builds[n].token)]
    && (s.builds[n].token != "" ==> t.builds == s.builds)
  }

  lemma FirstIsAnswered(s: Server, c: nat, r: StartRequest, uuid: string)
    requires uuid != "" && uuid !in s.tokens && StartKey(r) !in s.builds
    ensures var s2 := OnLoadOrStore(At(s, c, StartCalled(r)), c).value;
            var t := OnInitialise(s2, c, uuid); t.Some? && First(s, t.value, c, r, StartKey(r), uuid)
  {
  }

  lemma LaterIsAnswered(s: Server, c: nat, r: StartRequest, uuid: string)
    requires uuid != "" && uuid !in s.tokens && StartKey(r) in s.builds
    ensures var s2 := OnLoadOrStore(At(s, c, StartCalled(r)), c).value;
            var t := OnInitialise(s2, c, uuid); t.Some? && Later(s, t.value, c, r, StartKey(r))
  {
  }

  lemma ThreeSteps(s: Server, a: Action, b: Action, c: Action, s1: Server, s2: Server)
    requires Step(s, a) == Some(s1) && Step(s1, b) == Some(s2)
    ensures Run(s, [a, b, c]) == Step(s2, c)
  {
    assert [a, b, c][1..] == [b, c] && [b, c][1..] == [c] && [c][1..] == [];
    assert Run(s2, [c]) == Step(s2, c);
    assert Run(s1, [b, c]) == Step(s2, c);
  }

  // ---------------------------------------------------------------- the token is taken

  /**
   A finish that presents the token of its build, whatever its files and error, wins unless the build is done,
   and then it is told so.
   */
  lemma PresentedTokenIsTaken(s: Server, c: nat, r: FinishRequest)
    requires Invariant(s) && c !in s.callers && Named(r)
    requires FinishKey(r) in s.builds && s.builds[FinishKey(r)].token == r.finishToken
    ensures var t, b := Run(s, [CallFinish(c, r), Load(c), CheckToken(c), CompareAndSwap(c)]), s.builds[FinishKey(r)];
            && t.Some?
            && t.value == if b.isDone then At(s, c, FinishReturned(r, AlreadyDone))
                          else Set(s, FinishKey(r), b.(isDone := true, winner := Some(c)), c, Won(r))
  {
    var steps := [CallFinish(c, r), Load(c), CheckToken(c), CompareAndSwap(c)];
    var s1, s2, s3 := TokenIsMatched(s, c, r);
    ThreeSteps(s1, steps[1], steps[2], steps[3], s2, s3);
    assert steps[1..] == [Load(c), CheckToken(c), CompareAndSwap(c)];
    assert Run(s, steps) == Step(s3, CompareAndSwap(c));
    AtTwice(s, c, TokenMatched(r), Won(r));
    AtTwice(s, c, TokenMatched(r), FinishReturned(r, AlreadyDone));
  }

  lemma AtTwice(s: Server, c: nat, x: Caller, y: Caller)
    ensures At(At(s, c, x), c, y) == At(s, c, y)
  {
    assert s.callers[c := x][c := y] == s.callers[c := y];
  }

  lemma TokenIsMatched(s: Server, c: nat, r: FinishRequest) returns (s1: Server, s2: Server, s3: Server)
    requires c !in s.callers && Named(r)
    requires FinishKey(r) in s.builds && s.builds[FinishKey(r)].token == r.finishToken
    ensures Step(s, CallFinish(c, r)) == Some(s1) && Step(s1, Load(c)) == Some(s2)
    ensures Step(s2, CheckToken(c)) == Some(s3) && s3 == At(s, c, TokenMatched(r))
  {
    s1, s2, s3 := At(s, c, FinishCalled(r)), At(s, c, FinishFound(r)), At(s, c, TokenMatched(r));
    AtTwice(s, c, FinishCalled(r), FinishFound(r));
    AtTwice(s, c, FinishFound(r), TokenMatched(r));
  }

  /** Any other finish is refused, each for its own reason, and leaves the builds as they are. */
  lemma OthersAreRefused(s: Server, c: nat, r: FinishRequest)
    requires c !in s.callers && !(FinishKey(r) in s.builds && s.builds[FinishKey(r)].token == r.finishToken && Named(r))
    ensures Run(s, RefusedSteps(s, c, r)) == Some(At(s, c, FinishReturned(r,
              if r.importPath == "" || r.buildID == "" || r.finishToken == "" then InvalidFinish
              else if FinishKey(r) !in s.builds then NotStarted else WrongToken)))
  {
    var s1, s2 := At(s, c, FinishCalled(r)), At(s, c, FinishFound(r));
    var steps := RefusedSteps(s, c, r);
    AtTwice(s, c, FinishCalled(r), FinishFound(r));
    AtTwice(s, c, FinishCalled(r), FinishReturned(r, NotStarted));
    AtTwice(s, c, FinishFound(r), FinishReturned(r, WrongToken));
    if |steps| == 3 {
      ThreeSteps(s, steps[0], steps[1], steps[2], s1, s2);
    } else if |steps| == 2 {
      assert steps[1..] == [Load(c)] && [Load(c)][1..] == [];
      assert Run(s1, [Load(c)]) == Step(s1, Load(c));
    } else {
      assert steps[1..] == [];
    }
  }

  function RefusedSteps(s: Server, c: nat, r: FinishRequest): seq<Action> {
    if !Named(r) then [CallFinish(c, r)]
    else if FinishKey(r) !in s.builds then [CallFinish(c, r), Load(c)]
    else [CallFinish(c, r), Load(c), CheckToken(c)]
  }

  // ---------------------------------------------------------------- whatever the others do

  /** The call is a finish that presents the token of its build. */
  predicate Presenting(s: Server, c: nat, r: FinishRequest) {
    && FinishKey(r) in s.builds && Presents(r, FinishKey(r), s.builds[FinishKey(r)]) && Named(r) && c in s.callers
    && match s.callers[c]
       case FinishCalled(f) => f == r
       case FinishFound(f) => f == r
       case TokenMatched(f) => f == r
       case Won(f) => f == r
       case Copying(f, _) => f == r
       case Closing(f, _) => f == r
       case FinishReturned(f, o) => f == r && (o.AlreadyDone? || o.Accepted? || o.Rejected?)
       case _ => false
  }

  /** How many of its own steps it still takes at most. */
  function Left(caller: Caller): nat {
    match caller
    case FinishCalled(r) => |r.files| + 5
    case FinishFound(r) => |r.files| + 4
    case TokenMatched(r) => |r.files| + 3
    case _ => Rank(caller)
  }

  lemma PresentingStays(s: Server, a: Action, c: nat, r: FinishRequest)
    requires Around(s, a, FinishKey(r)) && Step(s, a).Some? && Presenting(s, c, r)
    requires GoodCaller(s, c, s.callers[c])
    ensures Presenting(Step(s, a).value, c, r)
    ensures Left(Step(s, a).value.callers[c]) <= Left(s.callers[c]) - (if !a.Cancel? && a.c == c then 1 else 0)
  {
    if !a.Cancel? && a.c == c {
      OwnStepPresents(s, a, r);
    } else {
      OtherStepPresents(s, a, c, r);
    }
  }

  lemma OwnStepPresents(s: Server, a: Action, r: FinishRequest)
    requires Around(s, a, FinishKey(r)) && Step(s, a).Some? && !a.Cancel? && Presenting(s, a.c, r)
    requires GoodCaller(s, a.c, s.callers[a.c])
    ensures Presenting(Step(s, a).value, a.c, r)
    ensures Left(Step(s, a).value.callers[a.c]) < Left(s.callers[a.c])
  {
    if a.Record? { assert |r.files.Keys| == |r.files|; }
  }

  lemma OtherStepPresents(s: Server, a: Action, c: nat, r: FinishRequest)
    requires Around(s, a, FinishKey(r)) && Step(s, a).Some? && (a.Cancel? || a.c != c) && Presenting(s, c, r)
    ensures Presenting(Step(s, a).value, c, r) && Step(s, a).value.callers[c] == s.callers[c]
  {
  }

  /** A call that has not returned can take its next step, unless it is a start that waits. */
  lemma CallCanStep(s: Server, c: nat) returns (a: Action)
    requires Invariant(s) && c in s.callers && !s.callers[c].StartReturned? && !s.callers[c].FinishReturned?
    requires s.callers[c].Waiting? ==> s.builds[StartKey(s.callers[c].start)].done
    ensures !a.Cancel? && a.c == c && Step(s, a).Some?
  {
    assert GoodCaller(s, c, s.callers[c]);
    match s.callers[c]
    case StartCalled(_) => a := LoadOrStore(c);
    case StartFound(_, _) =>
      var uuid := LongerThanAll(s.tokens);
      a := Initialise(c, uuid);
    case Waiting(_) => a := Wake(c);
    case _ => a := FinishCanStep(s, c);
  }

  lemma FinishCanStep(s: Server, c: nat) returns (a: Action)
    requires Invariant(s) && c in s.callers && !s.callers[c].FinishReturned?
    requires s.callers[c].FinishCalled? || s.callers[c].FinishFound? || s.callers[c].TokenMatched? || s.callers[c].Won?
             || s.callers[c].Copying? || s.callers[c].Closing?
    ensures !a.Cancel? && a.c == c && Step(s, a).Some?
  {
    assert GoodCaller(s, c, s.callers[c]);
    match s.callers[c]
    case FinishCalled(_) => a := Load(c);
    case FinishFound(_) => a := CheckToken(c);
    case TokenMatched(_) => a := CompareAndSwap(c);
    case Won(_) => a := Record(c, true);
    case Copying(r, todo) =>
      assert GoodBuild(s, FinishKey(r), s.builds[FinishKey(r)]);
      var name :| name in todo;
      a := Copy(c, name, true);
    case Closing(_, _) => a := Release(c);
  }

  /** None of the call's own file operations fails. */
  predicate Smooth(actions: seq<Action>, c: nat) {
    forall i | 0 <= i < |actions| ::
      && (actions[i].Record? && actions[i].c == c ==> actions[i].mkdir)
      && (actions[i].Copy? && actions[i].c == c ==> actions[i].copied)
  }

  /** What a finish that publishes will be told, if its remaining file operations go like this. */
  predicate WillAccept(caller: Caller, smooth: bool) {
    match caller
    case Copying(_, _) => smooth
    case Closing(_, o) => o.Accepted?
    case FinishReturned(_, o) => o.Accepted?
    case StartCalled(_) => false
    case StartFound(_, _) => false
    case Waiting(_) => false
    case StartReturned(_, _) => false
    case _ => caller.finish.error.Some? || (caller.finish.files != map[] && smooth)
  }

  lemma WillAcceptStays(s: Server, a: Action, c: nat, r: FinishRequest, smooth: bool)
    requires Around(s, a, FinishKey(r)) && Step(s, a).Some? && Presenting(s, c, r)
    requires var next := Step(s, a).value.callers[c];
             && !(next.FinishReturned? && next.outcome.AlreadyDone?)
             && (next.Closing? || next.FinishReturned? ==> smooth)
    ensures WillAccept(s.callers[c], Smooth([a], c) && smooth) ==
            WillAccept(Step(s, a).value.callers[c], smooth)
  {
    assert [a][0] == a;
    if a.Cancel? || a.c != c { OtherStepPresents(s, a, c, r); }
  }

  /** What has come of a finish that presented the token of its build. */
  predicate Heard(t: Server, c: nat, r: FinishRequest, accepts: bool) {
    var key := FinishKey(r);
    && c in t.callers && t.callers[c].FinishReturned? && t.callers[c].finish == r
    && key in t.builds && t.builds[key].isDone
    && var o, b := t.callers[c].outcome, t.builds[key];
       if o.AlreadyDone? then b.winner != Some(c)
       else b.winner == Some(c) && b.done && Told(o, r, b) && (o.Accepted? <==> accepts)
            && (b.error.None? ==> b.files == Stored(key, r.files.Keys))
  }

  /**
   A finish that presents the token of its build is heard: after that many steps of its own it has returned,
   and nobody has to wait on its account. Unless another finish was first, starts are told of its error, or
   given all of its files exactly if it has some and every file operation succeeded.
   */
  lemma {:induction false} PresenterIsHeard(s: Server, actions: seq<Action>, c: nat, r: FinishRequest)
    requires Invariant(s) && Run(s, actions).Some? && Presenting(s, c, r)
    requires Turns(actions, c) >= Left(s.callers[c])
    ensures Heard(Run(s, actions).value, c, r, WillAccept(s.callers[c], Smooth(actions, c)))
    decreases |actions|
  {
    if actions == [] {
      assert GoodCaller(s, c, s.callers[c]) && GoodBuild(s, FinishKey(r), s.builds[FinishKey(r)]);
    } else {
      var next := Step(s, actions[0]).value;
      InvariantAround(s, actions[0], FinishKey(r));
      assert GoodCaller(s, c, s.callers[c]);
      PresentingStays(s, actions[0], c, r);
      StepKeepsInvariant(s, actions[0]);
      PresenterIsHeard(next, actions[1..], c, r);
      SmoothSplits(actions, c);
      if next.callers[c].FinishReturned? || next.callers[c].Closing? { ClosedIsSmooth(next, actions[1..], c); }
      if !(next.callers[c].FinishReturned? && next.callers[c].outcome.AlreadyDone?) {
        WillAcceptStays(s, actions[0], c, r, Smooth(actions[1..], c));
      }
    }
  }

  /** After its last file operation there is none to fail. */
  lemma {:induction false} ClosedIsSmooth(s: Server, actions: seq<Action>, c: nat)
    requires Run(s, actions).Some? && c in s.callers && (s.callers[c].FinishReturned? || s.callers[c].Closing?)
    ensures Smooth(actions, c)
    ensures var t := Run(s, actions).value;
            c in t.callers && (s.callers[c].FinishReturned? ==> t.callers[c] == s.callers[c])
    decreases |actions|
  {
    if actions != [] {
      ClosedIsSmooth(Step(s, actions[0]).value, actions[1..], c);
      SmoothSplits(actions, c);
      assert [actions[0]][0] == actions[0];
    }
  }

  lemma SmoothSplits(actions: seq<Action>, c: nat)
    requires actions != []
    ensures Smooth(actions, c) <==> Smooth([actions[0]], c) && Smooth(actions[1..], c)
  {
    assert [actions[0]][0] == actions[0];
    assert forall i | 0 < i < |actions| :: actions[i] == actions[1..][i - 1];
    assert forall i | 0 <= i < |actions| - 1 :: actions[1..][i] == actions[i + 1];
  }

  // ---------------------------------------------------------------- what the answers mean

  /** A finish is told that it was taken, now or before, only if it presents the token of a build that is done. */
  lemma FinishAnswersAreTrue(t: Server, c: nat)
    requires Reachable(t) && c in t.callers && t.callers[c].FinishReturned?
    ensures var r, o := t.callers[c].finish, t.callers[c].outcome;
            && (o.InvalidFinish? <==> !Named(r))
            && (o.AlreadyDone? || o.Accepted? || o.Rejected? ==>
                  && FinishKey(r) in t.builds && Presents(r, FinishKey(r), t.builds[FinishKey(r)])
                  && t.builds[FinishKey(r)].isDone)
            && (o.Accepted? || o.Rejected? ==>
                  t.builds[FinishKey(r)].done && Told(o, r, t.builds[FinishKey(r)])
                  && forall d | d in t.callers && d != c && t.callers[d].FinishReturned?
                       && FinishKey(t.callers[d].finish) == FinishKey(r) ::
                       !t.callers[d].outcome.Accepted? && !t.callers[d].outcome.Rejected?)
  {
    ReachableKeepsInvariant(t);
    assert GoodCaller(t, c, t.callers[c]);
    var r, o := t.callers[c].finish, t.callers[c].outcome;
    if o.Accepted? || o.Rejected? || o.AlreadyDone? {
      assert GoodBuild(t, FinishKey(r), t.builds[FinishKey(r)]);
      forall d | d in t.callers && t.callers[d].FinishReturned? && FinishKey(t.callers[d].finish) == FinishKey(r)
        && (t.callers[d].outcome.Accepted? || t.callers[d].outcome.Rejected?)
        ensures t.builds[FinishKey(r)].winner == Some(d)
      {
        assert GoodCaller(t, d, t.callers[d]);
      }
    }
  }

  /**
   A client skips the compilation exactly if somebody else was told to build this, published without error, and
   the artifacts could be copied; it fails with the error that was published.
   */
  lemma CompilationIsSkippedExactly(t: Server, c: nat, importCfg: string, disk: Disk)
    requires Reachable(t) && c in t.callers && t.callers[c].StartReturned? && importCfg != ""
    requires !t.callers[c].result.InvalidStart? && StartKey(t.callers[c].start) !in t.cancelled
    ensures var r := t.callers[c].start;
            StartKey(r) in t.builds
            && var b, parsed := t.builds[StartKey(r)], ParseCompileCommand(importCfg, t.callers[c].result, disk);
               var waited := b.opener != c && b.buildID == r.buildID;
               && (parsed == Ok(None) <==> waited && b.error.None? && disk.artifactsCopied)
               && (waited && b.error.Some? ==> parsed == Err(b.error.value))
  {
    ReachableKeepsInvariant(t);
    assert GoodCaller(t, c, t.callers[c]);
    var k := StartKey(t.callers[c].start);
    assert GoodBuild(t, k, t.builds[k]);
    if t.builds[k].done { DoneIsSettled(t, k); }
  }

  /**
   What the client that was told to build reports once its command is closed wins, so that what it made, or its
   error, is what all other starts will be told, unless the token was presented before.
   */
  lemma BuildersReportIsTaken(t: Server, c: nat, d: nat, outputs: Files, cmdErr: Option<string>)
    requires Reachable(t) && c in t.callers && t.callers[c].StartReturned? && t.callers[c].result.Token?
    requires d !in t.callers
    ensures var r := t.callers[c].start;
            var f := OnClose(Command(t.callers[c].result.token), r.importPath, r.buildID, outputs, cmdErr, true);
            && f.Some? && Reports(f.value, outputs, cmdErr) && StartKey(r) in t.builds
            && var u := Run(t, [CallFinish(d, f.value), Load(d), CheckToken(d), CompareAndSwap(d)]);
               u.Some? && d in u.value.callers
               && u.value.callers[d] ==
                  if t.builds[StartKey(r)].isDone then FinishReturned(f.value, AlreadyDone) else Won(f.value)
  {
    ReachableKeepsInvariant(t);
    Publication.ReachableIsNamed(t);
    assert GoodCaller(t, c, t.callers[c]) && Publication.NamedStart(t.callers[c]);
    var r := t.callers[c].start;
    assert GoodBuild(t, StartKey(r), t.builds[StartKey(r)]);
    var f := OnClose(Command(t.callers[c].result.token), r.importPath, r.buildID, outputs, cmdErr, true).value;
    PresentedTokenIsTaken(t, d, f);
  }
}
