/**
 Parsing the files of a package concurrently (internal/injector/parse/parser.go). One
 goroutine per file; they share a byte counter and the must-parse flag, which they read and
 write one atomic operation at a time, in any interleaving. When they are done, the files
 that were passed over are parsed as well, if any file needs it.
 */
module Parsing {
  import opened Wrappers
  import opened May
  import opened Syntax
  import opened Globstar
  import opened Join
  import opened Pruning
  import opened Weaving

  /** A package too big for the heuristic: 512 KiB. */
  const MAX_BYTES_EAGERNESS: nat := 524288

  datatype Source = Source(size: nat, context: FileContext)

  /** Where the goroutine of a file stands. */
  datatype Pc =
    | Reading
    | LoadFlag // the bytes are counted; about to load the flag
    | LoadBytes // the flag was clear; about to load the counter
    | Filtering
    | StoreFlag(list: seq<Aspect>)
    | Parsing(list: seq<Aspect>)
    | Missing // in the second round
    | Done
    | Failed

  /** `parsed[i]` is None as long as file i has no syntax tree; `late` in the second round. */
  datatype State = State(pcs: seq<Pc>, bytes: nat, flag: bool, parsed: seq<Option<seq<Aspect>>>, late: bool)

  function Filtered(aspects: seq<Aspect>, f: Source): seq<Aspect> {
    KeepForFile(aspects, f.context)
  }

  ghost predicate Init(files: seq<Source>, s: State) {
    && |s.pcs| == |s.parsed| == |files| && s.bytes == 0 && !s.flag && !s.late
    && forall i | 0 <= i < |files| :: s.pcs[i] == Reading && s.parsed[i] == None
  }

  function Goto(s: State, i: nat, pc: Pc): State
    requires i < |s.pcs|
  {
    s.(pcs := s.pcs[i := pc])
  }

  /** One atomic operation of the goroutine of file i. Reading or parsing a file may also fail. */
  ghost predicate Step(aspects: seq<Aspect>, files: seq<Source>, s: State, t: State, i: nat)
    requires |s.pcs| == |s.parsed| == |files| && i < |files|
  {
    match s.pcs[i]
    case Reading => t == Goto(s, i, LoadFlag).(bytes := s.bytes + files[i].size) || t == Goto(s, i, Failed)
    case LoadFlag => t == Goto(s, i, if s.flag then StoreFlag(aspects) else LoadBytes)
    case LoadBytes => t == Goto(s, i, if s.bytes > MAX_BYTES_EAGERNESS then StoreFlag(aspects) else Filtering)
    case Filtering =>
      || t == Goto(s, i, Failed)
      || t == Goto(s, i, if Filtered(aspects, files[i]) == [] then Done else StoreFlag(Filtered(aspects, files[i])))
    case StoreFlag(list) => t == Goto(s, i, Pc.Parsing(list)).(flag := true)
    case Parsing(list) => t == Goto(s, i, Failed) || t == Goto(s, i, Done).(parsed := s.parsed[i := Some(list)])
    case Missing => t == Goto(s, i, Failed) || t == Goto(s, i, Done).(parsed := s.parsed[i := Some([])])
    case Done => false
    case Failed => false
  }

  /** All goroutines succeeded and some file needs parsing: those without a syntax tree are up next. */
  ghost predicate SecondRound(s: State, t: State)
    requires |s.pcs| == |s.parsed|
  {
    && !s.late && (forall i | 0 <= i < |s.pcs| :: s.pcs[i] == Done) && HasApplicableAspects(s)
    && t == s.(late := true,
               pcs := seq(|s.pcs|, i requires 0 <= i < |s.parsed| => if s.parsed[i].None? then Missing else Done))
  }

  ghost predicate SomeStep(aspects: seq<Aspect>, files: seq<Source>, s: State, t: State)
    requires |s.pcs| == |s.parsed| == |files|
  {
    SecondRound(s, t) || exists i :: 0 <= i < |files| && Step(aspects, files, s, t, i)
  }

  /** An interleaving: any goroutine that is not finished may take the next step. */
  ghost predicate Run(aspects: seq<Aspect>, files: seq<Source>, states: seq<State>) {
    && states != [] && Init(files, states[0])
    && (forall k | 0 <= k < |states| :: |states[k].pcs| == |states[k].parsed| == |files|)
    && forall k | 0 <= k < |states| - 1 :: SomeStep(aspects, files, states[k], states[k + 1])
  }

  /** `wg.Wait` returned: every goroutine is finished. */
  predicate Finished(s: State) {
    forall i | 0 <= i < |s.pcs| :: s.pcs[i] == Done || s.pcs[i] == Failed
  }

  predicate HasApplicableAspects(s: State) {
    s.flag || s.bytes > MAX_BYTES_EAGERNESS
  }

  predicate SomeFailed(s: State) {
    exists i :: 0 <= i < |s.pcs| && s.pcs[i] == Failed
  }

  /** ParseFiles has returned. */
  predicate Returned(s: State) {
    Finished(s) && (SomeFailed(s) || !HasApplicableAspects(s) || s.late)
  }

  /** What ParseFiles returns: an error, nothing, or all files with their lists. */
  datatype Result = Error | Nothing | Files(lists: seq<seq<Aspect>>)

  function Outcome(s: State): Result {
    if SomeFailed(s) then Error
    else if !HasApplicableAspects(s) then Nothing
    else Files(seq(|s.parsed|, i requires 0 <= i < |s.parsed| => if s.parsed[i].Some? then s.parsed[i].value else []))
  }

  // ---------------------------------------------------------------- invariant

  function SumRead(files: seq<Source>, pcs: seq<Pc>): nat
    requires |files| == |pcs|
  {
    if files == [] then 0
    else SumRead(files[..|files| - 1], pcs[..|pcs| - 1])
         + if Counted(pcs[|pcs| - 1]) then files[|files| - 1].size else 0
  }

  /** Once a goroutine has counted its bytes it never forgets, except by failing. */
  predicate Counted(pc: Pc) {
    !pc.Reading? && !pc.Failed?
  }

  function Total(files: seq<Source>): nat {
    if files == [] then 0 else Total(files[..|files| - 1]) + files[|files| - 1].size
  }

  /** A list a file may be given. */
  predicate Allowed(aspects: seq<Aspect>, f: Source, list: seq<Aspect>) {
    list == aspects || list == Filtered(aspects, f)
  }

  /** A reason for all files to be parsed that does not depend on the schedule. */
  predicate MustParse(aspects: seq<Aspect>, files: seq<Source>) {
    Total(files) > MAX_BYTES_EAGERNESS || exists f :: f in files && Filtered(aspects, f) != []
  }

  ghost predicate Invariant(aspects: seq<Aspect>, files: seq<Source>, s: State) {
    && |s.pcs| == |s.parsed| == |files|
    && SumRead(files, s.pcs) <= s.bytes <= Total(files)
    && BytesLeft(files, s.pcs) + s.bytes <= Total(files)
    && (s.flag ==> MustParse(aspects, files)) && (s.late ==> HasApplicableAspects(s))
    && forall i | 0 <= i < |files| :: FileInvariant(aspects, files, s, i)
  }

  predicate FileInvariant(aspects: seq<Aspect>, files: seq<Source>, s: State, i: nat)
    requires |s.pcs| == |s.parsed| == |files| && i < |files|
  {
    && (s.pcs[i].StoreFlag? ==> Allowed(aspects, files[i], s.pcs[i].list) && MustParse(aspects, files))
    && (s.pcs[i].Parsing? ==> Allowed(aspects, files[i], s.pcs[i].list) && s.flag)
    && (s.pcs[i].Missing? ==> Filtered(aspects, files[i]) == [])
    && (s.parsed[i].Some? ==> Allowed(aspects, files[i], s.parsed[i].value) && s.pcs[i].Done?)
    && (s.pcs[i].Done? && s.parsed[i].None? ==> Filtered(aspects, files[i]) == [] && !s.late)
    && (s.pcs[i].Done? && Filtered(aspects, files[i]) != [] ==> s.flag)
    && (s.late ==> s.pcs[i].Missing? || s.pcs[i].Done? || s.pcs[i].Failed?)
  }

  /** Bytes of the files whose goroutine has yet to count them. */
  function BytesLeft(files: seq<Source>, pcs: seq<Pc>): nat
    requires |files| == |pcs|
  {
    if files == [] then 0
    else BytesLeft(files[..|files| - 1], pcs[..|pcs| - 1])
         + if pcs[|pcs| - 1].Reading? then files[|files| - 1].size else 0
  }

  lemma {:induction false} SumsAfterUpdate(files: seq<Source>, pcs: seq<Pc>, i: nat, pc: Pc)
    requires |files| == |pcs| && i < |pcs|
    ensures SumRead(files, pcs[i := pc]) == SumRead(files, pcs)
              - (if Counted(pcs[i]) then files[i].size else 0) + (if Counted(pc) then files[i].size else 0)
    ensures BytesLeft(files, pcs[i := pc]) == BytesLeft(files, pcs)
              - (if pcs[i].Reading? then files[i].size else 0) + (if pc.Reading? then files[i].size else 0)
    decreases |files|
  {
    var n := |files| - 1;
    if i == n {
      assert pcs[i := pc][..n] == pcs[..n];
    } else {
      SumsAfterUpdate(files[..n], pcs[..n], i, pc);
      assert pcs[i := pc][..n] == pcs[..n][i := pc];
    }
  }

  lemma {:induction false} SumsAtStart(files: seq<Source>, pcs: seq<Pc>)
    requires |files| == |pcs| && forall i | 0 <= i < |pcs| :: pcs[i] == Reading
    ensures SumRead(files, pcs) == 0 && BytesLeft(files, pcs) == Total(files)
  {
    if files != [] { SumsAtStart(files[..|files| - 1], pcs[..|pcs| - 1]); }
  }

  lemma {:induction false} SumsAtEnd(files: seq<Source>, pcs: seq<Pc>)
    requires |files| == |pcs| && forall i | 0 <= i < |pcs| :: Counted(pcs[i])
    ensures SumRead(files, pcs) == Total(files) && BytesLeft(files, pcs) == 0
  {
    if files != [] { SumsAtEnd(files[..|files| - 1], pcs[..|pcs| - 1]); }
  }

  lemma StepKeepsFiles(aspects: seq<Aspect>, files: seq<Source>, s: State, t: State, i: nat, j: nat)
    requires Invariant(aspects, files, s) && i < |files| && j < |files| && Step(aspects, files, s, t, i)
    ensures |t.pcs| == |t.parsed| == |files| && FileInvariant(aspects, files, t, j)
  {
    assert FileInvariant(aspects, files, s, i) && FileInvariant(aspects, files, s, j);
    if s.pcs[i].Filtering? { assert files[i] in files; }
  }

  lemma StepKeepsInvariant(aspects: seq<Aspect>, files: seq<Source>, s: State, t: State, i: nat)
    requires Invariant(aspects, files, s) && i < |files| && Step(aspects, files, s, t, i)
    ensures Invariant(aspects, files, t)
  {
    SumsAfterUpdate(files, s.pcs, i, t.pcs[i]);
    assert t.pcs == s.pcs[i := t.pcs[i]];
    assert FileInvariant(aspects, files, s, i);
    forall j | 0 <= j < |files|
      ensures FileInvariant(aspects, files, t, j)
    {
      StepKeepsFiles(aspects, files, s, t, i, j);
    }
  }

  lemma SecondRoundKeepsInvariant(aspects: seq<Aspect>, files: seq<Source>, s: State, t: State)
    requires Invariant(aspects, files, s) && SecondRound(s, t)
    ensures Invariant(aspects, files, t)
  {
    SumsAtEnd(files, s.pcs);
    SumsAtEnd(files, t.pcs);
    forall j | 0 <= j < |files| ensures FileInvariant(aspects, files, t, j) {
      assert FileInvariant(aspects, files, s, j);
    }
  }

  lemma InitialInvariant(aspects: seq<Aspect>, files: seq<Source>, s: State)
    requires Init(files, s)
    ensures Invariant(aspects, files, s)
  {
    SumsAtStart(files, s.pcs);
  }

  lemma {:induction false} RunKeepsInvariant(aspects: seq<Aspect>, files: seq<Source>, states: seq<State>, k: nat)
    requires Run(aspects, files, states) && k < |states|
    ensures Invariant(aspects, files, states[k])
  {
    if k == 0 {
      InitialInvariant(aspects, files, states[0]);
    } else {
      RunKeepsInvariant(aspects, files, states, k - 1);
      var j := k - 1;
      assert SomeStep(aspects, files, states[j], states[j + 1]);
      if SecondRound(states[j], states[k]) {
        SecondRoundKeepsInvariant(aspects, files, states[j], states[k]);
      } else {
        var i :| 0 <= i < |files| && Step(aspects, files, states[j], states[k], i);
        StepKeepsInvariant(aspects, files, states[j], states[k], i);
      }
    }
  }

  // ---------------------------------------------------------------- results

  /** Whether anything is parsed does not depend on the schedule. */
  lemma OutcomeIsScheduleIndependent(aspects: seq<Aspect>, files: seq<Source>, states: seq<State>)
    requires Run(aspects, files, states) && Returned(states[|states| - 1])
    ensures var s, r := states[|states| - 1], Outcome(states[|states| - 1]);
            && (r == Error <==> exists i :: 0 <= i < |files| && s.pcs[i] == Failed)
            && (r != Error ==> (r == Nothing <==> !MustParse(aspects, files)))
  {
    var s := states[|states| - 1];
    RunKeepsInvariant(aspects, files, states, |states| - 1);
    if Outcome(s) != Error {
      SumsAtEnd(files, s.pcs);
      if f :| f in files && Filtered(aspects, f) != [] {
        var i :| 0 <= i < |files| && files[i] == f;
        assert FileInvariant(aspects, files, s, i) && s.pcs[i] == Done;
      }
    }
  }

  /**
   All files are returned. A file has the full list or its filtered one, and so receives the
   same advice at a node exactly if the list is full or no aspect is a hazard in this file.
   */
  lemma ParsedFilesKeepInjectionExactly(env: Env, aspects: seq<Aspect>, files: seq<Source>, states: seq<State>,
                                        i: nat, pkg: PackageContext, c: Context)
    requires Run(aspects, files, states) && Returned(states[|states| - 1])
    requires Outcome(states[|states| - 1]).Files? && i < |files| && FromSource(c, pkg, files[i].context)
    ensures var lists := Outcome(states[|states| - 1]).lists;
            && |lists| == |files|
            && (Injected(env, lists[i], c) == Injected(env, aspects, c)
                <==> lists[i] == aspects || FileHazardFree(env, aspects, files[i].context, c))
  {
    var s := states[|states| - 1];
    RunKeepsInvariant(aspects, files, states, |states| - 1);
    assert FileInvariant(aspects, files, s, i) && s.pcs[i] == Done;
    FileFilterKeepsInjectionExactly(env, aspects, pkg, files[i].context, c);
  }

  /** When nothing is returned, a node would have received advice exactly from aspects that are hazards in its file. */
  lemma NothingMeansNoAdviceExactly(env: Env, aspects: seq<Aspect>, files: seq<Source>, states: seq<State>,
                                    i: nat, pkg: PackageContext, c: Context)
    requires Run(aspects, files, states) && Returned(states[|states| - 1])
    requires Outcome(states[|states| - 1]) == Nothing && i < |files| && FromSource(c, pkg, files[i].context)
    ensures Injected(env, aspects, c) == [] <==> FileHazardFree(env, aspects, files[i].context, c)
  {
    OutcomeIsScheduleIndependent(aspects, files, states);
    assert files[i] in files;
    FileFilterKeepsInjectionExactly(env, aspects, pkg, files[i].context, c);
  }

  // ---------------------------------------------------------------- which list a file has

  /** There was a reason to parse everything before this file's goroutine asked for one. */
  predicate KeepsAll(aspects: seq<Aspect>, s: State, i: nat) {
    && i < |s.pcs| == |s.parsed| && HasApplicableAspects(s)
    && match s.pcs[i]
       case Reading => true
       case LoadFlag => true
       case LoadBytes => s.bytes > MAX_BYTES_EAGERNESS
       case StoreFlag(list) => list == aspects
       case Parsing(list) => list == aspects
       case Done => s.parsed[i] == Some(aspects)
       case Failed => true
       case _ => false
  }

  lemma KeepsAllStays(aspects: seq<Aspect>, files: seq<Source>, s: State, t: State, i: nat)
    requires |s.pcs| == |s.parsed| == |files| && KeepsAll(aspects, s, i) && SomeStep(aspects, files, s, t)
    ensures KeepsAll(aspects, t, i)
  {
    if !SecondRound(s, t) {
      var j :| 0 <= j < |files| && Step(aspects, files, s, t, j);
    }
  }

  /** Whoever asks after a reason has turned up parses its file with all aspects. */
  lemma {:induction false} LateFilesKeepAll(aspects: seq<Aspect>, files: seq<Source>, states: seq<State>, k: nat,
                                            i: nat)
    requires Run(aspects, files, states) && k < |states| && i < |files| && KeepsAll(aspects, states[k], i)
    ensures KeepsAll(aspects, states[|states| - 1], i)
    ensures var r := Outcome(states[|states| - 1]);
            Returned(states[|states| - 1]) && r.Files? ==> i < |r.lists| && r.lists[i] == aspects
    decreases |states| - k
  {
    if k < |states| - 1 {
      assert SomeStep(aspects, files, states[k], states[k + 1]);
      KeepsAllStays(aspects, files, states[k], states[k + 1], i);
      LateFilesKeepAll(aspects, files, states, k + 1, i);
    } else {
      assert states[k] == states[|states| - 1];
    }
  }

  /** No file but this can give a reason to parse. */
  predicate Alone(aspects: seq<Aspect>, files: seq<Source>, i: nat) {
    && i < |files| && Total(files) <= MAX_BYTES_EAGERNESS
    && forall j | 0 <= j < |files| && j != i :: Filtered(aspects, files[j]) == []
  }

  predicate Undisturbed(aspects: seq<Aspect>, files: seq<Source>, s: State, i: nat)
    requires i < |files| == |s.pcs| == |s.parsed|
  {
    && (!s.pcs[i].Parsing? && !s.pcs[i].Done? && !s.pcs[i].Failed? && !s.pcs[i].Missing? ==> Quiet(s, i))
    && (s.pcs[i].Done? && s.parsed[i].None? ==> Filtered(aspects, files[i]) == [] && Quiet(s, i))
    && (s.pcs[i].StoreFlag? || s.pcs[i].Parsing? ==> s.pcs[i].list == Filtered(aspects, files[i]))
    && (s.pcs[i].Missing? ==> Filtered(aspects, files[i]) == [])
    && (s.parsed[i].Some? ==> s.parsed[i].value == Filtered(aspects, files[i]))
  }

  /** The flag is clear, and no other goroutine is about to set it. */
  predicate Quiet(s: State, i: nat) {
    !s.flag && forall j | 0 <= j < |s.pcs| && j != i :: !s.pcs[j].StoreFlag?
  }

  lemma UndisturbedStays(aspects: seq<Aspect>, files: seq<Source>, s: State, t: State, i: nat)
    requires Alone(aspects, files, i) && Invariant(aspects, files, s) && Undisturbed(aspects, files, s, i)
    requires SomeStep(aspects, files, s, t)
    ensures |t.pcs| == |t.parsed| == |files| && Undisturbed(aspects, files, t, i)
  {
    if !SecondRound(s, t) {
      var j :| 0 <= j < |files| && Step(aspects, files, s, t, j);
      if j == i {
        OwnStepIsUndisturbed(aspects, files, s, t, i);
      } else {
        OtherStepIsUndisturbed(aspects, files, s, t, i, j);
      }
    }
  }

  lemma OwnStepIsUndisturbed(aspects: seq<Aspect>, files: seq<Source>, s: State, t: State, i: nat)
    requires |s.pcs| == |s.parsed| == |files| && s.bytes <= Total(files)
    requires Alone(aspects, files, i) && Undisturbed(aspects, files, s, i) && Step(aspects, files, s, t, i)
    ensures |t.pcs| == |t.parsed| == |files| && Undisturbed(aspects, files, t, i)
  {
    assert forall j | 0 <= j < |files| && j != i :: t.pcs[j] == s.pcs[j];
  }

  lemma OtherStepIsQuiet(aspects: seq<Aspect>, files: seq<Source>, s: State, t: State, i: nat, j: nat)
    requires |s.pcs| == |s.parsed| == |files| && s.bytes <= Total(files) && j < |files| && j != i
    requires Alone(aspects, files, i) && Quiet(s, i) && Step(aspects, files, s, t, j)
    ensures |t.pcs| == |files| && Quiet(t, i)
  {
    assert t.pcs == s.pcs[j := t.pcs[j]];
    assert Filtered(aspects, files[j]) == [];
  }

  lemma OtherStepIsUndisturbed(aspects: seq<Aspect>, files: seq<Source>, s: State, t: State, i: nat, j: nat)
    requires |s.pcs| == |s.parsed| == |files| && s.bytes <= Total(files) && j < |files| && j != i
    requires Alone(aspects, files, i) && Undisturbed(aspects, files, s, i) && Step(aspects, files, s, t, j)
    ensures |t.pcs| == |t.parsed| == |files| && Undisturbed(aspects, files, t, i)
  {
    assert t.pcs[i] == s.pcs[i] && t.parsed[i] == s.parsed[i];
    if Quiet(s, i) { OtherStepIsQuiet(aspects, files, s, t, i, j); }
  }

  lemma {:induction false} RunIsUndisturbed(aspects: seq<Aspect>, files: seq<Source>, states: seq<State>, i: nat,
                                            k: nat)
    requires Run(aspects, files, states) && Alone(aspects, files, i) && k < |states|
    ensures Undisturbed(aspects, files, states[k], i)
  {
    if k > 0 {
      RunIsUndisturbed(aspects, files, states, i, k - 1);
      RunKeepsInvariant(aspects, files, states, k - 1);
      assert SomeStep(aspects, files, states[k - 1], states[k - 1 + 1]);
      UndisturbedStays(aspects, files, states[k - 1], states[k], i);
    }
  }

  /** In a small package in which one file alone may match, this has the filtered list, whatever the schedule. */
  lemma LoneFileIsFiltered(aspects: seq<Aspect>, files: seq<Source>, states: seq<State>, i: nat)
    requires Run(aspects, files, states) && Alone(aspects, files, i) && Filtered(aspects, files[i]) != []
    requires Returned(states[|states| - 1])
    ensures var r := Outcome(states[|states| - 1]);
            r != Error ==> r.Files? && i < |r.lists| && r.lists[i] == Filtered(aspects, files[i])
  {
    var s := states[|states| - 1];
    OutcomeIsScheduleIndependent(aspects, files, states);
    RunIsUndisturbed(aspects, files, states, i, |states| - 1);
    assert files[i] in files;
  }

  /** Steps a goroutine has left at most. */
  function Rank(pc: Pc): nat {
    match pc
    case Reading => 6
    case LoadFlag => 5
    case LoadBytes => 4
    case Filtering => 3
    case StoreFlag(_) => 2
    case Parsing(_) => 1
    case Missing => 1
    case _ => 0
  }

  lemma StepComesCloser(aspects: seq<Aspect>, files: seq<Source>, s: State, t: State, i: nat)
    requires |s.pcs| == |s.parsed| == |files| && i < |files| && Step(aspects, files, s, t, i)
    ensures |t.pcs| == |s.pcs| && Rank(t.pcs[i]) < Rank(s.pcs[i]) && t.pcs == s.pcs[i := t.pcs[i]]
  {
  }

  /** No goroutine waits for another: an unfinished one can always step, and every step brings it closer to its end. */
  lemma GoroutinesEnd(aspects: seq<Aspect>, files: seq<Source>, s: State, i: nat)
    requires |s.pcs| == |s.parsed| == |files| && i < |files|
    ensures Rank(s.pcs[i]) > 0 <==> exists t :: Step(aspects, files, s, t, i)
    ensures forall t | Step(aspects, files, s, t, i) ::
              |t.pcs| == |s.pcs| && Rank(t.pcs[i]) < Rank(s.pcs[i]) && t.pcs == s.pcs[i := t.pcs[i]]
  {
    forall t | Step(aspects, files, s, t, i)
      ensures |t.pcs| == |s.pcs| && Rank(t.pcs[i]) < Rank(s.pcs[i]) && t.pcs == s.pcs[i := t.pcs[i]]
    {
      StepComesCloser(aspects, files, s, t, i);
    }
    if Rank(s.pcs[i]) > 0 {
      var t := match s.pcs[i]
        case Reading => Goto(s, i, Failed)
        case LoadFlag => Goto(s, i, if s.flag then StoreFlag(aspects) else LoadBytes)
        case LoadBytes => Goto(s, i, if s.bytes > MAX_BYTES_EAGERNESS then StoreFlag(aspects) else Filtering)
        case Filtering => Goto(s, i, Failed)
        case StoreFlag(list) => Goto(s, i, Pc.Parsing(list)).(flag := true)
        case Parsing(_) => Goto(s, i, Failed)
        case Missing => Goto(s, i, Failed)
        case _ => s;
      assert Step(aspects, files, s, t, i);
    }
  }

  /** Whoever has not returned can go on, and the second round comes once. */
  lemma ParseFilesGoesOn(aspects: seq<Aspect>, files: seq<Source>, s: State)
    requires |s.pcs| == |s.parsed| == |files|
    ensures !Returned(s) ==> exists t :: SomeStep(aspects, files, s, t)
    ensures forall t | SecondRound(s, t) :: !s.late && t.late
  {
    if i :| 0 <= i < |files| && s.pcs[i] != Done && s.pcs[i] != Failed {
      GoroutinesEnd(aspects, files, s, i);
      var t :| Step(aspects, files, s, t, i);
      assert SomeStep(aspects, files, s, t);
    } else if !Returned(s) {
      var pcs := seq(|s.pcs|, i requires 0 <= i < |s.parsed| => if s.parsed[i].None? then Missing else Done);
      assert SecondRound(s, s.(late := true, pcs := pcs));
      assert SomeStep(aspects, files, s, s.(late := true, pcs := pcs));
    }
  }
}
