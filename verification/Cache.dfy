/**
 A cache in front of a loader (internal/jobserver/common/cache.go), loaded from many
 goroutines at once. While it loads one key, a loader may itself load another, as the
 resolution of a test variant does for the ordinary package (internal/jobserver/pkgs/resolve.go).
 */
module Cache {
  import opened Wrappers

  type Outcome = Result<string, string>

  /** Where a Load call stands. Slots are known by the order in which they were allocated. */
  datatype Phase =
    | Looking
    | Missing
    | Locking(slot: nat)
    | Holding(slot: nat)
    | Loading(slot: nat, got: Option<Outcome>) // what the inner load returned, if there was one

  datatype Frame = Frame(key: string, phase: Phase)

  datatype Thread = Active(outer: Frame, inner: Option<Frame>) | Returned(key: string, result: Outcome)

  /** A call is a thread and whether it is the inner one. */
  type CallId = (nat, bool)

  datatype Slot = Slot(key: string, holder: Option<CallId>, value: Option<string>)

  /** A completed run of a loader. */
  datatype Event = Event(key: string, thread: nat, result: Outcome)

  /** `counted`, `hitters` and `log` record what happened; no step reads them. */
  datatype State = State(
    data: map<string, nat>, slots: seq<Slot>, threads: map<nat, Thread>, total: nat, hits: nat,
    counted: set<CallId>, hitters: set<CallId>, log: seq<Event>)

  const EMPTY := State(map[], [], map[], 0, 0, {}, {}, [])

  /** Which key the loader of a key loads first, if any. */
  type Nesting = string -> Option<string>

  /** An ordinary resolution does not nest another one. */
  ghost predicate OneLevel(nested: Nesting) {
    forall k :: nested(k).Some? ==> nested(nested(k).value).None?
  }

  datatype Action =
    | Call(c: nat, key: string)
    | Look(c: nat)
    | Allocate(c: nat)
    | Lock(c: nat)
    | Check(c: nat)
    | Nest(c: nat)
    | Finish(c: nat, result: Outcome)

  predicate IsActive(s: State, c: nat) {
    c in s.threads && s.threads[c].Active?
  }

  function TopId(c: nat, t: Thread): CallId
    requires t.Active?
  {
    (c, t.inner.Some?)
  }

  function Top(t: Thread): Frame
    requires t.Active?
  {
    if t.inner.Some? then t.inner.value else t.outer
  }

  function WithTop(t: Thread, phase: Phase): Thread
    requires t.Active?
  {
    if t.inner.Some? then t.(inner := Some(t.inner.value.(phase := phase))) else t.(outer := t.outer.(phase := phase))
  }

  function Move(s: State, c: nat, phase: Phase): State
    requires IsActive(s, c)
  {
    s.(threads := s.threads[c := WithTop(s.threads[c], phase)])
  }

  /** The deferred unlock, and the result for the caller: the outer loader or the client. */
  function Return(s: State, c: nat, slot: nat, result: Outcome): State
    requires IsActive(s, c) && slot < |s.slots|
    requires s.threads[c].inner.Some? ==> s.threads[c].outer.phase.Loading?
  {
    var t := s.threads[c];
    var next := if t.inner.None? then Returned(t.outer.key, result)
                else Active(t.outer.(phase := t.outer.phase.(got := Some(result))), None);
    s.(threads := s.threads[c := next], slots := s.slots[slot := s.slots[slot].(holder := None)])
  }

  // ---------------------------------------------------------------- the steps

  function OnCall(s: State, c: nat, key: string): Option<State> {
    if c in s.threads then None
    else Some(s.(threads := s.threads[c := Active(Frame(key, Looking), None)], total := s.total + 1,
                 counted := s.counted + {(c, false)}))
  }

  function OnLook(s: State, c: nat): Option<State> {
    if !IsActive(s, c) || !Top(s.threads[c]).phase.Looking? then None else
    var key := Top(s.threads[c]).key;
    Some(Move(s, c, if key in s.data then Locking(s.data[key]) else Missing))
  }

  /** Under the write lock: looks again before it allocates. */
  function OnAllocate(s: State, c: nat): Option<State> {
    if !IsActive(s, c) || !Top(s.threads[c]).phase.Missing? then None else
    var key := Top(s.threads[c]).key;
    if key in s.data then Some(Move(s, c, Locking(s.data[key])))
    else
      var slots := s.slots + [Slot(key, None, None)];
      Some(Move(s, c, Locking(|s.slots|)).(data := s.data[key := |s.slots|], slots := slots))
  }

  function OnLock(s: State, c: nat): Option<State> {
    if !IsActive(s, c) || !Top(s.threads[c]).phase.Locking? then None else
    var i := Top(s.threads[c]).phase.slot;
    if i >= |s.slots| || s.slots[i].holder.Some? then None
    else Some(Move(s, c, Holding(i)).(slots := s.slots[i := s.slots[i].(holder := Some(TopId(c, s.threads[c])))]))
  }

  function OnCheck(s: State, c: nat): Option<State> {
    if !IsActive(s, c) || !Top(s.threads[c]).phase.Holding? then None else
    if s.threads[c].inner.Some? && !s.threads[c].outer.phase.Loading? then None else
    var i := Top(s.threads[c]).phase.slot;
    if i >= |s.slots| then None
    else if s.slots[i].value.Some? then
      var hitters := s.hitters + {TopId(c, s.threads[c])};
      Some(Return(s, c, i, Ok(s.slots[i].value.value)).(hits := s.hits + 1, hitters := hitters))
    else Some(Move(s, c, Loading(i, None)))
  }

  function OnNest(s: State, nested: Nesting, c: nat): Option<State> {
    if !IsActive(s, c) || s.threads[c].inner.Some? || !s.threads[c].outer.phase.Loading? then None else
    var f := s.threads[c].outer;
    if f.phase.got.Some? || nested(f.key).None? then None
    else Some(s.(threads := s.threads[c := Active(f, Some(Frame(nested(f.key).value, Looking)))], total := s.total + 1,
                 counted := s.counted + {(c, true)}))
  }

  /** The loader is done; it fails if the load nested in it failed. */
  function OnFinish(s: State, nested: Nesting, c: nat, result: Outcome): Option<State> {
    if !IsActive(s, c) || !Top(s.threads[c]).phase.Loading? then None else
    if s.threads[c].inner.Some? && !s.threads[c].outer.phase.Loading? then None else
    var f := Top(s.threads[c]);
    if f.phase.slot >= |s.slots| || (nested(f.key).Some? && f.phase.got.None?) then None
    else if f.phase.got.Some? && f.phase.got.value.Err? && result != f.phase.got.value then None else
    var t := s.(log := s.log + [Event(f.key, c, result)]);
    var u := if result.Err? then t
             else t.(slots := t.slots[f.phase.slot := t.slots[f.phase.slot].(value := Some(result.value))]);
    Some(Return(u, c, f.phase.slot, result))
  }

  function Step(s: State, nested: Nesting, a: Action): Option<State> {
    match a
    case Call(c, key) => OnCall(s, c, key)
    case Look(c) => OnLook(s, c)
    case Allocate(c) => OnAllocate(s, c)
    case Lock(c) => OnLock(s, c)
    case Check(c) => OnCheck(s, c)
    case Nest(c) => OnNest(s, nested, c)
    case Finish(c, result) => OnFinish(s, nested, c, result)
  }

  function Run(s: State, nested: Nesting, actions: seq<Action>): Option<State>
    decreases |actions|
  {
    if actions == [] then Some(s)
    else match Step(s, nested, actions[0])
      case None => None
      case Some(next) => Run(next, nested, actions[1..])
  }

  // ---------------------------------------------------------------- what every step keeps

  /** Every key has one slot, and every slot one key. */
  ghost predicate SlotsMatch(s: State) {
    && (forall k | k in s.data :: s.data[k] < |s.slots| && s.slots[s.data[k]].key == k)
    && (forall i | 0 <= i < |s.slots| :: s.slots[i].key in s.data && s.data[s.slots[i].key] == i)
  }

  predicate OwnsSlot(phase: Phase, i: nat) {
    (phase.Holding? || phase.Loading?) && phase.slot == i
  }

  /** A call that is past the lookup works on the slot of its key, and holds it once it has locked it. */
  predicate GoodFrame(s: State, id: CallId, f: Frame) {
    match f.phase
    case Looking => true
    case Missing => true
    case Locking(i) => i < |s.slots| && s.slots[i].key == f.key
    case Holding(i) => i < |s.slots| && s.slots[i].key == f.key && s.slots[i].holder == Some(id)
    case Loading(i, _) =>
      i < |s.slots| && s.slots[i].key == f.key && s.slots[i].holder == Some(id) && s.slots[i].value.None?
  }

  /** The value that the slot of a key holds. */
  predicate Cached(s: State, key: string, v: string) {
    key in s.data && s.data[key] < |s.slots| && s.slots[s.data[key]].value == Some(v)
  }

  predicate GoodThread(s: State, nested: Nesting, c: nat, t: Thread) {
    match t
    case Active(outer, inner) =>
      && GoodFrame(s, (c, false), outer) && (c, false) in s.counted && (c, false) !in s.hitters
      && (outer.phase.Loading? && outer.phase.got.Some? && outer.phase.got.value.Ok? ==>
            nested(outer.key).Some? && Cached(s, nested(outer.key).value, outer.phase.got.value.value))
      && (inner.Some? ==>
            && outer.phase.Loading? && outer.phase.got.None? && nested(outer.key) == Some(inner.value.key)
            && GoodFrame(s, (c, true), inner.value) && (c, true) in s.counted)
      && (inner.Some? ==> (c, true) !in s.hitters)
      && (inner.None? && !(outer.phase.Loading? && outer.phase.got.Some?) ==> (c, true) !in s.counted)
    case Returned(key, Ok(v)) => Cached(s, key, v)
    case Returned(key, Err(e)) => Event(key, c, Err(e)) in s.log
  }

  /** Whoever holds a lock is at work on that slot. */
  predicate GoodHolder(s: State, i: nat)
    requires i < |s.slots|
  {
    s.slots[i].holder.Some? ==>
      var (c, isInner) := s.slots[i].holder.value;
      && IsActive(s, c)
      && if isInner then s.threads[c].inner.Some? && OwnsSlot(s.threads[c].inner.value.phase, i)
         else OwnsSlot(s.threads[c].outer.phase, i)
  }

  predicate Success(e: Event, key: string) {
    e.key == key && e.result.Ok?
  }

  /** One successful loader run per key at most, and that is the value in the slot. */
  ghost predicate LogMatches(s: State) {
    && (forall e | 0 <= e < |s.log| && s.log[e].result.Ok? :: Cached(s, s.log[e].key, s.log[e].result.value))
    && (forall d, e | 0 <= d < e < |s.log| && s.log[d].result.Ok? && s.log[e].result.Ok? ::
           s.log[d].key != s.log[e].key)
    && (forall i | 0 <= i < |s.slots| && s.slots[i].value.Some? ::
          exists e :: 0 <= e < |s.log| && s.log[e].key == s.slots[i].key
            && s.log[e].result == Ok(s.slots[i].value.value))
  }

  predicate Counts(s: State) {
    s.total == |s.counted| && s.hits == |s.hitters| && s.hitters <= s.counted
      && forall x | x in s.counted :: x.0 in s.threads
  }

  ghost predicate GoodThreads(s: State, nested: Nesting) {
    forall c | c in s.threads :: GoodThread(s, nested, c, s.threads[c])
  }

  ghost predicate GoodHolders(s: State) {
    forall i | 0 <= i < |s.slots| :: GoodHolder(s, i)
  }

  ghost predicate Invariant(s: State, nested: Nesting) {
    SlotsMatch(s) && GoodThreads(s, nested) && GoodHolders(s) && LogMatches(s) && Counts(s)
  }

  /** One thread took a step; what the others hold and see is as before. */
  ghost predicate Turn(s: State, t: State, c: nat) {
    && s.threads.Keys + {c} == t.threads.Keys && (forall d | d in s.threads && d != c :: t.threads[d] == s.threads[d])
    && (forall k | k in s.data :: k in t.data && t.data[k] == s.data[k])
    && |s.slots| <= |t.slots| && s.log <= t.log && s.counted <= t.counted
    && (forall x | x in t.hitters && x.0 != c :: x in s.hitters)
    && (forall x | x in t.counted && x.0 != c :: x in s.counted)
    && (forall i | 0 <= i < |s.slots| :: SlotTurn(s.slots[i], t.slots[i], c))
    && (forall i | |s.slots| <= i < |t.slots| :: t.slots[i].holder.None?)
  }

  predicate SlotTurn(before: Slot, after: Slot, c: nat) {
    && after.key == before.key && (before.value.Some? ==> after.value == before.value)
    && (before.holder.Some? && before.holder.value.0 != c ==> after == before)
    && (after.holder.Some? && after.holder.value.0 != c ==> after.holder == before.holder)
  }

  /** What is left to show for the thread that stepped. */
  ghost predicate Landed(t: State, nested: Nesting, c: nat) {
    && c in t.threads && GoodThread(t, nested, c, t.threads[c])
    && forall i | 0 <= i < |t.slots| && t.slots[i].holder.Some? && t.slots[i].holder.value.0 == c :: GoodHolder(t, i)
  }

  lemma OtherThread(s: State, t: State, nested: Nesting, c: nat, d: nat)
    requires Turn(s, t, c) && d in s.threads && d != c && GoodThread(s, nested, d, s.threads[d])
    ensures GoodThread(t, nested, d, t.threads[d])
  {
  }

  lemma TurnKeepsThreads(s: State, t: State, nested: Nesting, c: nat)
    requires GoodThreads(s, nested) && Turn(s, t, c) && Landed(t, nested, c)
    ensures GoodThreads(t, nested)
  {
    forall d | d in t.threads ensures GoodThread(t, nested, d, t.threads[d]) {
      if d != c {
        assert GoodThread(s, nested, d, s.threads[d]);
        OtherThread(s, t, nested, c, d);
      }
    }
  }

  lemma TurnKeepsHolders(s: State, t: State, nested: Nesting, c: nat)
    requires GoodHolders(s) && Turn(s, t, c) && Landed(t, nested, c)
    ensures GoodHolders(t)
  {
    forall i | 0 <= i < |t.slots| ensures GoodHolder(t, i) {
      if i < |s.slots| && t.slots[i].holder.Some? && t.slots[i].holder.value.0 != c { assert GoodHolder(s, i); }
    }
  }

  lemma CallTurns(s: State, nested: Nesting, c: nat, key: string)
    requires OnCall(s, c, key).Some? && SlotsMatch(s) && Counts(s)
    ensures var t := OnCall(s, c, key).value; Turn(s, t, c) && GoodThread(t, nested, c, t.threads[c]) && Counts(t)
  {
  }

  lemma CallHolder(s: State, nested: Nesting, c: nat, key: string, i: nat)
    requires OnCall(s, c, key).Some? && i < |s.slots| && GoodHolder(s, i)
    ensures var t := OnCall(s, c, key).value;
            t.slots[i].holder.Some? && t.slots[i].holder.value.0 == c ==> GoodHolder(t, i)
  {
  }

  lemma LookTurns(s: State, nested: Nesting, c: nat)
    requires OnLook(s, c).Some? && SlotsMatch(s) && Counts(s) && GoodThread(s, nested, c, s.threads[c])
    ensures var t := OnLook(s, c).value; Turn(s, t, c) && GoodThread(t, nested, c, t.threads[c]) && Counts(t)
  {
  }

  lemma LookHolder(s: State, nested: Nesting, c: nat, i: nat)
    requires OnLook(s, c).Some? && i < |s.slots| && GoodHolder(s, i) && GoodThread(s, nested, c, s.threads[c])
    ensures var t := OnLook(s, c).value; t.slots[i].holder.Some? && t.slots[i].holder.value.0 == c ==> GoodHolder(t, i)
  {
  }

  lemma AllocateTurns(s: State, nested: Nesting, c: nat)
    requires OnAllocate(s, c).Some? && SlotsMatch(s) && Counts(s) && GoodThread(s, nested, c, s.threads[c])
    ensures var t := OnAllocate(s, c).value; Turn(s, t, c) && GoodThread(t, nested, c, t.threads[c]) && Counts(t)
  {
  }

  lemma AllocateHolder(s: State, nested: Nesting, c: nat, i: nat)
    requires OnAllocate(s, c).Some? && i < |s.slots| && GoodHolder(s, i) && GoodThread(s, nested, c, s.threads[c])
    ensures var t := OnAllocate(s, c).value;
            t.slots[i].holder.Some? && t.slots[i].holder.value.0 == c ==> GoodHolder(t, i)
  {
  }

  lemma AllocateSlots(s: State, nested: Nesting, c: nat)
    requires OnAllocate(s, c).Some? && SlotsMatch(s) && LogMatches(s) && GoodThread(s, nested, c, s.threads[c])
    ensures SlotsMatch(OnAllocate(s, c).value) && LogMatches(OnAllocate(s, c).value)
  {
  }

  lemma LockTurns(s: State, nested: Nesting, c: nat)
    requires OnLock(s, c).Some? && SlotsMatch(s) && Counts(s) && GoodThread(s, nested, c, s.threads[c])
    ensures var t := OnLock(s, c).value; Turn(s, t, c) && GoodThread(t, nested, c, t.threads[c]) && Counts(t)
  {
  }

  lemma LockHolder(s: State, nested: Nesting, c: nat, i: nat)
    requires OnLock(s, c).Some? && i < |s.slots| && GoodHolder(s, i) && GoodThread(s, nested, c, s.threads[c])
    ensures var t := OnLock(s, c).value; t.slots[i].holder.Some? && t.slots[i].holder.value.0 == c ==> GoodHolder(t, i)
  {
  }

  lemma SameValues(s: State, t: State)
    requires SlotsMatch(s) && LogMatches(s) && t.data == s.data && t.log == s.log && |t.slots| == |s.slots|
    requires forall j | 0 <= j < |s.slots| :: t.slots[j].key == s.slots[j].key && t.slots[j].value == s.slots[j].value
    ensures SlotsMatch(t) && LogMatches(t)
  {
  }

  lemma LockSlots(s: State, nested: Nesting, c: nat)
    requires OnLock(s, c).Some? && SlotsMatch(s) && LogMatches(s) && GoodThread(s, nested, c, s.threads[c])
    ensures SlotsMatch(OnLock(s, c).value) && LogMatches(OnLock(s, c).value)
  {
    SameValues(s, OnLock(s, c).value);
  }

  lemma CheckTurns(s: State, nested: Nesting, c: nat)
    requires OnCheck(s, c).Some? && SlotsMatch(s) && Counts(s) && GoodThread(s, nested, c, s.threads[c])
    ensures Turn(s, OnCheck(s, c).value, c)
  {
  }

  lemma CheckCounts(s: State, nested: Nesting, c: nat)
    requires OnCheck(s, c).Some? && Counts(s) && GoodThread(s, nested, c, s.threads[c])
    ensures Counts(OnCheck(s, c).value)
  {
  }

  lemma CheckThread(s: State, nested: Nesting, c: nat)
    requires OnCheck(s, c).Some? && SlotsMatch(s) && GoodThread(s, nested, c, s.threads[c])
    ensures GoodThread(OnCheck(s, c).value, nested, c, OnCheck(s, c).value.threads[c])
  {
  }

  lemma CheckHolder(s: State, nested: Nesting, c: nat, i: nat)
    requires OnCheck(s, c).Some? && i < |s.slots| && GoodHolder(s, i) && GoodThread(s, nested, c, s.threads[c])
    ensures var t := OnCheck(s, c).value; t.slots[i].holder.Some? && t.slots[i].holder.value.0 == c ==> GoodHolder(t, i)
  {
  }

  lemma CheckSlots(s: State, nested: Nesting, c: nat)
    requires OnCheck(s, c).Some? && SlotsMatch(s) && LogMatches(s) && GoodThread(s, nested, c, s.threads[c])
    ensures SlotsMatch(OnCheck(s, c).value) && LogMatches(OnCheck(s, c).value)
  {
    SameValues(s, OnCheck(s, c).value);
  }

  lemma NestTurns(s: State, nested: Nesting, c: nat)
    requires OnNest(s, nested, c).Some? && SlotsMatch(s) && Counts(s) && GoodThread(s, nested, c, s.threads[c])
    ensures var t := OnNest(s, nested, c).value; Turn(s, t, c) && GoodThread(t, nested, c, t.threads[c]) && Counts(t)
  {
  }

  lemma NestHolder(s: State, nested: Nesting, c: nat, i: nat)
    requires OnNest(s, nested, c).Some? && i < |s.slots| && GoodHolder(s, i) && GoodThread(s, nested, c, s.threads[c])
    ensures var t := OnNest(s, nested, c).value;
            t.slots[i].holder.Some? && t.slots[i].holder.value.0 == c ==> GoodHolder(t, i)
  {
  }

  lemma FinishTurns(s: State, nested: Nesting, c: nat, result: Outcome)
    requires OnFinish(s, nested, c, result).Some? && SlotsMatch(s) && Counts(s)
    requires GoodThread(s, nested, c, s.threads[c])
    ensures Turn(s, OnFinish(s, nested, c, result).value, c)
  {
  }

  lemma FinishCounts(s: State, nested: Nesting, c: nat, result: Outcome)
    requires OnFinish(s, nested, c, result).Some? && Counts(s) && GoodThread(s, nested, c, s.threads[c])
    ensures Counts(OnFinish(s, nested, c, result).value)
  {
  }

  lemma FinishThread(s: State, nested: Nesting, c: nat, result: Outcome)
    requires OnFinish(s, nested, c, result).Some? && SlotsMatch(s) && GoodThread(s, nested, c, s.threads[c])
    ensures GoodThread(OnFinish(s, nested, c, result).value, nested, c, OnFinish(s, nested, c, result).value.threads[c])
  {
  }

  lemma FinishHolder(s: State, nested: Nesting, c: nat, result: Outcome, i: nat)
    requires OnFinish(s, nested, c, result).Some? && i < |s.slots| && GoodHolder(s, i)
    requires GoodThread(s, nested, c, s.threads[c])
    ensures var t := OnFinish(s, nested, c, result).value;
            t.slots[i].holder.Some? && t.slots[i].holder.value.0 == c ==> GoodHolder(t, i)
  {
  }

  lemma FinishSlots(s: State, nested: Nesting, c: nat, result: Outcome)
    requires OnFinish(s, nested, c, result).Some? && SlotsMatch(s) && LogMatches(s)
    requires GoodThread(s, nested, c, s.threads[c])
    ensures SlotsMatch(OnFinish(s, nested, c, result).value) && LogMatches(OnFinish(s, nested, c, result).value)
  {
    var t, f := OnFinish(s, nested, c, result).value, Top(s.threads[c]);
    var e := Event(f.key, c, result);
    var i := f.phase.slot;
    assert s.slots[i].value.None? && s.slots[i].key == f.key && s.data[f.key] == i;
    assert forall d | 0 <= d < |s.log| && s.log[d].result.Ok? :: s.log[d].key != f.key by {
      assert forall d | 0 <= d < |s.log| && s.log[d].result.Ok? :: Cached(s, s.log[d].key, s.log[d].result.value);
    }
    FinishLog(s, t, e, i);
  }

  /** The log grows by one loader run, whose value goes into the slot if it succeeded. */
  lemma FinishLog(s: State, t: State, e: Event, i: nat)
    requires SlotsMatch(s) && LogMatches(s) && i < |s.slots| && s.slots[i].key == e.key
    requires t.log == s.log + [e] && t.data == s.data && |t.slots| == |s.slots|
    requires forall j | 0 <= j < |s.slots| :: t.slots[j].key == s.slots[j].key
               && t.slots[j].value == if j == i && e.result.Ok? then Some(e.result.value) else s.slots[j].value
    requires e.result.Ok? ==> s.slots[i].value.None?
    requires e.result.Ok? ==> forall d | 0 <= d < |s.log| && s.log[d].result.Ok? :: s.log[d].key != e.key
    ensures LogMatches(t)
  {
    forall d | 0 <= d < |t.log| && t.log[d].result.Ok? ensures Cached(t, t.log[d].key, t.log[d].result.value) {
      if d < |s.log| { assert Cached(s, s.log[d].key, s.log[d].result.value); }
    }
    forall j | 0 <= j < |t.slots| && t.slots[j].value.Some?
      ensures exists d ::
                0 <= d < |t.log| && t.log[d].key == t.slots[j].key && t.log[d].result == Ok(t.slots[j].value.value)
    {
      if s.slots[j].value.Some? {
        var d :| 0 <= d < |s.log| && s.log[d].key == s.slots[j].key && s.log[d].result == Ok(s.slots[j].value.value);
        assert t.log[d] == s.log[d];
      } else {
        assert t.log[|s.log|] == e;
      }
    }
  }

  lemma StepTurns(s: State, nested: Nesting, a: Action)
    requires Invariant(s, nested) && Step(s, nested, a).Some?
    ensures var t := Step(s, nested, a).value;
            Turn(s, t, a.c) && GoodThread(t, nested, a.c, t.threads[a.c]) && Counts(t)
  {
    if a.c in s.threads { assert GoodThread(s, nested, a.c, s.threads[a.c]); }
    match a
    case Call(c, key) => CallTurns(s, nested, c, key);
    case Look(c) => LookTurns(s, nested, c);
    case Allocate(c) => AllocateTurns(s, nested, c);
    case Lock(c) => LockTurns(s, nested, c);
    case Check(c) => CheckTurns(s, nested, c); CheckThread(s, nested, c); CheckCounts(s, nested, c);
    case Nest(c) => NestTurns(s, nested, c);
    case Finish(c, result) =>
      FinishTurns(s, nested, c, result);
      FinishThread(s, nested, c, result);
      FinishCounts(s, nested, c, result);
  }

  lemma StepHolders(s: State, nested: Nesting, a: Action, i: nat)
    requires Invariant(s, nested) && Step(s, nested, a).Some? && i < |s.slots|
    ensures var t := Step(s, nested, a).value;
            i < |t.slots| && (t.slots[i].holder.Some? && t.slots[i].holder.value.0 == a.c ==> GoodHolder(t, i))
  {
    if a.c in s.threads { assert GoodThread(s, nested, a.c, s.threads[a.c]); }
    assert GoodHolder(s, i);
    match a
    case Call(c, key) => CallHolder(s, nested, c, key, i);
    case Look(c) => LookHolder(s, nested, c, i);
    case Allocate(c) => AllocateHolder(s, nested, c, i);
    case Lock(c) => LockHolder(s, nested, c, i);
    case Check(c) => CheckHolder(s, nested, c, i);
    case Nest(c) => NestHolder(s, nested, c, i);
    case Finish(c, result) => FinishHolder(s, nested, c, result, i);
  }

  lemma StepSlots(s: State, nested: Nesting, a: Action)
    requires Invariant(s, nested) && Step(s, nested, a).Some?
    ensures SlotsMatch(Step(s, nested, a).value) && LogMatches(Step(s, nested, a).value)
  {
    if a.c in s.threads { assert GoodThread(s, nested, a.c, s.threads[a.c]); }
    match a
    case Allocate(c) => AllocateSlots(s, nested, c);
    case Lock(c) => LockSlots(s, nested, c);
    case Check(c) => CheckSlots(s, nested, c);
    case Finish(c, result) => FinishSlots(s, nested, c, result);
    case _ =>
  }

  lemma StepKeepsInvariant(s: State, nested: Nesting, a: Action)
    requires Invariant(s, nested) && Step(s, nested, a).Some?
    ensures Invariant(Step(s, nested, a).value, nested)
  {
    var t := Step(s, nested, a).value;
    StepTurns(s, nested, a);
    StepSlots(s, nested, a);
    forall i: nat | i < |s.slots| && t.slots[i].holder.Some? && t.slots[i].holder.value.0 == a.c
      ensures GoodHolder(t, i)
    {
      StepHolders(s, nested, a, i);
    }
    TurnKeepsThreads(s, t, nested, a.c);
    TurnKeepsHolders(s, t, nested, a.c);
  }

  ghost predicate Reachable(t: State, nested: Nesting) {
    exists actions :: Run(EMPTY, nested, actions) == Some(t)
  }

  lemma {:induction false} RunKeepsInvariant(s: State, nested: Nesting, actions: seq<Action>)
    requires Invariant(s, nested) && Run(s, nested, actions).Some?
    ensures Invariant(Run(s, nested, actions).value, nested)
    decreases |actions|
  {
    if actions != [] {
      StepKeepsInvariant(s, nested, actions[0]);
      RunKeepsInvariant(Step(s, nested, actions[0]).value, nested, actions[1..]);
    }
  }

  lemma ReachableKeepsInvariant(t: State, nested: Nesting)
    requires Reachable(t, nested)
    ensures Invariant(t, nested)
  {
    var actions :| Run(EMPTY, nested, actions) == Some(t);
    RunKeepsInvariant(EMPTY, nested, actions);
  }

  // ---------------------------------------------------------------- what callers may rely on

  /** A successful load returns the value of the only successful run of the loader for that key. */
  lemma LoadsAgreeWithLoader(t: State, nested: Nesting, c: nat) returns (e: nat)
    requires Reachable(t, nested) && c in t.threads && t.threads[c].Returned? && t.threads[c].result.Ok?
    ensures e < |t.log| && t.log[e].key == t.threads[c].key && t.log[e].result == t.threads[c].result
    ensures forall d | 0 <= d < |t.log| && Success(t.log[d], t.threads[c].key) :: d == e
  {
    ReachableKeepsInvariant(t, nested);
    assert GoodThread(t, nested, c, t.threads[c]);
    var key := t.threads[c].key;
    assert t.slots[t.data[key]].key == key;
    e :| 0 <= e < |t.log| && t.log[e].key == key && t.log[e].result == t.threads[c].result;
  }

  /** A failure is only ever reported to the thread whose own loader failed. */
  lemma FailuresAreNotCached(t: State, nested: Nesting, c: nat)
    requires Reachable(t, nested) && c in t.threads && t.threads[c].Returned? && t.threads[c].result.Err?
    ensures Event(t.threads[c].key, c, t.threads[c].result) in t.log
  {
    ReachableKeepsInvariant(t, nested);
    assert GoodThread(t, nested, c, t.threads[c]);
  }

  /**
   Whoever holds the slot hits exactly if some run for the key has succeeded; otherwise it loads, also
   after failures.
   */
  lemma HitsExactlyAfterSuccess(s: State, nested: Nesting, c: nat)
    requires Reachable(s, nested) && IsActive(s, c) && Top(s.threads[c]).phase.Holding?
    ensures OnCheck(s, c).Some?
    ensures OnCheck(s, c).value.hits == s.hits + 1
            <==> exists e :: 0 <= e < |s.log| && Success(s.log[e], Top(s.threads[c]).key)
    ensures OnCheck(s, c).value.hits == s.hits
            <==> OnCheck(s, c).value.threads[c] == WithTop(s.threads[c], Loading(Top(s.threads[c]).phase.slot, None))
  {
    ReachableKeepsInvariant(s, nested);
    assert GoodThread(s, nested, c, s.threads[c]);
    var f := Top(s.threads[c]);
    assert s.slots[f.phase.slot].key == f.key && s.data[f.key] == f.phase.slot;
    if s.slots[f.phase.slot].value.Some? {
      var e :| 0 <= e < |s.log| && s.log[e].key == f.key && s.log[e].result == Ok(s.slots[f.phase.slot].value.value);
      assert Success(s.log[e], f.key);
    } else {
      forall e | 0 <= e < |s.log| ensures !Success(s.log[e], f.key) {
        if s.log[e].result.Ok? { assert Cached(s, s.log[e].key, s.log[e].result.value); }
      }
    }
  }

  /** The loader of a test variant is given the value that every load of the ordinary package returns. */
  lemma VariantSeesOrdinary(t: State, nested: Nesting, c: nat, d: nat)
    requires Reachable(t, nested) && IsActive(t, c) && d in t.threads && t.threads[d].Returned?
    requires t.threads[d].result.Ok?
    requires var p := t.threads[c].outer.phase; p.Loading? && p.got.Some? && p.got.value.Ok?
    requires nested(t.threads[c].outer.key) == Some(t.threads[d].key)
    ensures t.threads[c].outer.phase.got == Some(t.threads[d].result)
  {
    ReachableKeepsInvariant(t, nested);
    assert GoodThread(t, nested, c, t.threads[c]) && GoodThread(t, nested, d, t.threads[d]);
  }

  lemma SubsetIsNoLarger<T>(a: set<T>, b: set<T>)
    requires a <= b
    ensures |a| <= |b|
  {
    assert b == a + (b - a);
  }

  lemma HitsNeverExceedTotal(t: State, nested: Nesting)
    requires Reachable(t, nested)
    ensures t.hits <= t.total
  {
    ReachableKeepsInvariant(t, nested);
    SubsetIsNoLarger(t.hitters, t.counted);
  }

  // ---------------------------------------------------------------- progress

  /** A call that need not wait for a lock can go on. */
  lemma UnblockedCanStep(s: State, nested: Nesting, c: nat) returns (a: Action)
    requires IsActive(s, c) && GoodThread(s, nested, c, s.threads[c])
    requires Top(s.threads[c]).phase.Locking? ==> s.slots[Top(s.threads[c]).phase.slot].holder.None?
    requires OneLevel(nested)
    ensures !a.Call? && Step(s, nested, a).Some?
  {
    var t := s.threads[c];
    match Top(t).phase
    case Looking => a := Look(c);
    case Missing => a := Allocate(c);
    case Locking(_) => a := Lock(c);
    case Holding(_) => a := Check(c);
    case Loading(_, got) =>
      if t.inner.None? && got.None? && nested(t.outer.key).Some? { a := Nest(c); }
      else if got.Some? { a := Finish(c, got.value); }
      else { a := Finish(c, Err("")); }
  }

  /** The chain of threads waiting for each other's locks ends after two: somebody can always go on. */
  lemma NoDeadlock(s: State, nested: Nesting, c: nat) returns (a: Action)
    requires Reachable(s, nested) && OneLevel(nested) && IsActive(s, c)
    ensures !a.Call? && Step(s, nested, a).Some?
  {
    ReachableKeepsInvariant(s, nested);
    assert GoodThread(s, nested, c, s.threads[c]);
    var f := Top(s.threads[c]);
    if f.phase.Locking? && s.slots[f.phase.slot].holder.Some? {
      assert GoodHolder(s, f.phase.slot);
      var d := s.slots[f.phase.slot].holder.value.0;
      assert GoodThread(s, nested, d, s.threads[d]);
      a := HolderCanStep(s, nested, d);
    } else {
      a := UnblockedCanStep(s, nested, c);
    }
  }

  /**
   A thread that holds some lock waits, if at all, for that of an ordinary package, whose holder waits
   for nothing.
   */
  lemma HolderCanStep(s: State, nested: Nesting, d: nat) returns (a: Action)
    requires Invariant(s, nested) && OneLevel(nested) && IsActive(s, d)
    requires Top(s.threads[d]).phase.Locking? ==> s.threads[d].inner.Some?
    ensures !a.Call? && Step(s, nested, a).Some?
  {
    assert GoodThread(s, nested, d, s.threads[d]);
    var g := Top(s.threads[d]);
    if g.phase.Locking? && s.slots[g.phase.slot].holder.Some? {
      assert GoodHolder(s, g.phase.slot) && nested(g.key).None?;
      var (e, isInner) := s.slots[g.phase.slot].holder.value;
      assert GoodThread(s, nested, e, s.threads[e]);
      assert isInner == s.threads[e].inner.Some?;
      a := UnblockedCanStep(s, nested, e);
    } else {
      a := UnblockedCanStep(s, nested, d);
    }
  }

  /** How many steps of its own a thread has left at most. */
  function Work(t: Thread): nat {
    match t
    case Returned(_, _) => 0
    case Active(outer, None) =>
      (match outer.phase case Looking => 13 case Missing => 12 case Locking(_) => 11 case Holding(_) => 10
       case Loading(_, None) => 9 case Loading(_, Some(_)) => 2)
    case Active(_, Some(inner)) =>
      (match inner.phase case Looking => 8 case Missing => 7 case Locking(_) => 6 case Holding(_) => 5
       case Loading(_, _) => 4)
  }

  function Turns(actions: seq<Action>, c: nat): nat {
    if actions == [] then 0 else (if actions[0].c == c then 1 else 0) + Turns(actions[1..], c)
  }

  lemma StepLowersWork(s: State, nested: Nesting, a: Action, c: nat)
    requires Step(s, nested, a).Some? && c in s.threads
    ensures var t := Step(s, nested, a).value;
            c in t.threads && Work(t.threads[c]) <= Work(s.threads[c]) - (if a.c == c then 1 else 0)
  {
  }

  /** However the threads interleave, each load is over after a bounded number of steps of its own. */
  lemma {:induction false} EveryLoadEnds(s: State, nested: Nesting, actions: seq<Action>, c: nat)
    requires Run(s, nested, actions).Some? && c in s.threads && Turns(actions, c) >= Work(s.threads[c])
    ensures var t := Run(s, nested, actions).value; c in t.threads && t.threads[c].Returned?
    decreases |actions|
  {
    if actions != [] {
      StepLowersWork(s, nested, actions[0], c);
      EveryLoadEnds(Step(s, nested, actions[0]).value, nested, actions[1..], c);
    }
  }
}
