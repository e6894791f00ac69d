/**
 Never build twice (internal/jobserver/nbt/nbt.go): concurrent start and finish calls as
 atomic steps on the shared build states. What a call cannot control (the fresh UUID, the
 success of a file operation, when a request context is cancelled) is part of the action.
 */
module Nbt {
  import opened Wrappers

  type Files = map<string, string> // by label

  datatype StartRequest = StartRequest(importPath: string, buildID: string)

  datatype FinishRequest = FinishRequest(
    importPath: string, buildID: string, finishToken: string, files: Files, error: Option<string>)

  function CacheKey(importPath: string, buildID: string): string {
    importPath + "\0" + buildID
  }

  /** `opener` and `winner` record which calls created the state and set isDone; no step reads them. */
  datatype Build = Build(
    buildID: string, token: string, isDone: bool, done: bool, files: Files, error: Option<string>,
    opener: nat, winner: Option<nat>)

  datatype StartOutcome =
    | InvalidStart
    | Token(token: string)
    | Mismatch
    | Failed(error: string)
    | Canceled
    | Reuse(files: Files)

  datatype FinishOutcome = InvalidFinish | NotStarted | WrongToken | AlreadyDone | Accepted | Rejected(error: string)

  /** How far a call has come. */
  datatype Caller =
    | StartCalled(start: StartRequest)
    | StartFound(start: StartRequest, reused: bool)
    | Waiting(start: StartRequest)
    | StartReturned(start: StartRequest, result: StartOutcome)
    | FinishCalled(finish: FinishRequest)
    | FinishFound(finish: FinishRequest)
    | TokenMatched(finish: FinishRequest)
    | Won(finish: FinishRequest)
    | Copying(finish: FinishRequest, todo: set<string>)
    | Closing(finish: FinishRequest, outcome: FinishOutcome)
    | FinishReturned(finish: FinishRequest, outcome: FinishOutcome)

  datatype Server = Server(
    builds: map<string, Build>, callers: map<nat, Caller>, tokens: set<string>, cancelled: set<string>)

  datatype Action =
    | CallStart(c: nat, start: StartRequest)
    | LoadOrStore(c: nat)
    | Initialise(c: nat, uuid: string)
    | Wake(c: nat)
    | CallFinish(c: nat, finish: FinishRequest)
    | Load(c: nat)
    | CheckToken(c: nat)
    | CompareAndSwap(c: nat)
    | Record(c: nat, mkdir: bool)
    | Copy(c: nat, name: string, copied: bool)
    | Release(c: nat)
    | Cancel(key: string)

  const NO_FILES_NOR_ERROR := "missing files, and no error reported"

  function StartKey(r: StartRequest): string {
    CacheKey(r.importPath, r.buildID)
  }

  function FinishKey(r: FinishRequest): string {
    CacheKey(r.importPath, r.buildID)
  }

  function StoredName(key: string, name: string): string {
    key + "/" + name
  }

  function Stored(key: string, labels: set<string>): Files {
    map l | l in labels :: StoredName(key, l)
  }

  const EMPTY := Server(map[], map[], {}, {})

  function At(s: Server, c: nat, caller: Caller): Server {
    s.(callers := s.callers[c := caller])
  }

  function Set(s: Server, key: string, b: Build, c: nat, caller: Caller): Server {
    s.(builds := s.builds[key := b], callers := s.callers[c := caller])
  }

  // ---------------------------------------------------------------- the steps

  function OnCallStart(s: Server, c: nat, r: StartRequest): Option<Server> {
    if c in s.callers then None
    else if r.importPath == "" || r.buildID == "" then Some(At(s, c, StartReturned(r, InvalidStart)))
    else Some(At(s, c, StartCalled(r)))
  }

  function OnLoadOrStore(s: Server, c: nat): Option<Server> {
    if c !in s.callers || !s.callers[c].StartCalled? then None else
    var r := s.callers[c].start;
    if StartKey(r) in s.builds then Some(At(s, c, StartFound(r, true)))
    else Some(Set(s, StartKey(r), Build(r.buildID, "", false, false, map[], None, c, None), c, StartFound(r, false)))
  }

  /** initOnce, then what the call does with the state it found. */
  function OnInitialise(s: Server, c: nat, uuid: string): Option<Server> {
    if c !in s.callers || !s.callers[c].StartFound? || uuid == "" || uuid in s.tokens then None else
    var r := s.callers[c].start;
    var key := StartKey(r);
    if key !in s.builds then None else
    var b := if s.builds[key].token == "" then s.builds[key].(token := uuid) else s.builds[key];
    var next := if !s.callers[c].reused then StartReturned(r, Token(b.token))
                else if b.buildID != r.buildID then StartReturned(r, Mismatch)
                else Waiting(r);
    Some(Set(s, key, b, c, next).(tokens := s.tokens + {b.token}))
  }

  function OnWake(s: Server, c: nat): Option<Server> {
    if c !in s.callers || !s.callers[c].Waiting? then None else
    var r := s.callers[c].start;
    if StartKey(r) !in s.builds || !s.builds[StartKey(r)].done then None else
    var b := s.builds[StartKey(r)];
    var result := if b.error.Some? then Failed(b.error.value) else if b.files == map[] then Canceled
      else Reuse(b.files);
    Some(At(s, c, StartReturned(r, result)))
  }

  function OnCallFinish(s: Server, c: nat, r: FinishRequest): Option<Server> {
    if c in s.callers then None
    else if r.importPath == "" || r.buildID == "" || r.finishToken == "" then
      Some(At(s, c, FinishReturned(r, InvalidFinish)))
    else Some(At(s, c, FinishCalled(r)))
  }

  function OnLoad(s: Server, c: nat): Option<Server> {
    if c !in s.callers || !s.callers[c].FinishCalled? then None else
    var r := s.callers[c].finish;
    Some(At(s, c, if FinishKey(r) in s.builds then FinishFound(r) else FinishReturned(r, NotStarted)))
  }

  function OnCheckToken(s: Server, c: nat): Option<Server> {
    if c !in s.callers || !s.callers[c].FinishFound? then None else
    var r := s.callers[c].finish;
    if FinishKey(r) !in s.builds then None else
    Some(At(s, c, if s.builds[FinishKey(r)].token == r.finishToken then TokenMatched(r)
      else FinishReturned(r, WrongToken)))
  }

  function OnCompareAndSwap(s: Server, c: nat): Option<Server> {
    if c !in s.callers || !s.callers[c].TokenMatched? then None else
    var r := s.callers[c].finish;
    if FinishKey(r) !in s.builds then None else
    var b := s.builds[FinishKey(r)];
    if b.isDone then Some(At(s, c, FinishReturned(r, AlreadyDone)))
    else Some(Set(s, FinishKey(r), b.(isDone := true, winner := Some(c)), c, Won(r)))
  }

  function OnRecord(s: Server, c: nat, mkdir: bool): Option<Server> {
    if c !in s.callers || !s.callers[c].Won? then None else
    var r := s.callers[c].finish;
    var key := FinishKey(r);
    if key !in s.builds then None else
    var b := s.builds[key];
    if r.error.Some? then Some(Set(s, key, b.(error := r.error), c, Closing(r, Accepted)))
    else if r.files == map[] then
      Some(Set(s, key, b.(error := Some(NO_FILES_NOR_ERROR)), c, Closing(r, Rejected(NO_FILES_NOR_ERROR))))
    else if !mkdir then Some(Set(s, key, b.(error := Some("mkdir")), c, Closing(r, Rejected("mkdir"))))
    else Some(Set(s, key, b.(files := map[]), c, Copying(r, r.files.Keys)))
  }

  function OnCopy(s: Server, c: nat, name: string, copied: bool): Option<Server> {
    if c !in s.callers || !s.callers[c].Copying? || name !in s.callers[c].todo then None else
    var r := s.callers[c].finish;
    var key := FinishKey(r);
    if key !in s.builds then None else
    var b := s.builds[key];
    var rest := s.callers[c].todo - {name};
    if !copied then Some(Set(s, key, b.(files := map[], error := Some(name)), c, Closing(r, Rejected(name))))
    else Some(Set(s, key, b.(files := b.files[name := StoredName(key, name)]), c,
                  if rest == {} then Closing(r, Accepted) else Copying(r, rest)))
  }

  function OnRelease(s: Server, c: nat): Option<Server> {
    if c !in s.callers || !s.callers[c].Closing? then None else
    var r := s.callers[c].finish;
    if FinishKey(r) !in s.builds then None else
    Some(Set(s, FinishKey(r), s.builds[FinishKey(r)].(done := true), c, FinishReturned(r, s.callers[c].outcome)))
  }

  /** The barrier is a context made from the request that ran initOnce, so it opens when that is cancelled. */
  function OnCancel(s: Server, key: string): Option<Server> {
    if key !in s.builds || s.builds[key].token == "" then None
    else Some(s.(builds := s.builds[key := s.builds[key].(done := true)], cancelled := s.cancelled + {key}))
  }

  function Step(s: Server, a: Action): Option<Server> {
    match a
    case CallStart(c, r) => OnCallStart(s, c, r)
    case LoadOrStore(c) => OnLoadOrStore(s, c)
    case Initialise(c, uuid) => OnInitialise(s, c, uuid)
    case Wake(c) => OnWake(s, c)
    case CallFinish(c, r) => OnCallFinish(s, c, r)
    case Load(c) => OnLoad(s, c)
    case CheckToken(c) => OnCheckToken(s, c)
    case CompareAndSwap(c) => OnCompareAndSwap(s, c)
    case Record(c, mkdir) => OnRecord(s, c, mkdir)
    case Copy(c, name, copied) => OnCopy(s, c, name, copied)
    case Release(c) => OnRelease(s, c)
    case Cancel(key) => OnCancel(s, key)
  }

  /** The state after all `actions`, if each was possible when its turn came. */
  function Run(s: Server, actions: seq<Action>): Option<Server>
    decreases |actions|
  {
    if actions == [] then Some(s)
    else match Step(s, actions[0])
      case None => None
      case Some(next) => Run(next, actions[1..])
  }

  // ---------------------------------------------------------------- what every step keeps

  /** The call that created the state got, or will get, its token. */
  predicate Opens(caller: Caller, key: string, b: Build) {
    match caller
    case StartFound(r, reused) => !reused && StartKey(r) == key && r.buildID == b.buildID
    case StartReturned(r, result) =>
      result == Token(b.token) && b.token != "" && StartKey(r) == key && r.buildID == b.buildID
    case _ => false
  }

  predicate Presents(r: FinishRequest, key: string, b: Build) {
    FinishKey(r) == key && r.finishToken == b.token && b.token != ""
  }

  /** Exactly one of an error and the complete, non-empty files of the request. */
  predicate Published(r: FinishRequest, key: string, b: Build) {
    if b.error.Some? then b.files == map[] && (r.error.Some? ==> b.error == r.error)
    else r.error.None? && b.files == Stored(key, r.files.Keys) && b.files != map[]
  }

  /** What the finish is told, and what starts will be told. */
  predicate Told(outcome: FinishOutcome, r: FinishRequest, b: Build) {
    match outcome
    case Accepted => b.error == r.error
    case Rejected(e) => r.error.None? && b.error == Some(e)
    case _ => false
  }

  /** Where the call that set isDone stands, and what it has recorded so far. */
  predicate Publishes(caller: Caller, key: string, b: Build, calm: bool) {
    match caller
    case Won(r) => Presents(r, key, b) && b.files == map[] && b.error.None? && (calm ==> !b.done)
    case Copying(r, todo) =>
      && Presents(r, key, b) && {} < todo <= r.files.Keys && r.error.None?
      && b.files == Stored(key, r.files.Keys - todo) && b.error.None? && (calm ==> !b.done)
    case Closing(r, o) => Presents(r, key, b) && Published(r, key, b) && Told(o, r, b) && (calm ==> !b.done)
    case FinishReturned(r, o) => Presents(r, key, b) && Published(r, key, b) && Told(o, r, b) && b.done
    case _ => false
  }

  predicate GoodBuild(s: Server, key: string, b: Build) {
    && b.opener in s.callers && Opens(s.callers[b.opener], key, b)
    && (b.token != "" ==> b.token in s.tokens)
    && (b.isDone <==> b.winner.Some?)
    && (b.winner.None? ==> b.files == map[] && b.error.None? && (b.done ==> key in s.cancelled))
    && (b.winner.Some? ==>
          b.winner.value in s.callers && Publishes(s.callers[b.winner.value], key, b, key !in s.cancelled))
  }

  /** These files come from the request of the call that set isDone. */
  predicate FromWinner(s: Server, key: string, b: Build, files: Files) {
    && b.winner.Some? && b.winner.value in s.callers
    && match s.callers[b.winner.value]
       case Won(r) => false
       case Copying(r, _) => files == Stored(key, files.Keys) && files.Keys <= r.files.Keys
       case Closing(r, _) => files == Stored(key, files.Keys) && files.Keys <= r.files.Keys
       case FinishReturned(r, _) => files == Stored(key, files.Keys) && files.Keys <= r.files.Keys
       case _ => false
  }

  predicate GoodStart(s: Server, c: nat, r: StartRequest, result: StartOutcome) {
    var key := StartKey(r);
    match result
    case InvalidStart => r.importPath == "" || r.buildID == ""
    case Token(t) => key in s.builds && s.builds[key].opener == c && s.builds[key].token == t
    case Mismatch => key in s.builds && s.builds[key].buildID != r.buildID
    case Failed(e) =>
      && key in s.builds && s.builds[key].buildID == r.buildID && s.builds[key].error == Some(e)
      && (key !in s.cancelled ==> s.builds[key].done)
    case Canceled => key in s.cancelled
    case Reuse(files) =>
      && key in s.builds && s.builds[key].buildID == r.buildID && files != map[]
      && FromWinner(s, key, s.builds[key], files)
      && (key !in s.cancelled ==> s.builds[key].done && s.builds[key].files == files)
  }

  predicate Wins(s: Server, c: nat, r: FinishRequest) {
    FinishKey(r) in s.builds && s.builds[FinishKey(r)].winner == Some(c)
  }

  predicate Named(r: FinishRequest) {
    r.importPath != "" && r.buildID != "" && r.finishToken != ""
  }

  predicate GoodFinish(s: Server, c: nat, r: FinishRequest, outcome: FinishOutcome) {
    var key := FinishKey(r);
    match outcome
    case InvalidFinish => !Named(r)
    case NotStarted => Named(r)
    case WrongToken => Named(r) && key in s.builds
    case AlreadyDone =>
      Named(r) && key in s.builds && Presents(r, key, s.builds[key]) && s.builds[key].isDone
    case _ => Named(r) && Wins(s, c, r)
  }

  predicate GoodCaller(s: Server, c: nat, caller: Caller) {
    match caller
    case StartCalled(r) => true
    case StartFound(r, reused) => StartKey(r) in s.builds && (!reused ==> s.builds[StartKey(r)].opener == c)
    case Waiting(r) => StartKey(r) in s.builds && s.builds[StartKey(r)].buildID == r.buildID
    case StartReturned(r, result) => GoodStart(s, c, r, result)
    case FinishCalled(r) => Named(r)
    case FinishFound(r) => Named(r) && FinishKey(r) in s.builds
    case TokenMatched(r) =>
      Named(r) && FinishKey(r) in s.builds && Presents(r, FinishKey(r), s.builds[FinishKey(r)])
    case FinishReturned(r, outcome) => GoodFinish(s, c, r, outcome)
    case _ => Named(caller.finish) && Wins(s, c, caller.finish)
  }

  ghost predicate GoodBuilds(s: Server) {
    forall key | key in s.builds :: GoodBuild(s, key, s.builds[key])
  }

  ghost predicate GoodCallers(s: Server) {
    forall c | c in s.callers :: GoodCaller(s, c, s.callers[c])
  }

  ghost predicate DistinctTokens(s: Server) {
    forall j, k | j in s.builds && k in s.builds && s.builds[j].token == s.builds[k].token != "" :: j == k
  }

  ghost predicate Invariant(s: Server) {
    GoodBuilds(s) && GoodCallers(s) && DistinctTokens(s)
  }

  function KeyOf(caller: Caller): string {
    match caller
    case StartCalled(r) => StartKey(r)
    case StartFound(r, _) => StartKey(r)
    case Waiting(r) => StartKey(r)
    case StartReturned(r, _) => StartKey(r)
    case _ => FinishKey(caller.finish)
  }

  predicate Storing(caller: Caller) {
    caller.Copying? || caller.Closing? || caller.FinishReturned?
  }

  /** What later steps of any call leave of a build. */
  predicate Grows(b: Build, next: Build, calm: bool) {
    && next.buildID == b.buildID && next.opener == b.opener
    && (b.token != "" ==> next.token == b.token) && (b.isDone ==> next.isDone)
    && (b.winner.Some? ==> next.winner == b.winner)
    && (b.error.Some? ==> next.error == b.error)
    && (b.done ==> next.done && (calm ==> next.files == b.files && next.error == b.error))
  }

  /** One call took a step on one key. */
  ghost predicate Turn(s: Server, t: Server, c: nat, key: string) {
    && s.callers.Keys + {c} == t.callers.Keys && (forall d | d in s.callers && d != c :: t.callers[d] == s.callers[d])
    && s.builds.Keys <= t.builds.Keys <= s.builds.Keys + {key}
    && (forall k | k in s.builds && k != key :: t.builds[k] == s.builds[k])
    && (key in s.builds ==> Grows(s.builds[key], t.builds[key], key !in s.cancelled))
    && t.cancelled == s.cancelled && s.tokens <= t.tokens
    && (c in s.callers ==> KeyOf(s.callers[c]) == key
                           && (Storing(s.callers[c]) ==>
                                  Storing(t.callers[c]) && t.callers[c].finish == s.callers[c].finish))
  }

  lemma OtherBuilds(s: Server, t: Server, c: nat, key: string, k: string)
    requires Invariant(s) && Turn(s, t, c, key) && k in s.builds && k != key
    ensures GoodBuild(t, k, t.builds[k])
  {
    assert GoodBuild(s, k, s.builds[k]);
  }

  lemma OtherCallers(s: Server, t: Server, c: nat, key: string, d: nat)
    requires Turn(s, t, c, key) && d in s.callers && d != c && GoodCaller(s, d, s.callers[d])
    requires var k := KeyOf(s.callers[d]); k in s.builds ==> GoodBuild(s, k, s.builds[k])
    ensures GoodCaller(t, d, t.callers[d])
  {
    if s.callers[d].StartReturned? {
      OtherStarts(s, t, c, key, d);
    }
  }

  lemma OtherStarts(s: Server, t: Server, c: nat, key: string, d: nat)
    requires Turn(s, t, c, key) && d in s.callers && d != c && s.callers[d].StartReturned?
    requires GoodStart(s, d, s.callers[d].start, s.callers[d].result)
    requires var k := StartKey(s.callers[d].start); k in s.builds ==> GoodBuild(s, k, s.builds[k])
    ensures GoodStart(t, d, s.callers[d].start, s.callers[d].result)
  {
  }

  lemma TurnKeepsBuilds(s: Server, t: Server, c: nat, key: string)
    requires Invariant(s) && Turn(s, t, c, key)
    requires key in t.builds ==> GoodBuild(t, key, t.builds[key])
    ensures GoodBuilds(t)
  {
    forall k | k in t.builds ensures GoodBuild(t, k, t.builds[k]) {
      if k != key { OtherBuilds(s, t, c, key, k); }
    }
  }

  lemma TurnKeepsCallers(s: Server, t: Server, c: nat, key: string)
    requires Invariant(s) && Turn(s, t, c, key) && GoodCaller(t, c, t.callers[c])
    ensures GoodCallers(t)
  {
    forall d | d in t.callers ensures GoodCaller(t, d, t.callers[d]) {
      if d != c {
        assert GoodCaller(s, d, s.callers[d]);
        OtherCallers(s, t, c, key, d);
      }
    }
  }

  lemma TurnKeepsTokens(s: Server, t: Server, c: nat, key: string)
    requires Invariant(s) && Turn(s, t, c, key) && NewTokenIsFresh(s, t, key)
    ensures DistinctTokens(t)
  {
    forall k | k in s.builds ensures s.builds[k].token in s.tokens + {""} { assert GoodBuild(s, k, s.builds[k]); }
    FreshTokensStayDistinct(s, t, c, key);
  }

  lemma FreshTokensStayDistinct(s: Server, t: Server, c: nat, key: string)
    requires DistinctTokens(s) && Turn(s, t, c, key) && NewTokenIsFresh(s, t, key)
    requires forall k | k in s.builds :: s.builds[k].token in s.tokens + {""}
    ensures DistinctTokens(t)
  {
  }

  predicate NewTokenIsFresh(s: Server, t: Server, key: string) {
    key in t.builds && t.builds[key].token in s.tokens - {""} ==>
      key in s.builds && s.builds[key].token == t.builds[key].token
  }

  lemma TurnKeepsInvariant(s: Server, t: Server, c: nat, key: string)
    requires Invariant(s) && Turn(s, t, c, key) && NewTokenIsFresh(s, t, key)
    requires GoodCaller(t, c, t.callers[c])
    requires key in t.builds ==> GoodBuild(t, key, t.builds[key])
    ensures Invariant(t)
  {
    TurnKeepsBuilds(s, t, c, key);
    TurnKeepsCallers(s, t, c, key);
    TurnKeepsTokens(s, t, c, key);
  }

  lemma CallStartKeepsInvariant(s: Server, c: nat, r: StartRequest)
    requires Invariant(s) && OnCallStart(s, c, r).Some?
    ensures Invariant(OnCallStart(s, c, r).value)
  {
    var t := OnCallStart(s, c, r).value;
    var key := KeyOf(t.callers[c]);
    assert key in s.builds ==> GoodBuild(s, key, s.builds[key]);
    TurnKeepsInvariant(s, t, c, key);
  }

  lemma LoadOrStoreKeepsInvariant(s: Server, c: nat)
    requires Invariant(s) && OnLoadOrStore(s, c).Some?
    ensures Invariant(OnLoadOrStore(s, c).value)
  {
    var t := OnLoadOrStore(s, c).value;
    var key := KeyOf(t.callers[c]);
    assert GoodCaller(s, c, s.callers[c]) && (key in s.builds ==> GoodBuild(s, key, s.builds[key]));
    TurnKeepsInvariant(s, t, c, key);
  }

  lemma InitialisedIsGood(s: Server, c: nat, uuid: string)
    requires OnInitialise(s, c, uuid).Some? && GoodCaller(s, c, s.callers[c])
    requires GoodBuild(s, KeyOf(s.callers[c]), s.builds[KeyOf(s.callers[c])])
    ensures var t, key := OnInitialise(s, c, uuid).value, KeyOf(s.callers[c]);
            GoodBuild(t, key, t.builds[key]) && GoodCaller(t, c, t.callers[c]) && Turn(s, t, c, key)
  {
  }

  lemma InitialiseKeepsInvariant(s: Server, c: nat, uuid: string)
    requires Invariant(s) && OnInitialise(s, c, uuid).Some?
    ensures Invariant(OnInitialise(s, c, uuid).value)
  {
    var key := KeyOf(s.callers[c]);
    assert GoodCaller(s, c, s.callers[c]) && GoodBuild(s, key, s.builds[key]);
    InitialisedIsGood(s, c, uuid);
    TurnKeepsInvariant(s, OnInitialise(s, c, uuid).value, c, key);
  }

  lemma WakeKeepsInvariant(s: Server, c: nat)
    requires Invariant(s) && OnWake(s, c).Some?
    ensures Invariant(OnWake(s, c).value)
  {
    var t := OnWake(s, c).value;
    var key := KeyOf(t.callers[c]);
    assert GoodCaller(s, c, s.callers[c]) && GoodBuild(s, key, s.builds[key]);
    TurnKeepsInvariant(s, t, c, key);
  }

  lemma CallFinishKeepsInvariant(s: Server, c: nat, r: FinishRequest)
    requires Invariant(s) && OnCallFinish(s, c, r).Some?
    ensures Invariant(OnCallFinish(s, c, r).value)
  {
    var t := OnCallFinish(s, c, r).value;
    var key := KeyOf(t.callers[c]);
    assert key in s.builds ==> GoodBuild(s, key, s.builds[key]);
    TurnKeepsInvariant(s, t, c, key);
  }

  lemma LoadKeepsInvariant(s: Server, c: nat)
    requires Invariant(s) && OnLoad(s, c).Some?
    ensures Invariant(OnLoad(s, c).value)
  {
    var t := OnLoad(s, c).value;
    var key := KeyOf(t.callers[c]);
    assert GoodCaller(s, c, s.callers[c]) && (key in s.builds ==> GoodBuild(s, key, s.builds[key]));
    TurnKeepsInvariant(s, t, c, key);
  }

  lemma CheckTokenKeepsInvariant(s: Server, c: nat)
    requires Invariant(s) && OnCheckToken(s, c).Some?
    ensures Invariant(OnCheckToken(s, c).value)
  {
    var t := OnCheckToken(s, c).value;
    var key := KeyOf(t.callers[c]);
    assert GoodCaller(s, c, s.callers[c]) && GoodBuild(s, key, s.builds[key]);
    TurnKeepsInvariant(s, t, c, key);
  }

  lemma CompareAndSwapKeepsInvariant(s: Server, c: nat)
    requires Invariant(s) && OnCompareAndSwap(s, c).Some?
    ensures Invariant(OnCompareAndSwap(s, c).value)
  {
    var t := OnCompareAndSwap(s, c).value;
    var key := KeyOf(t.callers[c]);
    assert GoodCaller(s, c, s.callers[c]) && GoodBuild(s, key, s.builds[key]);
    TurnKeepsInvariant(s, t, c, key);
  }

  lemma RecordedIsPublished(s: Server, c: nat, mkdir: bool)
    requires OnRecord(s, c, mkdir).Some? && GoodCaller(s, c, s.callers[c])
    requires var key := FinishKey(s.callers[c].finish);
             Publishes(s.callers[c], key, s.builds[key], key !in s.cancelled)
    ensures var t, key := OnRecord(s, c, mkdir).value, FinishKey(s.callers[c].finish);
            Publishes(t.callers[c], key, t.builds[key], key !in s.cancelled)
  {
    var r := s.callers[c].finish;
    if OnRecord(s, c, mkdir).value.callers[c].Copying? {
      assert r.files.Keys - r.files.Keys == {} && Stored(FinishKey(r), {}) == map[];
      assert r.files.Keys != {} by { assert exists l :: l in r.files; }
    }
  }

  lemma RecordedIsGood(s: Server, c: nat, mkdir: bool)
    requires OnRecord(s, c, mkdir).Some? && GoodCaller(s, c, s.callers[c])
    requires GoodBuild(s, FinishKey(s.callers[c].finish), s.builds[FinishKey(s.callers[c].finish)])
    ensures var t, key := OnRecord(s, c, mkdir).value, FinishKey(s.callers[c].finish);
            GoodBuild(t, key, t.builds[key])
  {
    RecordedIsPublished(s, c, mkdir);
  }

  lemma RecordIsATurn(s: Server, c: nat, mkdir: bool)
    requires OnRecord(s, c, mkdir).Some? && GoodCaller(s, c, s.callers[c])
    requires GoodBuild(s, FinishKey(s.callers[c].finish), s.builds[FinishKey(s.callers[c].finish)])
    ensures var t, key := OnRecord(s, c, mkdir).value, FinishKey(s.callers[c].finish);
            Turn(s, t, c, key)
  {
  }

  lemma RecordKeepsInvariant(s: Server, c: nat, mkdir: bool)
    requires Invariant(s) && OnRecord(s, c, mkdir).Some?
    ensures Invariant(OnRecord(s, c, mkdir).value)
  {
    var t := OnRecord(s, c, mkdir).value;
    assert GoodCaller(s, c, s.callers[c])
      && GoodBuild(s, FinishKey(s.callers[c].finish), s.builds[FinishKey(s.callers[c].finish)]);
    RecordedIsGood(s, c, mkdir);
    RecordIsATurn(s, c, mkdir);
    TurnKeepsInvariant(s, t, c, FinishKey(s.callers[c].finish));
  }

  lemma CopiedIsGood(s: Server, c: nat, name: string, copied: bool)
    requires OnCopy(s, c, name, copied).Some? && GoodCaller(s, c, s.callers[c])
    requires GoodBuild(s, FinishKey(s.callers[c].finish), s.builds[FinishKey(s.callers[c].finish)])
    ensures var t, key := OnCopy(s, c, name, copied).value, FinishKey(s.callers[c].finish);
            GoodBuild(t, key, t.builds[key]) && Turn(s, t, c, key)
  {
    var r, todo := s.callers[c].finish, s.callers[c].todo;
    var key := FinishKey(r);
    assert name in Stored(key, r.files.Keys - (todo - {name}));
    assert Stored(key, r.files.Keys - todo)[name := StoredName(key, name)] ==
      Stored(key, r.files.Keys - (todo - {name}));
    assert todo - {name} == {} ==> r.files.Keys - (todo - {name}) == r.files.Keys;
  }

  lemma CopyKeepsInvariant(s: Server, c: nat, name: string, copied: bool)
    requires Invariant(s) && OnCopy(s, c, name, copied).Some?
    ensures Invariant(OnCopy(s, c, name, copied).value)
  {
    var t := OnCopy(s, c, name, copied).value;
    assert GoodCaller(s, c, s.callers[c])
      && GoodBuild(s, FinishKey(s.callers[c].finish), s.builds[FinishKey(s.callers[c].finish)]);
    CopiedIsGood(s, c, name, copied);
    TurnKeepsInvariant(s, t, c, FinishKey(s.callers[c].finish));
  }

  lemma ReleaseKeepsInvariant(s: Server, c: nat)
    requires Invariant(s) && OnRelease(s, c).Some?
    ensures Invariant(OnRelease(s, c).value)
  {
    var t := OnRelease(s, c).value;
    var key := KeyOf(t.callers[c]);
    assert GoodCaller(s, c, s.callers[c]) && GoodBuild(s, key, s.builds[key]);
    TurnKeepsInvariant(s, t, c, key);
  }

  lemma CancelKeepsInvariant(s: Server, key: string)
    requires Invariant(s) && OnCancel(s, key).Some?
    ensures Invariant(OnCancel(s, key).value)
  {
    var t := OnCancel(s, key).value;
    forall k | k in t.builds ensures GoodBuild(t, k, t.builds[k]) { assert GoodBuild(s, k, s.builds[k]); }
    forall c | c in t.callers ensures GoodCaller(t, c, t.callers[c]) {
      assert GoodCaller(s, c, s.callers[c]);
      CancelKeepsCaller(s, key, c);
    }
  }

  lemma CancelKeepsCaller(s: Server, key: string, c: nat)
    requires OnCancel(s, key).Some? && c in s.callers && GoodCaller(s, c, s.callers[c])
    ensures GoodCaller(OnCancel(s, key).value, c, s.callers[c])
  {
  }

  lemma StepKeepsInvariant(s: Server, a: Action)
    requires Invariant(s) && Step(s, a).Some?
    ensures Invariant(Step(s, a).value)
  {
    match a
    case CallStart(c, r) => CallStartKeepsInvariant(s, c, r);
    case LoadOrStore(c) => LoadOrStoreKeepsInvariant(s, c);
    case Initialise(c, uuid) => InitialiseKeepsInvariant(s, c, uuid);
    case Wake(c) => WakeKeepsInvariant(s, c);
    case CallFinish(c, r) => CallFinishKeepsInvariant(s, c, r);
    case Load(c) => LoadKeepsInvariant(s, c);
    case CheckToken(c) => CheckTokenKeepsInvariant(s, c);
    case CompareAndSwap(c) => CompareAndSwapKeepsInvariant(s, c);
    case Record(c, mkdir) => RecordKeepsInvariant(s, c, mkdir);
    case Copy(c, name, copied) => CopyKeepsInvariant(s, c, name, copied);
    case Release(c) => ReleaseKeepsInvariant(s, c);
    case Cancel(key) => CancelKeepsInvariant(s, key);
  }

  ghost predicate Reachable(t: Server) {
    exists actions :: Run(EMPTY, actions) == Some(t)
  }

  lemma {:induction false} RunKeepsInvariant(s: Server, actions: seq<Action>)
    requires Invariant(s) && Run(s, actions).Some?
    ensures Invariant(Run(s, actions).value)
    decreases |actions|
  {
    if actions != [] {
      StepKeepsInvariant(s, actions[0]);
      RunKeepsInvariant(Step(s, actions[0]).value, actions[1..]);
    }
  }

  lemma ReachableKeepsInvariant(t: Server)
    requires Reachable(t)
    ensures Invariant(t)
  {
    var actions :| Run(EMPTY, actions) == Some(t);
    RunKeepsInvariant(EMPTY, actions);
  }

  // ---------------------------------------------------------------- never twice

  /** Composite keys can collide on NUL, but not when the build IDs agree as well. */
  lemma KeysCollideOnlyAcrossBuildIDs(p: string, q: string, a: string, b: string)
    requires CacheKey(p, a) == CacheKey(q, b)
    ensures a == b ==> p == q
    ensures CacheKey("x\0y", "z") == CacheKey("x", "y\0z")
  {
    assert "x\0y" + "\0" + "z" == "x" + "\0" + "y\0z";
    if a == b {
      assert |p| == |q|;
      assert p == CacheKey(p, a)[..|p|] && q == CacheKey(q, b)[..|q|];
    }
  }

  /** At most one start per import path and build ID is told to build, and no token is given out twice. */
  lemma OneTokenPerBuild(t: Server, c: nat, d: nat)
    requires Reachable(t) && c in t.callers && d in t.callers
    requires t.callers[c].StartReturned? && t.callers[c].result.Token?
    requires t.callers[d].StartReturned? && t.callers[d].result.Token?
    ensures t.callers[c].start == t.callers[d].start ==> c == d
    ensures t.callers[c].result == t.callers[d].result ==> c == d
  {
    ReachableKeepsInvariant(t);
    assert GoodCaller(t, c, t.callers[c]) && GoodCaller(t, d, t.callers[d]);
    var k := StartKey(t.callers[c].start);
    assert GoodBuild(t, k, t.builds[k]);
  }

  /**
   Files handed to a start were recorded by a finish that presented a token which nobody but a
   start for that very import path and build ID was ever given, colliding keys or not.
   */
  lemma ReusedFilesAreFromTheHolder(t: Server, c: nat) returns (w: nat)
    requires Reachable(t) && c in t.callers && t.callers[c].StartReturned? && t.callers[c].result.Reuse?
    ensures w in t.callers && Storing(t.callers[w])
    ensures var f, r := t.callers[w].finish, t.callers[c].start;
            && FinishKey(f) == StartKey(r)
            && (forall d | d in t.callers && t.callers[d].StartReturned?
                   && t.callers[d].result == Token(f.finishToken) :: t.callers[d].start == r)
            && (forall d | d in t.callers && t.callers[d].StartReturned? && t.callers[d].start == r
                   && t.callers[d].result.Token? ::
                  t.callers[d].result == Token(f.finishToken))
    ensures var f, files := t.callers[w].finish, t.callers[c].result.files;
            {} < files.Keys <= f.files.Keys && files == Stored(FinishKey(f), files.Keys)
    ensures StartKey(t.callers[c].start) !in t.cancelled ==>
              t.callers[c].result.files.Keys == t.callers[w].finish.files.Keys
  {
    ReachableKeepsInvariant(t);
    assert GoodCaller(t, c, t.callers[c]);
    var r, files := t.callers[c].start, t.callers[c].result.files;
    var k := StartKey(r);
    assert GoodBuild(t, k, t.builds[k]);
    w := t.builds[k].winner.value;
    assert files.Keys != {} by { assert exists l :: l in files; }
    forall d | d in t.callers && t.callers[d].StartReturned?
      && t.callers[d].result == Token(t.callers[w].finish.finishToken)
      ensures t.callers[d].start == r
    {
      assert GoodCaller(t, d, t.callers[d]);
      assert GoodBuild(t, StartKey(t.callers[d].start), t.builds[StartKey(t.callers[d].start)]);
      assert StartKey(t.callers[d].start) == k;
      KeysCollideOnlyAcrossBuildIDs(r.importPath, t.callers[d].start.importPath, r.buildID, t.callers[d].start.buildID);
    }
    forall d | d in t.callers && t.callers[d].StartReturned? && t.callers[d].start == r && t.callers[d].result.Token?
      ensures t.callers[d].result == Token(t.callers[w].finish.finishToken)
    {
      assert GoodCaller(t, d, t.callers[d]);
    }
  }

  // ---------------------------------------------------------------- publication

  /** Once the barrier is open, unless by cancellation, the outcome is settled for good. */
  predicate Settled(b: Build) {
    && b.isDone && b.done && (b.error.Some? <==> b.files == map[])
  }

  lemma DoneIsSettled(t: Server, key: string)
    requires Invariant(t) && key in t.builds && key !in t.cancelled && t.builds[key].done
    ensures Settled(t.builds[key])
  {
    assert GoodBuild(t, key, t.builds[key]);
  }

  /** The facts about the call that steps and the build in question. */
  predicate Around(s: Server, a: Action, key: string) {
    && key in s.builds && GoodBuild(s, key, s.builds[key])
    && (!a.Cancel? && a.c in s.callers ==> GoodCaller(s, a.c, s.callers[a.c]))
  }

  lemma InvariantAround(s: Server, a: Action, key: string)
    requires Invariant(s) && key in s.builds
    ensures Around(s, a, key)
  {
  }

  lemma SettledStays(s: Server, a: Action, key: string)
    requires Around(s, a, key) && Step(s, a).Some?
    requires key !in Step(s, a).value.cancelled && s.builds[key].done
    ensures var t := Step(s, a).value; key !in s.cancelled && key in t.builds && t.builds[key] == s.builds[key]
  {
  }

  lemma {:induction false} OutcomeNeverChanges(s: Server, actions: seq<Action>, key: string)
    requires Invariant(s) && Run(s, actions).Some? && key in s.builds
    requires key !in Run(s, actions).value.cancelled && s.builds[key].done
    ensures var t := Run(s, actions).value;
            key in t.builds && t.builds[key] == s.builds[key] && Settled(t.builds[key]) && key !in s.cancelled
    decreases |actions|
  {
    if actions == [] {
      DoneIsSettled(s, key);
    } else {
      var next := Step(s, actions[0]).value;
      if key in next.cancelled { CancelledStays(next, actions[1..], key); }
      InvariantAround(s, actions[0], key);
      SettledStays(s, actions[0], key);
      StepKeepsInvariant(s, actions[0]);
      OutcomeNeverChanges(next, actions[1..], key);
    }
  }

  lemma {:induction false} CancelledStays(s: Server, actions: seq<Action>, key: string)
    requires Run(s, actions).Some? && key in s.cancelled
    ensures key in Run(s, actions).value.cancelled
    decreases |actions|
  {
    if actions != [] { CancelledStays(Step(s, actions[0]).value, actions[1..], key); }
  }

  /** Nobody returns before the barrier opens, and everybody who waited gets the same answer. */
  lemma WaitersAgree(t: Server, c: nat, d: nat)
    requires Reachable(t) && c in t.callers && d in t.callers
    requires t.callers[c].StartReturned? && t.callers[d].StartReturned?
    requires StartKey(t.callers[c].start) == StartKey(t.callers[d].start)
    requires StartKey(t.callers[c].start) !in t.cancelled
    requires var x := t.callers[c].result; x.Failed? || x.Reuse? || x.Canceled?
    requires var x := t.callers[d].result; x.Failed? || x.Reuse? || x.Canceled?
    ensures t.callers[c].result == t.callers[d].result && !t.callers[c].result.Canceled?
    ensures var key := StartKey(t.callers[c].start); key in t.builds && Settled(t.builds[key])
  {
    ReachableKeepsInvariant(t);
    assert GoodCaller(t, c, t.callers[c]) && GoodCaller(t, d, t.callers[d]);
    DoneIsSettled(t, StartKey(t.callers[c].start));
  }

  /**
   The outcome of a build changes only by steps of the one finish that presented its token and
   won; a finish with another token, or a repeated one, changes nothing.
   */
  lemma OnlyTheWinnerPublishes(s: Server, a: Action, key: string)
    requires Around(s, a, key) && Step(s, a).Some? && a != Cancel(key)
    requires var b, next := s.builds[key], Step(s, a).value.builds[key];
             b.isDone != next.isDone || b.done != next.done || b.files != next.files || b.error != next.error
    ensures !a.Cancel? && a.c in s.callers && Step(s, a).value.builds[key].winner == Some(a.c)
    ensures (s.callers[a.c].TokenMatched? || s.callers[a.c].Won? || s.callers[a.c].Copying? || s.callers[a.c].Closing?)
            && Presents(s.callers[a.c].finish, key, s.builds[key])
  {
  }

  // ---------------------------------------------------------------- progress

  /** How many steps the call still takes before it has opened the barrier. */
  function Rank(caller: Caller): nat {
    match caller
    case Won(r) => |r.files| + 2
    case Copying(_, todo) => |todo| + 1
    case Closing(_, _) => 1
    case _ => 0
  }

  function Turns(actions: seq<Action>, c: nat): nat {
    if actions == [] then 0
    else (if !actions[0].Cancel? && actions[0].c == c then 1 else 0) + Turns(actions[1..], c)
  }

  /** Until it has opened the barrier the winner is never stuck. */
  lemma WinnerCanStep(s: Server, key: string) returns (a: Action)
    requires Invariant(s) && key in s.builds && s.builds[key].winner.Some?
    requires key !in s.cancelled && !s.builds[key].done
    ensures !a.Cancel? && a.c == s.builds[key].winner.value && Step(s, a).Some?
    ensures Rank(s.callers[a.c]) > 0
  {
    assert GoodBuild(s, key, s.builds[key]);
    var c := s.builds[key].winner.value;
    match s.callers[c]
    case Won(_) => a := Record(c, true);
    case Copying(_, todo) =>
      var name :| name in todo;
      a := Copy(c, name, true);
    case Closing(_, _) => a := Release(c);
  }

  lemma StepLowersRank(s: Server, a: Action, key: string)
    requires Around(s, a, key) && Step(s, a).Some? && s.builds[key].winner.Some?
    ensures var t, w := Step(s, a).value, s.builds[key].winner.value;
            && w in s.callers && w in t.callers && key in t.builds && t.builds[key].winner == Some(w)
            && Rank(t.callers[w]) <= Rank(s.callers[w]) - (if !a.Cancel? && a.c == w then 1 else 0)
  {
    var w := s.builds[key].winner.value;
    if !a.Cancel? && a.c == w && a.Record? {
      var r := s.callers[w].finish;
      assert |r.files.Keys| == |r.files|;
    }
  }

  /** However the others interleave, and whatever fails, the winner opens the barrier after that many steps. */
  lemma {:induction false} EveryPathReleases(s: Server, actions: seq<Action>, key: string)
    requires Invariant(s) && Run(s, actions).Some? && key in s.builds && s.builds[key].winner.Some?
    requires s.builds[key].winner.value in s.callers
    requires Turns(actions, s.builds[key].winner.value) >= Rank(s.callers[s.builds[key].winner.value])
    ensures key in Run(s, actions).value.builds && Run(s, actions).value.builds[key].done
    decreases |actions|
  {
    if actions == [] {
      assert GoodBuild(s, key, s.builds[key]);
    } else {
      StepKeepsInvariant(s, actions[0]);
      InvariantAround(s, actions[0], key);
      StepLowersRank(s, actions[0], key);
      EveryPathReleases(Step(s, actions[0]).value, actions[1..], key);
    }
  }

  // ---------------------------------------------------------------- what can go wrong

  predicate Unfinished(s: Server, key: string) {
    key in s.builds && s.builds[key].token != "" && !s.builds[key].isDone && !s.builds[key].done
  }

  predicate CouldFinish(caller: Caller, token: string) {
    (caller.FinishCalled? || caller.FinishFound? || caller.TokenMatched?) && caller.finish.finishToken == token
  }

  /** No call is under way that could finish this build. */
  ghost predicate Abandoned(s: Server, key: string) {
    Unfinished(s, key) && forall c | c in s.callers :: !CouldFinish(s.callers[c], s.builds[key].token)
  }

  /** A token that its holder drops blocks every start for that build forever. */
  lemma {:induction false} DroppedTokenBlocks(s: Server, actions: seq<Action>, key: string, c: nat)
    requires Invariant(s) && Run(s, actions).Some? && Abandoned(s, key)
    requires forall i | 0 <= i < |actions| :: actions[i] != Cancel(key)
               && (actions[i].CallFinish? ==> actions[i].finish.finishToken != s.builds[key].token)
    requires c in s.callers && s.callers[c].Waiting? && StartKey(s.callers[c].start) == key
    ensures var t := Run(s, actions).value; Abandoned(t, key) && c in t.callers && t.callers[c] == s.callers[c]
    decreases |actions|
  {
    if actions != [] {
      InvariantAround(s, actions[0], key);
      StepKeepsAbandoned(s, actions[0], key, c);
      StepKeepsInvariant(s, actions[0]);
      DroppedTokenBlocks(Step(s, actions[0]).value, actions[1..], key, c);
    }
  }

  lemma StepKeepsUnfinished(s: Server, a: Action, key: string)
    requires Around(s, a, key) && Step(s, a).Some? && Abandoned(s, key) && a != Cancel(key)
    ensures var t := Step(s, a).value; Unfinished(t, key) && t.builds[key].token == s.builds[key].token
  {
    if !a.Cancel? && a.c in s.callers { assert !CouldFinish(s.callers[a.c], s.builds[key].token); }
  }

  lemma StepKeepsAbandoned(s: Server, a: Action, key: string, c: nat)
    requires Around(s, a, key) && Step(s, a).Some? && Abandoned(s, key) && a != Cancel(key)
    requires a.CallFinish? ==> a.finish.finishToken != s.builds[key].token
    requires c in s.callers && s.callers[c].Waiting? && StartKey(s.callers[c].start) == key
    ensures var t := Step(s, a).value;
            Abandoned(t, key) && t.builds[key].token == s.builds[key].token && c in t.callers
              && t.callers[c] == s.callers[c]
  {
    StepKeepsUnfinished(s, a, key);
    var t := Step(s, a).value;
    if !a.Cancel? {
      assert !CouldFinish(t.callers[a.c], s.builds[key].token) by {
        if a.c in s.callers { assert !CouldFinish(s.callers[a.c], s.builds[key].token); }
      }
      assert forall d | d in t.callers && d != a.c :: t.callers[d] == s.callers[d];
    }
  }

  lemma Reach(s: Server, a: Action)
    requires Reachable(s) && Step(s, a).Some?
    ensures Reachable(Step(s, a).value)
  {
    var actions :| Run(EMPTY, actions) == Some(s);
    RunOneMore(EMPTY, actions, a);
    assert Run(EMPTY, actions + [a]) == Step(s, a);
  }

  lemma {:induction false} RunOneMore(s: Server, actions: seq<Action>, a: Action)
    requires Run(s, actions).Some?
    ensures Run(s, actions + [a]) == Step(Run(s, actions).value, a)
    decreases |actions|
  {
    if actions == [] {
      assert Run(s, [a]) == match Step(s, a) case None => None case Some(next) => Run(next, []);
    } else {
      assert (actions + [a])[1..] == actions[1..] + [a];
      RunOneMore(Step(s, actions[0]).value, actions[1..], a);
    }
  }

  const SAMPLE := StartRequest("p", "i")

  const TWO_FILES := FinishRequest("p", "i", "T", map["a" := "x", "b" := "y"], None)

  lemma OneStart() returns (t: Server)
    ensures Reachable(t)
    ensures t == Server(map[StartKey(SAMPLE) := Build("i", "T", false, false, map[], None, 0, None)],
                        map[0 := StartReturned(SAMPLE, Token("T"))], {"T"}, {})
  {
    assert Run(EMPTY, []) == Some(EMPTY);
    t := Follow(EMPTY, CallStart(0, SAMPLE));
    t := Follow(t, LoadOrStore(0));
    t := Follow(t, Initialise(0, "T"));
  }

  lemma TwoStarts() returns (t: Server)
    ensures Reachable(t)
    ensures t == Server(map[StartKey(SAMPLE) := Build("i", "T", false, false, map[], None, 0, None)],
                        map[0 := StartReturned(SAMPLE, Token("T")), 1 := Waiting(SAMPLE)], {"T"}, {})
  {
    t := OneStart();
    t := Follow(t, CallStart(1, SAMPLE));
    t := Follow(t, LoadOrStore(1));
    t := Follow(t, Initialise(1, "U"));
    assert t.callers == map[0 := StartReturned(SAMPLE, Token("T")), 1 := Waiting(SAMPLE)];
  }

  lemma FinishArrives() returns (t: Server)
    ensures Reachable(t)
    ensures t == Server(map[StartKey(SAMPLE) := Build("i", "T", false, false, map[], None, 0, None)],
                        map[0 := StartReturned(SAMPLE, Token("T")), 1 := Waiting(SAMPLE), 2 := TokenMatched(TWO_FILES)],
                        {"T"}, {})
  {
    t := TwoStarts();
    t := Follow(t, CallFinish(2, TWO_FILES));
    t := Follow(t, Load(2));
    t := Follow(t, CheckToken(2));
  }

  lemma CopyBegins() returns (t: Server)
    ensures Reachable(t)
    ensures t == Server(map[StartKey(SAMPLE) := Build("i", "T", true, false, map[], None, 0, Some(2))],
                        map[0 := StartReturned(SAMPLE, Token("T")), 1 := Waiting(SAMPLE),
                          2 := Copying(TWO_FILES, {"a", "b"})],
                        {"T"}, {})
  {
    t := FinishArrives();
    t := Follow(t, CompareAndSwap(2));
    t := Follow(t, Record(2, true));
    assert TWO_FILES.files.Keys == {"a", "b"};
  }

  /**
   A cancelled request opens the barrier early: a waiter can then be given one of two files
   while the other is still being copied.
   */
  lemma CancellationLeaksPartialFiles() returns (t: Server)
    ensures Reachable(t) && 1 in t.callers && 2 in t.callers
    ensures t.callers[1].StartReturned? && t.callers[1].result.Reuse? && t.callers[1].result.files.Keys == {"a"}
    ensures t.callers[2].Copying? && t.callers[2].finish.files.Keys == {"a", "b"} && t.callers[2].todo == {"b"}
  {
    t := CopyBegins();
    assert {"a", "b"} - {"a"} == {"b"};
    t := Follow(t, Copy(2, "a", true));
    assert t.callers[2] == Copying(TWO_FILES, {"b"});
    t := Follow(t, Cancel(StartKey(SAMPLE)));
    assert t.builds[StartKey(SAMPLE)].files.Keys == {"a"};
    t := Follow(t, Wake(1));
  }

  lemma Follow(s: Server, a: Action) returns (t: Server)
    requires Reachable(s) && Step(s, a).Some?
    ensures Reachable(t) && Step(s, a) == Some(t)
  {
    Reach(s, a);
    t := Step(s, a).value;
  }

  // ---------------------------------------------------------------- the client

  datatype Command = Command(finishToken: string)

  /** Whether the import configuration parses, whether all link.deps can be read, whether artifacts could be copied. */
  datatype Disk = Disk(importCfgParses: bool, linkDepsRead: bool, artifactsCopied: bool)

  /** No command means that the artifacts of an earlier build are in place. */
  function ParseCompileCommand(importCfg: string, answer: StartOutcome, disk: Disk): Result<Option<Command>, string> {
    if importCfg == "" then Ok(Some(Command("")))
    else match answer
      case Token(t) =>
        if !disk.importCfgParses then Err("parsing import configuration")
        else if !disk.linkDepsRead then Err("reading link.deps closure")
        else Ok(Some(Command(t)))
      case Reuse(_) => if disk.artifactsCopied then Ok(None) else Err("re-using object")
      case Failed(e) => Err(e)
      case _ => Err("sending never-build-twice request")
  }

  /** The finish request that reaches the server when the command is closed, unless the connection fails. */
  function OnClose(cmd: Command, importPath: string, buildID: string, outputs: Files, cmdErr: Option<string>,
                   connected: bool): Option<FinishRequest>
  {
    if cmd.finishToken == "" || !connected then None
    else Some(FinishRequest(importPath, buildID, cmd.finishToken, if cmdErr.Some? then map[] else outputs, cmdErr))
  }

  /** What the client reports: the error of its command, or else the files it made. */
  predicate Reports(r: FinishRequest, outputs: Files, cmdErr: Option<string>) {
    r.error == cmdErr && r.files == if cmdErr.Some? then map[] else outputs
  }

  /**
   A client that was told to build finishes that build exactly if both reads and the connection succeed;
   otherwise its token is lost.
   */
  lemma TokenIsFinishedExactly(t: Server, c: nat, importCfg: string, disk: Disk, outputs: Files, cmdErr: Option<string>,
                               connected: bool)
    requires Reachable(t) && c in t.callers && t.callers[c].StartReturned? && t.callers[c].result.Token?
    requires importCfg != ""
    ensures var r, parsed := t.callers[c].start, ParseCompileCommand(importCfg, t.callers[c].result, disk);
            (disk.importCfgParses && disk.linkDepsRead && connected)
            <==> parsed.Ok? && parsed.value.Some?
                 && var f := OnClose(parsed.value.value, r.importPath, r.buildID, outputs, cmdErr, connected);
                    && f.Some? && StartKey(r) in t.builds && Presents(f.value, StartKey(r), t.builds[StartKey(r)])
                    && Reports(f.value, outputs, cmdErr)
  {
    ReachableKeepsInvariant(t);
    assert GoodCaller(t, c, t.callers[c]);
    var k := StartKey(t.callers[c].start);
    assert GoodBuild(t, k, t.builds[k]);
  }

  /** A command that never asked the server has nothing to report to it. */
  lemma UnaskedIsUnreported(answer: StartOutcome, disk: Disk, importPath: string, buildID: string, outputs: Files,
                            cmdErr: Option<string>)
    ensures var parsed := ParseCompileCommand("", answer, disk);
            parsed.Ok? && parsed.value.Some?
              && OnClose(parsed.value.value, importPath, buildID, outputs, cmdErr, true).None?
  {
  }
}
