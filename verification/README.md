# Orchestrion in Dafny

A Dafny model of the parts of Orchestrion that decide what gets woven, what gets built and
what gets linked, with proofs of what those parts promise.

`dafny verify dfyconfig.toml` checks the project.

## What is modelled

**Weaving.** `May`, `Syntax`, `Join`: the three-valued may-match analysis, the nodes that join
points look at, and the join points themselves. `Leaves`: what the single join points mean.
`Pruning`: when a join point that matches a node was pruned. `Scan`, `Weaving`, `Parsing`: the
loops that prune, the collection and ordering of advice at a node, and the concurrent parsing of
a package's files in its two rounds. `Globstar`, `Expansion`: package filters and what they
accept. `Imports`: what join points claim about imports, and which import declarations survive.
`Fingerprint`, `JoinHash`: the byte stream behind every fingerprint, and what it tells about join
points.

**Building.** `Nbt`: the never-build-twice protocol as atomic steps of any number of callers,
with its client; `Finishing`: what becomes of each call; `Publication`: what its waiters are
told. `Cache`, `Graph`, `Requests`, `Environ`, `Traversals`: the package resolution service, with
its cache under interleaving, its cycle detector, the requests in flight, its canonical requests,
and its walks over package graphs that may share nodes and have cycles. `Election`, `Succession`,
`Locking`, `Filelock`: which process runs the server, when another one takes over, and the lock
between them.

**Linking.** `LinkDeps`, `Resolution`, `Compile`, `Linking`, `CompileMain`: link-time
dependencies on their way from a compiled package to the linked binary. `ImportCfg`,
`DepsText`: the two text formats involved.

**Output.** `PostProcess`, `LineDirective`: line directives, written, moved to the first
column in place, and read back.

`Ordering`, `Strings`, `Lines`, `Decimal`, `Fresh` and `Wrappers` hold what the others share.

Concurrent parts are state machines: a state, a datatype of actions, a partial step function,
and an invariant that every step keeps; a run is any sequence of steps. Map iteration orders,
file systems, the Go toolchain and the network are parameters over which every statement
quantifies. Loops over Go maps pick their next key arbitrarily.

## Where the code departs from its intent

The model follows the code. Where the code falls short of what its comments or its purpose say,
the shortfall has a witness, and a lemma says for all inputs when the intent is met.

- Cycle detection (`internal/jobserver/common/graph.go:65-67`): a child without a path wipes
  out one that was found. `AddEdgeMissesACycle` shows it; `AddEdgeKeepsAcyclicExactly` says
  when it cannot happen, and `SearchEndsExactly` when the search still ends after it did.
- Edges are a set (`internal/jobserver/pkgs/resolve.go:129-134`), so equal requests in flight
  share one and the first to end removes it: `EdgesAreKeptExactly`, `CycleIsMissedExactly`,
  `LostEdgeAdmitsCycle`.
- Never build twice (`internal/jobserver/nbt/nbt.go:146-148`): the barrier is tied to the context of
  the first request (`CancellationLeaksPartialFiles`). `CancelIsHarmlessExactly` and
  `WaitersAgreeExactly` say which cancellations do no harm. A client error after the start loses
  the token (`internal/toolexec/proxy/compile.go:269-280`, `TokenIsFinishedExactly`,
  `DroppedTokenBlocks`).
- Pruning: four leaves can match what was pruned, namely untyped declarations, `signature-contains`
  of which only some types are imported, `method-call` on a receiver type that is not imported, and
  `test-main` below `function-body`; and so can a blank function name in a file. `PruningIsExact`
  carries the conditions through every tree, `PruningKeepsInjectionExactly` to the advice.
- The empty interface (`internal/injector/typed/typename.go:98-103`) is matched by `*any` as well as by
  `any` (`TypeHasOneName`).
- One-of (`internal/injector/aspect/join/one-of.go:26-38`): a candidate that lists a path twice
  counts twice (`OneOfCountsExactly`, `SignatureOutvotesDirective`).
- Package names hash under the tag of import paths
  (`internal/injector/aspect/join/package.go:78-80`, `SameFingerprintExactly`).
- A segment can keep a `**` inside an ordinary pattern for one segment
  (`internal/injector/aspect/join/package.go:141-190`, `LeadingGlobstarIsKept`,
  `GlobstarsStandAloneExactly`); and `a**b` matches no single segment (`GlobstarBetween`).
- Import declarations (`internal/injector/imports.go:89-95`): a second blank alias ends the
  search early (`PreferredExactly`).
- Positions (`internal/injector/parse/mappedfilename.go:82-94`): the scan overruns on text
  that is empty or all digits, and numbers wrap at 64 bits (`OverrunExactly`, `PositionWraps`,
  `PositionExactly`).
- What a join point claims to be imported (`internal/injector/aspect/join/join.go:19-21`) need not be
  (`SignatureOutvotesDirective`, `ImpliedIsKnownExactly`).
- Server election (`internal/cmd/server.go:166`, `internal/cmd/server.go:152`): the URL is written
  without truncating the file, and the file is removed at the end (`StaleTailElectsTwo`,
  `UnlinkElectsTwo`, `EarlyReaderIsElected`). `RivaledExactly` and `ShorterURLIsRivaledExactly` say
  when a second process can be elected. A refused lock conversion can lose the lock unnoticed
  (`LostLockLooksHeld`, `FieldAgreesExactly`).

## Model

| member | source | states |
|---|---|---|
| Graph.Graph.AddEdge | internal/jobserver/common/graph.go:22-46 | Wherever the search ends: rejects exactly when the search from `to` sees `from` in the iteration order it happened to take, and then returns a real cycle and leaves the graph alone; otherwise adds just that edge. On an acyclic graph whose way back cannot be missed, the graph stays acyclic and the answer is exact. |
| Graph.Graph.RemoveEdge | internal/jobserver/common/graph.go:49-57 | Removes that edge and no other, keeps acyclicity, and drops a node without edges. |
| Graph.Graph.Path | internal/jobserver/common/graph.go:59-77 | Terminates as long as no cycle that avoids the target can be reached, returns what the literal rule makes of the order in which the children were met; what it returns is a path, and on an acyclic graph it returns one whenever the target cannot be escaped. |
| Graph.SomeTrace | internal/jobserver/common/graph.go:59-77 | The recursive search ends on every acyclic graph: a complete record of a search exists from any node. |
| Graph.FoundIsPath | internal/jobserver/common/graph.go:59-77 | A non-nil path is a path of the graph between the two nodes, in any iteration order. |
| Graph.LastChildDecides | internal/jobserver/common/graph.go:61-68 | The outcome hangs on the last child met alone: a nil there wipes out whatever was found before. |
| Graph.FoundInSomeOrder | internal/jobserver/common/graph.go:59-77 | Some iteration order finds a path if and only if there is one. |
| Graph.FoundInEveryOrder | internal/jobserver/common/graph.go:59-77 | Every iteration order finds a path if and only if the target cannot be escaped from the start node. |
| Graph.CaughtPathIsShortest | internal/jobserver/common/graph.go:59-77 | In that case the path found is a shortest one, in every order. |
| Graph.LinkClosesCycle | internal/jobserver/common/graph.go:20-32 | In an acyclic graph a new edge closes a cycle if and only if its target already reaches its source. |
| Graph.AddEdgeKeepsAcyclicExactly | internal/jobserver/common/graph.go:22-46 | AddEdge keeps the graph acyclic under every iteration order if and only if the way back, where there is one, cannot be missed. |
| Graph.AddEdgeRejectsCycles | internal/jobserver/common/graph.go:26-32 | AddEdge never rejects without cause, and under that condition rejects exactly the edges that would close a cycle. |
| Graph.AddEdgeMissesACycle | internal/jobserver/common/graph.go:61-68 | A concrete graph and iteration order in which a cycle gets in. |
| Graph.UnlinkKeepsAcyclic | internal/jobserver/common/graph.go:49-57 | Removal keeps acyclicity and touches one edge. |
| Graph.RunStaysAcyclic | internal/jobserver/common/graph.go:22-57 | Over any sequence of insertions and removals that meets the condition at each insertion, the graph stays acyclic. |
| Graph.SingleFileRunIsGuarded | internal/jobserver/common/graph.go:22-57 | A sequence in which no node ever has two children meets the condition throughout. |
| Graph.SearchEndsExactly | internal/jobserver/common/graph.go:59-77 | On any graph, cyclic or not, the search ends in every iteration order (a complete record of it exists for every order in which each nested call may meet the children) if and only if no cycle that avoids the target can be reached without meeting the target. |
| Graph.AcyclicHasNoLoops | internal/jobserver/common/graph.go:59-77 | So it always ends on an acyclic graph. |
| Cache.StepKeepsInvariant | internal/jobserver/common/cache.go:43-84 | Every atomic step of every thread keeps the invariant of the cache: who holds which slot, which values are published, what the loaders returned. |
| Cache.LoadsAgreeWithLoader | internal/jobserver/common/cache.go:43-62 | In every reachable state a successful load returned the value of the one and only successful loader run for its key. |
| Cache.FailuresAreNotCached | internal/jobserver/common/cache.go:55-58 | A failure is only ever reported to the thread whose own loader failed. |
| Cache.HitsExactlyAfterSuccess | internal/jobserver/common/cache.go:50-61 | Whoever holds a slot hits if and only if some loader run for the key has succeeded; otherwise it loads, also after failures. |
| Cache.HitsNeverExceedTotal | internal/jobserver/common/cache.go:43-53 | Hits never exceed the total, in every reachable state. |
| Cache.NoDeadlock | internal/jobserver/common/cache.go:46-55 | With loaders that nest one level deep, whenever some load is unfinished some thread that has already called can take a step. |
| Cache.EveryLoadEnds | internal/jobserver/common/cache.go:43-62 | However threads interleave, a load is over after a bounded number of steps of its own. |
| Cache.VariantSeesOrdinary | internal/jobserver/pkgs/resolve.go:136-165 | The loader of a test variant is handed the value that every load of the ordinary package returns. |
| Cache.HolderCanStep | internal/jobserver/pkgs/resolve.go:136-155 | A thread that holds a slot waits, if at all, for the slot of an ordinary package, whose holder waits for nothing. |
| Environ.ResolveRequest.CanonicalizeEnviron | internal/jobserver/pkgs/resolve.go:91-114 | The loop rewrites Env into the canonical form and takes the side values from the ignored variables: the first non-empty GOTMPDIR if none was set, the last value of the two others. |
| Environ.CanonicalKeepsBindings | internal/jobserver/pkgs/resolve.go:91-114 | The canonical form keeps the winning binding of every variable that counts, and nothing of the ignored ones. |
| Environ.SameCanonicalExactly | internal/jobserver/pkgs/resolve.go:91-114 | Two environments have the same canonical form if and only if the same binding wins for every variable that is not ignored. |
| Environ.OneMoreMakesNoDifferenceExactly | internal/jobserver/pkgs/resolve.go:34-114 | One more binding in the environment, wherever it is put, leaves the canonical form as it is if and only if its variable is one of the five ignored ones, is bound again later, or had that very binding before. |
| Environ.CanonicalIsIdempotent | internal/jobserver/pkgs/resolve.go:91-114 | Canonicalising again changes nothing. |
| Traversals.MergeFrom | internal/jobserver/pkgs/resolve.go:274-293 | On any package graph each of whose cycles holds a package that has an archive or no import path: ends, adds exactly the packages reached through entries that were not there yet, replaces no entry that has an archive, covers the imports of all it added, fails whenever a package it added has errors, and only if a reachable package has. |
| Traversals.OrdinaryResponse | internal/jobserver/pkgs/resolve.go:220-237 | The response lists exactly the import paths of the packages reachable from the roots, each with the archive of such a package; there is none if and only if a reachable package has errors. |
| Requests.EdgesAreKeptExactly | internal/jobserver/pkgs/resolve.go:129-134 | Over any run of requests that begin and end in any order and iteration order: each accepted request in flight has its edge in the graph throughout if and only if no request ends while another one holds the same edge. |
| Requests.CycleIsMissedExactly | internal/jobserver/pkgs/resolve.go:129-132 | With an acyclic graph, no circle of waiting requests yet and a search that cannot miss its way back: a request that closes a circle of waiting requests is let through if and only if the way back among them needs a lost edge. |
| Requests.WaitingStaysAcyclic | internal/jobserver/pkgs/resolve.go:129-134 | While requests end alone and no search misses its way back, the requests in flight never wait for each other in a circle. |
| Requests.LostEdgeAdmitsCycle | internal/jobserver/pkgs/resolve.go:129-134 | Four events after which two requests wait for each other, neither rejected. |
| Nbt.KeysCollideOnlyAcrossBuildIDs | internal/jobserver/nbt/nbt.go:126-131 | Two composite keys that collide on NUL differ in their build IDs, and such a collision exists. |
| Nbt.StepKeepsInvariant | internal/jobserver/nbt/nbt.go:133-281 | Every atomic step of start and finish, and every cancellation, keeps the invariant that ties build states, tokens and callers. |
| Nbt.OneTokenPerBuild | internal/jobserver/nbt/nbt.go:133-177 | At most one start per import path and build ID is told to build, and no token is given out twice, colliding keys or not. |
| Nbt.ReusedFilesAreFromTheHolder | internal/jobserver/nbt/nbt.go:151-171 | Files handed to a start were stored by a finish that presented the token of that very import path and build ID; without cancellation they are all the files of that finish. |
| Nbt.DoneIsSettled | internal/jobserver/nbt/nbt.go:241-280 | Once the barrier is open without cancellation, either the error is set and there are no files, or there are files and no error. |
| Nbt.OutcomeNeverChanges | internal/jobserver/nbt/nbt.go:241-280 | From then on no sequence of steps changes anything about the build. |
| Nbt.WaitersAgree | internal/jobserver/nbt/nbt.go:151-171 | All starts that waited for a build return the same answer, and only after it is settled; none is told that it was cancelled. |
| Nbt.OnlyTheWinnerPublishes | internal/jobserver/nbt/nbt.go:232-246 | The outcome of a build changes only by a step of the one finish that presented its token and won the swap; wrong tokens and repeated finishes change nothing. That a presented token does win is Finishing.PresentedTokenIsTaken. |
| Nbt.WinnerCanStep | internal/jobserver/nbt/nbt.go:241-280 | Until it has opened the barrier the winner of the swap is never stuck. |
| Nbt.EveryPathReleases | internal/jobserver/nbt/nbt.go:246-281 | However others interleave and whatever fails, the winner opens the barrier after a bounded number of its own steps. |
| Finishing.StartIsAnswered | internal/jobserver/nbt/nbt.go:133-177 | The first start for a key is given a token nobody has and a fresh build; any later one waits, or is turned away if the key belongs to another build ID, and the build it finds keeps everything but a missing token. |
| Finishing.PresentedTokenIsTaken | internal/jobserver/nbt/nbt.go:214-246 | In any state, a finish that presents the token of its build, whatever its files and error, takes its four steps and wins the swap; it is told that the build is done already if and only if it is, and changes nothing then. |
| Finishing.OthersAreRefused | internal/jobserver/nbt/nbt.go:222-239 | A finish with a blank field, for a build that was never started, or with another token is refused for that reason, and leaves the builds as they are. |
| Finishing.PresenterIsHeard | internal/jobserver/nbt/nbt.go:214-281 | However the others interleave: after a bounded number of its own steps such a finish has returned and the build is done. Unless another finish was first, the barrier is open, starts are told the error it reported or given all of its files, and it is answered without error if and only if it reported an error, or had files and every file operation succeeded. |
| Finishing.CallCanStep | internal/jobserver/nbt/nbt.go:133-281 | No call is ever stuck: one that has not returned can take its next step, unless it is a start waiting at a closed barrier. |
| Finishing.FinishAnswersAreTrue | internal/jobserver/nbt/nbt.go:222-281 | A finish is refused as invalid if and only if a field is blank; it is told that it was taken, now or before, only if it presents the token of a build that is done; and at most one finish publishes. |
| Nbt.CancellationLeaksPartialFiles | internal/jobserver/nbt/nbt.go:146-148 | When the first request is cancelled, a waiter can be given one of two files while the other is still being copied. |
| Publication.CancelIsHarmlessExactly | internal/jobserver/nbt/nbt.go:143-148 | Cancelling a build that is still closed leaves a complete outcome if and only if the winner of the swap has recorded its outcome and has only the barrier left to open. |
| Publication.WaitersAgreeExactly | internal/jobserver/nbt/nbt.go:143-171 | When the barrier of a build opens, in any reachable state: in every continuation all present and future waiters are told the same complete outcome if and only if it was not a cancellation that came before the winner was done. |
| Publication.SealedForGood | internal/jobserver/nbt/nbt.go:151-171 | From a complete outcome behind an open barrier on, no sequence of steps changes it, and everybody who waited has been told it. |
| Publication.ReleaseSeals | internal/jobserver/nbt/nbt.go:241-281 | Any step other than a cancellation that opens a barrier leaves a complete outcome behind it. |
| Publication.WaitersReturn | internal/jobserver/nbt/nbt.go:160-171 | However others interleave and whatever fails, once the winner has had its turns a waiter has returned or can do so. |
| Nbt.DroppedTokenBlocks | internal/toolexec/proxy/compile.go:269-280 | A token that its holder drops leaves every start for that build waiting forever, whatever the others do. |
| Nbt.TokenIsFinishedExactly | internal/toolexec/proxy/compile.go:196-283 | A client that was given a token finishes that very build, with the error of its command or else the files it made, if and only if both reads after the start succeed and the server can still be reached; on every early error return the token is lost. |
| Finishing.BuildersReportIsTaken | internal/toolexec/proxy/compile.go:196-237 | From any reachable state: what the client that was told to build reports once its command is closed wins the swap, unless the build is done already. |
| Finishing.CompilationIsSkippedExactly | internal/toolexec/proxy/compile.go:250-283 | A client skips the compilation if and only if somebody else was told to build this, published without error, and the artifacts could be copied; it fails with the error that was published. |
| Traversals.CollectPackages | internal/jobserver/pkgs/testvariants.go:258-276 | Lists every package reachable from the roots exactly once, on shared and cyclic graphs alike. |
| Traversals.Collector.Visit | internal/jobserver/pkgs/testvariants.go:261-271 | One visit adds only packages reachable from its argument, all of whose imports end up visited, and keeps the list free of repetitions. |
| Traversals.ImportsPackage | internal/jobserver/pkgs/testvariants.go:165-176 | True if and only if the target path is reached by at least one import. |
| Traversals.VisitImports | internal/jobserver/pkgs/testvariants.go:165-176 | A visit that finds nothing leaves no unvisited import behind and no visited package that imports the target. |
| Traversals.FindTestVariant | internal/jobserver/pkgs/testvariants.go:278-285 | The first package of the list with that path and test, if any has them. |
| Traversals.CollectTestVariantClosure | internal/jobserver/pkgs/testvariants.go:287-307 | Succeeds if and only if no package of that test reachable through such packages lacks its archive; overwrites exactly the entries of those packages and leaves all others alone. |
| Traversals.VisitVariants | internal/jobserver/pkgs/testvariants.go:287-307 | One visit records exactly what it newly explored, or reports a package without archive that is really reachable. |
| Traversals.HasErrors | internal/jobserver/pkgs/testvariants.go:248-256 | True if and only if some collected package carries an error. |
| Traversals.MergeTestVariant | internal/jobserver/pkgs/testvariants.go:34-126 | Fails without a root. For the package under test itself: succeeds if and only if the nested load does, and marks the entry if Go rebuilt it. For another root: no reachable root that imports the package under test means success and the response as it was; a failure needs such a root, and a missing overlay, source directory or load, or a load that cannot be used; a changed answer is exactly the rebuilt closure laid over the ordinary response and can be merged. |
| Traversals.MergeRebuilt | internal/jobserver/pkgs/testvariants.go:101-125 | From the loaded test packages: never with errors among them; no augmented target means the ordinary response without the target; otherwise the closure of a rebuilt root that has its archives is laid over it. A failure means errors, a missing variant or a missing archive. |
| Traversals.ResolveTestTargetProvenance | internal/jobserver/pkgs/testvariants.go:131-151 | For the package under test itself, succeeds exactly when the load does and has no errors, and then only marks the entry if Go augmented the package with its own tests. |
| Traversals.OrdinaryResponsesFit | internal/jobserver/pkgs/testvariants.go:110-125 | Ordinary responses meet the conditions under which the variant answer can be merged: nothing is marked as rebuilt, and the package under test is in it only if the root imports it. |
| LinkDeps.LinkDeps.Add | internal/toolexec/aspect/linkdeps/linkdeps.go:189-196 | Records the stronger of the old and the new kind for that path, and changes no other. |
| LinkDeps.FromImportConfig | internal/toolexec/aspect/linkdeps/linkdeps.go:55-78 | Collects, for every archive of the configuration, the strongest kind of each dependency that the configuration lacks, and nothing else; fails if and only if an archive cannot be read. |
| LinkDeps.AggregateIsUnique | internal/toolexec/aspect/linkdeps/linkdeps.go:61-75 | The result does not depend on the order in which the maps are iterated. |
| DepsText.ReadText | internal/toolexec/aspect/linkdeps/linkdeps.go:113-130 | Reading follows the header: V1, V2 or an error. |
| DepsText.ParseLoop | internal/toolexec/aspect/linkdeps/linkdeps.go:133-179 | The two line loops compute the same fold over the lines, with the V2 errors in place. |
| DepsText.WriteText | internal/toolexec/aspect/linkdeps/linkdeps.go:225-250 | Writes the header and one line per dependency in sorted order; the text reads back as these dependencies if and only if all their paths can be stored. |
| DepsText.OneOrder | internal/toolexec/aspect/linkdeps/linkdeps.go:230-237 | There is only one such order, so the output is deterministic. |
| DepsText.RoundTripExactly | internal/toolexec/aspect/linkdeps/linkdeps.go:113-250 | Read after Write is the identity if and only if every path is non-empty, has no line break and no white space at its end. |
| DepsText.ReadIsStorable | internal/toolexec/aspect/linkdeps/linkdeps.go:133-179 | Whatever V2 lines are read can be stored again. |
| DepsText.V1ReadsAsImports | internal/toolexec/aspect/linkdeps/linkdeps.go:133-150 | Any text under the V1 header reads without error, as exactly the paths that its lines hold between white space, blank lines and comments aside, all of import kind, whether or not the last line is ended. |
| DepsText.CleanV1ReadsAsImports | internal/toolexec/aspect/linkdeps/linkdeps.go:133-150 | A clean list of paths under that header reads as these paths. |
| Resolution.ResolvePackageFiles | internal/toolexec/aspect/resolve.go:28-76 | What counts is the job server's reply to the question for this path and this test variant, and only if every package of it has an archive and the path asked for is there; then it is passed on as it is. |
| Resolution.ProvenanceResolver.Get | internal/toolexec/aspect/resolve.go:78-92 | Returns the archive of the package under test in the reply to the question for it and its tests, memoised; fails if and only if that reply does not count. |
| Resolution.MergeResolvedArchives | internal/toolexec/aspect/resolve.go:112-129 | Succeeds if and only if no archive targets other tests and the package under test is not among them; then adds exactly the missing paths and those that a different rebuilt archive displaces. |
| Resolution.MergeKeepsGrowth | internal/toolexec/aspect/resolve.go:112-129 | A merge loses no key, keeps the archive of the package under test, and lets no ordinary archive displace an entry. |
| Resolution.MergedEntry | internal/toolexec/aspect/resolve.go:112-129 | After any list of merges a path has the file of the last rebuilt archive that an answer offered; without one it keeps what it had, or has the file of an answer. |
| Linking.CheckSatisfied | internal/toolexec/aspect/resolve.go:94-110 | Lets a satisfied dependency pass only if the archive that asks for it can live with it. |
| Linking.OnLink | internal/toolexec/aspect/onlink.go:40-117 | Terminates over any finite set of path and archive pairs that can turn up. On success every dependency of every archive in the final configuration is a key of it and every archive is safe; the configuration is what merging a list of replies makes of the initial one, each asked for something that an archive wanted and the build lacked, or that was looked at again for the tests; for the tests the list holds everything that any archive asks for but the package under test. The queue is in order at every turn, loses nothing but its first entry, and every entry of the final configuration has had its turn. Unchanged means unchanged, and a plain link with nothing missing, and no blank dependency, is left alone. An error is one that the inputs account for, about something that was wanted. |
| Linking.InitialQueue | internal/toolexec/aspect/onlink.go:45-55 | The queue starts with exactly the entries of the configuration, in order. |
| Linking.ProcessItem | internal/toolexec/aspect/onlink.go:67-112 | One archive: afterwards its dependencies are all keys and safe, were resolved if it is for the tests, and every entry that changed is queued; in a plain link nothing is resolved that the build has. |
| Linking.ProcessDependency | internal/toolexec/aspect/onlink.go:70-112 | One dependency: in a plain link one that the build has is passed over without a trace; for the tests only the package under test is. |
| Linking.ResolveDependency | internal/toolexec/aspect/onlink.go:90-101 | Resolves, rejects a rebuilt archive that the item cannot use, merges the rest. |
| Linking.LinkedEdgesMeetNoVariant | internal/toolexec/aspect/onlink.go:90-101 | With a consistent resolver, no answer offers a rebuilt archive for the target of an import edge of a linked archive. |
| Compile.ProvideReferences | internal/toolexec/aspect/oncompile.go:132-188 | Every woven reference is in the configuration or recorded at its kind, and in the configuration when imported or when the package is main; everything an archive asks for stays carried; no entry is replaced, and each new one comes from the reply for an imported reference, or for any when the package is main, that the build lacked; what is newly recorded is such a reference or asked for by an archive of these replies; the flag tells exactly whether the configuration changed, and a failure names a question that was due. |
| Compile.ProvideReference | internal/toolexec/aspect/oncompile.go:134-187 | The same for one reference. A relocation target of a package that is not main leaves the configuration as it was. |
| Compile.ProvideClosure | internal/toolexec/aspect/oncompile.go:166-187 | All packages of one resolution end up in the configuration, and what their link.deps ask for is carried or satisfied. |
| Compile.CopyMissing | internal/toolexec/aspect/oncompile.go:173-178 | Each dependency that the configuration lacks is carried at least as strongly as the archive asks. |
| Compile.CompilePackage | internal/toolexec/aspect/oncompile.go:100-197 | A whole compilation starts from the aggregate of its configuration, provides for every reference, and leaves a link.deps that carries everything its archives ask for and nothing unwarranted; it fails only over an archive that cannot be read or a question that was due. |
| Compile.DependenciesAreConserved | internal/toolexec/aspect/oncompile.go:132-188 | Along any chain of compilations, a dependency recorded at the bottom is carried at the top at least as strongly, unless an import configuration on the way had it. |
| CompileMain.StrongestStandsForBoth | internal/toolexec/aspect/oncompile-main.go:262-267 | The stronger of two pending entries is still checked on behalf of every edge that either of them stood for. |
| CompileMain.InitialLinkDependencies | internal/toolexec/aspect/oncompile-main.go:210-260 | Gathers an entry for every unsatisfied edge of every archive, which stands for all of those edges; missing or unsafe package-under-test edges are errors. |
| CompileMain.CollectEdge | internal/toolexec/aspect/oncompile-main.go:228-251 | One edge: satisfied and safe, gathered at the strongest kind so far, or an error. |
| CompileMain.MeetEdge | internal/toolexec/aspect/oncompile-main.go:130-160 | One dependency of a resolved archive: pending entries are strengthened, resolved ones checked, satisfied ones checked, new ones enqueued once; link.deps records it exactly when it is pending afterwards; nothing is enqueued that the build has. |
| CompileMain.ScanArchive | internal/toolexec/aspect/oncompile-main.go:123-161 | All dependencies of one archive are handled, and entries only get stronger. |
| CompileMain.ScanAnswer | internal/toolexec/aspect/oncompile-main.go:123-161 | All archives of one answer are handled, in whatever order. |
| CompileMain.Remember | internal/toolexec/aspect/oncompile-main.go:107-111 | The processed map keeps a rebuilt archive over an ordinary one. |
| CompileMain.TakeAnswer | internal/toolexec/aspect/oncompile-main.go:98-121 | First half of a turn: resolve the last path, reject or merge, and record the resolution. |
| CompileMain.Turn | internal/toolexec/aspect/oncompile-main.go:97-162 | One turn keeps all book-keeping and resolves a path that was not resolved before. |
| CompileMain.OnCompileMain | internal/toolexec/aspect/oncompile-main.go:69-182 | Terminates over a finite set of dependencies; on success the configuration is closed under link.deps, has lost nothing and displaced nothing, every edge is safe, and the imports to add are sorted, free of duplicates and exactly the paths that were resolved, each once. Every path that is resolved lacked an archive and is asked for by an archive of the build or of an answer; so is whatever link.deps newly records, which is resolved as well. They are the initially missing paths and such as link.deps records, and the configuration is exactly what merging the replies to the questions for these paths and this test variant, in the order they were resolved, makes of the initial one. A failure has to do with a path that was due, with an archive that was met, or with the package under test. |
| CompileMain.MainEdgesMeetNoVariant | internal/toolexec/aspect/oncompile-main.go:130-142 | With a consistent resolver, for an import edge of the finished configuration to something the build did not have, or to the package under test: no answer offers a rebuilt variant of the target, and the entry it ends in is what the build had or was offered as an ordinary archive. |
| CompileMain.DisplacedExactly | internal/toolexec/aspect/oncompile-main.go:112-121 | A target that the build had keeps its archive if and only if no answer that was merged offered a rebuilt one, or the last that did offered the same file; the package under test always keeps its own. |
| ImportCfg.ImportConfig.Parse | internal/toolexec/importcfg/importcfg.go:52-103 | Reads the lines into the two maps and the extras as the line grammar says. |
| ImportCfg.ImportConfig.Add | internal/toolexec/importcfg/importcfg.go:61-99 | What one line contributes: nothing, a package file, an import mapping or an extra line. |
| ImportCfg.ImportConfig.Write | internal/toolexec/importcfg/importcfg.go:131-154 | Writes both maps, each in some iteration order, and then the extras; the text parses to this configuration if and only if it is plain. |
| ImportCfg.ImportConfig.CombinePackageFile | internal/toolexec/importcfg/importcfg.go:107-115 | Adds exactly the entries that were missing, keeps the others, and tells exactly whether there were any. |
| ImportCfg.RoundTripExactly | internal/toolexec/importcfg/importcfg.go:52-154 | Whatever the iteration order, parsing what was written gives the configuration back if and only if every key, value and extra line is plain: no line breaks, no equals sign in a key, no white space where trimming would cut it, no extra line that reads as a comment or an entry. |
| ImportCfg.ParsedIsWritable | internal/toolexec/importcfg/importcfg.go:52-103 | Every configuration that was read is of that kind. |
| ImportCfg.ParseWriteParse | internal/toolexec/importcfg/importcfg.go:52-154 | For every text, parse after write after parse equals parse. |
| Fingerprint.Hasher.Named | internal/fingerprint/fingerprint.go:49-92 | The loop appends exactly the encoding of the named list of values to the stream. |
| Fingerprint.FingerprintIsInjective | internal/fingerprint/fingerprint.go:49-92 | For values whose names and texts avoid the three beacons, equal streams mean equal trees, and conversely. |
| Fingerprint.SequencesAreUnique | internal/fingerprint/fingerprint.go:49-92 | Several Named calls one after the other cannot be confused with any other calls. |
| Fingerprint.BeaconsCollide | internal/fingerprint/fingerprint.go:50-54 | A beacon inside a leaf is enough to forge a second item. |
| Fingerprint.Hasher.Hash | internal/fingerprint/types.go:17-91 | List, mapped and mappedItem append the encoding of the tree they stand for, and a leaf its text. |
| Fingerprint.Hasher.HashLeaf | internal/fingerprint/types.go:17-48 | Bool, Int and String append their text to the stream: true or false, the decimal number, the string itself. |
| Fingerprint.LeavesTellApartExactly | internal/fingerprint/types.go:17-48 | Two leaves write the same text if and only if they are equal or one is a string that spells the other. |
| Fingerprint.Map | internal/fingerprint/types.go:64-77 | Collects the mapped entries in any order and sorts them by key. |
| Fingerprint.MapFingerprintIgnoresOrderExactly | internal/fingerprint/types.go:64-91 | The encoding is the same for every iteration order if and only if no two entries share a mapped key without sharing the value. |
| Fingerprint.MapValuesDiffer | internal/fingerprint/types.go:79-91 | Two different results for the same entries always have different encodings. |
| JoinHash.SameFingerprintExactly | internal/injector/aspect/join/package.go:48-80 | For join points of the modelled kinds, equal streams mean equal join points up to one thing: a package name passes for an import path, since both hash under one tag. |
| JoinHash.PointsTellApart | internal/injector/aspect/join/package.go:78-80 | The trees that join points hash to differ whenever the join points differ by more than that tag. |
| JoinHash.RenamingKeepsValue | internal/injector/aspect/join/package.go:78-80 | Turning package names into import paths anywhere in a join point leaves its tree as it is. |
| Globstar.MatchSegments | internal/injector/aspect/join/package.go:192-231 | The two-index loop computes the recursive matcher, including where it reports a malformed pattern. |
| Globstar.MatchingRefinesMeaning | internal/injector/aspect/join/package.go:192-231 | A match means that the path splits into one segment per ordinary pattern and any run per `**`; no match means that it does not; an error comes from a malformed segment. |
| Globstar.ExpandGlobstarSegments | internal/injector/aspect/join/package.go:131-139 | Expands every segment in order, as the specification function that the statements on accepted paths are about. |
| Expansion.GlobstarsStandAloneExactly | internal/injector/aspect/join/package.go:141-190 | Every `**` of a segment ends up as a segment of its own if and only if: with `**` at the end, the text without its last character has none, or the segment is three stars; else with `**` at the front, the text without its first character has none; else no run of three or more stars has odd length. |
| Globstar.LeadingGlobstarIsKept | internal/injector/aspect/join/package.go:148-151 | In particular a segment with `**` at both ends keeps the leading one, for every middle part. |
| Expansion.GlobstarPrefix | internal/injector/aspect/join/package.go:154-165 | For every literal e, slashes included, `**e` accepts exactly the paths that end with the text e and, if e starts with a slash, also what is behind that. |
| Expansion.GlobstarBetween | internal/injector/aspect/join/package.go:168-190 | For non-empty literal d that does not end and e that does not start with a slash, `d**e` accepts exactly the paths that at some slash divide into what starts with d and what ends with e: `a**b` never matches a single segment. |
| Globstar.LiteralsMatchThemselves | internal/injector/aspect/join/package.go:192-231 | Literal segments consume exactly themselves and leave the rest of the pattern to the rest of the path. |
| Globstar.SlashGlobstar | internal/injector/aspect/join/package.go:109-165 | For literal d, `d/**` accepts exactly d and the paths below it. |
| Globstar.GlobstarSuffix | internal/injector/aspect/join/package.go:148-151 | For literal d without a trailing slash, `d**` accepts exactly the paths that start with the text d. |
| Scan.SignaturePackageMayMatch | internal/injector/aspect/join/function.go:158-173 | The loop over argument and result types computes the conjunction of their import checks. |
| Pruning.OptionPruningIsExact | internal/injector/aspect/join/function.go:121-346 | An option that holds of a function was pruned by its package if and only if it is signature-contains with an imported and a missing type among those it lists, and by its file if and only if it is a blank name on a function literal. |
| Pruning.FunctionPruningIsExact | internal/injector/aspect/join/function.go:68-115 | A function join point that matches was pruned if and only if one of its options is such a hazard. |
| Pruning.SignatureContainsIsPruned | internal/injector/aspect/join/function.go:233-261 | signature-contains asks for any of its types, yet one type that is not imported prunes it where another one matches. |
| Pruning.BlankNameIsPruned | internal/injector/aspect/join/function.go:135-141 | A blank function name matches every function literal, and is pruned from every file. |
| Leaves.NegationDivides | internal/injector/aspect/join/all-of.go:53-61 | Everywhere just one of a join point and its negation matches; an empty all-of and an empty one-of match nowhere. |
| Leaves.NegationDistributes | internal/injector/aspect/join/not.go:37-39 | The negation of a one-of that is not empty matches where all negations do, and that of an all-of where one does. |
| Leaves.TypeHasOneName | internal/injector/typed/typename.go:73-108 | A type expression is matched by one name only, which is a pointer's if and only if the expression has an asterisk; but the empty interface is matched by `any` and by `*any`. |
| Leaves.NodeNamesType | internal/injector/typed/typename.go:122-129 | The node made from a type name is matched by that name and by no other. |
| Leaves.ReceiverDividesExactly | internal/injector/aspect/join/function.go:336-338 | A required receiver matches exactly the declarations with one receiver, and a forbidden one all other functions, literals included. |
| Leaves.ReceiverIsMethod | internal/injector/aspect/join/function.go:304-306 | A receiver of some type is one, declared in the package of that type under its bare name. |
| Leaves.SignatureIsUnique | internal/injector/aspect/join/function.go:193-223 | Of all signatures just one matches a function, up to the two names of the empty interface: arguments and results in number, order and type. |
| Leaves.SignatureContainsOne | internal/injector/aspect/join/function.go:251-282 | `signature-contains` matches if and only if it would with one of its arguments or one of its results alone, and never with none. |
| Leaves.FunctionBodyExactly | internal/injector/aspect/join/function.go:372-390 | `function-body` matches exactly the bodies of the functions, declared or literal, that all options match. |
| Leaves.LiteralModesDivide | internal/injector/aspect/join/struct.go:128-176 | Every literal of a type is matched in exactly one of two modes, as a value where it stands or as a pointer at the `&` above it; the default mode matches it where it stands. |
| Leaves.CallModesDivide | internal/injector/aspect/join/method_call.go:61-107 | A method call on a named type is on a value or on a pointer to it and not both, and the default mode matches either. |
| Leaves.NearestSettingCounts | internal/injector/aspect/context/node.go:58-65 | A required setting matches if and only if the nearest ancestor that has the key has that value. |
| Leaves.DirectiveTextExactly | internal/injector/aspect/join/directive.go:105-124 | A decoration carries a directive if and only if it reads: white space, `//`, the name, and then nothing or white space. |
| Leaves.DirectiveReachesDown | internal/injector/aspect/join/directive.go:51-103 | A directive applies to a node if and only if the node or an ancestor carries it and every node on the way down shares the directives of its parent. |
| Leaves.SharingExactly | internal/injector/aspect/join/directive.go:58-103 | Which nodes share them: specs; what is called, sent or assigned, and what a `:=` declares; whatever a defer, go, return or expression statement wraps; nothing else. |
| Leaves.ListsAnswerLikeExtremes | internal/injector/aspect/may/match.go:57-88 | All-of answers like the least likely of its candidates and one-of like the most likely, in the order never, unknown, match. |
| Leaves.NeedsAreAnswered | internal/injector/aspect/may/context.go:25-35 | A join point that needs a package may match where that is imported or the package itself, cannot where it is not, and nothing is said if the name of the package is blank. |
| Leaves.FilesAreAnswered | internal/injector/aspect/may/context.go:49-60 | A leaf that needs a word may match in the files that contain it and in no other, and nothing is said of the leaves that need none. |
| Leaves.RootFilterIsRelative | internal/injector/aspect/join/package.go:259-326 | A filter on the root module matches a package below it if and only if the filter without the module matches its path relative to the module. |
| Leaves.FilterAcceptsExactly | internal/injector/aspect/join/package.go:109-292 | With `path.Match` as promised, a filter of a literal path, a slash and a globstar matches exactly that package and those below it, and on the root module the same below the module; a literal alone matches itself among the paths of one segment. |
| JoinHash.MapListsConfig | internal/injector/aspect/join/configuration.go:48-50 | In whatever order a configuration is iterated, Map makes the same list of items of it. |
| Scan.PackageMayMatch | internal/injector/aspect/join/all-of.go:31-40 | The early-return loops of all-of, one-of and function compute the fold of And or Or over their parts; not, function-body and the leaves as they say. |
| Scan.FileMayMatch | internal/injector/aspect/join/one-of.go:54-63 | The same for the raw file content. |
| Pruning.LeafPackagePruningIsExact | internal/injector/aspect/join/declaration.go:83-107 | A leaf that matches a node of the package was pruned by its package if and only if it is a hazard there: an untyped declaration with a type that is not imported, a method call whose receiver type comes from a package that is not imported, test-main at a node whose flag is not that of its package, or signature-contains with mixed types. |
| Pruning.LeafFilePruningIsExact | internal/injector/aspect/join/directive.go:43-124 | A leaf that matches a node of the file was pruned by its content if and only if it is a blank function name on a function literal. |
| Pruning.UntypedDeclarationIsPruned | internal/injector/aspect/join/declaration.go:83-107 | An untyped declaration matches value-declaration of every type, and is pruned for any type that is not imported. |
| Pruning.TestMainBelowBodyIsPruned | internal/injector/aspect/context/context.go:206-223 | `test-main: false` below function-body is pruned from a test main package, where it matches since the parent context forgets the flag. |
| Pruning.DirectiveIsWritten | internal/injector/aspect/join/directive.go:51-124 | A directive that matches anywhere up the chain occurs in the file as the very text that is looked up. |
| Pruning.PruningIsExact | internal/injector/aspect/may/match.go:33-88 | For every join-point tree over the modelled leaves and every node of a parsed file that it matches: the package pruned it if and only if the tree is a hazard there (all-of: some child; one-of: some child, and every other is pruned as well; not: never; function-body: at the parent), and the same for the file. |
| Pruning.MethodCallsAreSafeExactly | internal/injector/aspect/join/method_call.go:53-109 | At a node, no method-call join point whatever is pruned although it matches if and only if the receiver's named type, behind at most one pointer, comes from an imported package. |
| Pruning.SignatureContainsIsSafeExactly | internal/injector/aspect/join/function.go:233-281 | signature-contains is pruned at no node of a parsed file that it matches if and only if the package imports all the types it lists or none of them. |
| Pruning.PruningIsSound | internal/injector/aspect/may/match.go:33-88 | So NeverMatch for a package or file without hazard means that the node does not match. |
| Weaving.PackageFilterAspects | internal/injector/imports.go:23-35 | The copy keeps, in order, exactly the aspects that may match the package. |
| Weaving.FileFilterAspects | internal/injector/parse/parser.go:165-186 | The copy keeps, in order, exactly the aspects that may match the file. |
| Weaving.PruningKeepsInjectionExactly | internal/injector/injector.go:290-318 | At a node of a parsed file, both filters together leave the advice as it was (which, in what order, under what indices) if and only if no matching aspect with advice is a hazard there. |
| Weaving.FilterKeepsInjectionExactly | internal/injector/injector.go:290-318 | Whatever is dropped: the advice at a node stays as it was if and only if no dropped aspect matches there with advice. |
| Weaving.InjectNode | internal/injector/injector.go:290-318 | Applies all advice that is due, once each, by the namespace, order and position that it declares, up to the first failure, and reports a modification if and only if some application made one. |
| Weaving.CollectAdvice | internal/injector/injector.go:291-302 | Collects the advice of the matching aspects under consecutive indices. |
| Weaving.CollectedIndices | internal/injector/injector.go:292-302 | The indices number the collected advice without a gap. |
| Weaving.ApplyAll | internal/injector/injector.go:309-317 | The loop stops at the first failing application and accumulates the modifications. |
| Weaving.SortAdvice | internal/injector/aspect/advice/order.go:57-59 | The in-place sort yields the sorted arrangement of the specification. |
| Weaving.InjectionOrderIsUnique | internal/injector/aspect/advice/order.go:57-71 | The injected sequence is sorted, a permutation of the collected advice, and the only such sequence. |
| Weaving.InjectedAsDeclared | internal/injector/aspect/advice/order.go:26-71 | The injected sequence is the advice of the matching aspects in definition order, each once, rearranged so that declared namespace, declared order and place of definition ascend, the highest code point and zero standing in where nothing is declared. |
| Weaving.UnplacedRunsLastExactly | internal/injector/aspect/advice/order.go:14-71 | Advice that declares a place runs before advice that declares none if and only if its namespace does not begin with the highest code point, or is just that and its order is negative, or zero and it was defined earlier. |
| Weaving.DefaultRunsLastExactly | internal/injector/aspect/advice/order.go:14-52 | Advice of another namespace sorts before all advice without a namespace if and only if its namespace does not extend the default one, a single last code point. |
| Ordering.SortInPlace | internal/injector/aspect/advice/order.go:57-59 | The array ends as the specified stable arrangement of its old contents. |
| Ordering.SortedIsUnique | internal/injector/aspect/advice/order.go:61-71 | Two sorted arrangements of the same elements are equal when the order tells the elements apart. |
| Parsing.StepKeepsInvariant | internal/injector/parse/parser.go:78-162 | Every atomic step of every goroutine, those that parse missing files among them, keeps the invariant on the counter, the flag and the lists. |
| Parsing.SecondRoundKeepsInvariant | internal/injector/parse/parser.go:119-162 | So does the start of the second round, in which the files that were passed over are parsed. |
| Parsing.OutcomeIsScheduleIndependent | internal/injector/parse/parser.go:78-130 | An error is returned if and only if a file failed; otherwise nothing is returned if and only if every filtered list is empty and the package is small, whatever the schedule. |
| Parsing.ParsedFilesKeepInjectionExactly | internal/injector/parse/parser.go:119-162 | Otherwise all files are returned, each with a list that gives a node the same advice as the full list if and only if it is the full list or no matching aspect with advice is a hazard in this file. |
| Parsing.NothingMeansNoAdviceExactly | internal/injector/parse/parser.go:114-117 | When nothing is returned, a node receives no advice from the full list if and only if no matching aspect with advice is a hazard in its file. |
| Parsing.LateFilesKeepAll | internal/injector/parse/parser.go:92-113 | A file whose goroutine asks for a reason to parse after one has turned up is returned with all aspects, whatever the schedule. |
| Parsing.LoneFileIsFiltered | internal/injector/parse/parser.go:92-113 | In a package within the size limit in which one file alone may match, this file is returned with its filtered aspects, whatever the schedule, unless some file fails. |
| Parsing.GoroutinesEnd | internal/injector/parse/parser.go:79-112 | An unfinished goroutine can always step, waits for no other, and gets closer to its end with each step. |
| Parsing.ParseFilesGoesOn | internal/injector/parse/parser.go:78-162 | Until ParseFiles has returned, some goroutine can step or the second round can start. |
| Imports.CountUnanimous | internal/injector/aspect/join/one-of.go:24-41 | The counting loop lists, once each, exactly the paths that were listed as often as there are candidates. |
| Imports.ListedIsSum | internal/injector/aspect/join/one-of.go:26-38 | Counting what the candidates list is counting in their sum, so the loop computes what one-of claims. |
| Imports.OneOfCountsExactly | internal/injector/aspect/join/one-of.go:24-41 | With the surplus of repeated mentions and the number of candidates without the path: it is listed just when all candidates imply it, if and only if there is no surplus, or it is neither alone nor equal to the missing ones. |
| Imports.ListedExactly | internal/injector/aspect/join/join.go:19-21 | A leaf lists exactly the packages that it is about, all-of what any part lists, function-body what is listed below, and not nothing. |
| Imports.ImpliedIsKnownExactly | internal/injector/aspect/join/join.go:19-21 | A path that a matching join point lists is imported in whatever package the node may have been parsed in if and only if it is that package's own path or the node or an ancestor names it; and it is when, wherever the node may have been parsed, a sound voucher lists it. |
| Imports.KnownExactly | internal/injector/aspect/join/join.go:19-21 | For any path and any node of a parsed file: all packages that the node may have been parsed in import it if and only if it is their own path or the node or an ancestor names it. |
| Imports.ImpliedIsImported | internal/injector/aspect/join/join.go:19-21 | In one package, whatever a matching join point lists is imported, wherever each one-of on the way to it is decided by a candidate that really lists the path. |
| Imports.SignatureOutvotesDirective | internal/injector/aspect/join/one-of.go:26-38 | A signature that names one package twice outvotes a candidate that says nothing: a matching one-of lists a package that is not imported. |
| Imports.LeafListsImports | internal/injector/aspect/join/function.go:179-191 | A leaf that may match a package lists only what that package imports. |
| Imports.FilterExtraneousImports | internal/injector/imports.go:73-101 | Exactly one declaration is retained for every path, the one that the loop stops at. |
| Imports.RetainOne | internal/injector/imports.go:77-96 | The loop with its two skips and its break picks the declaration that the specification names. |
| Imports.PreferredExactly | internal/injector/imports.go:78-95 | The documented preference is met if and only if the loop does not break on a second blank alias ahead of a real one. |
| PostProcess.PostProcess | internal/injector/postprocess.go:17-42 | The in-place loop leaves in the buffer, up to the returned length, every line mapped through dropping leading blanks exactly if a line directive follows them. |
| PostProcess.TrimAt | internal/injector/postprocess.go:21-30 | Moves the rest of the buffer left over the blanks if a directive follows, and touches nothing in front. |
| PostProcess.MoveLeft | internal/injector/postprocess.go:27-29 | The overlapping copy moves exactly the wanted stretch. |
| PostProcess.NextLine | internal/injector/postprocess.go:32-38 | Advances past the line feed, with the lines passed over already in their final form. |
| PostProcess.DirectivesMoveExactly | internal/injector/postprocess.go:14-42 | Line by line: a directive loses the spaces and tabs in front of it and nothing else, and every other line stays as it is. |
| PostProcess.ProcessingIsIdempotent | internal/injector/postprocess.go:14-42 | Processing twice is processing once. |
| PostProcess.OnlyBlanksGo | internal/injector/postprocess.go:14-42 | The buffer never grows, and every character other than blanks stays, in order. |
| LineDirective.CutPositionSuffix | internal/injector/parse/mappedfilename.go:81-99 | The digit loop computes, in 64-bit arithmetic, the number after the last colon, or says that there is none, or runs past the start. |
| LineDirective.OverrunExactly | internal/injector/parse/mappedfilename.go:82-94 | The scan runs past the start if and only if the text is empty or all digits. |
| LineDirective.PositionExactly | internal/injector/parse/mappedfilename.go:85-98 | For any digits after a colon, leading zeros or not and whatever precedes them: the position is the number they stand for if and only if that is below 2^63. |
| LineDirective.PositionWraps | internal/injector/parse/mappedfilename.go:87-91 | Beyond that it wraps: 2^64 + 1 passes for line 1. |
| LineDirective.Reader.ReadLine | internal/injector/parse/mappedfilename.go:37-63 | Reads up to the line end, with the carriage-return rewind, or hits the end of the file. |
| LineDirective.Reader.ConsumeLineDirective | internal/injector/parse/mappedfilename.go:18-78 | The byte-wise reader computes the specified outcome and stops at the specified place; it overruns exactly when the specification does. |
| LineDirective.LineZeroExactly | internal/injector/lineinfo/annotation.go:142-147 | A directive without a line gives its name back if and only if the name has no line break, no white space at either end, is not all digits and does not end in a position; with a line break only the name before it is read. |
| LineDirective.FileStartExactly | internal/injector/lineinfo/annotation.go:142-149 | The directive printed at the start of a file gives its name back, with the reader right after the newline, if and only if the name holds no line break and no white space in front. |
| LineDirective.LaterLinesRewindExactly | internal/injector/lineinfo/annotation.go:151-155 | For the directive of any line from 2 on, the reader gives no name, and is rewound if it can be, if and only if the file name holds no line break, or what precedes the first one ends in a position other than `:1` or `:1:1`. |
| LineDirective.LineOneExactly | internal/injector/lineinfo/annotation.go:144-155 | For a line-1 directive without a column and any file name: it is taken for its file if and only if the name has no line break, no white space in front, is not all digits and does not end in a position; when it is refused and when the scan overruns, exactly; with a line break only the name before it is read. |
| Election.StepKeepsInvariant | internal/cmd/server.go:116-191 | Every step of any process, under both ways to upgrade a lock, keeps the invariant on locks, file content and servers, as long as the file keeps its name and no URL is longer than the one that overwrites it. |
| Election.AtMostOneElected | internal/cmd/server.go:116-191 | In every such run, while the server of one process is reachable, no other process has passed both checks. |
| Election.WaitingForSomebodyReady | internal/cmd/server.go:119-136 | Whoever has to wait for a lock waits for a process that holds it and can go on, and a reader for a writer only, so upgrading readers do not block each other. |
| Election.EveryoneGoesOn | internal/cmd/server.go:116-191 | In any world, a process that has not ended and does not wait for a lock can take its next step, and ends only when it has nothing else to do; a reader waits for a writer only. |
| Election.StepsGoForward | internal/cmd/server.go:116-191 | Every step of a process takes it to a later stage and leaves all other processes where they are. |
| Election.StaleTailElectsTwo | internal/cmd/server.go:165-168 | A longer stale URL leaves its tail behind a shorter new one, and a second process is elected. |
| Election.UnlinkElectsTwo | internal/cmd/server.go:149-152 | Removing the file splits the lock across two inodes, and a second process is elected. |
| Succession.RivaledExactly | internal/cmd/server.go:116-191 | From any reachable world in which a process serves, removals and stale tails included: some run without a step of that process, in which the name stays, has another process pass both checks if and only if the file under the name does not hold the URL, or another process has passed them already, or one on its way to the second check has a file open that does not hold the URL. |
| Succession.RivaledOnOneFileExactly | internal/cmd/server.go:116-191 | While every process has the file under the name open, that is if and only if this file does not hold the URL or another process has passed both checks already. |
| Succession.ShorterURLIsRivaledExactly | internal/cmd/server.go:165-179 | Once a process has written its URL and released the lock, another can be elected beside it if and only if the old content was longer, another process has passed both checks already, or one on its way has another file open that does not hold the URL. |
| Succession.EarlyReaderIsElected | internal/cmd/server.go:119-152 | A process that opened the file before it was removed is elected beside the server under its name, although nobody who comes later is. |
| Succession.ReplacedExactly | internal/cmd/server.go:116-191 | A process that comes later can be elected without a step of the one that serves if and only if the file under the name does not hold the URL, or another process stands ready to write a different one over it. |
| Succession.ReplacedOnItsFileExactly | internal/cmd/server.go:116-191 | While the name still leads to the file of the server, a process that comes later can be elected if and only if the file does not hold the URL. |
| Succession.OverwriteExactly | internal/cmd/server.go:165-168 | The file holds just the URL after the write if and only if the old content was no longer. |
| Succession.SameURLElsewhere | internal/cmd/server.go:149-168 | A file of the same name but another inode does no harm when it happens to hold the same URL. |
| Locking.FieldAgreesWithLockExactly | internal/filelock/filelock.go:61-135 | In any run of the election, the mutex of a process that has not ended is where its sequence of calls has taken it, and its field equals the lock that the kernel holds if and only if none of these calls lost a lock for good: on Windows always, elsewhere unless the process waits for the lock it gave up. |
| Filelock.FieldAgreesExactly | internal/filelock/filelock.go:61-151 | After any sequence of RLock, Lock and Unlock with any answers of the system, the field equals the lock that is held if and only if no refused conversion has lost a lock since the kernel last did as it was asked. |
| Filelock.WindowsAlwaysAgrees | internal/filelock/filelock_windows.go:48-64 | Where a lock is given up before it is changed, the field is always right. |
| Filelock.SuccessMeansLocked | internal/filelock/filelock.go:61-118 | A call that reports success leaves the file open and the wanted lock held, unless the field was wrong about holding it already. |
| Filelock.LostLockLooksHeld | internal/filelock/filelock_posix.go:35-37 | After a refused conversion that cost the lock, asking for the read lock succeeds although none is held. |

## Left out

- Pruning.PruningIsExact: speaks of nodes of the parsed file, not of declarations that advice adds while weaving.
- Imports.ImpliedIsImported: one direction for a given package, since a path may happen to be imported without any voucher; ImpliedIsKnownExactly is exact about what the node guarantees.
- Traversals.MergeFrom: says nothing about graphs with a cycle of packages that all have an import path and no archive, on which the recursion goes on; Go packages do not form cycles.
- Traversals.MergeTestVariant: the overlay sources, the import bridge for internal packages and the file checks are one flag that says whether they succeeded.
- Election.AtMostOneElected: for runs in which the file keeps its name and no URL is shorter than what it overwrites; what happens in all other runs is the subject of Succession.
- Cache.EveryLoadEnds: a loader that never returns is outside the model; loading is one step with any outcome.
- The hash of a resolution request is its key; JSON encoding and SHA-512 are taken to be injective, as are fingerprints beyond the byte stream.
- Text is a sequence of characters instead of bytes; UTF-8 encoding and invalid UTF-8 are not modelled.
- Counters of the cache statistics and of parsed bytes are unbounded; their wrap at 2^64 is not modelled, that of line positions is.
- `path.Match` is a parameter, constrained only where a lemma says so; library sorts are given by their unique result.
- Limits of the line scanner, I/O errors while reading or writing text, and short reads of the directive prefix.
- Contents of copied build artifacts: files are names, and copying one is a step that succeeds or fails.
- `packages.Load`, archive reading, NATS transport, process start, timeouts and signals.
- `dave/dst`, `go/types`, templates, AST restoration, `filterDecls`, and where the annotation visitor places directives; nodes have the fields that join points read.
- Interface-implementation options and other leaves that answer Unknown and rest on `go/types`.
- The suffix array behind FileContains: a lookup is a substring search.
- YAML and configuration loading, go.mod and pin editing, generated code, tracing and logging.
