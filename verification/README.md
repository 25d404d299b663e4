# Lily foundation: a Dafny model

Lily is a Rust application framework. This project models five parts of its foundation crates
and proves what they promise, for all inputs and all interleavings.

* **Service-graph analysis** (`DependencyGraph`, `ServiceRegistry`). The dependency-injection
  registry resolves concrete ids and trait aliases, rejects missing, ambiguous, captive and
  circular dependencies, and plans the eager start of the singletons. The three-colour search and
  the Kahn ordering are imperative methods; the theorem that links them is that the ordering is
  complete whenever the search finds nothing. The plan is determined by the registration order.
* **Background services and cancellation** (`CancellationSignal`, `BackgroundRuntime`,
  `BackgroundStart`, `BackgroundAborts`, `BackgroundEndings`, `InitializeCall`, `InitializeRuns`,
  `FailureWait`). A supervisor, its workers, the host calls and the snapshot readers form a
  transition system whose steps are the lock sections, the atomic accesses and the awaits that
  became ready. Safety is an inductive invariant over all interleavings, and it is not empty: the
  endings that some run comes to are exactly the legal ones. The register, re-check, sleep loops of
  the signal, of `initialize` and of `wait_for_failure` have their own proofs about wake-ups.
* **Scopes and container build** (`ScopeLedger`, `ContainerBuild`). The scope registry and the
  caller-polled build are classes. The ledger conserves scopes; the build ends in one commit or in
  one rollback, whatever sequence of polls, cancellations and drop it sees, and what it delivers
  follows from what its environment answered.
* **Configuration tree** (`ConfigTree`, `ConfigFlatten`, `ConfigResolve`, `ConfigBindings`,
  `EnvironmentOverlay`, `EnvironmentOverrides`, `OverlayLaws`, `OverlayOutcome`, `OverlayTypes`,
  `OverlayValues`, `LegacyLaws`). Path reads and writes on a TOML tree, flattening to dotted keys,
  substitution of references, and the overlay of legacy and canonical environment variables, whose
  success, errors and final values are given in closed form.
* **RabbitMQ topology compiler** (`RetryBackoff`, `TopologyNames`, `TopologyPlan`,
  `TopologyContract`). Capped exponential backoff with jitter buckets, derived names, the global
  acceptance of a topology, and what an accepted plan says in terms of the definitions.

`Common.dfy` and `Strings.dfy` hold options and results, sequences, sorting by a comparison,
string order, decimal numerals, dotted names and reference syntax.

Where a promise turns out to be false of the code, the model keeps the code and states the exact
condition:

* The lifetime check compares direct edges only. `LeakIsAccepted` exhibits a singleton that
  reaches a scoped service. `LeaksExactly` says when that happens in an accepted registry: exactly
  when the singleton reaches, through any chain, a transient with a direct scoped dependency.
* An environment override can be lost inside the `custom` section. `CustomLossExample` shows it for
  `LILY__CUSTOM__A__B` and `LILY__custom__a` over an empty configuration. `VariableSurvives` says
  exactly when a variable that is not overridden by a canonical variable of the same path is lost:
  a variable that follows it in sorted order targets a node above its path. Outside `custom` such a
  pair always fails.
* The legacy name of a setting can miss it. `LegacyNameReachesExactly` says when it does not: no
  segment of the setting's path holds a dot, and the name is neither canonical nor a bootstrap name.
  `DottedKeyExample`, `UnderscoreExample` and `BootstrapExample` show the other cases.
* A crash of the supervisor can go unnoticed by `wait_for_failure`. `CrashGoesUnnoticed` shows a
  call made before there is a supervisor. `WaitForFailureIsSound` says when a sleeper can wake:
  exactly when it found a supervisor or a worker was joined since; a call made when there is a
  supervisor always finds it (`LateCallersAreAttended`).

The limit of 32 retry buckets per queue is a check that the compiler makes. It can only be
exceeded with jitter (`BucketLimitNeedsJitter`), and jitter does reach the bound of 43
(`WidestReachesBound`).

Conventions: a TOML table is a map, and methods that walk one pick keys in an arbitrary order, so
what they ensure holds for every order. Clocks, file reads, secret providers, the TOML library's
parsers and printers, task panics and deadline expiry are parameters or nondeterministic choices.
Warnings and errors are values that carry what their messages say. Unsigned words appear as `nat`
with saturation and range checks written out.

## Model

| member | source | states |
|---|---|---|
| `DependencyGraph.Visit` | crates/foundation/lily_injection_registry/src/lib.rs:370-400 | explores one node: either returns a simple directed cycle, or leaves the path as found and finishes the node after all it reaches |
| `DependencyGraph.FindDependencyCycle` | crates/foundation/lily_injection_registry/src/lib.rs:369-412 | returns none exactly when the graph has no directed cycle; a returned list is a simple cycle whose last node points back to its first |
| `DependencyGraph.ClosingEdge` | crates/foundation/lily_injection_registry/src/lib.rs:386-392 | the tail of the path from the node met again is a simple cycle |
| `DependencyGraph.OrderedImpliesAcyclic` | crates/foundation/lily_injection_registry/src/lib.rs:369-412 | a listing of the whole graph with dependencies first rules out every cycle |
| `DependencyGraph.WalkCloses` | crates/foundation/lily_injection_registry/src/lib.rs:369-412 | walking among nodes that all have a dependency among themselves closes a cycle |
| `DependencyGraph.AcyclicHasSink` | crates/foundation/lily_injection_registry/src/lib.rs:369-412 | without cycles every non-empty set of nodes has one with no dependency inside the set |
| `DependencyGraph.ReverseGraph` | crates/foundation/lily_injection_registry/src/lib.rs:314-321 | each node gets the exact list of its dependents, once each, and the number of its dependencies |
| `DependencyGraph.PopKeepsKahn` | crates/foundation/lily_injection_registry/src/lib.rs:331-332 | emitting a node without pending dependencies keeps the order dependencies-first |
| `DependencyGraph.ReleaseKeeps` | crates/foundation/lily_injection_registry/src/lib.rs:333-338 | a released dependent always has a positive count, so the decrement never underflows, and it is queued exactly when its last pending dependency was emitted |
| `DependencyGraph.DrainedIsComplete` | crates/foundation/lily_injection_registry/src/lib.rs:330-341 | when the queue is empty and the graph has no cycle, every node has been emitted: the debug assertion always holds |
| `DependencyGraph.KahnOrder` | crates/foundation/lily_injection_registry/src/lib.rs:312-341 | on every acyclic graph: each index exactly once, every dependency before its dependent, the first to become ready emitted first and ties broken by index |
| `DependencyGraph.JoiningKeepsLine` | crates/foundation/lily_injection_registry/src/lib.rs:333-338 | a node queued with the current emission stands behind all that became ready earlier or with a smaller index |
| `DependencyGraph.ReleaseOrderIsUnique` | crates/foundation/lily_injection_registry/src/lib.rs:323-339 | a graph has only one complete order in which the first ready is the first emitted |
| `ServiceRegistry.RegisterAll` | crates/foundation/lily_injection_registry/src/lib.rs:257-265 | the table maps exactly the concrete ids and trait aliases; it fails only on two registrations that answer the same id |
| `ServiceRegistry.ConcreteAdded` | crates/foundation/lily_injection_registry/src/lib.rs:258-260 | a concrete id found taken is a genuine clash; otherwise the table answers one id more, exactly |
| `ServiceRegistry.TraitAdded` | crates/foundation/lily_injection_registry/src/lib.rs:261-265 | the same for a trait alias, against concrete ids and earlier aliases |
| `ServiceRegistry.SortedNamesListBoth` | crates/foundation/lily_injection_registry/src/lib.rs:351-367 | the ambiguity error lists exactly the two implementations, in order and whichever came first |
| `ServiceRegistry.BuildRow` | crates/foundation/lily_injection_registry/src/lib.rs:270-298 | lists what the dependencies of one service resolve to, or reports the first missing or captive one |
| `ServiceRegistry.BuildGraph` | crates/foundation/lily_injection_registry/src/lib.rs:267-299 | the graph has an edge exactly where one service depends on another, directly or through an alias |
| `ServiceRegistry.ChainIsPath` | crates/foundation/lily_injection_registry/src/lib.rs:301-310 | chains and cycles of services are the paths and cycles of the graph |
| `ServiceRegistry.PlanListsSingletons` | crates/foundation/lily_injection_registry/src/lib.rs:342-348 | filtering a complete order lists each singleton exactly once and nothing else |
| `ServiceRegistry.PlanRespectsChains` | crates/foundation/lily_injection_registry/src/lib.rs:342-348 | a singleton reached through any chain, transients included, is placed earlier |
| `ServiceRegistry.AnalyzeServiceGraph` | crates/foundation/lily_injection_registry/src/lib.rs:250-349 | succeeds exactly on registries that are unambiguous, complete, without a direct singleton-to-scoped edge and acyclic; the result is a startup plan, the one the registration order determines, and every error names a genuine fault |
| `ServiceRegistry.PlanIsDetermined` | crates/foundation/lily_injection_registry/src/lib.rs:312-348 | a registry has only one such plan, however its dependencies are listed |
| `ServiceRegistry.ExplainedIsRejected` | crates/foundation/lily_injection_registry/src/lib.rs:250-349 | a registry with an explained error is never acceptable |
| `ServiceRegistry.LeaksExactly` | crates/foundation/lily_injection_registry/src/lifetime_validation.rs:10-37 | in an accepted registry a singleton reaches a scoped service exactly when it reaches a transient with a direct scoped dependency |
| `ServiceRegistry.LeakIsAccepted` | crates/foundation/lily_injection_registry/src/lifetime_validation.rs:10-37 | the lifetime check is pairwise: singleton over transient over scoped is accepted |
| `CancellationSignal.StepKeepsInv` | crates/foundation/lily_cancellation/src/execution.rs:54-102 | every atomic action of a waiter or a canceller keeps the protocol invariant |
| `CancellationSignal.NoLostWakeUp` | crates/foundation/lily_cancellation/src/execution.rs:54-102 | for any number of waiters and cancellers in any interleaving: once a cancel has finished nobody sleeps un-notified, and nobody returned before the flag was set |
| `CancellationSignal.CancellationIsMonotone` | crates/foundation/lily_cancellation/src/execution.rs:54-58 | cancellation is never withdrawn |
| `CancellationSignal.WaiterAdvances` | crates/foundation/lily_cancellation/src/execution.rs:62-75 | after a finished cancel a live waiter always has an enabled step, and each brings it closer to returning |
| `CancellationSignal.ThreeStepsSuffice` | crates/foundation/lily_cancellation/src/execution.rs:62-75 | three own steps after a finished cancel end the waiting, whatever others do in between |
| `CancellationSignal.TwoStepsCancel` | crates/foundation/lily_cancellation/src/execution.rs:54-58 | whatever others do in between, two own steps finish a call of cancel, and then the flag is set |
| `CancellationSignal.SleepersReturn` | crates/foundation/lily_cancellation/src/execution.rs:54-102 | for any number of waiters some run has them all asleep and then all returned after a cancel |
| `BackgroundRuntime.WorkerKeepsInv` | crates/foundation/lily_background_service/src/runtime.rs:364-419 | every worker action keeps the global invariant |
| `BackgroundRuntime.SupervisorKeepsCounts` | crates/foundation/lily_background_service/src/runtime.rs:421-442 | the counters stay equal to the number of workers that met each fate |
| `BackgroundRuntime.SupervisorKeepsSpawnCount` | crates/foundation/lily_background_service/src/runtime.rs:289-300 | the spawn counter is never more than one ahead of the spawned workers and never exceeds the registrations |
| `BackgroundRuntime.SupervisorKeepsGated` | crates/foundation/lily_background_service/src/runtime.rs:301-318 | initialization without error or stop is reached only when every constructor has succeeded |
| `BackgroundRuntime.SupervisorKeepsStopping` | crates/foundation/lily_background_service/src/runtime.rs:322-332 | the supervisor that saw stopping always finds the deadlines, so its expectation cannot fail |
| `BackgroundRuntime.SupervisorKeepsEnding` | crates/foundation/lily_background_service/src/runtime.rs:333-361 | the supervisor leaves only with the scopes sealed and every task joined |
| `BackgroundRuntime.SupervisorKeepsInv` | crates/foundation/lily_background_service/src/runtime.rs:286-362 | every supervisor action, a crash included, keeps the global invariant |
| `BackgroundRuntime.HostKeepsInv` | crates/foundation/lily_background_service/src/runtime.rs:144-226 | owner creation, start, shutdown and forced stop keep the global invariant |
| `BackgroundStart.StartAnswersExactly` | crates/foundation/lily_background_service/src/runtime.rs:194-207 | start reports stopping first, then a failed initialization, then a missing one; otherwise it sets the start token; nothing else changes |
| `BackgroundStart.StartsAnswerInOrder` | crates/foundation/lily_background_service/src/runtime.rs:194-207 | in every run the token is set exactly if some start was answered with success, and the answers come in order: not initialized, then success or one and the same fault, then stopping |
| `BackgroundStart.StartReleases` | crates/foundation/lily_background_service/src/runtime.rs:194-207 | after a successful start every waiting worker can begin, at once and after any run in which it takes no step; a failing start changes nothing |
| `BackgroundStart.FourStepsSuffice` | crates/foundation/lily_background_service/src/runtime.rs:364-419 | whatever others do, a worker takes at most four steps of its own and is then over |
| `BackgroundStart.WorkerIsNotBlocked` | crates/foundation/lily_background_service/src/runtime.rs:364-419 | a running worker has a step of its own exactly unless it waits for start or stop, or for the lock |
| `BackgroundRuntime.RunKeepsInv` | crates/foundation/lily_background_service/src/runtime.rs:144-442 | every interleaving of all parties keeps the global invariant |
| `BackgroundRuntime.CountersAlwaysReconcile` | crates/foundation/lily_background_service/src/runtime.rs:63-73 | started <= spawned <= registered, joined <= spawned, and joined is the sum of the five outcomes |
| `BackgroundRuntime.ObserverKeepsObserved` | crates/foundation/lily_background_service/src/runtime.rs:267-284 | three reads at three different times still assemble into a sound snapshot |
| `BackgroundRuntime.EverySnapshotIsSound` | crates/foundation/lily_background_service/src/runtime.rs:63-80 | in every interleaving every snapshot reconciles without underflow, and one with the supervisor joined without panic has nothing outstanding and its scopes sealed |
| `BackgroundRuntime.BalanceMeansJoined` | crates/foundation/lily_background_service/src/runtime.rs:63-80 | equal spawn and join counters mean that every spawned task was joined |
| `BackgroundRuntime.TerminalIsFinal` | crates/foundation/lily_background_service/src/runtime.rs:75-80 | once any snapshot was terminal, the supervisor has left, no worker runs and no scope is live, for ever |
| `BackgroundRuntime.NothingBeginsUnstarted` | crates/foundation/lily_background_service/src/runtime.rs:194-207 | start succeeds only after every constructor succeeded, and without it nothing was started |
| `BackgroundRuntime.ExecutionNeedsStart` | crates/foundation/lily_background_service/src/runtime.rs:194-207 | the same over every interleaving from the initial state |
| `BackgroundRuntime.ShutdownIsFinal` | crates/foundation/lily_background_service/src/runtime.rs:210-218 | the deadlines given first stay, and a shutdown begun before start keeps started at zero for ever |
| `BackgroundRuntime.ConstructorFailureIsFinal` | crates/foundation/lily_background_service/src/runtime.rs:301-318 | once a constructor failed nothing ever executes |
| `BackgroundAborts.AbortsAreRequested` | crates/foundation/lily_background_service/src/runtime.rs:333-361 | in every interleaving and every snapshot no more workers were aborted than aborts were requested |
| `BackgroundAborts.RunKeepsRestrained` | crates/foundation/lily_background_service/src/runtime.rs:221-361 | in every run aborts are requested of no more workers than were spawned, no deadline is missed before there is one, and a forced stop has sealed the scopes first |
| `BackgroundAborts.MissedExactly` | crates/foundation/lily_background_service/src/runtime.rs:349-431 | in every run the execution deadline is on record as missed exactly if it passed while aborted tasks were awaited or some task was joined late |
| `BackgroundEndings.EveryEndingIsLegal` | crates/foundation/lily_background_service/src/runtime.rs:286-442 | every run that lets the supervisor leave ends legally: either all workers were constructed and each ended as a constructed one can, or only the first few were spawned, none began, and at most the last of them failed |
| `BackgroundEndings.LegalEndingIsReached` | crates/foundation/lily_background_service/src/runtime.rs:144-442 | for every legal ending, any deadlines, forced or not, late or not, a run of all parties leads to it and to one terminal snapshot that shows it, with exactly as many aborts requested as workers aborted |
| `BackgroundEndings.EndingsExactly` | crates/foundation/lily_background_service/src/runtime.rs:144-442 | the endings of runs are exactly the legal ones |
| `BackgroundEndings.FaultsAreEndings` | crates/foundation/lily_background_service/src/runtime.rs:370-391 | in every run a worker whose constructor reported a fault ended before it began, failed or panicked as it reported |
| `BackgroundEndings.AllCanComplete` | crates/foundation/lily_background_service/src/runtime.rs:144-442 | for any number of workers some run starts, completes and joins them all and ends in a terminal snapshot |
| `BackgroundEndings.AllCanBeAborted` | crates/foundation/lily_background_service/src/runtime.rs:144-442 | and another starts and aborts them all after a forced stop that missed its deadline |
| `BackgroundEndings.EveryAnswerIsGiven` | crates/foundation/lily_background_service/src/runtime.rs:194-207 | every answer of start is given in some run, each fault for any worker that fails with it |
| `InitializeCall.CheckIsSound` | crates/foundation/lily_background_service/src/runtime.rs:171-182 | a caller that finds a clean initialization finds every constructor done |
| `InitializeCall.WorldStepKeepsInv` | crates/foundation/lily_background_service/src/runtime.rs:165-191 | every step of the callers, of the notification and of all other parties keeps the invariant |
| `InitializeCall.InitializeIsSound` | crates/foundation/lily_background_service/src/runtime.rs:165-191 | with any number of callers in any interleaving: success is answered only when every constructor succeeded, the other answers are true too, and no wake-up is lost |
| `InitializeCall.SettledLasts` | crates/foundation/lily_background_service/src/runtime.rs:165-191 | once the outcome was notified or cannot come, this stays so |
| `InitializeCall.CallerIsNotBlocked` | crates/foundation/lily_background_service/src/runtime.rs:165-191 | then every caller has a step of its own, unless it waits for the lock |
| `InitializeCall.FiveStepsSuffice` | crates/foundation/lily_background_service/src/runtime.rs:165-191 | whatever the others do, a call takes at most five steps of its own |
| `InitializeCall.CheckAnswersExactly` | crates/foundation/lily_background_service/src/runtime.rs:171-182 | a caller that looks is told of a fault first, then of stopping, then of success, and otherwise sleeps |
| `InitializeCall.FaultComesFirst` | crates/foundation/lily_background_service/src/runtime.rs:171-182 | whoever looks after a fault was recorded is told of it and of nothing else, whatever happens in between |
| `InitializeRuns.EveryAnswerIsGiven` | crates/foundation/lily_background_service/src/runtime.rs:165-191 | for any number of registrations every answer of initialize is given in some run, to a caller that was asleep |
| `FailureWait.WaitForFailureIsSound` | crates/foundation/lily_background_service/src/runtime.rs:229-254 | with any number of watchers in any interleaving: none returns without a failure, none is parked with one, a failed worker wakes every sleeper, and with any failure a sleeper can wake exactly when it is attended |
| `FailureWait.LateCallersAreAttended` | crates/foundation/lily_background_service/src/runtime.rs:240-244 | a watcher that calls when there is a supervisor is always attended |
| `FailureWait.UnattendedForGood` | crates/foundation/lily_background_service/src/runtime.rs:240-244 | an unattended watcher of a crashed supervisor sleeps for ever |
| `FailureWait.CrashGoesUnnoticed` | crates/foundation/lily_background_service/src/runtime.rs:229-254 | such a watcher exists: it calls before the supervisor is started, which then crashes |
| `FailureWait.ElevenStepsSuffice` | crates/foundation/lily_background_service/src/runtime.rs:229-254 | whatever the others do, eleven own steps after a failure was recorded the watcher has reported it |
| `FailureWait.WatcherIsNotBlocked` | crates/foundation/lily_background_service/src/runtime.rs:229-254 | with a failure there, an attended watcher has a step of its own, unless it waits for the lock |
| `FailureWait.QuietWatchersPark` | crates/foundation/lily_background_service/src/runtime.rs:244-252 | a watcher does not poll a supervisor that ended without a failure over and over: at most fourteen own steps and it is parked |
| `ScopeLedger.ScopeRegistry.constructor` | crates/foundation/lily_injection/src/application_scope_factory.rs:67-72 | an empty, unsealed ledger |
| `ScopeLedger.ScopeRegistry.Reap` | crates/foundation/lily_injection/src/application_scope_factory.rs:101-121 | retires exactly the scopes whose begun cleanup has ended, each counted once under its result |
| `ScopeLedger.ScopeRegistry.Retain` | crates/foundation/lily_injection/src/application_scope_factory.rs:101-121 | the entry-by-entry pass equals the one-step description of reaping |
| `ScopeLedger.ScopeRegistry.CreateScope` | crates/foundation/lily_injection/src/application_scope_factory.rs:75-99 | registers a key never used before, unless sealed or refused; the ledger stays conserved |
| `ScopeLedger.ScopeRegistry.BeginCleanup` | crates/foundation/lily_injection/src/application_scope_factory.rs:224-250 | starts a cleanup at most once per key and never for a retired key |
| `ScopeLedger.ScopeRegistry.TakeSnapshot` | crates/foundation/lily_injection/src/application_scope_factory.rs:124-134 | the snapshot reconciles |
| `ScopeLedger.ScopeRegistry.Seal` | crates/foundation/lily_injection/src/application_scope_factory.rs:137-142 | seals and changes nothing else |
| `ScopeLedger.ScopeRegistry.DrainList` | crates/foundation/lily_injection/src/application_scope_factory.rs:148-168 | the keys listed after sealing contain every scope that any later history leaves outstanding |
| `ScopeLedger.StepKeepsConserved` | crates/foundation/lily_injection/src/application_scope_factory.rs:75-168 | every operation keeps each key live or retired, never both, and the counters equal to the retired keys |
| `ScopeLedger.EveryHistoryReconciles` | crates/foundation/lily_injection/src/application_scope_factory.rs:44-52 | registered = completed + failed + outstanding after every history |
| `ScopeLedger.SealIsFinal` | crates/foundation/lily_injection/src/application_scope_factory.rs:137-142 | after sealing no scope is ever registered |
| `ScopeLedger.NothingAfterSeal` | crates/foundation/lily_injection/src/application_scope_factory.rs:137-142 | from the seal on no scope is registered, and none is live that was not live then |
| `ScopeLedger.DrainListCovers` | crates/foundation/lily_injection/src/application_scope_factory.rs:148-168 | the ledger becomes terminal exactly when all scopes live at the seal have been retired |
| `ScopeLedger.RetiredForGood` | crates/foundation/lily_injection/src/application_scope_factory.rs:224-257 | asking again to clean up a retired scope changes nothing, however late |
| `ScopeLedger.RunThenDrop` | crates/foundation/lily_injection/src/application_scope_factory.rs:201-257 | with any histories in between: the cleanup is started once, a snapshot that finds it ended leaves the scope retired, and dropping it later changes nothing |
| `ScopeLedger.SnapshotRetires` | crates/foundation/lily_injection/src/application_scope_factory.rs:101-134 | a snapshot that finds a cleanup ended retires the scope and counts it under its result, unless that was done before |
| `ScopeLedger.CleanupIsCounted` | crates/foundation/lily_injection/src/application_scope_factory.rs:201-257 | an undisturbed cleanup adds exactly one to the counter of its result |
| `ScopeLedger.CleanupShows` | crates/foundation/lily_injection/src/application_scope_factory.rs:44-52 | in the snapshots it moves from the outstanding scopes to the completed or to the failed ones |
| `ContainerBuild.Build.constructor` | crates/foundation/lily_injection/src/application_container.rs:376-402 | a build with an invalid timeout setting is born failed, otherwise unprepared |
| `ContainerBuild.Build.StartRollback` | crates/foundation/lily_injection/src/application_container.rs:492-549 | called only with admission closed and no live initializer; starts the one rollback |
| `ContainerBuild.Build.FailStartup` | crates/foundation/lily_injection/src/application_container.rs:638-706 | admission is closed and the initializer dropped before the rollback starts |
| `ContainerBuild.Build.Cancel` | crates/foundation/lily_injection/src/application_container.rs:454-479 | nothing to undo before preparation, one rollback after it, no effect afterwards |
| `ContainerBuild.Build.Prepare` | crates/foundation/lily_injection/src/application_container.rs:596-621 | without a runtime, or with a failed preparation, that error is delivered with nothing prepared; otherwise the plan is taken from its start |
| `ContainerBuild.Build.Initialize` | crates/foundation/lily_injection/src/application_container.rs:622-708 | one initializer: commits at the end of the plan, waits, advances by one, or hands over to one rollback with the error of the step that failed |
| `ContainerBuild.Build.Drive` | crates/foundation/lily_injection/src/application_container.rs:590-708 | the loop ends at the first position of the plan that does not come up, or in a commit if all do |
| `ContainerBuild.Build.JoinRollback` | crates/foundation/lily_injection/src/application_container.rs:551-586 | an empty report leaves the startup error alone, any other is wrapped around it; a cancelled build delivers the report |
| `ContainerBuild.Build.Poll` | crates/foundation/lily_injection/src/application_container.rs:590-733 | what one poll comes to in every state, from the answers of the environment: a ready outcome is delivered as it is, otherwise the first position that does not come up and the rollback report decide; at most one outcome in the life of a build, and polling after it panics and changes nothing |
| `ContainerBuild.Build.UseThenDrop` | crates/foundation/lily_injection/src/application_container.rs:736-740 | for every sequence of polls and cancellations followed by a drop: at most one outcome, at most one rollback; a prepared build that was not built is rolled back exactly once, a built one never; singletons come up in plan order, all of them if built; a failure names the step after the last one up, with the rollback errors exactly if any were reported, and only a requested cancellation is delivered |
| `ConfigTree.ValueAtPath` | crates/foundation/lily_config/src/config_service.rs:1849-1859 | the cursor loop computes the recursive lookup |
| `ConfigTree.LookupConcat` | crates/foundation/lily_config/src/config_service.rs:1849-1859 | looking up a concatenated path is looking up twice |
| `Text.SplitJoinExactly` | crates/foundation/lily_config/src/config_service.rs:939-941 | segments survive joining and splitting at dots exactly when none of them holds a dot |
| `ConfigTree.FailedSetChangesNothing` | crates/foundation/lily_config/src/config_service.rs:1861-1931 | a failing write leaves the whole tree unchanged, although tables may be created on the way |
| `ConfigTree.SetFailsExactlyWhenBlocked` | crates/foundation/lily_config/src/config_service.rs:1861-1931 | a write fails exactly when the path is empty or meets a scalar or an unusable array index |
| `ConfigTree.SetErrorExactly` | crates/foundation/lily_config/src/config_service.rs:1861-1931 | the error is that of the node the path cannot go on from: no container, no array index, or an index beyond the end |
| `ConfigTree.SetLaw` | crates/foundation/lily_config/src/config_service.rs:1861-1931 | what a successful write does to every path: within, apart from, and above the written node |
| `ConfigTree.SetThenGet` | crates/foundation/lily_config/src/config_service.rs:1849-1931 | reading back a written path gives the written value |
| `ConfigFlatten.FlattenValue` | crates/foundation/lily_config/src/config_service.rs:1933-1958 | the output gains exactly the entries of the tree, for any table order |
| `ConfigFlatten.LeafPathResolves` | crates/foundation/lily_config/src/config_service.rs:1849-1859 | the path of a leaf is found by lookup and has only dot-free segments |
| `ConfigFlatten.FlattenAgreesWithLookup` | crates/foundation/lily_config/src/config_service.rs:1933-1965 | keys are exactly the dotted paths of scalars and empty arrays, none collide, and splitting a key and looking it up finds the leaf; the entry is the text itself for a string, `[]` for an empty array and the printed value otherwise |
| `ConfigReferences.ReferenceSyntax` | crates/foundation/lily_config/src/secret.rs:34-50 | a text is a reference exactly when it is a non-empty, unpadded key or path written out in full; embedded, empty and padded ones are not |
| `ConfigResolve.CollectConfigReferences` | crates/foundation/lily_config/src/config_service.rs:1711-1763 | finds every reference leaf once, with its path, or reports the fault of an actual leaf |
| `ConfigResolve.CollectInTable` | crates/foundation/lily_config/src/config_service.rs:1718-1724 | the same for a table, in any key order |
| `ConfigResolve.CollectInArray` | crates/foundation/lily_config/src/config_service.rs:1725-1731 | the same for an array |
| `ConfigResolve.CollectInString` | crates/foundation/lily_config/src/config_service.rs:1732-1757 | a string leaf is a reference, at fault, or plain |
| `ConfigResolve.FaultFreeExactly` | crates/foundation/lily_config/src/config_service.rs:1732-1757 | a tree has no fault exactly when no reference stands in a topology name or in the backplane bundle and, in production, every text that opens a reference is one |
| `ConfigResolve.SetIsPatch` | crates/foundation/lily_config/src/config_service.rs:1861-1931 | overwriting one string leaf changes that leaf only and never fails |
| `ConfigResolve.FullyPatched` | crates/foundation/lily_config/src/config_service.rs:676-739 | patching exactly the references equals one substitution pass |
| `ConfigResolve.NothingToSubstitute` | crates/foundation/lily_config/src/config_service.rs:684-686 | a tree without references stays as it is |
| `ConfigBindings.Obtain` | crates/foundation/lily_config/src/config_service.rs:690-732 | asks the provider or reads the file: no answer and an expired lease are different errors, and the record holds what was answered |
| `ConfigBindings.BindNext` | crates/foundation/lily_config/src/config_service.rs:688-735 | one reference more: its answer is written at its place and recorded, or the error says why not |
| `ConfigBindings.NodeSubstituted` | crates/foundation/lily_config/src/config_service.rs:676-739 | the substitution goes to every node along a plain path and reads it at its own place |
| `ConfigBindings.ResolveConfigReferences` | crates/foundation/lily_config/src/config_service.rs:676-739 | succeeds exactly when no leaf is at fault, every secret has an unexpired answer, every file was read and the tree is not one bare reference; then every secret and file content stands where it was referred to and everything else where it was, so resolved text is never scanned again; the records are one per reference, sorted, with key, provider, version and lease as answered |
| `ConfigBindings.BindingsAreDetermined` | crates/foundation/lily_config/src/config_service.rs:737-738 | in a configuration with dot-free keys the records do not depend on the order of collection |
| `OverlayOutcome.ParseExactly` | crates/foundation/lily_config/src/config_service.rs:952-999 | inside `custom` the text as it is; outside it the text read as the type present, a literal that is no table or else the text where nothing is present; the error tells a table from a text that does not fit |
| `EnvironmentOverlay.JoinAfterSplit` | crates/foundation/lily_config/src/config_service.rs:600-603 | splitting a canonical name at double underscores loses nothing |
| `EnvironmentOverlay.SplitAfterJoin` | crates/foundation/lily_config/src/config_service.rs:600-603 | segments that only end in an underscore at the end of the name are recovered exactly |
| `EnvironmentOverlay.CanonicalNameReaches` | crates/foundation/lily_config/src/config_service.rs:598-616 | every such path of well-formed segments has a canonical name, in any letter case, that targets it |
| `EnvironmentOverlay.CanonicalTargetsExactly` | crates/foundation/lily_config/src/config_service.rs:598-616 | some canonical name targets a path exactly when the path is made of lower-case segments that stay apart when joined |
| `EnvironmentOverlay.CanonicalNamesAgree` | crates/foundation/lily_config/src/config_service.rs:598-616 | names that target the same path agree up to letter case |
| `EnvironmentOverlay.CanonicalPathExactly` | crates/foundation/lily_config/src/config_service.rs:598-616 | the path of a canonical name is the one of lower-case letters, digits and underscores whose joined segments spell the name in lower case |
| `OverlayOutcome.TargetsExactly` | crates/foundation/lily_config/src/config_service.rs:594-646 | what becomes of every name: a canonical one targets the path it spells and is refused if it spells none, a legacy one targets what it stands for or is refused where disabled, all others and the bootstrap names are ignored |
| `EnvironmentOverlay.SortedArrangement` | crates/foundation/lily_config/src/config_service.rs:583-592 | the sort yields one arrangement for all listings of the same variables |
| `EnvironmentOverlay.OverlayIgnoresOrder` | crates/foundation/lily_config/src/config_service.rs:580-674 | with distinct names the result does not depend on the order in which the environment is listed |
| `EnvironmentOverlay.LegacyNameReaches` | crates/foundation/lily_config/src/config_service.rs:617-645 | the legacy name of a mapped key targets the path the key is split into, and is refused where legacy names are disabled, exactly when it is not also a canonical or a bootstrap name |
| `EnvironmentOverlay.CanonicalByAccident` | crates/foundation/lily_config/src/config_service.rs:598-617 | a legacy name is canonical exactly when its key starts with an underscore or a dot |
| `EnvironmentOverlay.LegacyTargetIsMapped` | crates/foundation/lily_config/src/config_service.rs:617-645 | a name targets a path as a legacy name exactly when it stands for a mapped key that is split into that path |
| `LegacyLaws.LegacyPathFindsLeaf` | crates/foundation/lily_config/src/config_service.rs:927-950 | in a configuration with dot-free keys the mapping sends every setting to its own place in the tree |
| `LegacyLaws.LegacyNameReachesExactly` | crates/foundation/lily_config/src/config_service.rs:617-645 | the legacy name of a setting targets its path exactly when no segment of the path holds a dot and the name is neither canonical nor a bootstrap name |
| `LegacyLaws.LegacyTargetsExactly` | crates/foundation/lily_config/src/config_service.rs:617-645 | where all keys are dot-free, a legacy name targets exactly the settings of the configuration or its defaults whose key it stands for |
| `LegacyLaws.UnderscoreExample` | crates/foundation/lily_config/src/config_service.rs:598-617 | the legacy name of `_x` is the canonical name of `x` |
| `LegacyLaws.BootstrapExample` | crates/foundation/lily_config/src/config_service.rs:595-597 | the legacy name of `config.path` is a bootstrap name and ignored |
| `LegacyLaws.DottedSettingIsMissed` | crates/foundation/lily_config/src/config_service.rs:571-674 | a setting under a dotted key is never changed by its own legacy name |
| `LegacyLaws.DottedKeyExample` | crates/foundation/lily_config/src/config_service.rs:888-908 | a migrated `legacy.key` in `custom` stays as it was while its legacy name writes a new setting beside it |
| `EnvironmentOverlay.MapLegacyKeys` | crates/foundation/lily_config/src/config_service.rs:927-950 | succeeds exactly when no two leaf keys share an environment key |
| `EnvironmentOverlay.LegacyEnvironmentCandidates` | crates/foundation/lily_config/src/config_service.rs:927-950 | the legacy mapping covers exactly the leaves of configuration and defaults |
| `EnvironmentOverlay.LegacyMappingIsUnique` | crates/foundation/lily_config/src/config_service.rs:927-950 | the mapping is determined by the two trees |
| `EnvironmentOverrides.SourcesFollow` | crates/foundation/lily_config/src/config_service.rs:655-668 | the sources hold, per key, the kind and the name of the last variable that targets it |
| `EnvironmentOverrides.WarningsFollow` | crates/foundation/lily_config/src/config_service.rs:634-664 | the warnings about a variable depend only on the variables: its legacy name, and the earlier variable of the same path |
| `EnvironmentOverrides.OverrideIsCanonical` | crates/foundation/lily_config/src/config_service.rs:655-665 | an override that is warned about is a canonical variable over a legacy one |
| `EnvironmentOverrides.DedupSorted` | crates/foundation/lily_config/src/config_service.rs:671-672 | sorting and removing repetitions leaves every key once, in increasing order |
| `EnvironmentOverrides.ApplyEnvironmentOverrides` | crates/foundation/lily_config/src/config_service.rs:571-674 | the tree is the fold over the sorted environment; on success the reported keys are the targets, each once and in order, and the warnings are those due to the variables, in their order |
| `OverlayLaws.NothingAboveBefore` | crates/foundation/lily_config/src/config_service.rs:653-668 | a write below an earlier target fails |
| `OverlayLaws.OnlyCustomAbove` | crates/foundation/lily_config/src/config_service.rs:952-999 | a write above an earlier target fails outside `custom` |
| `OverlayLaws.EqualIsCanonicalOverLegacy` | crates/foundation/lily_config/src/config_service.rs:655-665 | a second write to one key is a canonical over a legacy one |
| `OverlayLaws.LegacyMappingIsGood` | crates/foundation/lily_config/src/config_service.rs:927-950 | the paths of the legacy mapping are non-empty and dot-free, so the laws below apply to every legacy mapping |
| `OverlayLaws.OverlayKeepsInv` | crates/foundation/lily_config/src/config_service.rs:571-674 | every successful overlay keeps the overlay invariant |
| `OverlayLaws.VariableIsApplied` | crates/foundation/lily_config/src/config_service.rs:594-669 | every variable with a target leaves exactly its write, in its place |
| `OverlayLaws.WriteHasVariable` | crates/foundation/lily_config/src/config_service.rs:594-669 | and every write comes from a variable, in its place |
| `OverlayLaws.VariableSurvives` | crates/foundation/lily_config/src/config_service.rs:571-674 | exact fate of every variable not repeated later: its path holds nothing if a later variable targets a node above, and otherwise the value read at its turn |
| `OverlayLaws.RelatedTargetsFail` | crates/foundation/lily_config/src/config_service.rs:571-674 | outside `custom` prefix-related or doubled targets fail instead of losing an override |
| `OverlayLaws.EveryVariableCounts` | crates/foundation/lily_config/src/config_service.rs:571-674 | outside `custom` every canonical variable holds in the final tree, and a legacy one wherever no canonical variable targets its path |
| `OverlayOutcome.OverlaySucceedsExactly` | crates/foundation/lily_config/src/config_service.rs:571-674 | an overlay succeeds exactly when every variable is admissible, said over the original tree and the texts alone: targeted or ignored, no index, nothing in its way in the tree, no earlier target above, none of its kind on the same path and, outside `custom`, none below and a text that fits; otherwise the first that is not admissible gives its error |
| `OverlayOutcome.TurnExactly` | crates/foundation/lily_config/src/config_service.rs:594-669 | the same for one variable at its turn, with the error it gives: refused, index, table or type, doubled target, blocked path, in this order |
| `OverlayOutcome.BlockedExactly` | crates/foundation/lily_config/src/config_service.rs:1861-1931 | at its turn a write is blocked by the original tree or by an earlier target above it, and by nothing else |
| `OverlayOutcome.TypeAtTurn` | crates/foundation/lily_config/src/config_service.rs:653-654 | outside `custom` a variable finds a value of the type of the original one, or of what the first variable of its path amounts to, or nothing |
| `OverlayOutcome.FinalValueByType` | crates/foundation/lily_config/src/config_service.rs:571-674 | after a successful overlay, outside `custom`, the path of such a variable holds its text, typed by what the original tree has there: string as it is, integer, float, boolean, datetime and array parsed, and a literal or the text where it has nothing |
| `OverlayOutcome.FinalCustomValue` | crates/foundation/lily_config/src/config_service.rs:952-960 | inside `custom` it holds the text as it is, unless a later variable targets a node above |
| `OverlayValues.FinalValueIsClosed` | crates/foundation/lily_config/src/config_service.rs:571-674 | outside `custom` the final value of such a variable is the reading of its text over the original tree, or over the reading of the legacy variable it overrides |
| `OverlayValues.PresentDecides` | crates/foundation/lily_config/src/config_service.rs:952-999 | where the original tree has a value, its type alone decides, whatever was overridden |
| `OverlayLaws.FinalValue` | crates/foundation/lily_config/src/config_service.rs:571-674 | what the final tree holds at the path of any write |
| `OverlayLaws.RestIsUntouched` | crates/foundation/lily_config/src/config_service.rs:571-674 | a path that no variable targets, directly or through a prefix, reads as before |
| `OverlayTypes.WriteKeepsType` | crates/foundation/lily_config/src/config_service.rs:1861-1931 | one write along names keeps the type of every node outside the written one |
| `OverlayTypes.OverlayKeepsTypes` | crates/foundation/lily_config/src/config_service.rs:571-674 | outside `custom` a successful overlay removes no setting and changes no type |
| `OverlayLaws.CustomOverrideIsLost` | crates/foundation/lily_config/src/config_service.rs:952-960 | inside `custom`, when the variable that sorts first targets a path below the other one, the overlay succeeds unless that path is blocked, and the first value is gone |
| `OverlayLaws.CustomLossExample` | crates/foundation/lily_config/src/config_service.rs:571-674 | `LILY__CUSTOM__A__B` with `LILY__custom__a` over an empty configuration: both applied, the first lost |
| `RetryBackoff.NominalIsCappedPower` | crates/foundation/lily_config/src/topology_plan.rs:630-633 | the shifted, saturating, exponent-capped delay equals min(base * 2^(k-1), cap) for every attempt |
| `RetryBackoff.ProductFits` | crates/foundation/lily_config/src/topology_plan.rs:631-633 | the saturating product never saturates |
| `RetryBackoff.CandidatesWithinPolicy` | crates/foundation/lily_config/src/topology_plan.rs:634-645 | one to three strictly increasing delays within base and cap, the nominal one among them |
| `RetryBackoff.SpreadGrowsSlowly` | crates/foundation/lily_config/src/topology_plan.rs:634-640 | the rounded spread never grows faster than the delay |
| `RetryBackoff.DelaysNeverShrink` | crates/foundation/lily_config/src/topology_plan.rs:626-649 | least and greatest delay never decrease from attempt to attempt |
| `RetryBackoff.CollectCandidates` | crates/foundation/lily_config/src/topology_plan.rs:634-645 | the clamp-and-skip loop yields the ordered candidates |
| `RetryBackoff.RetryBucketDelaysByAttempt` | crates/foundation/lily_config/src/topology_plan.rs:626-649 | one candidate list per configured attempt |
| `RetryBackoff.RetryBucketDelays` | crates/foundation/lily_config/src/topology_plan.rs:651-659 | every eligible delay once, in increasing order |
| `RetryBackoff.DelayBound` | crates/foundation/lily_config/src/topology_plan.rs:626-659 | at most 43 delays with jitter and at most 15 without, whatever the policy |
| `RetryBackoff.WidestReachesBound` | crates/foundation/lily_config/src/topology_plan.rs:626-659 | 43 is reached by a valid policy |
| `TopologyNames.RetryQueueNameInjective` | crates/foundation/lily_config/src/topology_plan.rs:165-180 | a retry queue name determines queue and delay |
| `TopologyNames.RetryRoutingKeyInjective` | crates/foundation/lily_config/src/topology_plan.rs:165-180 | a retry routing key determines queue and delay |
| `TopologyNames.DeadLetterNameInjective` | crates/foundation/lily_config/src/topology_plan.rs:186 | a dead-letter name determines its queue |
| `TopologyNames.RetryIsNotDeadLetter` | crates/foundation/lily_config/src/topology_plan.rs:167-186 | no retry name is a dead-letter name |
| `TopologyNames.CollisionCriterion` | crates/foundation/lily_config/src/topology_plan.rs:90-94 | physical names collide exactly when a main name equals a derived name |
| `TopologyPlan.ValidatedPolicy` | crates/foundation/lily_config/src/topology_plan.rs:537-549 | validation establishes the bounds the delay computation relies on |
| `TopologyPlan.CompileBucket` | crates/foundation/lily_config/src/topology_plan.rs:165-180 | a bucket under both derived names, or the error of the first of them that is no valid identity |
| `TopologyPlan.CompileBuckets` | crates/foundation/lily_config/src/topology_plan.rs:165-180 | one bucket per delay, in order, or the error of the first failing name |
| `TopologyPlan.DeriveDeadLetterNames` | crates/foundation/lily_config/src/topology_plan.rs:182-205 | the three dead-letter names, or the error of the first that is no valid identity |
| `TopologyPlan.CompileQueue` | crates/foundation/lily_config/src/topology_plan.rs:151-222 | succeeds exactly when all derived names are valid and the bucket limit is met; otherwise the error is that of the first check that fails, in checking order |
| `TopologyPlan.BucketsMatchAttempts` | crates/foundation/lily_config/src/topology_plan.rs:266-271 | a delay has a bucket exactly when some attempt may use it, and only one |
| `TopologyPlan.BucketLimitNeedsJitter` | crates/foundation/lily_config/src/topology_plan.rs:155-164 | without jitter the limit of 32 cannot be hit; with jitter it is exceeded by at most eleven |
| `TopologyPlan.RegisterExchanges` | crates/foundation/lily_config/src/topology_plan.rs:69-88 | the table answers all claims so far, or two of them conflict |
| `TopologyPlan.RegisterQueues` | crates/foundation/lily_config/src/topology_plan.rs:90-94 | the names claimed so far are distinct, or one occurs twice |
| `TopologyPlan.NameClaimed` | crates/foundation/lily_config/src/topology_plan.rs:683-694 | a name keeps all claimed names distinct exactly when nobody has claimed it; otherwise it occurs twice |
| `TopologyPlan.ClaimTabulated` | crates/foundation/lily_config/src/topology_plan.rs:696-711 | a claim either extends a consistent table of exchanges or contradicts an earlier claim |
| `TopologyPlan.CompileNext` | crates/foundation/lily_config/src/topology_plan.rs:44-95 | one queue more: the prefix is acceptable, or the error explains why not |
| `TopologyPlan.Compile` | crates/foundation/lily_config/src/topology_plan.rs:36-99 | succeeds exactly on acceptable topologies, planning every queue in configuration order; every error is explained |
| `TopologyPlan.ExplainedIsRejected` | crates/foundation/lily_config/src/topology_plan.rs:36-99 | an explained error is never raised against an acceptable topology |
| `TopologyPlan.AcceptanceIgnoresOrder` | crates/foundation/lily_config/src/topology_plan.rs:36-99 | permuting the queues does not change acceptance |
| `TopologyPlan.AcceptedPlanIsSound` | crates/foundation/lily_config/src/topology_plan.rs:36-99 | all main, retry and dead-letter names distinct across the plan, one kind and owner per exchange, at most 4096 retry buckets |
| `TopologyPlan.PhysicalCollisionCriterion` | crates/foundation/lily_config/src/topology_plan.rs:90-94 | for distinct queue names the physical check rejects exactly when a main name equals a derived one |
| `TopologyContract.DeadLettersAsConfigured` | crates/foundation/lily_config/src/topology_plan.rs:182-190 | in every accepted plan a configured dead-letter exchange or routing key is used as it stands, whoever owns the topology, otherwise the exchange name with `.dlx.v2` and the queue name; an external plan uses exactly its configured pair |
| `TopologyContract.RetriesAsConfigured` | crates/foundation/lily_config/src/topology_plan.rs:152-180 | its retry exchange is the exchange name with `.retry.v2`, and every bucket has the type of its queue and the names of its delay |
| `TopologyContract.DerivedExchangesDiffer` | crates/foundation/lily_config/src/topology_plan.rs:152-185 | a derived dead-letter exchange is never a retry exchange of any queue |
| `TopologyContract.DelaysAsConfigured` | crates/foundation/lily_config/src/topology_plan.rs:626-649 | which delays each attempt offers, from the configured numbers and their defaults: the capped power and its two jittered neighbours, the spread rounded to the nearest integer; none beyond the configured attempts |
| `TopologyContract.ValidationFindsFirstFault` | crates/foundation/lily_config/src/topology_plan.rs:467-614 | validation passes exactly the definitions that keep all 27 rules, and otherwise reports the first one broken |
| `TopologyContract.IdentityExactly` | crates/foundation/lily_config/src/topology_plan.rs:676-681 | a valid identity is not empty, has at most 200 bytes, no white space at its ends, no control character and is no reference |
| `TopologyContract.CompilesExactly` | crates/foundation/lily_config/src/topology_plan.rs:151-222 | one queue compiles exactly when it has at most 32 buckets and every derived name is a valid identity |
| `TopologyContract.AcceptedExactly` | crates/foundation/lily_config/src/topology_plan.rs:36-99 | a topology is accepted exactly when queue names differ and none is derived for another, every definition keeps all rules and fits, there are at most 4096 buckets and no exchange has two kinds or owners |

## Left out

- ConfigTree.SetLaw: the write is modelled on values; the in-place update through a mutable borrow is captured only by returning the tree as it stands after a failure.
- EnvironmentOverlay.LegacyEnvironmentCandidates: which of several conflicts is reported depends on the hash order and is left open.
- ConfigBindings.ResolveConfigReferences: the bounds and path rules of reading a referenced file are absent; a file answers with a text or with nothing. Array lengths are taken to fit an unsigned word.
- RetryBackoff.RetryBucketDelaysByAttempt: the jitter ratio is an exact real rounded half away from zero; rounding of 64-bit floats is not modelled.
- TopologyPlan.Compile: the overflow branch of the bucket count is unreachable within the limits and absent.
- ScopeLedger.ScopeRegistry.Retain: visits the entries in key order and takes the result of polling each cleanup as given.
- CancellationSignal.NoLostWakeUp: memory accesses are sequentially consistent, and the permanently inactive view is absent.
- BackgroundRuntime.EverySnapshotIsSound: a biased select may take any ready branch, which only adds interleavings.
- ContainerBuild.Build.UseThenDrop: factories, descriptors and the rollback task answer as each poll says; the deadline arithmetic of the rollback and its tracing context are absent.
- The container's own shutdown (`perform_shutdown`) and the storage of instances and scopes, whose guarantees rest on code outside these components.
- Merging of configuration files and defaults, migration of old top-level keys, and normalisation of the `custom` section.
- Field-by-field range checks of the other configuration sections: single-branch facts.
- Route metadata of interfaces, the procedural macros, the HTTP client and the WebSocket parts.
- Redaction, debug output, tracing and metrics.
