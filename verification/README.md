# l0-worker: verified models of the supervisor pool, the task protocol and payload hashing

This project models, in Dafny 4.11, the stateful cores of l0-worker and proves
what they guarantee over every history.

**The supervisor's worker pool** (`supervisor/src/pool.rs`). `PoolProtocol`
is the pool as a transition system: one step per child event, per health check
of one worker, per automatic restart, per API call. Everything the environment
decides (spawn and probe results, whether a process still runs, clock readings,
which ids children name, hash map iteration order) is part of the step or a
parameter. A *history* is any sequence of such steps from an empty pool.
Child events are unrestricted: they may be stale, repeated or name unknown ids.
`PoolService`, `PoolBudget`, `PoolEvents`, `PoolDraining`, `PoolTiming` and
`PoolPorts` prove properties of all legal histories; `Backoff` proves the delay
arithmetic. `WorkerPool` is the mutable class: each method carries out the source's branches on the table and is
proved to perform exactly the steps its contract names, and its invariant ties
the table and the announced events to a legal history, so every theorem about
histories holds of every valid pool (`WorkerPool.WorkerPool.Guarantees`).

**The task protocol inside one worker** (`src/worker-instance.ts` with its slot
table, lifecycle machine, configuration, clock, event store and replayer).
`TaskProtocol` cuts `executeTaskWithEvents` at its awaits; any number of
invocations may be suspended at once, every emit may throw, and executions end as
they like. `TaskWiring`, `TaskHistory`, `TaskFacts` and `TaskBrackets` prove
properties of all histories, and `TaskReplay` connects them to the replayer; `Clock`,
`EventStore` and `Lifecycle` hold the parts and their own properties;
`VercelWorker` is the class over those parts.

**Canonical hashing** (`src/utils/hash.ts`). `Json` proves that `sortKeys` is a
canonical form, `JsonText` that what `JSON.stringify` writes is read back by
`JsonReader`, a reader after the JSON standard, `Utf8` that the bytes of a string
decode to it but for lone surrogates, and `PayloadHash` that two payloads
have the same hash exactly when they are equal up to member order and such values,
or collide under the digest. `Executor` reuses this for
the fanout aggregation of `src/executor/executor.ts`. **Authentication**
(`src/auth/validate.ts`): `Auth` proves which requests a token is good for.

Findings where the code and its documentation or intent differ:

- The integration tests call worker_drained and worker_failed mutually exclusive
  (supervisor/tests/integration.rs:719, 1069). They are not: a life of a worker can
  hold both, in either order (`DrainedAfterFailed`, where a health sweep comes
  before the announcements of a worker that drained and exited, and
  `FailedAfterDrained`), and a drain can divert a restart already announced
  (`DrainDivertsRestart`). A drained announcement keeps the two apart in every
  continuation exactly if the worker is out of service by then (or, for
  worker_failed alone, has budget left) and has no failure reported since its last
  launch (`DrainSafeIff`, `SafeDrainsNeverFail`). What does hold is that no failure
  follows a worker_draining before a launch (`NoFailureAfterDraining`).
- WorkerSpawned precedes WorkerHealthy exactly if children announce themselves
  ready under spawned ids (`SpawnedBeforeHealthyIff`). They need not: a
  `worker.ready` without `workerId` is reported as "unknown"
  (`UnknownReadyIsReportedHealthy`).
- A Ready event revives a worker in any state and clears its failure count. So a
  worker that was given up on stays down exactly until the next Ready (`StaysDown`,
  with the history `ReadyRevivesGivenUp`), and a drained or killed one stays down
  exactly until the next Ready or failed API restart of it (`StaysParked`,
  `DrainedComesBack`).
- A successful health check does not clear the failure count
  (`FailureCounterIsExact`), so a budget covers restarts across recoveries.
- A failed API restart charges a failure silently and replaces the backoff by the
  plain restart delay. Every automatic restart waits for the deadline set last and
  for nothing else (`RestartAllowedIff`); a worker can thus be restarted before the
  backoff of its last reported failure is over (`FailedApiRestartCutsBackoff`).
- With a restart delay below 1 ms the backoff jumps from 0 to the cap at the 65th
  failure (`DelayIsIdealExactly` gives the exact inputs).
- `WorkerPool::new` truncates the worker count to 16 bits before checking it. The
  initial ports are safe exactly up to 65536 workers (`StartPortsSafeIff`), and
  larger counts can be accepted (`TruncatedCountIsAccepted`).
- Killing a worker does not free its port, unlike the comment at
  supervisor/src/pool.rs:730-731 says: its entry keeps it, and spawns get
  other ones (`KilledPortIsNotReused`). A port comes free exactly when an automatic restart
  of its holder fails (`PortFreedIff` for one step, `PortTakenIff` and
  `PortReuseNeedsFailedRestart` for histories).
- The store exceeds its bound exactly when a task with an empty id has come that
  many insertions or more before the end (`StoreIsWindowOfJournal`,
  `BoundFailsForEmptyId`).
- `getOutputHash` reports the hash of the first run of a task reported completed,
  replay validates that of the last. They differ exactly when those two runs have
  different hashes (`HashesAgreeIff`), as a resubmitted task may
  (`ResubmissionHashes`).
- The design paper says every event emitted during a task is recorded and replayed
  (WHITEPAPER.md:81). WORKER_DRAINING goes out on a task's stream and is not
  recorded (`DrainingIsNotReplayed`). Replay re-emits all that a run delivered
  exactly if no drain timer of the run announced draining (`ReplayIsCompleteIff`).
- A payload with a number too large for a double hashes as one with null in its
  place (`OverflowHashesAsNull`), and one with -0 as one with 0;
  `HashIdentifiesPayload` says that is all that is lost besides member order.
- A token signs UTF-8 bytes, in which lone surrogates of the task id are all alike
  (`LoneSurrogatesSignAlike`); `SignedBytesIff` says nothing else is.
- If only the emit of TASK_ACCEPTED throws, the recorded history of the task is a
  failure of something never accepted (`LostAcceptanceBreaksBracket`). A task's
  history is well formed exactly if no step about that task lost a framing event,
  and once it is not it never is again (`HistoriesAreBracketedIff`).

## Model

| member | source | states |
|---|---|---|
| Backoff.PowerFits | supervisor/src/pool.rs:630-631 | the u64 power overflows exactly from the 65th failure on |
| Backoff.DelayIsIdealExactly | supervisor/src/pool.rs:625-636 | the overflow-checked delay is min(base * 2^(f-1), max) over unbounded integers, except exactly when the base is under 1 ms, the cap is positive and there are 65 failures or more |
| Backoff.DelayInMillis | supervisor/src/pool.rs:625-636 | in whole milliseconds the delay is the base doubled with every failure after the first, up to the cap |
| Backoff.DelayMonotoneAndCapped | supervisor/src/pool.rs:625-636 | for all inputs a later failure never waits less and no wait exceeds the configured maximum |
| Backoff.TotalDelayIsGeometric | supervisor/src/pool.rs:625-636 | the waits before giving up sum to a geometric series over the uncapped ones plus the cap for each other, and with a base under 1 ms to the cap for each wait from the 65th failure on |
| PoolBudget.EntriesWereGenerated | supervisor/src/pool.rs:194-196 | only ids the pool generated ever appear in the table, whatever ids child events name |
| PoolBudget.FailureCounterIsExact | supervisor/src/pool.rs:290-371 | the stored failure counter is the number of charges (unhealthy reports and failed API restarts) since the last Ready, through health successes and respawns |
| PoolBudget.ChargeVerdict | supervisor/src/pool.rs:376-404 | the Exited handler and both health-check paths announce exactly WorkerUnhealthy and then, with the account's count as the attempt, WorkerRestarting while it is within the budget, else WorkerFailed |
| PoolBudget.BudgetInvariant | supervisor/src/pool.rs:588-622 | automatic restarts since the last Ready never exceed the failure counter or the budget, are strictly fewer while a restart is pending, and a worker in service is within the budget |
| PoolBudget.RestartBudget | supervisor/src/pool.rs:588-622 | any stretch of any history without a Ready for a worker holds at most max_consecutive_failures automatic restarts of it, successful or not |
| PoolBudget.FailureCounterBound | supervisor/src/pool.rs:32-32 | the counter exceeds max + 1 only by the number of failed API restarts since the last Ready, so it is below 2^32 while that sum is |
| PoolBudget.StaysDown | supervisor/src/pool.rs:290-297 | a worker given up on, whichever of the three paths did it, is back in service or within budget after a step exactly if the step is a Ready for its entry, and no step spawns, charges or fails it |
| PoolBudget.ReadyRevivesGivenUp | supervisor/src/pool.rs:290-297 | a legal history in which a worker is reported failed, becomes Healthy by a Ready and is reported failed again |
| PoolBudget.GivingUpIsFinal | supervisor/src/pool.rs:366-403 | after WorkerFailed no spawn, charge or second failure of the id occurs before a Ready for it |
| PoolBudget.StaysParked | supervisor/src/pool.rs:341-353 | a draining or stopped worker remains so after a step exactly unless the step is a Ready for its entry or a failed API restart of it; no step charges it, whatever its exit code, or restarts it automatically |
| PoolBudget.DrainedComesBack | supervisor/src/pool.rs:862-869 | legal histories in which a draining worker becomes Healthy by a Ready, and is restarted automatically after a failed API restart |
| PoolBudget.ParkedIsLeftAlone | supervisor/src/pool.rs:783-826 | a drained or killed worker is neither reported unhealthy nor restarted automatically before a Ready or a failed API restart of it |
| PoolBudget.UnhealthyCounterBound | supervisor/src/pool.rs:508-546 | in every reachable table the hung counter is below max(1, max_unhealthy_checks) |
| PoolBudget.HungDetectionIsExact | supervisor/src/pool.rs:508-579 | from Healthy with counter 0, fewer failing checks than the limit only count, and the limit-th charges exactly one failure and sets the state its verdict calls for |
| PoolService.ExitChargedIff | supervisor/src/pool.rs:341-374 | for every table, id, exit code and time, an exit is reported unhealthy if and only if its worker is Starting or Healthy and the code is not 0 |
| PoolService.CrashIsCharged | supervisor/src/pool.rs:354-371 | such an exit adds one failure and leaves the worker waiting for the backoff of that count, beyond the budget too |
| PoolService.CleanExitStops | supervisor/src/pool.rs:350-352 | a clean exit of a worker in service, and any exit of a draining one, stops it with its counts unchanged and announces nothing |
| PoolService.LateExitIsIgnored | supervisor/src/pool.rs:345-348 | an exit of a Failed, Stopped or unknown worker changes and announces nothing |
| PoolService.ReadyOutcome | supervisor/src/pool.rs:285-298 | a Ready is reported with the id and port it names and makes the entry of that id Healthy with no failures, keeping port and hung counter |
| PoolService.DrainOutcome | supervisor/src/pool.rs:305-332 | draining and drained are announced under the id named, known or not; only draining changes its entry, to Draining and nothing else |
| PoolService.AllHealthyIff | supervisor/src/pool.rs:300-303 | AllWorkersHealthy is announced exactly by a Ready that leaves every entry Healthy, and no event twice in a step |
| PoolService.HealthyCheckOutcome | supervisor/src/pool.rs:430-451 | a successful check of a worker in service leaves it Healthy with hung counter 0, and announces it exactly if it was Starting |
| PoolService.FailingCheckOutcome | supervisor/src/pool.rs:508-519 | a failing check that charges nothing raises the hung counter of a Healthy worker by one and does nothing else |
| PoolService.ChargedCheckOutcome | supervisor/src/pool.rs:464-506 | a check that charges adds one failure, resets the hung counter, and leaves the worker waiting within the budget and stopped beyond it |
| PoolService.OtherWorkersUntouched | supervisor/src/pool.rs:283-415 | no step changes the entry of, or reports, a worker other than the ones it names |
| PoolService.HealthyIffConfirmed | supervisor/src/pool.rs:430-447 | over every legal history a worker in service is Healthy if and only if WorkerHealthy of it was announced since its latest WorkerSpawned |
| PoolService.HungCounterIsExact | supervisor/src/pool.rs:508-546 | over every legal history the hung counter is the number of failing checks in a row of the running, announced-healthy process since its start or its last check that succeeded, found it dead or charged |
| PoolService.CheckChargedIff | supervisor/src/pool.rs:454-521 | after any legal history a failing check charges a worker in service if and only if its process is gone or this is the max(1, limit)-th failing check in that count |
| PoolBudget.StepConserves | supervisor/src/pool.rs:606-621 | each step changes the table size by its spawn announcements minus the entry it removes |
| PoolBudget.TableConservation | supervisor/src/pool.rs:203-242 | table size equals announced spawns minus replaced entries and attempted automatic restarts, over every history |
| PoolEvents.ChargeReportsArePaired | supervisor/src/pool.rs:376-404 | in every trace each WorkerUnhealthy is followed at once by WorkerRestarting of the same id with 1 <= attempt <= max or by WorkerFailed, and neither occurs otherwise |
| PoolEvents.GroundedIsInactive | supervisor/src/pool.rs:418-424 | a worker reported unhealthy or draining and not launched since is not in service, so no path can charge it |
| PoolEvents.NoChargeWhileGrounded | supervisor/src/pool.rs:345-348 | between a WorkerUnhealthy or WorkerDraining of a worker and its next WorkerUnhealthy it was spawned or became healthy, so no crash is charged twice |
| PoolEvents.NoFailureAfterDraining | supervisor/src/pool.rs:305-405 | after WorkerDraining no WorkerUnhealthy, WorkerRestarting or WorkerFailed of the worker occurs before it is launched again |
| PoolDraining.DrainSafeIff | supervisor/tests/integration.rs:717-720 | when no life of a worker is both drained and failed yet, a drained announcement keeps it so in every legal continuation if and only if no failure was reported since the last launch and none can be before the next: the worker is out of service or, counting only final failures, has budget left |
| PoolDraining.SafeDrainsNeverFail | supervisor/src/pool.rs:321-332 | a legal history whose drained announcements all meet that condition has no life both drained and failed |
| PoolDraining.DrainedAfterFailed | supervisor/src/main.rs:236-249 | a legal history in which a sweep charges a worker that drained and exited, before its announcements are read: failed for good, then draining, then drained, with no launch between |
| PoolDraining.DrainDivertsRestart | supervisor/src/pool.rs:305-319 | with budget left the same order leaves the worker Draining after its restart was announced |
| PoolDraining.FailedAfterDrained | supervisor/src/pool.rs:321-332 | a legal history in which a worker is reported drained while in service, then failed for good |
| PoolEvents.EntriesWereSpawned | supervisor/src/pool.rs:221-239 | every table entry was announced by WorkerSpawned |
| PoolEvents.SpawnedBeforeHealthyIff | supervisor/src/pool.rs:232-297 | over every history WorkerSpawned precedes every WorkerHealthy of the same id if and only if each Ready names an id announced as spawned before |
| PoolEvents.UnknownReadyIsReportedHealthy | supervisor/src/worker.rs:119-128 | a ready announcement without an id makes the pool report "unknown" healthy, and an empty pool all healthy |
| PoolTiming.ChargeSetsDeadline | supervisor/src/pool.rs:481-497 | whichever path charges, the worker is stopped or due at the charge's own reading plus the backoff of its new count |
| PoolTiming.PendingIsDueAtDeadline | supervisor/src/pool.rs:481-497 | the due time of every worker waiting for a restart is the deadline its latest charge or failed API restart set |
| PoolTiming.RestartsWaitForDeadline | supervisor/src/pool.rs:588-604 | every automatic restart of every legal history, with any clock readings, comes at or after the deadline the worker's latest charge (reading + backoff) or failed API restart (reading + restart delay) set |
| PoolTiming.RestartAllowedIff | supervisor/src/pool.rs:588-604 | a legal history continues with an automatic restart exactly of a waiting worker within its budget whose deadline has come |
| PoolTiming.BackoffIsRespected | supervisor/src/pool.rs:588-604 | with non-decreasing time, a worker charged at t with count f is not restarted automatically before t + delay(f) until a Ready or a failed API restart of it, later charges and restarts included |
| PoolTiming.FailedApiRestartCutsBackoff | supervisor/src/pool.rs:862-869 | a legal history with non-decreasing time in which a worker charged at 1 ms with backoff 2 ms is restarted at 2 ms because an API restart failed |
| PoolPorts.StartPortsSafeIff | supervisor/src/pool.rs:146-168 | an accepted configuration gives distinct initial ports in range exactly when the worker count is at most 65536 |
| PoolPorts.NewAcceptsIff | supervisor/src/pool.rs:146-168 | up to 65536 workers a configuration is accepted exactly if its last initial port, or its base without workers, is within the limit |
| PoolPorts.TruncatedCountIsAccepted | supervisor/src/pool.rs:146-168 | 65537 workers from port 3001 with limit 49151 are accepted, and the first and the last get the same port |
| PoolPorts.SmallSumsDoNotWrap | supervisor/src/pool.rs:192-194 | up to that count the u16 port arithmetic neither truncates nor wraps |
| PoolPorts.PortsStaySafe | supervisor/src/pool.rs:606-621 | in every reachable table all entries have distinct ports between base_port and max_port |
| PoolPorts.MoveKeepsPorts | supervisor/src/pool.rs:848-859 | an API restart, which briefly holds two entries on a port, ends with distinct ports |
| PoolPorts.CapacityIsExact | supervisor/src/pool.rs:732-757 | all ports of the range are taken exactly when the table has max_port - base_port + 1 entries, dead or alive, and it never has more |
| PoolPorts.PortFreedIff | supervisor/src/pool.rs:606-614 | one allowed step frees the port of an entry if and only if it is an automatic restart of that entry whose spawn fails |
| PoolPorts.PortTakenIff | supervisor/src/pool.rs:732-757 | after any legal history a port is taken if and only if some spawn took it and no automatic restart of its holder failed since |
| PoolPorts.PortReuseNeedsFailedRestart | supervisor/src/pool.rs:727-731 | a port once held is spawned on again only after an automatic restart of its holder failed |
| PoolPorts.KilledPortIsNotReused | supervisor/src/pool.rs:727-731 | a legal history that spawns a worker, kills it and spawns another on the next port; a spawn on the killed worker's port is not allowed, as the table still holds it |
| WorkerPool.ActiveIdsOf | supervisor/src/pool.rs:419-424 | the sweep's work list holds each worker in service once and no other |
| WorkerPool.DueIdsOf | supervisor/src/pool.rs:590-604 | the restart pass's work list holds each due, within-budget Failed worker once and no other |
| WorkerPool.StartedOf | supervisor/src/pool.rs:192-197 | the initial table has exactly the given ids, each new and on its own consecutive port |
| WorkerPool.WorkerPool.Guarantees | supervisor/src/pool.rs:132-139 | every valid pool has safe ports, paired charge reports, a conserved table, exact counters and pending restarts within budget |
| WorkerPool.WorkerPool.constructor | supervisor/src/pool.rs:146-181 | an accepted configuration yields an empty valid pool |
| WorkerPool.WorkerPool.SpawnWorker | supervisor/src/pool.rs:203-242 | success adds a Starting entry with zeroed counters and announces it; failure changes nothing |
| WorkerPool.WorkerPool.Start | supervisor/src/pool.rs:184-200 | for any worker count the table ends as the initial workers up to the first spawn that failed, each announced, and the call succeeds exactly when none did; up to 65536 workers this is a legal history |
| WorkerPool.WorkerPool.HandleWorkerEvent | supervisor/src/pool.rs:283-415 | any child event, stale or unknown, performs exactly its protocol step on table and announcements |
| WorkerPool.WorkerPool.HandleExit | supervisor/src/pool.rs:334-405 | an exit charges only a worker in service that did not exit cleanly, else it stops it or, if already dealt with, leaves it |
| WorkerPool.WorkerPool.CheckAllHealth | supervisor/src/pool.rs:418-585 | for every iteration order each worker in service takes its own probe and all others are untouched |
| WorkerPool.WorkerPool.CheckWorker | supervisor/src/pool.rs:427-584 | one worker's check changes only its entry, as HealthyCheckOutcome, FailingCheckOutcome and ChargedCheckOutcome say |
| WorkerPool.WorkerPool.ProcessRestarts | supervisor/src/pool.rs:588-622 | for every iteration order exactly the due, within-budget workers are replaced, keeping id, port and failure count, or lost if their spawn fails |
| WorkerPool.WorkerPool.RestartOne | supervisor/src/pool.rs:606-621 | removing, spawning and restoring the count of one worker is one automatic-restart step |
| WorkerPool.WorkerPool.NextAvailablePort | supervisor/src/pool.rs:732-760 | the result is in range, free, and all lower ports of the range are taken; an error means the whole range is taken |
| WorkerPool.WorkerPool.SpawnNewWorker | supervisor/src/pool.rs:763-778 | fails for want of a port exactly when the table is as large as the range, else adds one worker on the least free port or, if the spawn fails, changes nothing |
| WorkerPool.WorkerPool.DrainWorker | supervisor/src/pool.rs:783-802 | not found, or Draining if the process runs and Stopped if it does not; no event is announced |
| WorkerPool.WorkerPool.KillWorker | supervisor/src/pool.rs:807-826 | not found, or Stopped, running or not |
| WorkerPool.WorkerPool.RestartWorker | supervisor/src/pool.rs:829-876 | success hands the port to a new id and drops the old one; failure keeps the old entry, Failed and charged once |
| Clock.ValueIsLatest | src/utils/clock.ts:12-20 | for any readings, even decreasing ones, the n-th value is the greatest of n and all t_i + (n - i) |
| Clock.MonotonicClock.Now | src/utils/clock.ts:12-20 | the value is strictly greater than the last and not before the reading |
| EventStore.RecordKeepsBoundIff | src/store/memory-store.ts:20-36 | one record keeps the bound exactly unless a new task meets a full store whose oldest id is empty |
| EventStore.BoundFailsForEmptyId | src/store/memory-store.ts:27-30 | a store bounded to 1 holds two tasks after an empty id and another |
| EventStore.StoreIsWindowOfJournal | src/store/memory-store.ts:20-36 | for every bound and all calls the store is the end of the journal of all insertions, in order, starting k entries before the end or at the first entry with an empty id if that is earlier; it is within its bound exactly if there is none earlier |
| EventStore.KeptLogIsSinceInsertion | src/store/memory-store.ts:20-36 | the log of a kept task is exactly the events of the calls for it since the latest call that found it absent, in order |
| EventStore.RecordMovesWindow | src/store/memory-store.ts:20-36 | one record moves the store, for any bound and id, as it moves a window over the journal: extend an entry, or open one and drop the oldest unless there is room or its id is empty |
| TaskReplay.HashesAgreeIff | src/store/memory-store.ts:46-54 | over every history getOutputHash reports the hash of the task's first run reported completed and replay validates that of the last, so they agree if and only if those hashes are equal |
| TaskReplay.ReplayIsCompleteIff | src/worker-instance.ts:98-158 | replay of a task re-emits of each of its runs exactly what that run delivered, if and only if no drain timer of the run announced draining |
| TaskReplay.DrainingIsNotReplayed | src/worker-instance.ts:145-158 | a history in which WORKER_DRAINING is on the stream of a running task and not in its log |
| TaskReplay.CompletedRunLogs | src/worker-instance.ts:112-252 | after any history that lets the worker take a task, running it to completion adds exactly its acceptance and its completion to the task's log and leaves the worker able to take it again |
| TaskReplay.ResubmissionHashes | src/replay/replayer.ts:61-72 | a worker given a task twice, completing with hash a and then b, reports a from getOutputHash and validates b on replay |
| EventStore.MemoryEventStore.Record | src/store/memory-store.ts:20-36 | the in-place update of keys and logs is the specified record with its eviction |
| EventStore.MemoryEventStore.GetOutputHash | src/store/memory-store.ts:46-54 | the hash of the task's first completion, or none |
| EventStore.Replayer.ReplayWithValidation | src/replay/replayer.ts:46-85 | re-emits the recorded log in order and reports its length and whether the last completion's hash is the expected one; a throwing emit cuts it to a prefix |
| Lifecycle.WorkerStateMachine.Transition | src/state/machine.ts:54-63 | moves exactly along the transition table and stays put otherwise |
| Lifecycle.TransitionsOnlyAdvance | src/state/machine.ts:17-27 | the transition table is exactly: forward along BOOT, READY, ACCEPTING, DRAINING, OFFLINE, and from BOOT only to READY |
| Lifecycle.MergeTakesUpdate | src/state/config.ts:92-109 | caps and flags the update names take its values, all others stay, and a limit it names replaces the old one |
| Lifecycle.SlotManager.Acquire | src/executor/slots.ts:51-60 | duplicate, no slots and acquired are decided in this order, and only acquired changes the slots |
| Lifecycle.SlotManager.Release | src/executor/slots.ts:65-67 | removes exactly that slot and reports whether it was held |
| Lifecycle.SlotManager.SetMaxConcurrency | src/executor/slots.ts:19-24 | a limit below 1 is refused and changes nothing |
| Lifecycle.ConfigManager.Update | src/state/config.ts:87-113 | all or nothing: a rejected update changes neither configuration nor subscribers, an accepted one merges and reaches every subscriber |
| TaskWiring.AlwaysWired | src/worker-instance.ts:112-253 | in every reachable worker a task id holds a slot exactly while one run of it is unfinished or unreleased, only one such run exists, and the slot limit equals the configured one |
| TaskWiring.TransitionsAreNeverRejected | src/worker-instance.ts:137-147 | every lifecycle transition the worker asks for is valid in the state it is asked in |
| TaskWiring.InflightIsConserved | src/executor/slots.ts:51-67 | inflight equals acceptances minus invocations that reached their finally block |
| TaskWiring.ReadyIffNothingAdmitted | src/worker-instance.ts:137-139 | the worker is READY exactly when no task was ever accepted |
| TaskWiring.InflightGrowsWithinLimit | src/worker-instance.ts:48-51 | under hot reconfiguration the limits agree, and no step of any kind makes inflight grow past the limit of the moment or at all while it is at or above it |
| TaskWiring.LimitIsLatest | src/worker-instance.ts:86-92 | the slot limit and the configured one are that of the last accepted update that named one, or the initial one |
| TaskWiring.ArmedUntilFired | src/worker-instance.ts:142-160 | the drain timer of a live run is armed if and only if a timeout is configured, exceeds the buffer, and it has not fired |
| TaskWiring.DrainingIsAnnouncedOnce | src/worker-instance.ts:145-158 | over all runs and timers WORKER_DRAINING is delivered at most once, and the state is then DRAINING |
| TaskWiring.NothingAcceptedOnceDraining | src/server.ts:63-89 | with every submission through the accepting gate, no TASK_ACCEPTED on any stream follows WORKER_DRAINING |
| TaskWiring.AbortsOnlyWhenDraining | src/worker-instance.ts:145-158 | an execution is aborted only by its drain timer, which then is spent, and only in a DRAINING worker |
| TaskHistory.RecordedEqualsDelivered | src/worker-instance.ts:161-243 | whatever throws, each task's stored log is exactly its events whose emit returned, in order |
| TaskHistory.TimestampsStrictlyIncrease | src/worker-instance.ts:148-241 | across all tasks timestamps strictly increase in emission order for any clock readings, and the clock is the closed form of the readings consumed |
| TaskHistory.AlwaysSequential | src/worker-instance.ts:122-129 | the deliveries of a task come from runs in order of acceptance, none from a run later than the live one |
| TaskHistory.ResubmissionsNeverInterleave | src/worker-instance.ts:122-129 | what one run says about its task is a contiguous part of the task's history, even when emits throw |
| TaskFacts.LogIsAllSaid | src/worker-instance.ts:161-243 | over every history a task's log is, in order, what each step about it said: acceptance, stage, hash or failure class, each with the clock value of its reading |
| TaskFacts.StagesAreThoseReached | src/worker-instance.ts:176-201 | the progress stages in a task's log are those of the callbacks of its runs whose emit returned, in order |
| TaskFacts.FailuresAreThoseReported | src/worker-instance.ts:228-243 | the failure classes in a task's log are those of its runs' reported failures, in order |
| TaskFacts.HashesAreThoseFinished | src/worker-instance.ts:208-227 | the output hashes in a task's log are those of its runs' reported completions, in order |
| TaskBrackets.OpenShape | src/worker-instance.ts:161-201 | an unfinished history is a finished part followed by one ACCEPTED and only progress, all of one run |
| TaskBrackets.ClosedShape | src/worker-instance.ts:212-242 | a finished history ends with a terminal event of the run that was open |
| TaskBrackets.StepKeepsMatchIff | src/worker-instance.ts:161-243 | a step about a task keeps its history bracketed, and open for exactly its executing run, if and only if its framing events get through |
| TaskBrackets.OtherStepsKeepMatch | src/worker-instance.ts:112-253 | steps of other tasks never disturb a task's history |
| TaskBrackets.HistoriesAreBracketedIff | src/worker-instance.ts:112-253 | under any interleaving a task's history is (ACCEPTED PROGRESS* terminal)* plus at most one unfinished run, open exactly for the run executing it, if and only if every step about that task got its acceptance or terminal event through; other tasks' losses do not matter |
| TaskBrackets.StepKeepsLost | src/worker-instance.ts:161-243 | a history that is broken, or left open by a run that is gone, is never well formed again |
| TaskBrackets.LostAcceptanceBreaksBracket | src/worker-instance.ts:161-242 | losing only the acceptance leaves a recorded failure of a task never accepted |
| VercelWorker.VercelWorker.Guarantees | src/worker-instance.ts:31-36 | every valid worker is wired, records what it delivered, stamps in order and drains once |
| VercelWorker.VercelWorker.constructor | src/worker-instance.ts:38-52 | a new worker is READY, idle, with its slot limit the configured one and following the configuration |
| VercelWorker.VercelWorker.EmitAndRecord | src/worker-instance.ts:162-169 | an event is stamped, delivered and recorded together, or only stamped if its emit throws |
| VercelWorker.VercelWorker.Begin | src/worker-instance.ts:122-160 | a slot, the lifecycle move and the drain timer are taken together or not at all |
| VercelWorker.VercelWorker.Catch | src/worker-instance.ts:228-243 | the failure is delivered and recorded and the run awaits, or the run ends at once |
| VercelWorker.VercelWorker.Finally | src/worker-instance.ts:244-252 | the run and its timer go and exactly its slot is freed |
| VercelWorker.VercelWorker.SubmitTask | src/worker-instance.ts:112-169 | the stretch to the first await is the submission step; a refused submission changes nothing and gets the reason of the first check it fails, and it starts exactly when gate, payload, id and slots allow |
| VercelWorker.VercelWorker.OnMilestone | src/worker-instance.ts:176-201 | a callback performs the milestone step: its own stage, stamped, goes to the stream and the task's log, or nothing does |
| VercelWorker.VercelWorker.OnResult | src/worker-instance.ts:208-243 | a result performs the finish step: its completion goes out with its hash, or else its failure with its class, or nothing |
| VercelWorker.VercelWorker.OnError | src/worker-instance.ts:228-243 | an exception performs the abandon step: its failure goes out with its class, or nothing |
| VercelWorker.VercelWorker.OnSettled | src/worker-instance.ts:244-252 | after the terminal record the run is over and its slot free |
| VercelWorker.VercelWorker.FireDrainTimer | src/worker-instance.ts:145-158 | the timer callback moves to DRAINING and announces it if it was not DRAINING yet, then aborts the execution unless the announcement threw |
| VercelWorker.VercelWorker.OnDrainTimer | src/worker-instance.ts:145-158 | after the timer step the worker is DRAINING, and the execution is aborted exactly unless the announcement threw |
| VercelWorker.VercelWorker.UpdateConfig | src/worker-instance.ts:86-92 | a rejected update changes nothing; afterwards the slot limit is the configured one |
| VercelWorker.VercelWorker.Replay | src/worker-instance.ts:98-107 | replay re-emits exactly the delivered history of a task, reports its length and checks the hash of its last completion |
| KeyOrder.BeforeIsStrict | src/utils/hash.ts:27-27 | code-unit order on keys is total and strict |
| KeyOrder.BeforeIsTransitive | src/utils/hash.ts:27-27 | code-unit order on keys is transitive |
| KeyOrder.BeforeAtFirstDifference | src/utils/hash.ts:27-27 | the first differing unit decides between two keys, and a key is before all that it begins |
| KeyOrder.SortSorts | src/utils/hash.ts:27-27 | sorting distinct keys gives the same keys in strictly increasing order |
| KeyOrder.SortedIsUnique | src/utils/hash.ts:27-27 | a strictly sorted sequence is determined by its elements, so the choice of sorting algorithm does not matter |
| Json.CanonicalKeys | src/utils/hash.ts:26-30 | the canonical object has exactly the given keys, sorted |
| Json.CanonicalHas | src/utils/hash.ts:27-29 | every member is kept, with its value made canonical |
| Json.CanonicalFrom | src/utils/hash.ts:27-29 | no member is invented |
| Json.CanonicalKeysDistinct | src/utils/hash.ts:15-31 | keys stay distinct at every depth |
| Json.SameMembersSameObject | src/utils/hash.ts:26-30 | objects whose members agree canonically in any order have one canonical form |
| Json.CanonicalIffEquivalent | src/utils/hash.ts:15-31 | sortKeys(a) equals sortKeys(b) exactly when a and b are equal up to member order at every depth |
| Json.CanonicalIsIdempotent | src/utils/hash.ts:15-31 | sortKeys loses only member order and applying it twice changes nothing |
| JsonText.EscapeUnique | src/utils/hash.ts:37-37 | a quoted string determines its contents and where it ends, through escapes and surrogates |
| JsonText.NumeralUnique | src/utils/hash.ts:37-37 | a number followed by a delimiter is determined by the text |
| JsonText.StringifyUnique | src/utils/hash.ts:37-37 | a serialized value before any delimiter determines what it is written for, and the rest of the text |
| JsonText.StringifyIff | src/utils/hash.ts:37-37 | two values serialize alike if and only if they are the same but for infinities written as null and minus zero as zero |
| JsonText.StringifyIsJson | src/utils/hash.ts:37-37 | for every value the text is JSON and, read by a reader of the standard's grammar, gives back exactly that value but for infinities as null and minus zero as zero |
| JsonText.PieceForms | src/utils/hash.ts:37-37 | which characters are written as themselves, which with a two-unit escape and which in lower-case hexadecimal |
| JsonText.StringifyWellFormed | src/utils/hash.ts:37-37 | a serialized text has no lone surrogates, so its UTF-8 bytes determine it |
| Utf8.BytesDecode | src/utils/hash.ts:6-8 | the bytes of every string are well-formed UTF-8 in shortest form and decode to the string but for lone surrogates |
| Utf8.ScrubbedAt | src/utils/hash.ts:6-8 | exactly the surrogates without a partner become U+FFFD |
| Utf8.BytesIff | src/utils/hash.ts:6-8 | two strings have the same UTF-8 bytes if and only if they are equal after replacing lone surrogates |
| PayloadHash.SortKeys | src/utils/hash.ts:15-31 | the recursive method that fills an object key by key computes the canonical form |
| PayloadHash.HashedTextIsPayload | src/utils/hash.ts:36-39 | the hashed text reads back as the payload as written, up to member order, with keys sorted at every depth |
| PayloadHash.SerializationIffEquivalent | src/utils/hash.ts:36-39 | the hashed texts of two payloads are equal exactly when the payloads, as written, are equal up to member order |
| PayloadHash.HashIdentifiesPayload | src/utils/hash.ts:36-39 | two hashes are equal exactly for payloads equal in that sense or for a collision of the digest on different bytes |
| PayloadHash.OverflowHashesAsNull | src/utils/hash.ts:36-39 | infinity and null are different payloads with one hash, whatever the digest |
| Executor.ConsumeStream | src/executor/executor.ts:229-259 | content, count and callbacks are those of the non-empty tokens in order, with one first-token callback before them |
| Executor.ContentSplits | src/executor/executor.ts:250-258 | however a stream is cut in two, its content is that of the first part followed by that of the second, and the counts add up |
| Executor.TokenStandsAt | src/executor/executor.ts:255-255 | every token stands in the content where the content of the events before it ends |
| Executor.CallbacksSplit | src/executor/executor.ts:250-258 | the callbacks of a stream are those of its first part and then those of the second, with the first-token callback only once |
| Executor.FirstTokenIffContent | src/executor/executor.ts:250-257 | the token loop reports a first token exactly when the final content is not empty |
| Executor.RaceAgreesWithLoop | src/executor/executor.ts:439-441 | the race and the token loop cause the same milestones whenever they end in the same content |
| Executor.AggregateFanout | src/executor/executor.ts:459-490 | the aggregate is the array of all branches' outputs, empty for a missing result, and the sums of their token, input and output counts with the source's defaults |
| Executor.UsageOfOne | src/executor/executor.ts:470-476 | each total of a single branch is its own count of that kind, output tokens defaulting to its token count |
| Executor.UsageAdds | src/executor/executor.ts:459-476 | each total of several branches is the sum of their totals of that kind |
| Executor.FanoutReadsBack | src/executor/executor.ts:464-478 | the content reads back as an array of one string for each branch in order, its content or the empty string |
| Executor.FanoutContentDeterminesOutputs | src/executor/executor.ts:478-481 | the aggregated content determines the number of branches and every output |
| Auth.SignedTextIsInjective | src/auth/validate.ts:24-32 | however the runtime prints numbers, if it prints them apart and without a bar, different requests sign different texts, even if a task id contains the separator |
| Auth.SignedBytesIff | src/auth/validate.ts:24-32 | two requests sign the same bytes if and only if times are equal and task ids equal up to lone surrogates |
| Auth.LoneSurrogatesSignAlike | src/auth/validate.ts:30-31 | task ids of one lone surrogate each sign the same bytes |
| Auth.SignedTextFields | src/auth/validate.ts:24-31 | split at its last two bars, the signed text is the task id, the time of issue and the time to live, in this order |
| Auth.CompareIsEquality | src/auth/validate.ts:37-42 | the byte comparison with an ASCII signature succeeds exactly for that signature |
| Auth.RefusalIffFirstFailure | src/auth/validate.ts:59-97 | each refusal is given exactly if its requirement is the first not met, in the source's order; a comparison throws exactly for a token of the signature's length that is not ASCII |
| Auth.TokenBindsRequest | src/auth/validate.ts:59-97 | a well-formed minted token is valid exactly inside its time window and for the request it was minted for up to lone surrogates, or under a digest collision on different bytes |

## Left out

- HTTP, SSE and axum routing, process spawning and signalling, stdout parsing and health probing: they appear only as the environment's answers and as the source of child events.
- Pool shutdown (supervisor/src/pool.rs:646-691): it depends on operating-system process behaviour and changes no table entry.
- The pool's `last_healthy` field and the reason strings of events: written, never read.
- PoolBudget.FailureCounterBound: the failure counter is an unbounded number in the model. The bound keeps it inside the source's u32 while max_consecutive_failures + 1 + the failed API restarts since the last Ready is below 2^32, which is never so for max_consecutive_failures = 2^32 - 1; what an overflowing counter would do is not modelled.
- WorkerPool.WorkerPool.Start: says nothing of the validity of a pool with more than 65536 workers, whose initial ports collide (StartPortsSafeIff); so the theorems on histories do not reach such pools. Port sums wrap, as in a build without overflow checks.
- WorkerPool.WorkerPool.RestartWorker: the termination of the old process and the wait for it are not modelled, since they do not touch the table; the exit event they queue is an ordinary child event.
- Instants and durations are exact nanosecond counts; overflow of `Instant + Duration` is not modelled.
- Liveness: that a crashed worker eventually returns, that a failed API restart is retried, that `POST /api/drain` stops acceptance (src/server.ts:393-407 does not move the lifecycle state).
- Events the L0 runtime emits and the worker passes on unrecorded (src/worker-instance.ts:187-190): they carry their own timestamps, and TaskReplay.ReplayIsCompleteIff speaks of the worker's own events only.
- Callbacks that would come after an execution has settled are assumed not to happen. In src/executor/executor.ts the first-token callback is called only inside the awaited stream loop or after the awaited race, and the tool-call callback not at all, but the runtime the signal and options go to is not modelled.
- The `@ai2070/l0` runtime, the `ai` SDK and the providers: an execution is an arbitrary run of callbacks ending in a result or an exception; abort signals are part of that.
- Executor.ConsumeStream: models the text path; the structured path has the same loop and then replaces the content by the validated object.
- Lifecycle.ConfigManager.Update: subscribers are slot tables, the only kind the worker registers; unsubscribing is left out.
- Lifecycle.WorkerStateMachine.Transition: the notification of transition listeners is left out; the worker registers none.
- Limits are whole numbers; the source also accepts a fractional `maxConcurrency` (src/events/inbound.ts:70).
- EventStore.MemoryEventStore: `clearTask` and `clear` are left out.
- EventStore.Replayer.ReplayWithValidation: the generator `replay` is left out, as it yields the same log.
- Json.CanonicalIffEquivalent: assumes plain JSON data; objects with `toJSON`, a `__proto__` key and JavaScript's enumeration of integer-like keys are not modelled.
- JsonText.StringifyIff: a number other than -0 and the infinities is represented by the decimal text JavaScript prints for it.
- Auth.SignedTextIsInjective: how the runtime prints numbers is a parameter, required only to keep the numbers in play apart, in ASCII and free of bars; DecimalPrintsApart shows plain digits do, which is what is printed for whole numbers below 10^21.
- Auth.Validate: times are exact reals, so the rounding of `issued_at + ttl` for large or fractional values is not modelled; the strength of SHA-256 and HMAC and constant-time comparison are out of scope, both digests being arbitrary functions.
- VercelWorker.VercelWorker.OnDrainTimer: an emit that throws inside the timer callback loses the event and skips the abort; what the process does with that uncaught exception is not modelled.
- Schema validation, option mapping, `classifyError` and `isRetryable`: each is settled by reading one branch.
