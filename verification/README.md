# Verified model of the Harbor replicator's in-memory protocols

The replicator copies robot accounts and groups between Harbor registries.  Nearly all
of its I/O sits around a few in-memory algorithms and state machines, and this project
models those in Dafny and proves what they keep.  `dafny verify dfyconfig.toml` checks
everything.

| file | what it models |
|---|---|
| `DependencyGraph.dfy`, `TopologicalSort.dfy` | the dependency sort of a batch, and the loop that launches what it returns |
| `BatchSaga.dfy`, `SagaProperties.dfy` | the transaction log, the retry loop of one operation, compensation of a failed batch |
| `ClientBreaker.dfy` | the generation-based circuit breaker of the HTTP client, with any number of requests in flight |
| `MappingStore.dfy`, `StateManager.dfy` | the table of resource mappings with dependency edges, and its bulk and cleanup operations |
| `Scheduler.dfy`, `WorkerPool.dfy` | the scheduler's two goroutines and the worker pool, interleaved at every lock and counter |
| `TokenBucket.dfy`, `PriorityQueue.dfy`, `QueueProcessor.dfy` | rate limiting, the bounded priority queue, and the processor that joins them |
| `PermissionMerge.dfy` | the three ways to merge two permission lists, read as sets of grants |
| `OutcomeWindow.dfy` | the sliding window of outcomes and the breaker that reads it |
| `SyncLedger.dfy`, `LedgerProperties.dfy` | sync operations, their counters and the statistics kept beside them |
| `Collections.dfy`, `Pagination.dfy`, `ErrorStore.dfy` | newest-first pages, and the store of sync errors |
| `Arithmetic.dfy`, `Retry.dfy` | retry delays, jitter, the Fibonacci cache and the attempt loop |
| `Lifecycle.dfy` | priority-ordered start and stop of dependencies |

Objects whose methods update their fields are classes, and each method is proved against
a specification function of the old state; what the repository promises is then proved
about those functions, over all inputs or all runs.  Concurrent code is a transition
system: each lock region, channel operation or atomic update is one step, and the
theorems range over every interleaving.

## Assumptions

- Clock readings are parameters.  Identifiers built from the clock are fresh; sync
  identifiers are also not empty.
- A map key of the form `"%s:%s"` stands for the pair of its parts, so the first part
  has no colon.
- Floats are reals.  `uint32`, `uint64`, `int64` and `time.Duration` values do not wrap,
  except for the half-open counter in `OutcomeWindow.dfy`, whose wrap at 2^32 is modelled.
- The iteration order of a Go map is an arbitrary enumeration, given as a parameter or
  chosen by a loop that may pick any remaining key.
- Handlers, hooks, random numbers, deadlines and cancellation are oracles: parameters
  that say how each call turns out.

## Where code and documentation disagree

The model follows the code.

- The comment at internal/sync/adaptive.go:188 speaks of evicting the oldest low-priority
  operation; the code evicts the first operation of lower priority, which is the best of
  them (`PriorityQueue.Evicts`).
- The comment at internal/sync/retry.go:207 bounds decorrelated jitter by three times the
  previous delay; the code bounds it by the previous delay itself, or by three times the
  computed one (`Retry.Ceiling`).
- The comment at internal/sync/recovery.go:228 says operations execute in dependency
  order; the sorted indices are applied to the slice and not to the numbering they were
  made for (`TopologicalSort.LaunchesFollowSortIffNumberedInSliceOrder`).

## What does not hold

Some properties one might expect are false of the code.  For each there is a run or an
input that shows it, and the exact condition under which it does hold.

| expected | shown to fail by | holds exactly when |
|---|---|---|
| dependencies are launched first | `TopologicalSort.LaunchCanInvertDependency` | `TopologicalSort.LaunchesDependenciesFirstIffIndependent` |
| a successful compensation leaves nothing completed that has a compensator | `SagaProperties.SecondRunKeepsCompleted` | `SagaProperties.AllRolledBackIff`, `SecondPassIsIdleIff` |
| a reported success was attempted | `BatchSaga.CompletedIff`, `Retry.ExecuteExactly` (no attempts allowed) | the same lemmas |
| a half-open breaker with nothing in flight admits | `ClientBreaker.ProbeRun` | `ClientBreaker.NeverStuckIff` |
| every dependency is stored | `MappingStore.OverrideBreaksSoundness` | `MappingStore.StepKeepsSoundIff` |
| an add that does not overwrite loses no mapping | `MappingStore.GeneratedIdsCollide` | `MappingStore.AddLosesOnly` |
| the mapping table can be emptied by deletes | `MappingStore.UpdateClosesCycle` | `MappingStore.EmptiableIffAcyclic`; over a run `StaysEmptiableIff` |
| the active set stays within the limit | `Scheduler.BoundIsReached`, for every limit | no trigger is handled: `Scheduler.ActiveIsBounded`; otherwise never |
| running attempts are bounded | `Scheduler.PileUp` | `Scheduler.RunningBoundedIff` |
| `queuedJobs` is not negative | `WorkerPool.QueuedJobsGoesBelow` | `WorkerPool.QueuedJobsFloorIff` |
| union loses no grant, and the data-loss check notices | `PermissionMerge.DataLossCheckCountsOnly` | `PermissionMerge.UnionIsSetUnionIff`, `UnionRejectedIff` |
| successes close an open breaker again | `OutcomeWindow.StuckUntilForced`, from any first success | `OutcomeWindow.ClosesAgainIff` |
| a live operation is the current one | `LedgerProperties.FinishAsRunningBreaks` | `LedgerProperties.StepKeepsOneLiveIff` |
| overall totals are those of the ended operations | `LedgerProperties.TotalsBreak` | `LedgerProperties.StepKeepsTotalsIff` |
| the configured retry limit limits retries | `ErrorStore.LimitIsPassed`, `BoundIsReached` | `ErrorStore.ExceededIsRetriedAgainIff` |
| jitter only shortens a delay | `Retry.ShareOf`, the random number that does it | `Retry.DecorrelatedNeverExceedsIff` |

## Model

| member | source | states |
|---|---|---|
| `TopologicalSort.Sorter.VisitOperation` | internal/sync/recovery.go:474-489 | the recursive closure does to its captured variables exactly what the depth-first search `Visit` does, terminates on cyclic graphs, and leaves every unvisited operation to later calls |
| `TopologicalSort.Sort` | internal/sync/recovery.go:459-496 | for every dependency map, cyclic or not, and both map iteration orders, returns the finish order of the search in the function's own numbering |
| `TopologicalSort.PostOrderIsPermutation` | internal/sync/recovery.go:474-493 | the search finishes every key of the map exactly once and nothing else |
| `TopologicalSort.DependencyComesFirst` | internal/sync/recovery.go:481-484 | a dependency that does not depend back finishes first, whatever else in the graph is cyclic |
| `TopologicalSort.AcyclicIsTopological` | internal/sync/recovery.go:458-496 | in an acyclic graph every dependency that is present comes before its dependents, for every iteration order |
| `TopologicalSort.EdgeRespectedIffNotMutual` | internal/sync/recovery.go:474-493 | an edge is respected by every iteration order if and only if the dependency cannot reach the dependent |
| `TopologicalSort.BuildDependencyGraph` | internal/sync/recovery.go:448-456 | the loop builds the map in which the last operation under an identifier wins |
| `TopologicalSort.SortedIndicesCover` | internal/sync/recovery.go:463-495 | the sorted result is a permutation of 0 .. len(graph) - 1 |
| `TopologicalSort.LaunchedOnceIffDistinctIds` | internal/sync/recovery.go:231-249 | the launch loop starts each operation exactly once if and only if the identifiers are distinct; otherwise only an initial segment of the slice starts |
| `TopologicalSort.LaunchesFollowSortIffNumberedInSliceOrder` | internal/sync/recovery.go:219-249 | for every batch the launches come in the sorted order if and only if the map range that numbers the operations runs in slice order, as far as it goes |
| `TopologicalSort.LaunchCanInvertDependency` | internal/sync/recovery.go:231-249 | a concrete acyclic batch whose dependent is launched before its dependency |
| `TopologicalSort.LaunchesDependenciesFirstIffIndependent` | internal/sync/recovery.go:219-249 | in every batch, repeated identifiers or not, each listed operation is launched before its dependent for every order of the two map ranges if and only if no operation lists an operation of the batch |
| `BatchSaga.TransactionLog.LogOperation` | internal/sync/recovery.go:516-533 | a copy is appended to the log, becomes the one its identifier leads to, and joins its batch's list |
| `BatchSaga.TransactionLog.UpdateOperation` | internal/sync/recovery.go:536-552 | an update by identifier changes the latest copy under it and no other; it fails exactly when none was logged |
| `BatchSaga.TransactionLog.GetOperationsByBatch` | internal/sync/recovery.go:569-584 | returns copies of the batch's entries in log order |
| `BatchSaga.RecoveryManager.TryRepeatedly` | internal/sync/recovery.go:309-352 | the attempt loop computes `Executed`: calls made, final status, whether the log is still to be updated, whether an error is returned |
| `BatchSaga.RecoveryManager.ExecuteOperationWithRecovery` | internal/sync/recovery.go:274-364 | outcome and log after one operation's run, with and without a handler and a checkpoint |
| `BatchSaga.CompletedIff` | internal/sync/recovery.go:309-363 | an operation is logged as completed if and only if some call succeeds after nothing but retryable, uncancelled failures; at most `maxRetries` calls; with `maxRetries` below one it is never called and still reported as a success |
| `BatchSaga.RecoveryManager.CompensateOperation` | internal/sync/recovery.go:394-425 | marks, calls the handler if there is one, and leaves the latest copy rolled back or failed |
| `BatchSaga.RecoveryManager.CompensateFailedOperations` | internal/sync/recovery.go:367-391 | collects the completed entries backwards and compensates them until one fails, as the specification `CompensateBatch` says |
| `BatchSaga.RecoveryManager.RunAll` | internal/sync/recovery.go:231-260 | whatever was launched and in whatever order the goroutines finish: the log after all runs; an error was returned if and only if some operation that ran has no handler or made its own calls without a success |
| `BatchSaga.RecoveryManager.ExecuteBatchOperations` | internal/sync/recovery.go:195-271 | logs the batch, sorts its dependency graph, runs what the sort returns with any order of finishing, reports an error if and only if some operation that ran has no handler or made its own calls without a success, and then compensates the batch |
| `BatchSaga.EndingMeans` | internal/sync/recovery.go:274-363 | the run of operation k errs and leaves its status as operation k's own handler, calls and cancellations decide |
| `BatchSaga.RunLeaves` | internal/sync/recovery.go:297-363 | one run on the log: the latest copy is completed, failed, left as it was, or left running if a checkpoint had marked it, as the calls decide |
| `SagaProperties.DueExactly` | internal/sync/recovery.go:374-381 | the places to compensate are exactly the completed entries of the batch that have a compensator, in descending order |
| `SagaProperties.CompensationExactly` | internal/sync/recovery.go:367-425 | for every log: handlers are called once per due entry in reverse log order up to the first failure, and the log changes only at the latest copies of the called identifiers |
| `SagaProperties.CompensationOfLatest` | internal/sync/recovery.go:367-425 | where each due entry is the latest copy under its identifier a success rolls back every due operation and touches no other; after a failure that one is failed, those logged after it are rolled back and those before it are still completed |
| `SagaProperties.AllRolledBackIff` | internal/sync/recovery.go:384-388 | after a success every due operation is rolled back if and only if none of them was logged again under its identifier |
| `SagaProperties.SecondCompensation` | internal/sync/recovery.go:367-391 | in such a log compensating again calls no handler twice: nothing after a success, and after a failure it starts with the operation logged before the failed one |
| `SagaProperties.SecondPassIsIdleIff` | internal/sync/recovery.go:367-391 | after any success a second pass calls nothing if and only if every due entry was the latest copy under its identifier |
| `SagaProperties.AfterRunsExactly` | internal/sync/recovery.go:231-254 | for a batch whose own identifiers are distinct, over any older log: every operation's own copy ends as its run ended and nothing else changes, whatever the order in which the goroutines finish |
| `SagaProperties.BatchIsAllOrNothing` | internal/sync/recovery.go:195-271 | for a new batch whose own identifiers are distinct, over any older log, even one that used these identifiers: without a failure each operation is left as its run ended; with one, and a successful compensation, no completed operation that has a compensator stays completed and nothing else is touched |
| `SagaProperties.SortedBatchIsAllOrNothing` | internal/sync/recovery.go:195-271 | the same from end to end, whatever the dependencies, the map ranges and the order of finishing: every operation runs once, an error is reported if and only if one failed, and the two outcomes above hold |
| `SagaProperties.SecondRunKeepsCompleted` | internal/sync/recovery.go:516-552 | concrete run: an operation completed in one run of a batch and failed in the next stays completed through a successful compensation |
| `SagaProperties.BatchMeans` | internal/sync/recovery.go:195-271 | on the handlers' calls, for a new batch over any older log and any order of finishing: an error is reported if and only if some operation has no handler or had calls and none succeeded, and every copy has the status its own operation's calls gave it, before compensation and after a successful one |
| `ClientBreaker.CircuitBreaker.Before` | pkg/client/circuitbreaker.go:81-96 | admission, rejection and the token handed out, with the clock's own transition first |
| `ClientBreaker.CircuitBreaker.After` | pkg/client/circuitbreaker.go:98-134 | a result of the current generation is counted and may trip or close; any other result leaves only what the clock does |
| `ClientBreaker.CircuitBreaker.CurrentState` | pkg/client/circuitbreaker.go:155-167 | closed windows expire into a new generation and open ones into half-open, strictly after the deadline |
| `ClientBreaker.CircuitBreaker.ToNewGeneration` | pkg/client/circuitbreaker.go:169-186 | counts cleared, generation raised, deadline set by state |
| `ClientBreaker.CircuitBreaker.DoReset` | pkg/client/circuitbreaker.go:215-221 | a new generation, then the closed state |
| `ClientBreaker.CircuitBreaker.DoTrip` | pkg/client/circuitbreaker.go:223-228 | the open state, with its deadline |
| `ClientBreaker.NextHasEffect` | pkg/client/circuitbreaker.go:81-113 | the run model with its history does to the breaker exactly what the methods do |
| `ClientBreaker.RunKeepsInv` | pkg/client/circuitbreaker.go:81-186 | every interleaving of admissions, results, resets, trips and clock readings keeps counters, state facts and generations consistent with the history |
| `ClientBreaker.EveryRunIsAccounted` | pkg/config/types.go:62-84 | in every run Requests equals successes plus failures plus requests of the generation in flight, and no half-open generation ever admits more than MaxRequests |
| `ClientBreaker.StaleResultIsIgnored` | pkg/client/circuitbreaker.go:98-106 | a result carrying another generation carries an older one and changes nothing the clock alone would not change |
| `ClientBreaker.TripsExactly` | pkg/client/circuitbreaker.go:123-138 | a result trips a closed breaker if and only if the last max(1, FailureThreshold) results of the generation all failed |
| `ClientBreaker.ClosesExactly` | pkg/client/circuitbreaker.go:115-134 | a half-open breaker closes if and only if the result completes max(1, SuccessThreshold) successes without a failure, and any failure reopens it |
| `ClientBreaker.CoolsDown` | pkg/client/circuitbreaker.go:155-186 | short of a reset nothing is admitted until strictly after trip time plus Timeout; then the first request is admitted if and only if MaxRequests is positive |
| `ClientBreaker.ResetExactly` | pkg/client/circuitbreaker.go:215-221 | in every reachable world a reset leaves a clean closed generation, later than all before, in which every request in flight is stale and the next request is admitted at any time |
| `ClientBreaker.WindowExpires` | pkg/client/circuitbreaker.go:155-180 | a closed window keeps what it counted up to and at its end, and strictly after it a clean one of the same length begins |
| `ClientBreaker.ClosingStartsWindow` | pkg/client/circuitbreaker.go:115-134 | a half-open breaker that closes starts its window at the result that closed it |
| `ClientBreaker.NeverStuckIff` | pkg/client/circuitbreaker.go:88-91 | no run by a clock that never runs backwards leaves a half-open breaker refusing with nothing in flight if and only if MaxRequests is at least max(1, SuccessThreshold) |
| `ClientBreaker.StuckForever` | pkg/client/circuitbreaker.go:88-91 | such a breaker admits nothing until it is reset or tripped |
| `MappingStore.StepKeepsSoundIff` | pkg/state/mappings.go:76-152 | a change keeps all references valid if and only if an accepted add that overrides dependencies lists stored mappings or itself |
| `MappingStore.OverrideBreaksSoundness` | pkg/state/mappings.go:132-134 | concrete input: an accepted add to the empty store whose option lists a mapping that is not stored |
| `MappingStore.EveryRunIsSound` | pkg/state/mappings.go:406-427 | from the empty store, over all runs without overriding adds: keys equal identifiers, fields are present, every dependency is stored, and the orphan cleanup never finds anything |
| `MappingStore.LayeredIffInOrder` | pkg/state/mappings.go:268-287 | an order can be deleted from the back, one mapping at a time, if and only if it lists the store once and no mapping depends on itself or on a later one |
| `MappingStore.ReverseOrderEmptiesIff` | pkg/state/mappings.go:268-287 | the deletes in the reverse of an order are all accepted and empty the store if and only if the order is such a one |
| `MappingStore.EmptiableIffAcyclic` | pkg/state/mappings.go:514-527 | any store, with valid references or not, can be emptied by accepted deletes if and only if its dependency graph is acyclic |
| `MappingStore.StepKeepsAcyclicIff` | pkg/state/mappings.go:76-250 | a step of any kind leaves an acyclic store acyclic if and only if nothing on the dependency list it stores leads back to the mapping |
| `MappingStore.StaysEmptiableIff` | pkg/state/mappings.go:76-287 | over every run from a store that can be emptied, with overrides and rewritten dependencies, it can be emptied at all times if and only if no accepted step closes a cycle |
| `MappingStore.UpdateClosesCycle` | pkg/state/mappings.go:202-206 | concrete run: an accepted update makes a mapping depend on itself; the store is sound and no sequence of deletes empties it |
| `MappingStore.AddAcceptedIff` | pkg/state/mappings.go:76-108 | an add is accepted if and only if its fields and dependencies are in order and, when it validates duplicates and does not overwrite, no stored mapping agrees with it in type, both instances and source identifier; likewise a bulk create |
| `MappingStore.BothAcceptedIff` | pkg/state/mappings.go:501-511 | of two acceptable adds the second is accepted if and only if they differ in one of the four fields |
| `MappingStore.StepKeepsNoTwinsIff` | pkg/state/mappings.go:76-250 | a step leaves no two mappings that agree in the four fields if and only if what it writes agrees with no other mapping |
| `MappingStore.GuardedRunHasNoTwins` | pkg/state/mappings.go:76-403 | no run of adds that validate duplicates and do not overwrite, with updates that leave type and source alone, ever stores two such mappings |
| `MappingStore.GeneratedIdsCollide` | pkg/state/mappings.go:492-498 | concrete run: two different mappings get the same generated identifier; both adds are accepted and the first mapping is lost |
| `MappingStore.AddLosesOnly` | pkg/state/mappings.go:137-142 | an accepted add loses a stored mapping if and only if it is stored under the same identifier and differs |
| `MappingStore.AddReadsBack` | pkg/state/mappings.go:76-152 | what an accepted add or bulk create stores, field by field |
| `MappingStore.UpdateReadsBack` | pkg/state/mappings.go:170-250 | an accepted update reads back: named fields have the new values, everything else is as before |
| `MappingStore.UpdateAcceptedIff` | pkg/state/mappings.go:160-240 | an update is without effect if and only if it names no dependencies and no other entry and every field it names has that value already |
| `MappingStore.CleanupLeaves` | pkg/state/mappings.go:406-427 | the mappings with both identifiers stay as they are and no others |
| `MappingStore.ResolveLeaves` | pkg/state/mappings.go:430-457 | the conflicts left are those to be resolved by hand; other conflicts are pending and nothing else changed |
| `MappingStore.TameRunIsLayered` | pkg/state/mappings.go:90-142 | runs that add fresh identifiers and leave dependencies alone keep the insertion order dependencies-first |
| `MappingStore.TameRunCanBeUndone` | pkg/state/mappings.go:268-287 | after any such run the reverse insertion order empties the store |
| `StateManager.Manager.ValidateMapping` | pkg/state/mappings.go:460-489 | true if and only if the fields are present and every dependency is stored |
| `StateManager.Manager.FindDuplicateMapping` | pkg/state/mappings.go:501-511 | finds a mapping with the same type, both instances and source identifier if and only if there is one, for every iteration order |
| `StateManager.Manager.FindMappingDependencies` | pkg/state/mappings.go:514-527 | lists exactly the mappings that depend on the identifier |
| `StateManager.Manager.AddMapping` | pkg/state/mappings.go:76-152 | accepted if and only if the mapping is in order and, where asked, no stored mapping agrees in the four fields; outcome and new table, with validation before the override of dependencies |
| `StateManager.Manager.UpdateMapping` | pkg/state/mappings.go:155-250 | outcome and new table; a rejected update restores the old mapping |
| `StateManager.Manager.DeleteMapping` | pkg/state/mappings.go:268-287 | outcome and new table; refused while anything depends on the mapping |
| `StateManager.ApplyUpdates` | pkg/state/mappings.go:170-235 | the updated mapping, and whether anything counted as an update |
| `StateManager.Manager.BulkMappingOperations` | pkg/state/mappings.go:376-403 | a bulk call is the run of its single steps, reports each of them in order, its counters count the reports, and its errors count the unknown operations |
| `StateManager.BulkIsARun` | pkg/state/mappings.go:376-403 | the bulk operation is one run of the store, so what runs keep it keeps |
| `StateManager.BulkStatusMeans` | pkg/state/mappings.go:685-715 | every stored mapping of the list has the status, all others are as before, and the reports say which were stored |
| `StateManager.BulkDeleteMeans` | pkg/state/mappings.go:649-683 | nothing but mappings of the list goes and nothing changes; what is reported deleted or skipped is not in the table |
| `StateManager.RefusedHasDependents` | pkg/state/mappings.go:662-675 | a listed mapping is reported neither deleted nor skipped if and only if something depended on it at its turn |
| `StateManager.BulkCreateMeans` | pkg/state/mappings.go:583-642 | each mapping is reported done if and only if it is in order and not taken at its turn, and then stored under the identifier reported |
| `StateManager.Manager.CleanupOrphanedMappings` | pkg/state/mappings.go:406-427 | removes exactly the orphaned mappings, none from a sound table |
| `StateManager.Manager.ResolveConflicts` | pkg/state/mappings.go:430-457 | resets exactly the conflicts that are not to be resolved by hand |
| `Scheduler.ActiveIsBounded` | internal/engine/scheduler.go:262-345 | in every interleaving of loop, trigger handler and trackers at most 2 * MaxConcurrentSyncs entries are active, and at most MaxConcurrentSyncs without triggers |
| `Scheduler.RoundExactly` | internal/engine/scheduler.go:262-297 | one round of the loop in every interleaving: skipped if and only if rounds are to be skipped and something is active at the check, otherwise it starts in order exactly the first jobs that fit below the limit at the count it read; none if and only if nothing is listed, the limit is reached or it is skipped |
| `Scheduler.CompletedAndFailedExactly` | internal/engine/scheduler.go:304-345 | in every interleaving attempts count as completed exactly if the pool accepted them and as failed exactly if it refused them |
| `Scheduler.BoundIsReached` | internal/engine/scheduler.go:284-297 | for every limit some run reaches twice the limit |
| `Scheduler.EveryRunAccounts` | internal/engine/scheduler.go:301-396 | attempts started equal failed plus completed plus outstanding |
| `Scheduler.PileUp` | internal/engine/scheduler.go:304-330 | with a limit of two or more and no skipping, any number of attempts of one job can run under its single active entry |
| `Scheduler.RunningBoundedIff` | internal/engine/scheduler.go:277-297 | the bound on active entries is a bound on running attempts if and only if rounds are skipped while anything runs or the limit is one |
| `WorkerPool.CountersInEveryRun` | internal/engine/worker_pool.go:194-204 | in every interleaving queuedJobs is the channel length plus jobs taken and not yet uncounted minus sends not yet counted, and activeWorkers counts the workers between its two updates |
| `WorkerPool.ChannelIsBounded` | internal/engine/worker_pool.go:175-204 | the channel never holds more than its size, and a submitter is refused if and only if it is full |
| `WorkerPool.WorkersStay` | internal/engine/worker_pool.go:274-293 | a worker ends only after it was told to or after a cancellation, and an idle one can end at any time after that |
| `WorkerPool.EveryJobInOnePlace` | internal/engine/worker_pool.go:274-366 | every sent job is in exactly one of channel, one worker's hands, completed, failed, abandoned; jobs leave the channel in sending order; none is abandoned without a cancellation |
| `WorkerPool.RetriesAreExact` | internal/engine/worker_pool.go:311-347 | a job counts as completed on its first success and as failed only after all MaxRetries + 1 executions failed |
| `WorkerPool.QuiescentCounters` | internal/engine/worker_pool.go:207-228 | with no goroutine between two steps the counters agree with the channel and add up to the jobs submitted |
| `WorkerPool.QueuedJobsGoesBelow` | internal/engine/worker_pool.go:194-198 | for every n some run with at most n submitters at a time brings queuedJobs to -n |
| `WorkerPool.QueuedJobsFloorIff` | internal/engine/worker_pool.go:194-198 | with at most m submitters at a time a number is a floor of queuedJobs in every run if and only if it is at most -m |
| `TokenBucket.Limiter.Refill` | internal/sync/adaptive.go:144-153 | whole tokens earned since the last refill are added up to capacity; less than one leaves the clock alone |
| `TokenBucket.Limiter.TryConsume` | internal/sync/adaptive.go:129-141 | consumes a token if and only if one is left after the refill |
| `TokenBucket.RunKeepsInv` | internal/sync/adaptive.go:119-153 | tokens stay between zero and capacity over every run |
| `TokenBucket.BoundInWindow` | internal/sync/adaptive.go:129-153 | successes in any window are fewer than capacity plus rate times length plus one, whatever came before |
| `TokenBucket.BoundFrom` | internal/sync/adaptive.go:129-153 | from any bucket: at most the tokens it holds plus what the rate earns since its last refill |
| `TokenBucket.BoundSinceCreation` | internal/sync/adaptive.go:119-153 | since creation: at most capacity plus rate times elapsed time |
| `TokenBucket.EarnedBetweenIsRateTimesTime` | internal/sync/adaptive.go:147-149 | the bounds' earning term is rate times elapsed time, zero for a negative rate |
| `TokenBucket.SucceedsExactly` | internal/sync/adaptive.go:129-153 | a call succeeds if and only if a token is left or a whole one was earned since the last refill, despite the fractions dropped |
| `PriorityQueue.BoundedQueue.Enqueue` | internal/sync/adaptive.go:183-212 | refused, inserted, or inserted for an evicted operation of strictly lower priority; sorted and within its size |
| `PriorityQueue.BoundedQueue.Dequeue` | internal/sync/adaptive.go:215-235 | drops the expired and returns the best unexpired operation, if any |
| `PriorityQueue.BoundedQueue.RemoveExpired` | internal/sync/adaptive.go:248-259 | keeps exactly the unexpired, in order |
| `PriorityQueue.EnqueueKeepsInv` | internal/sync/adaptive.go:183-212 | the queue stays sorted and within maxSize; only a full queue evicts |
| `PriorityQueue.LeavesOnly` | internal/sync/adaptive.go:183-259 | an admitted operation leaves only by dequeue, expiry, or eviction by a strictly higher priority, so a critical one is never evicted |
| `PriorityQueue.DequeuesBestAndOldest` | internal/sync/adaptive.go:215-235 | no unexpired operation has a higher priority than the dequeued one, or the same and an earlier creation |
| `QueueProcessor.NextConserves` | internal/sync/adaptive.go:677-711 | every step of submitters, ticks and goroutines keeps each admitted operation in exactly one place |
| `QueueProcessor.GoneIff` | internal/sync/adaptive.go:677-711 | over every behaviour an operation is out of reach if and only if it expired at a tick, was evicted, was cancelled, was refused when it came back, or was denied and then found at or past its deadline |
| `QueueProcessor.DeniedIff` | internal/sync/adaptive.go:695-704 | over every behaviour an operation waits to come back if and only if it was refused a token and its goroutine has not ended since |
| `QueueProcessor.DeniedComesBack` | internal/sync/adaptive.go:697-703 | a denied operation can be queued again at any time before its deadline, and is then in the queue unless a full queue refused it |
| `QueueProcessor.TickHandsBest` | internal/sync/adaptive.go:689-692 | a tick hands over the best and oldest unexpired operation and leaves the others queued in order |
| `QueueProcessor.BehaviourKeepsInv` | internal/sync/adaptive.go:402-440 | every reachable state has a sorted bounded queue, conserved operations and paid executions |
| `QueueProcessor.RunsAtMostOnceAndPaid` | internal/sync/adaptive.go:677-711 | in every interleaving each operation runs at most once, none that expired, was evicted, cancelled or dropped runs, and executions stay within the token bucket's bound since creation |
| `QueueProcessor.WindowIsBounded` | internal/sync/adaptive.go:677-711 | in every window of every interleaving fewer operations run than capacity plus what the rate earns between the window's token requests plus one, and none without a request |
| `PermissionMerge.MergeAccess` | pkg/sync/conflict_resolver.go:464-487 | the first occurrences of both lists, in order |
| `PermissionMerge.IntersectAccess` | pkg/sync/conflict_resolver.go:489-508 | the target's entries that the source has, in order |
| `PermissionMerge.MergePermissionsUnion` | pkg/sync/conflict_resolver.go:371-409 | the merged map's entries in key order, for every iteration order of the map |
| `PermissionMerge.UnionIsUnique` | pkg/sync/conflict_resolver.go:394-408 | the union's output does not depend on the map's iteration order |
| `PermissionMerge.BeforeMeans` | pkg/sync/conflict_resolver.go:394-408 | the sort compares strings by the first place where they differ, a proper prefix first |
| `PermissionMerge.UnionKeepsOrder` | pkg/sync/conflict_resolver.go:380-390 | the accesses listed so far stay in front of those that a further permission of the key brings |
| `PermissionMerge.UnionGrants` | pkg/sync/conflict_resolver.go:371-409 | for all inputs: the target's grants and those of the last source permission under each key |
| `PermissionMerge.UnionIsSetUnionIff` | pkg/sync/conflict_resolver.go:375-379 | union is set union of grants if and only if no source grant is hidden by a later permission of its key without being granted again; in particular for distinct source keys |
| `PermissionMerge.RemergeChangesNothing` | pkg/sync/conflict_resolver.go:371-409 | merging an input into the result again, on either side, changes no grant, with the exact condition for the one exception |
| `PermissionMerge.MergePermissionsIntersection` | pkg/sync/conflict_resolver.go:411-440 | one permission per key whose last permissions share an access |
| `PermissionMerge.IntersectionGrants` | pkg/sync/conflict_resolver.go:411-440 | for all inputs: what the last permissions of the key grant on both sides |
| `PermissionMerge.SharedIsTargetsOrder` | pkg/sync/conflict_resolver.go:489-508 | an intersection lists accesses in the order of the target's last permission |
| `PermissionMerge.IntersectionIsSetIntersectionIff` | pkg/sync/conflict_resolver.go:415-424 | intersection is set intersection of grants if and only if no common grant is hidden; in particular for distinct keys on both sides |
| `PermissionMerge.MergePermissionsSourcePriority` | pkg/sync/conflict_resolver.go:442-462 | the source list followed by the target's permissions under absent keys |
| `PermissionMerge.SourcePriorityGrants` | pkg/sync/conflict_resolver.go:442-462 | the source's grants and the target's under keys the source does not have |
| `PermissionMerge.SourcePriorityIsUnionIff` | pkg/sync/conflict_resolver.go:447-459 | source priority is set union of grants if and only if the source grants all the target grants under shared keys |
| `PermissionMerge.ResolveMergePermissions` | pkg/sync/conflict_resolver.go:555-596 | under each policy, with the validation of the merged permissions: accepted results are merges, and a merge is rejected if and only if the number of keys or permissions it keeps, read off the inputs, is zero, or below both lists when data loss is not allowed |
| `PermissionMerge.UnionRejectedIff` | pkg/sync/conflict_resolver.go:582-596 | the data-loss check: a union is rejected if and only if all keys together are fewer than either list; never when one side's keys are distinct |
| `PermissionMerge.DataLossCheckCountsOnly` | pkg/sync/conflict_resolver.go:582-596 | concrete inputs: a rejected union that loses no grant, and an accepted one that loses a grant |
| `OutcomeWindow.CountBasedWindow.Record` | internal/sync/circuitbreaker.go:150-172 | the ring buffer keeps the last `size` outcomes since the last clear |
| `OutcomeWindow.CountBasedWindow.GetCounts` | internal/sync/circuitbreaker.go:174-192 | the counts are those of the last min(n, size) outcomes since the last clear |
| `OutcomeWindow.CountBasedWindow.GetFailureRate` | internal/sync/circuitbreaker.go:194-203 | failures over total of the same outcomes, zero without any |
| `OutcomeWindow.CountBasedWindow.Clear` | internal/sync/circuitbreaker.go:205-214 | the window forgets everything |
| `OutcomeWindow.CircuitBreaker.CheckTransitionToOpen` | internal/sync/circuitbreaker.go:521-545 | opens if and only if the volume test and the count or rate test hold on the history |
| `OutcomeWindow.CircuitBreaker.Execute` | internal/sync/circuitbreaker.go:355-370 | one request, admitted or not, changes the breaker as `Executed` says |
| `OutcomeWindow.OpensExactly` | internal/sync/circuitbreaker.go:487-545 | a sequence of requests opens a closed breaker exactly at the first failure that finds the test met on the last `size` outcomes |
| `OutcomeWindow.TripsMeans` | internal/sync/circuitbreaker.go:521-545 | the test in terms of the last `size` outcomes: at least the minimum number of them, and failures that reach the threshold or whose share reaches the rate |
| `OutcomeWindow.OpenedCoolsDown` | internal/sync/circuitbreaker.go:411-436 | a request that opens the breaker starts the timeout at its end: nothing that begins earlier than that is admitted, and the first request after it is |
| `OutcomeWindow.ProbeMeans` | internal/sync/circuitbreaker.go:494-512 | a failed probe reopens, the last success needed closes with nothing remembered, any other success is counted |
| `OutcomeWindow.ForgottenStartsOver` | internal/sync/circuitbreaker.go:592-673 | after closing or a reset, fewer requests than the minimum volume never open the breaker |
| `OutcomeWindow.CircuitBreaker.DoReset` | internal/sync/circuitbreaker.go:649-673 | a new generation in the closed state, with the window forgotten |
| `OutcomeWindow.CircuitBreaker.DoForceOpen` | internal/sync/circuitbreaker.go:676-680 | a new generation in the open state, with the window kept |
| `OutcomeWindow.ClosesAgainIff` | internal/sync/circuitbreaker.go:411-436 | with requests one at a time, and short of `Reset`, successes close an open breaker if and only if SuccessThreshold is at most one, forced openings in between or not |
| `OutcomeWindow.StuckUntilForced` | internal/sync/circuitbreaker.go:438-446 | once the half-open counter has wrapped below zero nothing is admitted, and the breaker stays as it is exactly as long as nobody calls `Reset` or `ForceOpen` |
| `SyncLedger.Ledger.StartSync` | pkg/state/progress.go:26-74 | refused while one is in progress; otherwise the new operation is current and old ones leave the history |
| `SyncLedger.Ledger.CleanupSyncHistory` | pkg/state/progress.go:501-521 | keeps exactly the operations younger than the retention period, in order |
| `SyncLedger.Ledger.CompleteSyncForResource` | pkg/state/progress.go:172-198 | the operation's counters and the type's statistics, or nothing for an unknown operation |
| `SyncLedger.Ledger.FailSyncForResource` | pkg/state/progress.go:201-256 | the operation's counters, its error summary and the type's statistics, or nothing |
| `SyncLedger.Ledger.SkipSyncForResource` | pkg/state/progress.go:259-282 | the operation's counters only |
| `SyncLedger.Ledger.CompleteSyncOperation` | pkg/state/progress.go:285-335 | ends the current operation and adds it to the overall statistics |
| `SyncLedger.Ledger.PauseSyncOperation` | pkg/state/progress.go:435-455 | pauses the current operation |
| `SyncLedger.Ledger.ResumeSyncOperation` | pkg/state/progress.go:458-481 | resumes it if it is paused |
| `SyncLedger.Ledger.RecordErrorStatistics` | pkg/state/errors.go:142-143 | recording an error raises the overall error count and nothing else of the ledger |
| `SyncLedger.Ledger.CancelSyncOperation` | pkg/state/progress.go:484-486 | ends the current operation as cancelled |
| `SyncLedger.Ledger.GetSyncHistory` | pkg/state/progress.go:402-432 | a newest-first page of the history, and its length |
| `LedgerProperties.StepKeepsOneLiveIff` | pkg/state/progress.go:285-335 | a step keeps the ledger to one live operation, the current one, if and only if it is not a successful completion with status running or paused |
| `LedgerProperties.AtMostOneLive` | pkg/state/progress.go:26-74 | two live operations of the history are the same one, and it is current |
| `LedgerProperties.CurrentStays` | pkg/state/progress.go:501-521 | the current operation is never cleaned up and ends only by its own completion |
| `LedgerProperties.ThirtyDaysKept` | pkg/state/progress.go:501-521 | a start keeps exactly what began in the last thirty days, to the second |
| `LedgerProperties.ResumeUndoesPause` | pkg/state/progress.go:435-481 | a pause of the running current operation is undone by a resume, and only a paused current operation can be resumed |
| `LedgerProperties.NextKeepsBalanced` | pkg/state/progress.go:524-586 | every operation's counters and error summary, and every type's statistics, count exactly the results accepted for it; Processed is the sum of the three and the summary adds up to Failed |
| `LedgerProperties.NextMatchesTypes` | pkg/state/progress.go:569-586 | synced and failed totals over all types equal the sums over all operations ever started, removed ones included |
| `LedgerProperties.NextMatchesStatistics` | pkg/state/progress.go:589-600 | the overall statistics count the operations that ended, by how they ended |
| `LedgerProperties.StepKeepsTotalsIff` | pkg/state/progress.go:599-600 | a step keeps the overall resource totals equal to the sums over the operations that ended if and only if it neither reports a success or failure late nor records an error outside any operation |
| `LedgerProperties.StepKeepsAccountIff` | pkg/state/progress.go:599-600 | with the errors recorded outside any operation told apart, late reports are the one thing that breaks the totals |
| `LedgerProperties.FinishAsRunningBreaks` | pkg/state/progress.go:285-335 | concrete run: a started operation completed as running is live and not current |
| `LedgerProperties.TotalsBreak` | pkg/state/progress.go:172-198 | concrete run: after an operation ended, a late success and a recorded error each falsify the totals |
| `LedgerProperties.EveryRunBalances` | pkg/state/progress.go:26-335 | all of this in every run from the empty ledger with fresh identifiers and terminal completion statuses |
| `Pagination.GetPage` | pkg/state/errors.go:171-212 | one page of the reversed list; `hasNext` holds if and only if the next page is not empty (the sync history uses the same arithmetic) |
| `Pagination.PagesConcatenate` | pkg/state/errors.go:181-212 | for every page size all pages together are the whole list, newest first, with no gap or repeat |
| `Pagination.PageNonEmptyIff` | pkg/state/errors.go:180-193 | which pages have something on them |
| `Pagination.PagesHoldAllIff` | pkg/state/errors.go:180-193 | when the first n pages hold everything |
| `Pagination.DefaultPage` | pkg/state/errors.go:161-166 | without a page and a size the newest fifty; every page but the last is full |
| `ErrorStore.Store.GetErrors` | pkg/state/errors.go:157-213 | the page of the matching errors, their number, and whether there is a next page |
| `ErrorStore.PagesShowEachErrorOnce` | pkg/state/errors.go:157-213 | for a fixed filter all pages together show the matching errors, newest first, each once |
| `ErrorStore.Store.RecordError` | pkg/state/errors.go:112-143 | appends an unresolved error with no retries behind it and three allowed, which waits if its type may be retried |
| `ErrorStore.Store.ClearErrors` | pkg/state/errors.go:231-258 | removes exactly the resolved errors that are old enough, and counts them |
| `ErrorStore.Store.ResolveError` | pkg/state/errors.go:261-284 | resolves the first error under the identifier; fails exactly when there is none |
| `ErrorStore.Store.RetryError` | pkg/state/errors.go:304-355 | retries the error if it is eligible; it fails exactly when nothing changes |
| `ErrorStore.Store.AutoRetryErrors` | pkg/state/errors.go:435-462 | with distinct identifiers every eligible error is retried exactly once and nothing else changes; the number returned is theirs |
| `ErrorStore.RetriesAreBounded` | pkg/state/errors.go:329-346 | from every store, over every run of recording, resolving, retrying and clearing: the retries under an identifier are at most what its stored errors still allow plus three for each error the run records under it |
| `ErrorStore.BoundIsReached` | pkg/state/errors.go:329-346 | under every configured limit and any backoff, from any reading of a clock that never runs backwards: some run of retries alone, each of them let through, uses up the error's own limit |
| `ErrorStore.ExceededIsRetriedAgainIff` | pkg/state/errors.go:337-344 | after a retry that reaches the configured limit, the next call is let through with no time gone by if and only if the error's own limit is higher |
| `ErrorStore.RetryAcceptedIff` | pkg/state/errors.go:555-573 | a retry is let through if and only if the first error under the identifier is unresolved, of a retryable type, has retries left and need not wait |
| `ErrorStore.RetryWaits` | pkg/state/errors.go:333-346 | below the configured limit the next retry is let through if and only if the backoff's time has come and retries are left |
| `ErrorStore.ResolvedIsNotRetried` | pkg/state/errors.go:261-284 | resolving marks the first error under the identifier, no retry of it is let through afterwards, and no other error changes |
| `ErrorStore.UnresolvedStays` | pkg/state/errors.go:231-258 | over every run an unresolved error stays until somebody resolves it |
| `ErrorStore.ClearsExactly` | pkg/state/errors.go:239-247 | clearing takes the resolved errors up to the cutoff and no others |
| `ErrorStore.LimitIsPassed` | pkg/state/errors.go:337-344 | concrete run: an error as it is recorded, then retried three times under a configured limit of one |
| `Retry.BackoffCalculator.FibonacciNumber` | internal/sync/retry.go:256-275 | agrees with the recursive definition and keeps the cache empty or a growing prefix of 1, 1, 2, 3, 5, ... |
| `Retry.BackoffCalculator.Calculate` | internal/sync/retry.go:227-253 | the delay of each strategy |
| `Retry.BackoffNeverShrinks` | internal/sync/retry.go:227-253 | each strategy waits at least as long before a later retry |
| `Retry.BackoffRecurs` | internal/sync/retry.go:227-253 | the first retry waits the initial delay; then delays double under a multiplier of two, grow by the initial delay, by its odd multiples, by the delay before, or not at all |
| `Retry.ExponentialFactor` | internal/sync/retry.go:238-241 | with any multiplier each delay is the multiplier times the one before, but for the fractions dropped |
| `Retry.JitterCalculator.Calculate` | internal/sync/retry.go:186-219 | the delay of each jitter type, and the delay remembered |
| `Retry.JitterWithin` | internal/sync/retry.go:186-204 | none, full and equal jitter stay between zero and the delay |
| `Retry.JitterSpreads` | internal/sync/retry.go:191-204 | with a factor of one full jitter takes every value below the delay, and equal jitter every value from half the delay up |
| `Retry.JitterLeaves` | internal/sync/retry.go:191-204 | equal jitter leaves half of the delay and full jitter what the factor does not touch |
| `Retry.DecorrelatedWithin` | internal/sync/retry.go:206-214 | decorrelated jitter stays below three times the delay, and below the last delay if that was positive |
| `Retry.DecorrelatedNeverExceedsIff` | internal/sync/retry.go:206-214 | decorrelated jitter never exceeds the computed delay, for every random number, if and only if the last delay is positive and at most one more |
| `Retry.DelayWithin` | internal/sync/retry.go:380-402 | every delay lies between zero and max(MaxDelay, MaxRetryAfter), with three times MaxDelay under decorrelated jitter |
| `Retry.HintMeans` | internal/sync/retry.go:380-402 | a hint decides the delay if and only if hints are respected and it is positive and not too long; otherwise it makes no difference |
| `Retry.Retryer.CalculateDelay` | internal/sync/retry.go:380-402 | retry-after hint, capped backoff, jitter |
| `Retry.Retryer.Execute` | internal/sync/retry.go:299-366 | attempts, waits and result of one call |
| `Retry.ExecuteExactly` | internal/sync/retry.go:306-365 | at most MaxRetries + 1 attempts; the n-th wait is that of attempt n; no error if and only if some attempt succeeds and every one before it failed retryably with no wait or one that was waited out, or MaxRetries is negative and nothing is attempted; the context's error if and only if a wait is cut short |
| `Retry.WaitsAreBounded` | internal/sync/retry.go:336-343 | every wait is bounded and so is their sum |
| `Retry.DecorrelatedShrinks` | internal/sync/retry.go:206-214 | over all calls of one retryer the positive decorrelated waits that are not retry-after hints strictly decrease until one is zero, whatever hints come between |
| `Lifecycle.SortByPriority` | internal/engine/lifecycle_manager.go:527-542 | the in-place bubble sort returns a sorted permutation in either direction |
| `Lifecycle.LifecycleManager.StartDependencies` | internal/engine/lifecycle_manager.go:468-489 | starts a prefix of the priority order, all of it if and only if nothing fails |
| `Lifecycle.LifecycleManager.StopDependencies` | internal/engine/lifecycle_manager.go:491-519 | tries every running dependency in descending order, going on after failures |
| `Lifecycle.LifecycleManager.Start` | internal/engine/lifecycle_manager.go:202-261 | running with everything started, or in error with exactly what was started left running |
| `Lifecycle.LifecycleManager.Stop` | internal/engine/lifecycle_manager.go:264-313 | stopped, whatever the dependencies answered |
| `Lifecycle.FailedStartLeavesPrefix` | internal/engine/lifecycle_manager.go:472-485 | a failed start leaves everything of lower priority number than the failed dependency running, and nothing of higher |
| `Lifecycle.StartedExactly` | internal/engine/lifecycle_manager.go:468-489 | a start succeeds if and only if every dependency starts and runs; otherwise it stops at the first in order that does not |
| `Lifecycle.StopUndoesFailedStart` | internal/engine/lifecycle_manager.go:496-511 | stopping after a failed start tries exactly what was started |
| `Lifecycle.StopTriesAllRunning` | internal/engine/lifecycle_manager.go:496-511 | exactly the running dependencies are tried, in descending priority |
| `Lifecycle.StopReversesStart` | internal/engine/lifecycle_manager.go:521-545 | what starts earlier for its priority stops later |

## Left out

- HTTP, gRPC, TLS, metrics, tracing, logging, file watching, configuration loading, saving and backups: I/O or libraries.
- Timestamps and metadata of mappings, `QueryMappings` filters and `processBulkUpdate`, which is empty.
- `UpdateSyncProgress`, which sets counters to arbitrary values, and moving averages and percentages of the statistics.
- The concurrent half-open path of internal/sync/circuitbreaker.go: `OutcomeWindow` runs requests one after another; the overlapping case is proved on the client's breaker.
- A sliding window of size zero, which panics on its first result: sizes are positive in `OutcomeWindow`.
- `TimeBasedWindow`: its first buckets have a zero timestamp and are not counted, so it has no clean window.
- The data race in the client breaker's `State()`, which moves the breaker under a read lock: each call is one step here.
- Calling the two-step breaker's `done` function twice: a result consumes its token here.
- `BatchSaga`: idempotency keys are recorded and then ignored by the code, so they are not modelled, and neither are checkpoints' contents, recovery of incomplete operations and compensation timeouts.
- BatchSaga.RecoveryManager.RunAll: each goroutine's one update of the log, made when it finishes, is one step, and the goroutines may finish in any order; the limit on parallelism only excludes some of these orders.
- BatchSaga.RecoveryManager.ExecuteBatchOperations: the caller's error text and the results of the handlers are left out, and so are checkpoints that handlers save while they run.
- BatchSaga.RecoveryManager.TryRepeatedly: the attempt loop is a method of its own here; in the source it stands inside the caller.
- `WorkerPool`: rate limiting before a send, the closing of the channels after a stop and the result queue; a refused submission changes nothing.
- `Scheduler`: `Start`, `Stop`, run times and intervals; which jobs are due is an arbitrary list of distinct names.
- `PriorityQueue.Sort` and `PermissionMerge.SortedEntries`: stand for the library's sort; callers use only that the result is a sorted permutation.
- PermissionMerge.MergePermissionsIntersection: its order is the map's iteration order, so only grants and keys are specified.
- `Lifecycle`: hooks other than the pre-start ones, monitoring and recovery; maintenance mode only changes the state.
- Error classification by substring, string formatting, validation lists, recommendations and reports: one-branch claims.
- `pkg/sync/group_batch_processor.go`, `pkg/client/errors.go`, `pkg/client/retry.go`: easier versions of what is modelled.
