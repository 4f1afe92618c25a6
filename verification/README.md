# Durable job queue: a verified model

This project models the durable in-process job queue of `packages/queue`: the queue core, the
worker pump that drains it, the recovery rules for failed deliveries, the row stores it persists
to, and the structures underneath. Check it with `dafny verify dfyconfig.toml`.

What is modelled, from the bottom up:

- `MinHeap.dfy`, `FifoSlots.dfy`, `AvailableFifo.dfy`, `IdCounter.dfy`, `WriteChain.dfy`: the binary
  heap, the head-index FIFO with lazily created metadata arrays, row id allocation, the serialising
  chain. `Options.dfy`, `Sequences.dfy`, `Records.dfy`, `PendingRows.dfy` hold what several files share.
- `RowStoreSpec.dfy`, `MemoryRowStore.dfy`, `RowViews.dfy`, `WebState.dfy`, `WebRowStore.dfy`,
  `StoreEquivalence.dfy`: the memory store, and the generation/manifest protocol over a key/value
  storage whose writes and removals may fail. What a storage says is a view: the ids it lists, and
  the rows it has for them. The class keeps the ghost history of all storages it went through, so
  that its contracts speak of every crash point.
- `QueueModel.dfy`, `QueueSteps.dfy`, `DurableMachine.dfy`: queue memory and store as values, each
  operation split into check, store write and memory update, and the state machine over those
  steps with waiting calls, store failures, timers, `clear` and `replaceAll`, crashes and `hydrate`.
- `Durability.dfy`, `CrashRecovery.dfy`, `LeaseFencing.dfy`, `Conservation.dfy`, `UniqueJobs.dfy`:
  what every careful run keeps, and what follows from it. `ResetHazard.dfy`: a run that is not.
- `Hydration.dfy`, `QueueParts.dfy`, `JobQueue.dfy`: the queue object with its FIFO, two heaps, lease
  table, timers and store; each method is proved against the new memory and store it leaves.
- `QueueRuns.dfy`, `QueueCalls.dfy`, `QueueSimulation.dfy`, `QueueProcess.dfy`: every call leaves the
  queue object where some actions of the state machine lead, so that any sequence of calls, timers,
  crashes and restarts of the object is a run of the machine.
- `DelayedRows.dfy`, `QueueDelays.dfy`: delayed rows wait for their time, in every run of the machine
  and of the queue object.
- `WorkerPump.dfy`, `FailureRecovery.dfy`, `Backoff.dfy`, `HopMeta.dfy`: the pump, the delivery
  bound, retry delays, loop hop counts.
- `JobPages.dfy`: paging through jobs.

Time is a monotone real-valued clock. Payloads are abstract. A store call either takes effect or
fails without effect. The queue object counts the store calls that failed; over a reliable store none
does. A call answers a store failure exactly when one of its own store calls failed. Timers are steps
that may happen at any moment.

Places where the code is weaker than one might expect are stated as exact conditions:

- A row pushed with an attempt below 1 (which `reschedule` accepts) unbalances the FIFO's retry
  counter. `AvailableFifos.PushIsSafeIff`: a push is safe for all later operations exactly when
  its attempt is at least 1. The same bound decides whether a row survives the store
  (`QueueModel.RecordRoundTrip`).
- `clear` and `replaceAll` reset the id counter although an `enqueue` that was called before may still
  wait with its id. `Durability.StepKeepsIff`: the invariant survives a step exactly when the step is
  careful, that is, no reset takes effect while an enqueue waits, and no reschedule with an attempt
  below 1 begins. `ResetHazards.ClearReusesId` reaches two live rows under one id, of which the store
  keeps one.
- A reschedule that changes the application id of its row leaves the unique-job index stale:
  `UniqueJobs.RescheduleKeepsIndexIff`.
- The Web store drops ids below 1 and above the largest safe integer when it reads its manifest, the
  memory store keeps them. `StoreEquivalence.StoresAgreeIff`: the two load the same rows throughout
  exactly when every id written lies in that range; `StoreEquivalence.RowZeroIsLost` shows id 0.
- A legacy order that names a missing row gains that row on migration if a stray generation-1 row
  exists (`StoreEquivalence.MigrationKeepsRowsIff`, and `StoreEquivalence.MigrationCanRevive` for
  such a storage).
- Ready rows that `replaceAll` adds without an event wait for a later one unless the pump is about to
  claim (`WorkerPumps.SilentRowsArePickedUpIff`).
- A `start` between the failure of an awaited claim and the pump's reaction to it is undone by that
  reaction (`WorkerPumps.StartClaims`).
- Two jobs that share a whole stable key lose a row at a page boundary
  (`JobPages.StablePagesTileIff`).

## Model

| member | source | states |
|---|---|---|
| MinHeaps.RootIsLeast | packages/queue/src/queue/core/min-heap.util.ts:31-39 | heap order at every index makes the root's key a minimum |
| MinHeaps.SwapMovesHoleUp | packages/queue/src/queue/core/min-heap.util.ts:31-39 | one sift-up swap leaves only the parent's position out of order |
| MinHeaps.SwapMovesHoleDown | packages/queue/src/queue/core/min-heap.util.ts:41-58 | one sift-down swap with the smaller child leaves only the child's position out of order |
| MinHeaps.MinHeap.SiftUp | packages/queue/src/queue/core/min-heap.util.ts:31-39 | restores heap order, keeps the multiset of values, terminates |
| MinHeaps.MinHeap.SiftDown | packages/queue/src/queue/core/min-heap.util.ts:41-58 | restores heap order from a given index on, keeps the multiset of values, terminates |
| MinHeaps.MinHeap.Push | packages/queue/src/queue/core/min-heap.util.ts:60-63 | a heap with exactly one more value |
| MinHeaps.MinHeap.Peek | packages/queue/src/queue/core/min-heap.util.ts:76 | a value of minimum key, absent exactly on the empty heap |
| MinHeaps.MinHeap.Pop | packages/queue/src/queue/core/min-heap.util.ts:65-74 | takes out one value of minimum key and keeps the rest in heap order |
| MinHeaps.MinHeap.Remove | packages/queue/src/queue/core/min-heap.util.ts:85-102 | takes out one occurrence of the value wherever it is, and says whether it was there |
| MinHeaps.MinHeap.Rebuild | packages/queue/src/queue/core/min-heap.util.ts:104-111 | any list of values becomes a heap of exactly those values |
| AvailableFifos.MetadataPresence | packages/queue/src/queue/core/queue.ts:283-297 | a metadata array exists exactly while some live row holds a non-default value, and is then aligned with the items |
| AvailableFifos.AppendedRows | packages/queue/src/queue/core/queue.ts:516-552 | a push appends one row with its id, attempt and handoff |
| AvailableFifos.ConsumedIsValid | packages/queue/src/queue/core/queue.ts:487-514 | a pop removes the head row; the exact condition under which the arrays stay valid |
| AvailableFifos.RemovedAtIsValid | packages/queue/src/queue/core/queue.ts:589-612 | a removal deletes one position; the exact condition under which the arrays stay valid |
| AvailableFifos.StepRefines | packages/queue/src/queue/core/queue.ts:431-612 | each operation on the arrays is the operation on the plain row sequence |
| AvailableFifos.RunRefines | packages/queue/src/queue/core/queue.ts:431-612 | over any run with attempts of at least 1 the arrays mean the plain row sequence |
| AvailableFifos.PushIsSafeIff | packages/queue/src/queue/core/queue.ts:516-552 | a push is safe for every later run if and only if its attempt is at least 1 |
| AvailableFifos.DrainingMisaligns | packages/queue/src/queue/core/queue.ts:454-514 | once an attempt below 1 was pushed, draining the queue leaves a retry array without slots |
| AvailableFifos.CompactionIsAmortised | packages/queue/src/queue/core/queue.ts:454-526 | over any run of push, pop and remove, whatever the attempts: total slots copied plus the head index never exceed the pops, dead slots stay below max(1024, live slots), and the test in push never fires |
| AvailableFifos.AvailableFifo.Push | packages/queue/src/queue/core/queue.ts:516-552 | contents grow by one row at the tail whatever its attempt; the FIFO stays valid for reading and removing when the attempt is at least 1 |
| AvailableFifos.AvailableFifo.Pop | packages/queue/src/queue/core/queue.ts:554-576 | returns and removes the head row, or none exactly when empty |
| AvailableFifos.AvailableFifo.RemoveAt | packages/queue/src/queue/core/queue.ts:589-612 | deletes one live slot; other indices change nothing |
| AvailableFifos.AvailableFifo.CompactAvailable | packages/queue/src/queue/core/queue.ts:454-485 | equals the compaction of the slot arrays |
| IdCounters.IssuedIdIsNew | packages/queue/src/queue/core/id-counter.util.ts:20-41 | without a reset in between an issued id exceeds every id issued or fixed up before |
| IdCounters.WarnsAtMostOnce | packages/queue/src/queue/core/id-counter.util.ts:43-49 | the low-water warning is reported at most once between resets |
| IdCounters.WarnsIff | packages/queue/src/queue/core/id-counter.util.ts:43-49 | a check warns exactly when at most a million ids are left and no check since the last reset has warned |
| IdCounters.IdCounter.Next | packages/queue/src/queue/core/id-counter.util.ts:26-32 | hands out the next id, or none at the ceiling |
| IdCounters.IdCounter.ConsumeLowWaterWarning | packages/queue/src/queue/core/id-counter.util.ts:43-49 | reports exactly when the remaining ids first reach the low-water mark |
| WriteChains.EveryRunIsSerial | packages/queue/src/persist/write-chain.util.ts:14-21 | chaining on the predecessor alone makes operations start in push order, one at a time, failures included |
| WriteChains.AtMostOneRuns | packages/queue/src/persist/write-chain.util.ts:14-21 | no two operations run together, and all earlier ones have settled |
| WriteChains.FlushDrains | packages/queue/src/persist/write-chain.util.ts:23 | when the promise seen by a flush has settled, so has everything pushed before it |
| WriteChains.SomeoneCanMove | packages/queue/src/persist/write-chain.util.ts:14-21 | while an operation is unsettled, one is running or may start |
| WriteChains.ChainDrains | packages/queue/src/persist/write-chain.util.ts:14-21 | from any serial chain a continuation starts and settles every operation and leaves the settled ones as they were |
| MemoryRowStores.MemoryRowStore.Put | packages/queue/src/persist/stores/memory.ts:33-35 | upserts one row, keeping insertion order |
| MemoryRowStores.MemoryRowStore.Remove | packages/queue/src/persist/stores/memory.ts:37-39 | deletes one row, keeping the order of the others |
| MemoryRowStores.MemoryRowStore.PutBatch | packages/queue/src/persist/stores/memory.ts:58-60 | upserts rows one after the other |
| MemoryRowStores.MemoryRowStore.ReplaceAll | packages/queue/src/persist/stores/memory.ts:64-69 | contents become the given rows, duplicates resolved to the last version at the first place |
| WebStates.ValidIsProper | packages/queue/src/persist/stores/web-storage.ts:131-146 | what a storage says is a list of distinct safe ids and rows under their own ids, before and after migration |
| RowViews.PutRows | packages/queue/src/persist/stores/web-storage.ts:283-292 | where no listed id lacks its row, listing an id and writing its row is an upsert of the loaded rows |
| RowViews.DroppedRows | packages/queue/src/persist/stores/web-storage.ts:294-314 | unlisting ids deletes their rows from the load, also when other listed ids lack a row |
| WebStates.UnreachableWrite | packages/queue/src/persist/stores/web-storage.ts:215-241 | a row written under a key that no load reaches is invisible to a load |
| WebStates.PublishedView | packages/queue/src/persist/stores/web-storage.ts:131-153 | one manifest write switches a load to the rows staged under the published ids, without ids that reading drops |
| WebRowStores.WebRowStore.EnsureActiveState | packages/queue/src/persist/stores/web-storage.ts:199-213 | legacy migration, listed ids without a row included: the old state or the migrated one at every crash point, the latter on success; no listed id loses its row |
| WebRowStores.WebRowStore.CleanupOrphanGenerations | packages/queue/src/persist/stores/web-storage.ts:178-197 | whatever removals fail, a load still shows the same rows; where storage calls work and keys can be listed, no row of another generation is left (so after `loadAll`, `put`, `clear` and `replaceAll` too) |
| WebRowStores.WebRowStore.Put | packages/queue/src/persist/stores/web-storage.ts:283-292 | at every crash point the old state, the migrated one, or that with the row put; the last on success, where an unsafe id lists nothing; no id is listed without its row unless one was before |
| WebRowStores.WebRowStore.Remove | packages/queue/src/persist/stores/web-storage.ts:294-314 | the same for one removal, also when the row deletion after the manifest write fails |
| WebRowStores.WebRowStore.Clear | packages/queue/src/persist/stores/web-storage.ts:329-334 | the old state, the migrated one or nothing at every crash point; nothing on success; no listed id loses its row |
| WebRowStores.WebRowStore.RemoveBatch | packages/queue/src/persist/stores/web-storage.ts:352-373 | the old state, the migrated one, or all of the batch removed at every crash point; no listed id loses its row |
| WebRowStores.WebRowStore.ReplaceAll | packages/queue/src/persist/stores/web-storage.ts:374-392 | the old state or the whole new list at every crash point, ids that reading drops left out; no listed id lacks its row |
| WebRowStores.WebRowStore.PutBatch | packages/queue/src/persist/stores/web-storage.ts:335-351 | new ids appear all together or not at all, none without its row; each old row is its old version or one of the batch |
| WebRowStores.WebRowStore.LoadAll | packages/queue/src/persist/stores/web-storage.ts:317-326 | returns the rows found for the listed ids, in order, skipping missing ones, and its own cleanup hides none |
| StoreEquivalence.WebMatchesMemory | packages/queue/src/persist/stores/web-storage.ts:54-392 | from empty storage, after any fault-free operations, the Web store loads the memory store's rows in the same order without those of unsafe ids |
| StoreEquivalence.StoresAgreeIff | packages/queue/src/persist/stores/web-storage.ts:54-66 | the two stores load the same rows after each of the operations if and only if every id written is a positive safe integer |
| StoreEquivalence.RowZeroIsLost | packages/queue/src/persist/stores/web-storage.ts:54-66 | a row put under id 0 is loaded by the memory store and by no reload of the Web storage |
| StoreEquivalence.MigrationKeepsRowsIff | packages/queue/src/persist/stores/web-storage.ts:199-213 | the migration that the store performs keeps the loaded rows exactly when no listed id without a legacy row has a stray generation-1 row |
| StoreEquivalence.MigrationCanRevive | packages/queue/src/persist/stores/web-storage.ts:199-213 | a storage whose load is empty before migration and has a row after it |
| StoreEquivalence.SweepSelectsOtherGenerations | packages/queue/src/persist/stores/web-storage.ts:178-197 | the string-prefix tests delete exactly the row keys of other generations |
| StoreEquivalence.TextIsInjective | packages/queue/src/persist/stores/web-storage.ts:96-100 | distinct logical keys have distinct key texts |
| StoreEquivalence.DecimalIsInjective | packages/queue/src/persist/stores/web-storage.ts:96-100 | distinct numbers have distinct decimal texts |
| QueueModel.RecordRoundTrip | packages/queue/src/queue/core/queue.ts:640-659 | a row reads back from its record unchanged if and only if its attempt is at least 1 |
| QueueSteps.AppliedIsConsistent | packages/queue/src/queue/core/queue.ts:878-1215 | store write plus memory update keep memory, store and logical contents in agreement, with exactly the operation's own effect on the contents |
| QueueSteps.ReturnedIsConsistent | packages/queue/src/queue/core/queue.ts:1144-1215 | a lease that ends in a reschedule or release leaves the row once, ready or delayed |
| QueueSteps.ClaimedIsConsistent | packages/queue/src/queue/core/queue.ts:878-935 | a claimed row moves from ready to leased under a fresh generation |
| Durability.StepKeepsIff | packages/queue/src/queue/core/queue.ts:878-1365 | every step, failing or not, reset, crash and recovery included, keeps the invariant if and only if no reset takes effect while an enqueue waits with its id and no reschedule begins with an attempt below 1 |
| Durability.ResetStrandsWaiting | packages/queue/src/queue/core/queue.ts:1281-1365 | after a reset every waiting id is unused and handed out exactly when no enqueue waits |
| Durability.EveryRunKeeps | packages/queue/src/queue/core/queue.ts:878-1365 | each live id is in exactly one place, ids are below the counter, memory, store and contents agree throughout every careful run, across resets, crashes and restarts |
| ResetHazards.ClearReusesId | packages/queue/src/queue/core/queue.ts:937-1005 | a run in which a clear takes effect between an enqueue's id allocation and its turn: two live rows share id 1 and the store holds one of them |
| Durability.StoreIsBeforeOrAfter | packages/queue/src/queue/core/queue.ts:878-1215 | at every moment the store is that of the contents before or after the operation in progress |
| Durability.PromotedIsConsistent | packages/queue/src/queue/core/queue.ts:689-711 | promotion needs no store write: the agreement holds before and after |
| Durability.HydratedReady | packages/queue/src/queue/core/queue.ts:1939-1990 | after hydrate the ready rows are exactly the once-leased and due rows, by ascending id |
| CrashRecovery.CrashRecoveryIsExact | packages/queue/src/queue/core/queue.ts:1899-2006 | after any careful run and a crash at any step hydrate yields exactly the accepted and not removed rows, with item, id, attempt and handoff, leased ones ready again |
| CrashRecovery.OnlyInflightRowDiffers | packages/queue/src/queue/core/queue.ts:878-1365 | what survives differs from the acknowledged contents at most in the row of the one operation in progress; under a reset in progress it is all of the old contents or all of the new |
| CrashRecovery.CrashInHydrateIsHarmless | packages/queue/src/queue/core/queue.ts:1945-1976 | a crash between any two writes of hydrate changes neither the contents nor what a later hydrate rebuilds |
| CrashRecovery.HydrateCompletes | packages/queue/src/queue/core/queue.ts:1945-1995 | a recovery that nothing disturbs, write by write, ends with the memory that the stored rows and the clock determine |
| DelayedRuns.StepKeepsDelayed | packages/queue/src/queue/core/queue.ts:689-711 | before its time only a cancel or move of a delayed row, or a reset, can end its delay |
| DelayedRuns.DelayedUntilDue | packages/queue/src/queue/core/queue.ts:689-711 | in every careful run, crashes and recoveries included, a delayed row that is not cancelled or moved stays delayed until the clock reaches its time |
| DelayedRows.DelayedIsNotTaken | packages/queue/src/queue/core/queue.ts:878-935 | meanwhile it is neither ready nor leased, and no claim or dequeue in progress holds it |
| DelayedRuns.EnqueuedIsDelayed | packages/queue/src/queue/core/queue.ts:985 | an accepted enqueue with a delay is kept as delayed until call time plus delay |
| LeaseFencing.GenerationSettlesOnce | packages/queue/src/queue/core/queue.ts:759-805 | in any run, between restarts and resets, at most one ack, release, reschedule or reclaim takes effect per generation |
| LeaseFencing.SettledTokenIsRefused | packages/queue/src/queue/core/queue.ts:867-875 | once a lease settled, ack, release, extend and reschedule with its token change nothing for the rest of the stretch, not even a reschedule that already waited |
| LeaseFencing.DeadTokenChangesNothing | packages/queue/src/queue/core/queue.ts:867-875 | a dead token has no effect on memory, store or the operation in progress |
| LeaseFencing.ClaimsTakeNewGenerations | packages/queue/src/queue/core/queue.ts:319-324 | every claim takes a generation above all handed out before |
| Conservation.SizeIsConserved | packages/queue/src/queue/core/queue.ts:878-1365 | in every careful run size equals accepted minus removed rows since the last reset, every live id is in exactly one place and below the counter |
| Conservation.NoStepExceedsMaxSize | packages/queue/src/queue/core/queue.ts:422-429 | no step, `replaceAll` included, takes the occupied size above maxSize |
| Conservation.NeverAboveMaxSize | packages/queue/src/queue/core/queue.ts:422-429 | a queue that starts empty never exceeds maxSize in a careful run without restart, resets included |
| UniqueJobs.LookupIsScanIff | packages/queue/src/queue/core/queue.ts:1444-1521 | lookup through the index and the row views equals the scan of FIFO, heap and lease table for every application id if and only if the index shows the rows in memory as they are |
| UniqueJobs.RescheduleKeepsIndexIff | packages/queue/src/queue/core/queue.ts:1144-1215 | a reschedule keeps the index right exactly when it keeps the application id |
| UniqueJobs.EveryRunKeepsIndex | packages/queue/src/queue/core/queue.ts:355-384 | in every careful run whose reschedules keep application ids, resets included, the index maps an id to a row exactly when that live row carries it |
| UniqueJobs.TakenIff | packages/queue/src/queue/core/queue.ts:358-372 | with a right index, an application id is refused exactly when some accepted row that is still there carries it |
| UniqueJobs.PlannedIndexAgrees | packages/queue/src/queue/core/queue.ts:1310-1365 | what `replaceAll` indexes is right when no application id is repeated |
| UniqueJobs.IndexedLookupIsExact | packages/queue/src/queue/core/queue.ts:1444-1521 | no two live rows share an application id, and indexed lookup equals the scan of memory, in every such state, operations in progress included |
| Hydrations.AcceptedIff | packages/queue/src/queue/core/queue.ts:1914-1937 | the record-by-record check accepts exactly the loads with safe, distinct row ids and, where asked, distinct application ids |
| Hydrations.Validate | packages/queue/src/queue/core/queue.ts:1914-1937 | the first offending record decides the error; otherwise the greatest id is returned |
| Hydrations.SortedReadyIsHydrated | packages/queue/src/queue/core/queue.ts:1945-1990 | split and sort of the loaded rows give the recovered FIFO, whatever order they were loaded in |
| Hydrations.RecoveredIs | packages/queue/src/queue/core/queue.ts:1939-2006 | memory and index built from the rows as loaded, in whatever order, are those the store determines |
| Hydrations.DelayedByIdIsHydrated | packages/queue/src/queue/core/queue.ts:1961-1994 | the rows kept delayed are exactly the unleased rows not yet due |
| Hydrations.ClearedStoreKeepsLedger | packages/queue/src/queue/core/queue.ts:1948-1960 | writing leased rows back without their lease changes no row's contents |
| Hydrations.IndexOfAllRows | packages/queue/src/queue/core/queue.ts:1982-1994 | indexing rows one by one rebuilds the whole index, in any order |
| JobQueues.JobQueue.constructor | packages/queue/src/queue/core/queue.ts:281-323 | an empty valid queue |
| JobQueues.JobQueue.StorePut | packages/queue/src/queue/core/queue.ts:878-1215 | a store call takes effect or fails without effect and is counted as failed; over a reliable store none fails, so that every call that answers a store failure has met one |
| JobQueues.JobQueue.ArmDelayTimer | packages/queue/src/queue/core/queue.ts:661-687 | armed exactly when delayed rows exist, for the least availableAt |
| JobQueues.JobQueue.PromoteDueDelayed | packages/queue/src/queue/core/queue.ts:689-711 | exactly the due rows move to the FIFO tail in nondecreasing time order, and the timer is armed for the rest |
| JobQueues.JobQueue.ArmLeaseTimer | packages/queue/src/queue/core/queue.ts:713-756 | armed for the least live deadline, or not at all when there is none; at most 2 * leased + 64 heap entries remain and every live deadline keeps its entry |
| JobQueues.JobQueue.ReclaimExpiredCore | packages/queue/src/queue/core/queue.ts:807-835 | ends leases in deadline order, each row back in the FIFO and unleased in the store; it succeeds exactly when none of its store calls failed, and then every expired lease has ended |
| JobQueues.JobQueue.LeaseTimerFires | packages/queue/src/queue/core/queue.ts:837-840 | a firing timer ends all expired leases unless one of its store calls failed, and is armed again for the least deadline left in any case |
| JobQueues.JobQueue.Claim | packages/queue/src/queue/core/queue.ts:878-935 | promotion, reclaim, then the head leased under the next generation until the configured time to live is over, and that lease handed out; a store failure is answered exactly when a store call failed, and puts the head at the tail |
| JobQueues.JobQueue.Enqueue | packages/queue/src/queue/core/queue.ts:937-1005 | each rejection in its order with nothing but the id spent, a store failure exactly when the store call failed; otherwise one new row in memory, store and index: with a delay it is delayed until call time plus delay in both, without one it is at the FIFO tail |
| JobQueues.JobQueue.Ack | packages/queue/src/queue/core/queue.ts:1018-1040 | removes the lease, row and index entry exactly for a current token, else changes nothing |
| JobQueues.JobQueue.ExtendLease | packages/queue/src/queue/core/queue.ts:1042-1098 | moves the deadline of a current lease in memory and store by the requested time to live or else the queue's own; else changes nothing |
| JobQueues.JobQueue.ExtendMeans | packages/queue/src/queue/core/queue.ts:1042-1098 | which options are refused, which tokens mismatch, and that a lease extended runs until call time plus the requested time to live or else the queue's own |
| JobQueues.SafeIntegersAre | packages/queue/src/queue/core/queue.ts:1042-1098 | the option check accepts exactly the whole numbers from -(2^53 - 1) to 2^53 - 1 |
| JobQueues.JobQueue.Release | packages/queue/src/queue/core/queue.ts:1100-1142 | the row of a current lease goes to the FIFO tail, else nothing changes |
| JobQueues.JobQueue.Reschedule | packages/queue/src/queue/core/queue.ts:1144-1215 | the row comes back with the given item and with the given attempt and handoff or else those of the token, delayed until call time plus delay or at the FIFO tail, in memory and store, whatever the attempt; else nothing changes; the queue stays fit for every call exactly when the attempt is at least 1 |
| JobQueues.JobQueue.TryDequeue | packages/queue/src/queue/core/queue.ts:1217-1247 | takes the head for good, or puts it at the tail when the store fails |
| JobQueues.JobQueue.Locate | packages/queue/src/queue/core/queue.ts:1689-1717 | the first ready row with the application id, else a delayed one, missing only when no pending row carries it |
| JobQueues.JobQueue.FoundIsPending | packages/queue/src/queue/core/queue.ts:1689-1726 | the slot that was located is the position of that row id, so removing the slot removes the row |
| JobQueues.JobQueue.CancelJob | packages/queue/src/queue/core/queue.ts:1728-1746 | removes the located row from memory, store and index |
| JobQueues.JobQueue.RescheduleJob | packages/queue/src/queue/core/queue.ts:1748-1803 | the located row, metadata kept, is delayed until call time plus delay or goes to the FIFO tail, in memory and store |
| JobQueues.JobQueue.PromoteJob | packages/queue/src/queue/core/queue.ts:1805-1838 | moves a delayed row to the FIFO tail; a ready or unknown job is refused |
| JobQueues.JobQueue.Clear | packages/queue/src/queue/core/queue.ts:1281-1308 | memory, store, index, timers, ids and generations as in a new queue, or nothing changes |
| JobQueues.JobQueue.ReplaceAll | packages/queue/src/queue/core/queue.ts:1310-1365 | refused for its length, a repeated application id or a lease, in this order, changing nothing; otherwise exactly the items are ready under ids from 1, in memory, store and index |
| JobQueues.JobQueue.HasRepeats | packages/queue/src/queue/core/queue.ts:1324-1337 | the set built on the way finds a repeat exactly when two items share an application id |
| JobQueues.JobQueue.Hydrate | packages/queue/src/queue/core/queue.ts:1899-2006 | memory becomes what was read, for attempts of at least 1 what the store determines, index included; refused loads change nothing, each error code for its cause; a store failure leaves memory alone |
| QueueParts.LeavingOne | packages/queue/src/queue/core/queue.ts:689-711 | one more promoted row keeps the time order |
| QueueParts.NoneDue | packages/queue/src/queue/core/queue.ts:807-835 | with no due heap entry left, lazily deleted entries included, no expired lease is left |
| QueueParts.ReplacedIsSoundIff | packages/queue/src/queue/core/queue.ts:1144-1215 | putting a leased row back keeps what every call needs exactly when its attempt is at least 1 |
| QueueParts.SplicedIsWithout | packages/queue/src/queue/core/queue.ts:589-612 | deleting a slot of the FIFO deletes the row with its id |
| QueueParts.AddedArrives | packages/queue/src/queue/core/queue.ts:985 | a row added under its due time stands in memory and store where call time and delay put it |
| QueueParts.PlannedIs | packages/queue/src/queue/core/queue.ts:1340-1362 | `replaceAll` numbers its items from 1 as fresh ready rows |
| QueueRuns.BegunLands | packages/queue/src/queue/core/queue.ts:878-1247 | an operation that began lands on its whole effect when its store call works, and on none of it when that fails |
| QueueRuns.ReclaimGoes | packages/queue/src/queue/core/queue.ts:759-835 | a whole reclaim is one chained operation per expired lease |
| QueueRuns.RescheduleIsSafeIff | packages/queue/src/queue/core/queue.ts:1144-1215 | the call and the turn of a reschedule are careful exactly when the attempt is at least 1, and keep the application id exactly when the new item does |
| QueueRuns.RescheduleLeads | packages/queue/src/queue/core/queue.ts:1163-1215 | the row comes back under the due time that the call fixed, whatever its attempt |
| QueueRuns.HydrateLeads | packages/queue/src/queue/core/queue.ts:1899-2006 | a whole recovery of the state machine ends in what `Hydrate` promises |
| QueueRuns.FailedHydrateLeads | packages/queue/src/queue/core/queue.ts:1945-1976 | a recovery that fails after any row leaves the store with the leases of the rows before it cleared |
| QueueSimulation.PromoteFollows | packages/queue/src/queue/core/queue.ts:689-711 | whatever the firing delay timer does to a queue is where actions of the state machine lead |
| QueueSimulation.LeaseTimerFollows | packages/queue/src/queue/core/queue.ts:837-840 | the same for the lease timer, store failures included |
| QueueSimulation.AckFollows | packages/queue/src/queue/core/queue.ts:1018-1040 | the same for `Ack`, with every outcome |
| QueueSimulation.ReleaseFollows | packages/queue/src/queue/core/queue.ts:1100-1142 | the same for `Release` |
| QueueSimulation.ExtendFollows | packages/queue/src/queue/core/queue.ts:1042-1098 | the same for `ExtendLease` |
| QueueSimulation.RescheduleFollows | packages/queue/src/queue/core/queue.ts:1144-1215 | the same for `Reschedule`, whatever the attempt; the queue stays fit for every call exactly when the actions are careful |
| QueueSimulation.ClearFollows | packages/queue/src/queue/core/queue.ts:1281-1308 | the same for `Clear` |
| QueueSimulation.ReplaceFollows | packages/queue/src/queue/core/queue.ts:1310-1365 | the same for `ReplaceAll`, refusals included |
| QueueSimulation.EnqueueFollows | packages/queue/src/queue/core/queue.ts:937-1005 | the same for `Enqueue`, refusals and spent ids included |
| QueueSimulation.ClaimFollows | packages/queue/src/queue/core/queue.ts:878-935 | the same for `Claim`: promotion, reclaim, then the head |
| QueueSimulation.DequeueFollows | packages/queue/src/queue/core/queue.ts:1217-1247 | the same for `TryDequeue` |
| QueueSimulation.CancelFollows | packages/queue/src/queue/core/queue.ts:1728-1746 | the same for `CancelJob` |
| QueueSimulation.RescheduleJobFollows | packages/queue/src/queue/core/queue.ts:1748-1803 | the same for `RescheduleJob` |
| QueueSimulation.PromoteJobFollows | packages/queue/src/queue/core/queue.ts:1805-1838 | the same for `PromoteJob` |
| QueueProcesses.HydrateFollows | packages/queue/src/queue/core/queue.ts:1899-2006 | `hydrate` on a queue in use is a crash and a recovery of the state machine, or changes nothing |
| QueueProcesses.RestartFollows | packages/queue/src/queue/core/queue.ts:1899-2006 | a new queue over an old store recovers as the state machine does, or leaves a store that the state machine could have left |
| QueueProcesses.AgreesOn | packages/queue/src/queue/core/queue.ts:878-2006 | wherever careful actions of the state machine lead, memory and store of the snapshot agree if they did before |
| QueueProcesses.AgreesMeansDurable | packages/queue/src/queue/core/queue.ts:1899-2006 | then each stored row is in memory in exactly one place, and a later process over the store would recover exactly the rows in memory |
| QueueProcesses.RunEvents | packages/queue/src/queue/core/queue.ts:281-2010 | any sequence of calls, clears and replacements, timers, crashes and restarts of the queue object is a careful run of the state machine, and keeps that agreement |
| QueueProcesses.RunNewQueue | packages/queue/src/queue/core/queue.ts:281-2010 | the same from an empty store, as a careful run from the machine's start; while the process is up every stored row is in one place in memory and recoverable, and the unique-job index is right if every reschedule kept its application id |
| QueueProcesses.IndexStaysRight | packages/queue/src/queue/core/queue.ts:355-384 | through any events whose reschedules keep application ids, resets and restarts included, the index of the object is that of the stored rows |
| QueueProcesses.ServeNewQueue | packages/queue/src/queue/core/queue.ts:422-429 | whatever is called within one process, `clear` and `replaceAll` included, a new queue never holds more rows than maxSize |
| QueueProcesses.GoneStaysGone | packages/queue/src/queue/core/queue.ts:319-324 | a generation that belongs to no lease any more never comes back in the same process before a reset |
| QueueProcesses.SettledStaysRefused | packages/queue/src/queue/core/queue.ts:867-875 | once `Ack`, `Release` or `Reschedule` has settled a lease, its token is current after no sequence of calls of the same process without a reset |
| QueueDelays.DelayHolds | packages/queue/src/queue/core/queue.ts:689-711 | through any calls, timers, crashes and restarts that do not reset the queue or administer its job, a delayed row waits until its time, in memory or in the store |
| QueueDelays.EnqueueThenRun | packages/queue/src/queue/core/queue.ts:937-1005 | after an accepted `Enqueue` with a delay, no such sequence of events makes the row ready or leased before that much time has passed |
| WorkerPumps.EveryRunIsSafe | packages/queue/src/queue/worker/with-worker.ts:680-736 | in every interleaving, rows put back by another consumer without an event included, active items stay within the concurrency and no wake-up of a running worker is lost |
| WorkerPumps.StopStops | packages/queue/src/queue/worker/with-worker.ts:680-709 | from a stop until the next start, in every run: the worker does not run, no claim begins, and at most the one claim already under way still starts an item |
| WorkerPumps.StartClaims | packages/queue/src/queue/worker/with-worker.ts:731-735 | a start with a free slot leads to a claim, at once or when the claim of before the stop is over; only a claim that has failed undoes it |
| WorkerPumps.FinishFrees | packages/queue/src/queue/worker/with-worker.ts:232-240 | a finished item frees its slot, for which a parked pump claims at once |
| WorkerPumps.RowsAreConserved | packages/queue/src/queue/worker/with-worker.ts:680-736 | over every run the rows ready, held, granted or worked on are those that came in without those cancelled, consumed or finished |
| WorkerPumps.ReadyWorkIsPickedUp | packages/queue/src/queue/worker/with-worker.ts:680-736 | a ready row with a free slot is started within four pump steps |
| WorkerPumps.SilentRowsArePickedUpIff | packages/queue/src/queue/worker/with-worker.ts:680-736 | a running pump with a free slot, left alone, gets to rows that appear without an event if and only if it is about to claim or has noted a wake-up |
| WorkerPumps.WorkerPump.PumpAsync | packages/queue/src/queue/worker/with-worker.ts:686-718 | a second call while pumping only asks for another round |
| WorkerPumps.WorkerPump.FinishItem | packages/queue/src/queue/worker/with-worker.ts:232-240 | frees a slot and pumps again while running |
| FailureRecovery.RetryExcludesLoop | packages/queue/src/queue/worker/recovery.util.ts:123-188 | after any sequence of configuration calls retry and loop options are never both configured |
| FailureRecovery.LoopOptionsStayExclusiveIff | packages/queue/src/queue/worker/recovery.util.ts:123-149 | exactly when configuring loop options keeps policy and options in step |
| FailureRecovery.RecoveryConfig.ConfigureLoop | packages/queue/src/queue/worker/recovery.util.ts:123-149 | which calls conflict, and the configuration after each; a conflict leaves it unchanged |
| FailureRecovery.RecoveryConfig.ConfigureRetry | packages/queue/src/queue/worker/recovery.util.ts:151-175 | the same for retry |
| FailureRecovery.RecoveryConfig.ConfigureDlq | packages/queue/src/queue/worker/recovery.util.ts:177-188 | the same for the dead-letter queue |
| FailureRecovery.MeasureDecreases | packages/queue/src/queue/worker/with-worker.ts:339-483 | a failed delivery settles the row or lowers attempts left plus handoffs left |
| FailureRecovery.DeliveriesAreBounded | packages/queue/src/queue/worker/with-worker.ts:339-483 | a row settles after at most maxAttempts + maxHandoffAttempts - 1 failed deliveries |
| FailureRecovery.BoundIsReached | packages/queue/src/queue/worker/with-worker.ts:339-483 | that number is reached, so the bound is tight |
| FailureRecovery.FailureHandler.ApplyFail | packages/queue/src/queue/worker/with-worker.ts:339-399 | no ack before the dead-letter queue accepted or filtered the row, or refused the last handoff; one more handoff otherwise |
| FailureRecovery.FailureHandler.ApplyRecovery | packages/queue/src/queue/worker/with-worker.ts:401-483 | a retry puts the row back with a delay under the next attempt and its handoff count, anything else takes the fail path; the last call made on the queue is the one reported, and acks stay justified |
| FailureRecovery.FailureHandler.FailLease | packages/queue/src/queue/worker/with-worker.ts:485-517 | the last call on the queue is an ack of a settled row, a delayed reschedule under just the counts reported, or, exactly when recovery failed other than by a lost lease, a release |
| FailureRecovery.DeliverUntilSettled | packages/queue/src/queue/worker/with-worker.ts:339-483 | redelivering the row as the last call on the queue left it, until it settles, ends within the bound whatever each delivery meets, and after just the deliveries that the recovery rules ask for |
| Backoff.JitterIsBounded | packages/queue/src/queue/worker/with-worker.ts:416-432 | a jittered delay is a nonnegative whole number within 1/2 of [base*(1-jitter), base*(1+jitter)] |
| Backoff.EverySpreadOccurs | packages/queue/src/queue/worker/with-worker.ts:422-424 | every factor of [1-jitter, 1+jitter) is that of some random draw |
| Backoff.BaseDelayDoubles | packages/queue/src/queue/worker/with-worker.ts:417-421 | the first base delay is the initial one, each next one twice that up to the maximum, constant from attempt 53 on |
| Backoff.BaseDelayIsMonotone | packages/queue/src/queue/retry/with-retry.ts:99-123 | the base delay never falls as attempts grow and never exceeds the maximum |
| Backoff.DelayIsBounded | packages/queue/src/queue/worker/with-worker.ts:416-432 | every retry delay lies in [0, maxDelayMs] and, up to that maximum, within 1/2 of the jitter interval around the base delay |
| Backoff.TotalWaitIsBounded | packages/queue/src/queue/worker/with-worker.ts:416-432 | total wait is at most (n-1)*maxDelayMs and at most initial*(1+jitter)*(2^(n-1)-1) + (n-1)/2 |
| HopMeta.StampReadsBack | packages/queue/src/queue/loop/hop-meta.util.ts:81-100 | a stamped count reads back, and other fields of a mapped object are kept |
| HopMeta.WrappedReadsBack | packages/queue/src/queue/loop/hop-meta.util.ts:81-100 | a mapped value that is no plain object reads back as `value` of a wrapper without other fields |
| HopMeta.StampKeepsBookkeeping | packages/queue/src/queue/loop/hop-meta.util.ts:48-79 | all other bookkeeping comes from the original item: root fields, entries of other loops, other fields of the entry |
| HopMeta.StampKeepsOtherLoops | packages/queue/src/queue/loop/hop-meta.util.ts:48-79 | the counts of other queue names are kept |
| HopMeta.HopsCountReentries | packages/queue/src/queue/worker/with-worker.ts:270-323 | after k re-entries the count grew by k whatever the map returned, and no other count moved |
| HopMeta.CapBoundsReentries | packages/queue/src/queue/worker/with-worker.ts:270-323 | a cap of MAX on previous hops allows exactly MAX re-entries, or as many as there are failures |
| JobPages.SortSorts | packages/queue/src/queue/core/queue.ts:1563-1570 | the listing order sorts the jobs and loses none |
| JobPages.LessIs | packages/queue/src/queue/core/queue.ts:1560-1570 | the order is by age, then ready before delayed before leased, then by id text, character by character |
| JobPages.PageCovers | packages/queue/src/queue/core/queue.ts:1572-1635 | a page lists an unshared key exactly when it lies between its two cursors |
| JobPages.StayingJobIsListedOnce | packages/queue/src/queue/core/queue.ts:1572-1635 | while other jobs come and go and the page size changes between pages, a job whose key stays and is unshared is listed exactly once |
| JobPages.StablePagesTile | packages/queue/src/queue/core/queue.ts:1572-1635 | on an unchanging queue with distinct keys the pages tile the sorted job list |
| JobPages.StablePagesTileIff | packages/queue/src/queue/core/queue.ts:1572-1635 | they do so at every page size if and only if no two jobs share a key |
| JobPages.ListJobs | packages/queue/src/queue/core/queue.ts:1637-1687 | a numeric page is the stretch from its offset, with a next cursor exactly when more follows |
| JobPages.ListAllJobs | packages/queue/src/queue/core/queue.ts:1637-1687 | following next cursors from 0 reads the whole list in order |

## Left out

- The queue without a store: ready rows without ids, and ids that a claim or a delayed enqueue hands out late.
- QueueProcesses.RunEvents: calls follow one another, so a crash falls between two calls and no enqueue waits when a reset comes; crashes, calls and resets between the steps of one call are in the state machine. After a reschedule with an attempt below 1 no further call is modelled.
- DurableMachine: in a run that is not careful, a second enqueue call under an id that still waits hides the first; all ids of waiting calls are distinct otherwise.
- The promotion timer firing inside the store write of `cancelJob`, `rescheduleJob` or `promoteJob`; these are single steps.
- `replaceAll` on a store that has no such call, which is several separate writes.
- The `hydrating` flag of the queue object: its methods are atomic, so no call can meet a hydrate in progress. The state machine interleaves at the level of single store writes instead.
- Loop options together with a dead-letter queue, and custom failure policies: the fail and loop paths may call each other with one lease, and the delivery measure does not apply.
- What still runs after a graceful stop; abort signals, heartbeats, timeouts and real timers; callbacks that throw.
- JSON codecs of the Web store (taken to round-trip), corrupt manifests, ids listed twice, generation numbers above the largest safe integer, several tabs, and foreign keys below the same prefix.
- WebRowStores.WebRowStore.PutBatch: during a crash an existing row may already show a batch version while the id set is old; the code does not promise more.
- Lease timer after a claim whose reclaim failed: only that it is armed no later than any live deadline.
- Event emission, metrics, tracing, decorators, error classes; views of jobs gathered from the containers, trimming of application ids, and the cap of the numeric page window at the largest safe integer.
- Reads through the prototype chain in hop metadata.
- Router, topic matching, pipeline and retry workers, replay between queues, the configuration package, benchmarks and examples.
