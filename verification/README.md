# archon-search, verified

A Dafny model of the protocols, the graph store and the offset-exact text transforms of archon-search, with proofs
of what they promise. `dafny verify dfyconfig.toml` checks everything.

A protocol is a state machine: every stretch of code between two awaits (or every file-system call, where processes
race) is one event, a run is any interleaving of enabled events, and cancellation, failure and time-out are events of
their own. Beside each machine stands the class whose methods are those stretches; their contracts tie the object's
state to the machine's step. Loops that fill tables are methods proved against a specification whose own properties
are lemmas.

| files | what they model |
|---|---|
| `GenerationSlot`, `Lifecycle`, `LifecycleOrder` | the description lifecycle: one slot, a bounded queue in order of (kind, arrival), single-flight requests, cancellation at any await, shutdown; in terms of the kinds, who is served next and what a request and a ticket are answered |
| `DescriptionWrite`, `GuardedWrites`, `WriteEffects` | the guarded description write, generations against operator writes, and the memory of failures the store could not take; field by field, what a commit leaves in the row, and how long the operator's text stays |
| `EmbedderCache`, `LruRefinement`, `MemoryBudget` | the cache of embedders with deduplicated loads, the abstract least-recently-used cache it refines, the memory estimate |
| `KeyGeneration`, `KeyRotation`, `KeyStore`, `KeysFile` | processes that create the key file together, rotation in crash order, the records of `keys.json`, the read cache validated by file signature |
| `GraphGc`, `GraphExtraction`, `ImpactTraversal` | garbage collection of the graph, why extracted rows survive it, the bounded breadth-first search |
| `Acl`, `GraphInspector`, `GraphMerge`, `GraphTruncation` | what a namespace may see of a graph, the cross-collection merge and its truncation |
| `CodeScopes`, `ClassContext`, `Segmentation`, `PageProvenance`, `StoreFilters`, `SqlConditions` | scope tables and the class a scope is recorded under, scope-aligned segments, pages after markers are cut out, SQL filters and an evaluator of conditions that knows nothing of them |
| `Options`, `Sorting`, `Sums`, `SmallestIds`, `Bisect` | Python's sorting, sums and bisection, shared by the others |

## Where the code departs from its documentation

- `_generate_and_write` says that a loser never removes a temp file whose writer is still running
  (archon_search/key_manager.py:997-998). That holds with at most two processes and fails with three:
  `KeyGeneration.TwoProcessesSpareLiveTemps` and `KeyGeneration.ThreeProcessesCanLoseALiveTemp`. The process that loses
  its temp file raises (with two nobody does, `KeyGeneration.TwoProcessesNeverRaise`); the agreement on the key is not
  affected.
- `_top_level_scopes` says that of two entries with equal bounds only the later one is excluded
  (archon_search/chunker.py:82-87). The code excludes the earlier one; the model follows the code, and
  `Segmentation.TopLevelScopesAreApart` states what matters, that just one remains.
- `_walk_node` resets the class inside plain functions but not inside decorated ones, so a function nested in a
  decorated method is recorded as a method (archon_search/code_enricher.py:286-291, against 324-329).
  `ClassContext.FunctionsInDecoratedMethodsAreMethods` shows it for every tree of that shape, and
  `ClassContext.AMethodInAMethod` on one file. `ClassContext.AFunctionNamesItsNearestClass` has the exact condition, for
  every tree and depth: a function's only entry names the nearest class around it, if that has a name, exactly when no
  plain function stands between them; it names no class behind a plain function or where no class is around.
- A comment in `record_rotation` says that a repeated rotation of the same key skips its record
  (archon_search/key_manager.py:467-469). That holds where the first one revoked it; with a grace the record is still
  active, so it gets a new deadline, and an expired key becomes acceptable again.
  `KeyStore.AnExpiredKeyComesBack` is such a store, and `KeyStore.WhenARotationBringsAKeyBack` says exactly when.

`overlay_status` admits that a failure may be shown over a changed row when a write sits between its commit and its
version move; `GuardedWrites.ShownFailuresCountTheGap` says by exactly how many changes.

## Model

| member | source | states |
|---|---|---|
| GenerationSlots.PushKeeps | archon_search/description_lifecycle.py:231-238 | pushing keeps the queue in order of (kind rank, arrival) and adds one place |
| GenerationSlots.HandOverGoesToTheLeastLiveWaiter | archon_search/description_lifecycle.py:250-257 | the slot goes to the live waiter before all other live waiters, and becomes free exactly when nobody live waits |
| GenerationSlots.ReserveKeepsValid | archon_search/description_lifecycle.py:231-238 | a reservation keeps the slot valid: no free slot with waiters, no lost waiter, no doubled place |
| GenerationSlots.PassOnKeepsValid | archon_search/description_lifecycle.py:250-257 | passing on keeps the slot valid |
| GenerationSlots.ReleaseKeepsValid | archon_search/description_lifecycle.py:240-248 | a release ends exactly the claim of its ticket, whether it held the slot or a place, and touches nobody else |
| GenerationSlots.GenerationSlot.ReservePlace | archon_search/description_lifecycle.py:231-238 | the object's reservation is the specified one |
| GenerationSlots.GenerationSlot.ReleaseTicket | archon_search/description_lifecycle.py:240-248 | the object's release is the specified one and leaves the ticket without slot or place |
| GenerationSlots.GenerationSlot.PassTheSlotOn | archon_search/description_lifecycle.py:250-257 | popping until a live waiter is found computes the specified hand-over |
| Lifecycle.StepKeepsInv | archon_search/description_lifecycle.py:361-538 | every stretch of the service, every cancellation and every callback keeps the invariant |
| Lifecycle.EveryReachableStateIsSafe | archon_search/description_lifecycle.py:418-538 | in every state of every run the in-flight set is exactly the unfinished jobs' collections, one job each; only the holder drafts; the queue keeps its bound; a free slot has no waiter; each cleanup took effect once when the task is over and not before |
| Lifecycle.EveryHandOverIsInOrder | archon_search/description_lifecycle.py:250-257 | in every run each hand-over goes to the live waiter least by (kind rank, arrival); what that means for the kinds is in `LifecycleOrder.KindsAreServedInOrder` |
| LifecycleOrder.KindsAreServedInOrder | archon_search/description_lifecycle.py:92-104 | in every run each hand-over goes to a waiting describe whenever there is one, else to an ingest whenever one waits, else to a backfill, and within a kind to the one admitted first; the slot becomes free exactly when no job waits |
| LifecycleOrder.RequestsAreAnswered | archon_search/description_lifecycle.py:361-449 | for every state, kind and row, each of the six answers is given exactly when it should be: closed, in flight, manual, nothing to do (an ingest without a change of a fifth, a backfill of a described or failed row), queue full, accepted; what is accepted is in flight as its own job with the slot or a place, everything else changes nothing |
| LifecycleOrder.TicketsSayWhatHappened | archon_search/description_lifecycle.py:498-538 | a ticket is settled once, with the verdict of its own task, with "shutting down" where the task was cancelled, or by its caller |
| LifecycleOrder.TheLastAttemptIsAVerdict | archon_search/description_lifecycle.py:498-508 | the last attempt is the latest run that generated a text or failed to, with what it did |
| LifecycleOrder.FinishingCleansUp | archon_search/description_lifecycle.py:498-508 | the first cleanup frees the collection, leaves the job neither slot nor place and touches no other job |
| Lifecycle.NothingIsUndone | archon_search/description_lifecycle.py:478-508 | along every run settled tickets stay settled, finished jobs stay finished, a closed service stays closed and admits nobody |
| Lifecycle.AfterDrainNothingIsInFlight | archon_search/description_lifecycle.py:478-491 | once the tasks that `drain` awaits are gone nothing is in flight, the slot is free and every ticket is answered |
| Lifecycle.DoubleReleaseIsOne | archon_search/description_lifecycle.py:498-538 | the release in `_finish` after the one in `_draft` changes nothing |
| Lifecycle.DescriptionLifecycle.RequestGeneration | archon_search/description_lifecycle.py:361-449 | the object answers as the request does whose answers `LifecycleOrder.RequestsAreAnswered` describes, and keeps the invariant |
| Lifecycle.DescriptionLifecycle.FinishJob | archon_search/description_lifecycle.py:498-508 | cleanup happens once: collection freed, slot or place given back, ticket settled |
| Lifecycle.DescriptionLifecycle.EndDraft | archon_search/description_lifecycle.py:510-538 | leaving the draft gives the slot back before anything lands |
| Lifecycle.DescriptionLifecycle.OnTaskDone | archon_search/description_lifecycle.py:493-496 | the done callback cleans up a task that never ran its own cleanup |
| Lifecycle.DescriptionLifecycle.CloseAndCancelAll | archon_search/description_lifecycle.py:478-491 | closing cancels every task that can still run and keeps the invariant |
| DescriptionWrite.AdmissibleWritesKeepRowsCoherent | archon_search/description_write.py:187-226 | an admissible set of fields applied to a coherent row leaves a coherent row |
| DescriptionWrite.GuardAdmitsExactlyTheReadState | archon_search/description_write.py:230-262 | the guard lets a write through exactly on a row that is not manual and holds the four values that were read |
| DescriptionWrite.WriterBuildsAdmissibleFields | archon_search/description_writer.py:210-240 | every change the writer makes is admissible, with a vector only of its own text; what it leaves in the row is in `WriteEffects.CommitsDoWhatTheirChangeSays` |
| GuardedWrites.StepKeepsInv | archon_search/description_lifecycle.py:524-627 | reads, retries, generations, landings, failure records, operator writes, commits and version moves keep the invariant |
| GuardedWrites.StoredVectorsBelongToTheirText | archon_search/description_writer.py:136-163 | in every interleaving a stored vector is absent or was computed from the stored text |
| GuardedWrites.ManualDescriptionsChangeOnlyByTheOperator | archon_search/description_write.py:248-262 | a manual description changes only by set, clear, import or deletion; that a set makes one is in `WriteEffects.TheOperatorsTextStays` |
| GuardedWrites.GuardedWritesLandOnlyOnTheRowTheyRead | archon_search/description_lifecycle.py:572-614 | a generated text or recorded failure lands only on a row holding what its run read, and changes it as its fields say |
| GuardedWrites.ShownFailuresCountTheGap | archon_search/description_lifecycle.py:455-469 | the changes since the sample of a shown failure are exactly the writes that entered the gap between commit and version move since |
| GuardedWrites.ShownFailuresAreAboutTheStoredRow | archon_search/description_lifecycle.py:540-559 | with no write in that gap a shown failure is about the stored row, whatever disturbed the run's reads |
| GuardedWrites.FailureMemory.RememberUnstoredFailure | archon_search/description_lifecycle.py:616-627 | the failure is remembered under the version its run sampled, and exactly the entries of moved versions are dropped |
| GuardedWrites.FailureMemory.OverlayStatus | archon_search/description_lifecycle.py:455-469 | the shown status is pending exactly while a generation is in flight, a remembered failure exactly at an unmoved version, and otherwise the stored one |
| WriteEffects.CommitsDoWhatTheirChangeSays | archon_search/description_writer.py:210-240 | field by field: a commit that lands leaves the text, its source, status `ok`, the time and the vector of its change, with the old baseline for a set, the document count its run read for a generation and none for an import; a clear leaves nothing; a failure changes the status only; a refused one changes no row, and none touches another collection |
| WriteEffects.WritesLandExactlyWhen | archon_search/description_write.py:230-262 | in every run, an operator's write lands always, and a generation's exactly on a row that is not manual and has the text (none and empty are one), source, time and status that were read |
| WriteEffects.TheOperatorsTextStays | archon_search/description_writer.py:221-240 | a text the operator set is in the row as manual right after its commit and, in every interleaving, until an operator's next commit on the collection or its deletion |
| WriteEffects.RowsAreReadUndisturbed | archon_search/description_lifecycle.py:540-559 | a run goes on with a row only if no version moved while it was read, or it was the last of three reads |
| WriteEffects.AtMostThreeReads | archon_search/description_lifecycle.py:540-559 | in every run no row is read more than three times |
| WriteEffects.FailuresAreNotLost | archon_search/description_lifecycle.py:572-627 | a text that could not be saved has its failure recorded under the four values that were read; a record that could not be stored is remembered at the sampled version, and entries of moved versions go; after any other end nothing is remembered |
| WriteEffects.EarlyFailuresAreNotLost | archon_search/description_lifecycle.py:510-538 | nor is the failure of a run whose read raised, or of one whose model failed |
| WriteEffects.WritesReportWhatHappened | archon_search/store.py:2102-2125 | the outcome of a write is "missing" exactly without a row, "refused" exactly where a guard found a manual or moved row, "written" exactly after its commit |
| WriteEffects.WrittenMeansLanded | archon_search/store.py:2107-2121 | in every run a write that reports "written" landed |
| WriteEffects.OthersLeaveTheDescription | archon_search/store.py:2263-2342 | an ingest leaves the six description fields as they are and starts a new row without any; a repair adds the vector of the stored text and nothing else |
| EmbedderCache.StoredKeepsTheMostRecent | archon_search/embedder_cache.py:149-154 | a store appends the name and keeps the last `max_size` unpinned names, and every pinned one |
| EmbedderCache.StepKeepsInv | archon_search/embedder_cache.py:79-171 | every stretch, failure, time-out and cancellation keeps the registry consistent |
| EmbedderCache.LoadsAreDeduplicatedAndNeverPoisoned | archon_search/embedder_cache.py:79-171 | in every run a name is registered iff exactly one coroutine loads it, every waiter's event is registered or set, pinned names stay cached, the rest fit `max_size` |
| EmbedderCache.CachedNamesWereAskedFor | archon_search/embedder_cache.py:79-171 | in every run each cached name is pinned or some caller asked for it |
| EmbedderCache.CallersAreToldTheTruth | archon_search/embedder_cache.py:93-106 | in every run a caller that checks gets an embedder exactly when its name is cached (which is then the most recent), waits exactly when another coroutine loads the name, for the event of that load, and loads it itself otherwise |
| EmbedderCache.CallersLeaveForAReason | archon_search/embedder_cache.py:93-171 | a caller leaves with a cached embedder or with the one it loaded and stored, or because its load failed, its wait timed out or it was cancelled; a woken waiter checks again; no step moves another caller |
| EmbedderCache.EmbedderCache.CheckSection | archon_search/embedder_cache.py:93-106 | a hit exactly for a cached name, which becomes the most recent with the others in their old order; a wait exactly for a name that is loading, for its registered event; otherwise a fresh event is registered and nothing else changes |
| EmbedderCache.EmbedderCache.StoreSection | archon_search/embedder_cache.py:149-154 | the locked store with its eviction loop computes the specified order |
| EmbedderCache.EmbedderCache.ClearRegistration | archon_search/embedder_cache.py:155-169 | the `finally` drops the registration, sets exactly its event and leaves the order alone |
| EmbedderCache.EmbedderCache.EvictAfterFailedWarmUp | archon_search/embedder_cache.py:219-243 | a failed warm-up takes out its name exactly when it is cached, cold and not pinned, and keeps the others in order |
| LruRefinement.StepRefines | archon_search/embedder_cache.py:93-154 | a step of the ordered dictionary is a step of the cache by time stamps |
| LruRefinement.CacheRefinesLru | archon_search/embedder_cache.py:79-171 | every run of the cache is a run of the abstract least-recently-used cache over the unpinned names |
| MemoryBudget.TheHeaviestOutweighAnyChoice | archon_search/memory_budget.py:55-60 | the heaviest `k` names outweigh any `k` distinct names |
| MemoryBudget.TheEstimateBoundsTheCache | archon_search/memory_budget.py:45-66 | in every state of every run in which callers ask for configured names, the cached weights plus the reranker's, with headroom and baseline, are within the estimate |
| MemoryBudget.TheEstimateIsReached | archon_search/memory_budget.py:45-66 | the estimate is tight: some choice of `max_size` configured names weighs what it says, with exactly the pinned model, the reranker, half as much again and 1536 MB |
| KeyGeneration.ThePublishedKeyIsFinal | archon_search/key_manager.py:989-1025 | once published, the key file never changes, for any number of processes |
| KeyGeneration.EveryReturnedKeyIsTheFilesKey | archon_search/key_manager.py:969-1025 | every process that returns a key returns the one the file holds |
| KeyGeneration.OrphansAreRemovedOnlyAfterPublication | archon_search/_durable_io.py:238-257 | a temp file is unlinked, as an orphan, after a link or after a failed one, only once a key was published |
| KeyGeneration.TwoProcessesSpareLiveTemps | archon_search/key_manager.py:997-1025 | with at most two processes no live temp file of another process is unlinked by any path |
| KeyGeneration.TwoProcessesNeverRaise | archon_search/key_manager.py:1009-1025 | with at most two processes nobody raises |
| KeyGeneration.ThreeProcessesCanLoseALiveTemp | archon_search/key_manager.py:1009-1025 | with three a run exists in which a loser removes the temp file of a running writer, which then finds nothing to link, unlinks the name once more and raises |
| KeyStore.ChangesKeepRevokedKeysRevoked | archon_search/key_manager.py:362-531 | no change makes a revoked managed key active |
| KeyStore.RevokedKeysNeverComeBack | archon_search/key_manager.py:324-387 | a revoked managed key stays revoked as long as its token is not issued again from then on, and is accepted exactly where an active synthetic record of it is in the store |
| KeyStore.OneRotation | archon_search/key_manager.py:432-531 | after a rotation of any store the new token is accepted, the old one exactly inside its grace where a record of it can be retired (or through another record of it), all others as before |
| KeyStore.WhenARotationBringsAKeyBack | archon_search/key_manager.py:470-484 | a key that is not accepted becomes so by a rotation iff it is the new token, or is retired with an open grace while one of its managed records is not revoked or it has none |
| KeyStore.AnExpiredKeyComesBack | archon_search/key_manager.py:465-484 | a store whose key has expired, and the rotation with a grace that makes it acceptable again |
| KeyStore.CurrentKeysAreRetired | archon_search/key_manager.py:432-531 | a key with one managed record without a deadline, or with no record, is accepted exactly inside its grace once it is retired |
| KeyStore.OtherKeysAreLeftAlone | archon_search/key_manager.py:362-429 | creating or revoking one key changes nothing about the others |
| KeyStore.AcceptedKeysAreActive | archon_search/key_manager.py:324-348 | a key is accepted exactly when an active record of it has no deadline or one that lies ahead |
| KeyStore.CreatedKeysAreAccepted | archon_search/key_manager.py:389-429 | a created key is accepted until its deadline, afterwards as it was before, and no other key changes |
| KeyStore.RevokedRecordsAreNotAccepted | archon_search/key_manager.py:362-387 | revoking an id leaves accepted exactly what the other records accept |
| KeyStore.UnknownIdsRevokeNothing | archon_search/key_manager.py:362-387 | an unknown id changes nothing |
| KeyStore.RestartsReplaceTheConfiguration | archon_search/key_manager.py:324-348 | loading the configuration replaces the keys it brought before and keeps every managed key |
| KeyStore.ChainAcceptsTheNewestAndThoseInGrace | archon_search/key_manager.py:432-531 | after any chain of rotations the newest token is accepted and each retired one exactly inside its own grace |
| KeyStore.RotateRecords | archon_search/key_manager.py:432-531 | the loop over the records computes the specified rotation |
| KeyStore.RevokeRecord | archon_search/key_manager.py:362-387 | the first record with the id is revoked; an unknown or revoked id changes nothing |
| KeyStore.ListActive | archon_search/key_manager.py:324-348 | the answer is exactly the active, unexpired records, in order |
| KeysFile.LoadIsAnInstantOfTheFile | archon_search/key_manager.py:250-284 | with the signature taken before the read, a load answers the parse at one of its two instants and leaves the cache sound |
| KeysFile.EveryLoadIsLinearizable | archon_search/key_manager.py:250-284 | against any outside writers a load answers a direct parse at an instant during the call |
| KeysFile.UnchangedFilesAreParsedOnce | archon_search/key_manager.py:250-284 | what a load saw under a signature is answered again without a read, and neither an I/O error nor a missing file is remembered |
| KeysFile.KeyStore.LoadRecords | archon_search/key_manager.py:250-284 | the object's load is the specified one, with the disk changing in between |
| KeysFile.KeyStore.WriteRecords | archon_search/key_manager.py:556-571 | a write replaces the file and drops the cache |
| KeyRotation.StepKeepsInv | archon_search/key_manager.py:596-741 | every step of a caller, of its commit task and of the task's thread, every failure, every cancellation of a caller, however often, or of a task, and every operator change keep the invariant |
| KeyRotation.CommitsAreSheltered | archon_search/key_manager.py:660-723 | a commit that has not ended has its lock held by its caller, at the shield or finishing, no other commit runs beside it, and cancelling that caller changes nothing of the commit, the lock or the files |
| KeyRotation.KeysJsonFollowsTheKeyFile | archon_search/key_manager.py:669-698 | a rotation enters `keys.json` only after its thread wrote the token to the key file, which still holds it unless the thread of a cancelled commit task wrote after it |
| KeyRotation.WhenTheKeyFileIsAhead | archon_search/key_manager.py:619-723 | the key file differs from the published token iff the last write to it is of a commit that is between its two writes, failed to record, or was cancelled itself |
| KeyRotation.OnlyAFailedRecordLeavesTheKeyFileAhead | archon_search/key_manager.py:701-723 | with no commit task cancelled, however often callers are, and none that failed between its writes, ended rotations leave the key file, the published token and the newest recorded one equal |
| KeyRotation.AcceptedKeysInEveryState | archon_search/key_manager.py:596-698 | in every reachable state, with operators creating and revoking in between, a key they left alone is accepted iff it is the published token, a retired one inside its grace, or none of the rotations' and accepted from the start |
| KeyRotation.RevokedKeysStayRevoked | archon_search/key_manager.py:362-387 | a key revoked during the run stays revoked through all rotations that do not draw its token |
| GraphGc.ExactlyTheGarbageGoes | archon_search/graph_store.py:2084-2299 | a pass deletes exactly the orphans (never a mentioned, def/ref-endpoint or module pseudo id) and, of edges with unique ids, exactly the doomed ones |
| GraphGc.NodesGoExactlyWhen | archon_search/graph_store.py:2156-2225 | a node goes exactly when no chunk mentions it, no row of its id is a module node by type and subtype, and no code relation has it as an end |
| GraphGc.EdgesGoExactlyWhen | archon_search/graph_store.py:2229-2284 | under unique ids an edge goes exactly when it is no code relation and either loses an end or is one of the four prose relations without a chunk that mentions both ends |
| GraphGc.SurvivingEdgesAreSupported | archon_search/graph_store.py:2168-2284 | no surviving edge touches a deleted node, and every surviving mention-derived edge that is not exempt is co-mentioned |
| GraphGc.SurvivingEdgesAreSupportedByLiveChunks | archon_search/graph_store.py:2324-2369 | after pruning that chunk is a live one |
| GraphGc.ASecondPassDeletesNothing | archon_search/graph_store.py:2084-2299 | collection is idempotent |
| GraphGc.CountsAreExact | archon_search/graph_store.py:2229-2299 | under unique ids the edge lists count exactly the rows that go |
| GraphGc.DefRefExemptions | archon_search/graph_store.py:2178-2221 | the exemption sets hold exactly the endpoints and the ids of def/ref edges |
| GraphGc.ListOrphans | archon_search/graph_store.py:2156-2225 | the listed ids are exactly the orphans', one per row that goes |
| GraphGc.ListDoomed | archon_search/graph_store.py:2229-2284 | the listed ids are exactly the doomed edges', by endpoint or for want of support, minus the exempt ids |
| GraphGc.DeleteInBatches | archon_search/graph_store.py:2286-2294 | deleting batch by batch deletes exactly the listed keys |
| GraphGc.GraphTables.PruneStaleMentions | archon_search/graph_store.py:2324-2369 | exactly the mentions of chunks that are gone are deleted, and counted |
| GraphGc.GraphTables.DeleteOrphanNodesAndEdges | archon_search/graph_store.py:2084-2299 | a pass is skipped without mentions to judge by, and otherwise leaves the collected tables, with the exact count of nodes and, under unique ids, of edges |
| GraphExtraction.ExtractCode | archon_search/graph_extractor.py:363-389 | every symbol of a code chunk becomes a node mentioned in that chunk |
| GraphExtraction.ExtractEntities | archon_search/graph_extractor.py:436-475 | every entity of a prose chunk becomes a node mentioned in that chunk |
| GraphExtraction.ExtractRelations | archon_search/graph_extractor.py:477-492 | a typed edge joins two entities of the chunk it was read in |
| GraphExtraction.RelatePairs | archon_search/graph_extractor.py:494-521 | every co-occurrence edge joins two entities of one chunk |
| GraphExtraction.Extract | archon_search/graph_extractor.py:363-535 | mentions are emitted for exactly the code symbols and the entities of a known type; for exactly what is mentioned the first node row with its id, with its type and subtype; an edge for exactly the pairs that share a chunk and the usable relations, with the source, target and type of the text that says so, the relation's before the pair's, without an extraction method; each supported by the mentions of one chunk |
| GraphExtraction.ExtractedRowsSurviveCollection | archon_search/graph_store.py:2168-2284 | what was extracted from live chunks survives pruning and collection |
| ImpactTraversal.DepthsAreDistances | archon_search/graph_store.py:901-1008 | a search that expanded every hop found exactly the nodes within reach, each at its shortest distance |
| ImpactTraversal.DepthsAreWitnessed | archon_search/graph_store.py:917-992 | whatever the caps cut, every depth the hops assign is the length of a path from the root |
| ImpactTraversal.WithinCapsDepthsAreDistances | archon_search/graph_store.py:901-1008 | on a graph with no more nodes at any distance below the depth than a frontier may hold, the hops find exactly the nodes within the depth, each at its distance |
| ImpactTraversal.CallersAreCalleesTheOtherWay | archon_search/graph_store.py:936-952 | a node is a caller of another at some distance exactly when that one is its callee at the same distance |
| ImpactTraversal.Expand | archon_search/graph_store.py:936-959 | a hop finds each unvisited neighbour once: for callees the target of an edge whose source is in the frontier, for callers the reverse, through the smallest such edge that no filter blocks |
| ImpactTraversal.Search | archon_search/graph_store.py:917-992 | the loop over the hops assigns the specified depths, with one row per discovered node, reported through its smallest edge from the frontier before |
| ImpactTraversal.CappedKeepsTheBest | archon_search/graph_store.py:994-1008 | the kept rows are the best of their kind by rank, in order, direct before indirect; every omitted row of a kind ranks behind every kept one; kept plus omitted is what was found |
| ImpactTraversal.AnswersFollowTheEdges | archon_search/graph_store.py:936-959 | in terms of `source` and `target`: a direct row has an unfiltered edge from the root to its callee, or from its caller to the root; an indirect one such an edge from a node one hop nearer; unless truncated every such neighbour of the root is a direct row |
| ImpactTraversal.AnswersPutTheBestFirst | archon_search/graph_store.py:961-1008 | rows are in order of rank (the higher first, then the smaller id, without a rank as zero), and none that is left out ranks before a kept one of its kind |
| ImpactTraversal.TraverseImpact | archon_search/graph_store.py:901-1008 | the rows are distinct nodes at their specified depths, follow the edges and put the best first as the two lemmas above say, kept plus omitted equals discovered, and the depth reached is the last hop that found anything |
| ImpactTraversal.ComputeImpact | archon_search/graph_store.py:804-826 | with nothing assumed: at most five hops, each row's depth is the length of a path along the edges in the asked direction, the best first, and every neighbour of the root is listed unless truncated; on a graph within the caps the depths are distances and, unless truncated, every node within reach is listed |
| Acl.FromChunkAcls | archon_search/acl.py:287-301 | a chunk is hidden iff one of its rows has an ACL without the namespace (none passes for an empty namespace), a document iff all of its rows do |
| GraphInspector.LoadAclVisibleGraph | archon_search/graph_inspector.py:316-386 | exactly the nodes and edges with visible evidence are kept, in order, with the visible chunks of each entity |
| SmallestIds.SmallestOfUnion | archon_search/graph_inspector.py:654-663 | merging the `k` smallest of each part yields the `k` smallest of the whole |
| GraphMerge.MergeCollections | archon_search/graph_inspector.py:589-693 | the merge loops compute sums of counts and weights, the weighted average of saliences, the 20 smallest chunk ids and the first rank |
| GraphMerge.MergedNodesCountMentions | archon_search/graph_inspector.py:601-626 | a merged node counts the visible chunks that mention it in any collection, and its salience is the average of its shares weighted by those counts |
| GraphMerge.MergedEdgesWeighSharedChunks | archon_search/graph_inspector.py:628-681 | a merged edge weighs the visible chunks that mention both its ends, lists the 20 smallest of exactly those, and joins the ends of a row of its id |
| GraphMerge.SaliencesStayBelowCounts | archon_search/graph_inspector.py:612-618 | weighted saliences never exceed the counts, so the clamp to one is idle |
| GraphMerge.TheOrderOfCollectionsDoesNotMatter | archon_search/graph_inspector.py:589-693 | the order of the collections changes no chunk count, salience, edge weight or chunk id list |
| GraphMerge.RanksIgnoreOrderExactlyWhenTheyAgree | archon_search/graph_inspector.py:619-626 | the merged rank of an entity is the same for every order of the collections iff no two of them have different ranks for it |
| GraphMerge.MergedChunksAreVisible | archon_search/graph_inspector.py:648-681 | every listed chunk id is shared by both ends of the edge among the visible chunks of one collection |
| GraphTruncation.TruncateGraph | archon_search/graph_inspector.py:162-255 | the best nodes and then the synonym endpoints, the best other edges and all synonym edges, in order, with an exact flag |
| GraphTruncation.TheBestComeFirst | archon_search/graph_inspector.py:162-255 | nodes come best first by rank, salience or count and then by id, edges by weight, typed before untyped, then by id, and nothing left out is better than what is kept for its figures |
| GraphTruncation.SynonymEdgesSurvive | archon_search/graph_inspector.py:162-255 | no returned edge dangles, and a synonym edge is returned iff both its endpoints are known |
| GraphTruncation.InspectCrossCollection | archon_search/graph_inspector.py:589-715 | the whole inspection: visible parts, merged figures (the salience with its IDF factor in the mode that asks for it), best first, truncation, counts, the exact `truncated` flag with the scan ceiling, and every chunk id visible to the caller |
| GraphTruncation.TheOrderOfCollectionsDoesNotChangeTheView | archon_search/graph_inspector.py:589-715 | listing the collections in another order returns the same nodes in the same order (apart from ranks the mode does not sort by), the same other edges in the same order, the same synonym edges, counts and flag; sorting by rank needs collections without different ranks for an entity |
| GraphTruncation.DifferentRanksShow | archon_search/graph_inspector.py:589-715 | where two collections rank an entity differently, two orders of the collections give different views by rank, unless they are cut |
| GraphTruncation.RanksCanDiffer | archon_search/graph_inspector.py:619-626 | two collections of one node each that do |
| CodeScopes.BuildByteMap | archon_search/code_enricher.py:230-237 | the map takes the number of UTF-8 octets before every character, and before the end, back to it, and nothing else |
| CodeScopes.WidthsCountOctets | archon_search/code_enricher.py:230-237 | the width of a character is the length of its UTF-8 octets, from which it is decoded again |
| CodeScopes.WalkIsLaminar | archon_search/code_enricher.py:249-434 | the entries of a well-nested tree are nested or disjoint in character offsets and lie within their node |
| ClassContext.AFunctionNamesItsNearestClass | archon_search/code_enricher.py:249-434 | every function or method the walk reaches has one entry and is visited once; its class is the one in force on the way: with a class on the way the nearest one's name, and none if a plain function stands between (so a named class is named iff none does); without one what the walk began with, which is none |
| ClassContext.AClassNamesItself | archon_search/code_enricher.py:309-323 | every class the walk reaches, decorated or not, has one entry, which spans it and carries its own name, and is visited once |
| ClassContext.OnlyDefinitionsHaveEntries | archon_search/code_enricher.py:249-434 | no other node than a function, method or class has an entry |
| ClassContext.FunctionsInDecoratedMethodsAreMethods | archon_search/code_enricher.py:263-306 | in every tree a plain function in the body of a decorated method has its one entry as a method of the class |
| ClassContext.AMethodInAMethod | archon_search/code_enricher.py:263-306 | a file with such a function |
| ClassContext.VisitsFollowTheClass | archon_search/code_enricher.py:286-351 | every call of the walk carries the class that the node kinds on the way determine: a class sets it, a plain function resets it, a decorated function keeps it |
| ClassContext.VisitsAreOnce | archon_search/code_enricher.py:249-434 | the walk visits no node twice |
| ClassContext.BodiesAreVisited | archon_search/code_enricher.py:309-351 | the walk reaches every node in the body of a function or class it reaches |
| ClassContext.DecoratedBodiesAreVisited | archon_search/code_enricher.py:263-306 | and every node in the body of a decorated one, with the class of the decorated function unchanged |
| ClassContext.ChildrenAreVisited | archon_search/code_enricher.py:425-434 | the walk goes on to every child of any other node that is not a method or an arrow function |
| CodeScopes.ScopeList.WalkNode | archon_search/code_enricher.py:249-434 | the walk appends the specified entries to the shared list |
| CodeScopes.BuildScopeTable | archon_search/code_enricher.py:222-245 | the table is laminar, sorted outermost first, and holds every entry of the walk |
| CodeScopes.ResolveScope | archon_search/code_enricher.py:458-481 | the result is contained in every scope around the offset, and none exactly when there is none |
| CodeScopes.ScopeTablesCanBeSegmented | archon_search/code_enricher.py:222-245 | a scope table meets what the segmentation asks of one |
| Segmentation.TopLevelScopes | archon_search/chunker.py:69-92 | the kept entries are exactly the top-level ones, in order |
| Segmentation.EveryScopeIsInATopLevelOne | archon_search/chunker.py:69-92 | every entry lies within a top-level one |
| Segmentation.TopLevelScopesAreApart | archon_search/chunker.py:82-89 | top-level entries do not contain one another, so one of several equal entries remains |
| Segmentation.SplitAtScopes | archon_search/chunker.py:183-202 | the blocks are ordered slices, hold every character that is not white space, and include every top-level scope |
| Segmentation.MergeToBudget | archon_search/chunker.py:225-254 | merging and splitting keep ordered slices, lose no character, keep each segment in the budget, tear no block that fits the budget, and are greedy: a segment is a piece of an oversized block, or a run of blocks within the budget that could not have taken the next block too |
| Segmentation.BuildSegments | archon_search/chunker.py:181-254 | every character that is not white space is in exactly one segment; segments are ordered slices; merged token counts stay within `chunk_size` and could not have taken another block; a top-level scope that fits the budget lies in one segment |
| PageProvenance.ExtractPageBreaks | archon_search/enricher.py:336-357 | the table lists the markers, leftmost first, with the pages they open |
| PageProvenance.TheTableCountsPages | archon_search/enricher.py:336-357 | the table counts up from page one, or from page two where a marker opens the text, and begins at 0 either way |
| PageProvenance.TheTableBeginsAtMarkers | archon_search/enricher.py:336-357 | every further page begins at a marker, and behind the end of the one before |
| PageProvenance.TheTableMissesNoMarker | archon_search/enricher.py:336-357 | wherever the text holds a marker, a listed one begins there or reaches across it |
| PageProvenance.TransformPageTable | archon_search/enricher.py:359-398 | each marker's offset loses the markers before it; the seed passes through |
| PageProvenance.OriginsHoldTheCleanedText | archon_search/enricher.py:400-407 | every character of the cleaned text has a place in the text that holds it, in order |
| PageProvenance.OriginsAvoidMarkers | archon_search/enricher.py:400-407 | no such place lies within a marker |
| PageProvenance.ExcisionTakesOnlyMarkers | archon_search/enricher.py:400-407 | the cut takes the length of the markers and nothing else |
| PageProvenance.Preprocess | archon_search/enricher.py:409-428 | the cleaned text and its table |
| PageProvenance.BisectionFindsThePage | archon_search/enricher.py:319-328 | for every position the entry found by bisection names one plus the number of markers before the position's origin |
| PageProvenance.EnrichPages | archon_search/enricher.py:319-328 | a chunk gets the page of its start, and that of its end where it differs |
| StoreFilters.LikeEscapedIsPrefix | archon_search/store_filters.py:26-36 | a string matches the escaped prefix with a wildcard iff the prefix is one of it |
| StoreFilters.QuotedValueReadsBack | archon_search/store_filters.py:18-23 | a quoted value reads back as itself and ends where it ends |
| StoreFilters.JoinedClausesReadBack | archon_search/store_filters.py:57-104 | a conjunction of clauses reads back with every value in its own literal, whatever the values hold |
| StoreFilters.BuildWhere | archon_search/store_filters.py:57-104 | as SQL reads the text, for every row: it holds exactly where the filters and the scope select the row, whatever the values hold; it is empty exactly when nothing is asked |
| StoreFilters.ClausesSelectTheRows | archon_search/store_filters.py:57-104 | those clauses hold of exactly the rows the filters and the scope select |
| StoreFilters.TheTextSelectsTheRows | archon_search/store_filters.py:57-104 | the evaluator of `SqlConditions`, which reads words, literals, comparisons, `LIKE` with `ESCAPE`, `IS NULL` and `AND` from the text alone, finds the joined clauses true of exactly the selected rows |

## Left out

- GraphMerge.TheOrderOfCollectionsDoesNotMatter: says nothing of `pagerank_score`, which depends on the order unless the collections agree on it (`GraphMerge.RanksIgnoreOrderExactlyWhenTheyAgree`), nor of `entity_name` (the last one).
- GraphMerge.MergeCollections: saliences are real numbers, without rounding.
- GraphTruncation.InspectCrossCollection: the IDF factor is a function of the id, and the mentions are those the scan returned.
- GuardedWrites.ManualDescriptionsChangeOnlyByTheOperator: deletions happen under the collection lock; the lock-free deletion in the roll-back of `add_collection` (archon_search/server/routes_collections.py:265) is not part of this model.
- KeyRotation.AcceptedKeysInEveryState: speaks of keys the operators left alone; what they revoke is in `KeyRotation.RevokedKeysStayRevoked`. The keys of the configuration are loaded before the run.
- KeyGeneration.EveryReturnedKeyIsTheFilesKey: no crash, no expired wait, no leftover file without a key and no key from the environment; the code promises no agreement then.
- KeysFile.EveryLoadIsLinearizable: signatures are never reused, and a load whose own read fails answers nothing.
- KeyStore.ChainAcceptsTheNewestAndThoseInGrace: no explicit revocation within the chain, and tokens that are new.
- Segmentation.BuildSegments: the recursive chunker is given by its contract (a lossless tiling, empty only for blank text, one chunk only within the budget).
- CodeScopes.BuildScopeTable: the parse is given as a tree whose nodes begin and end at characters, with children within their parent and apart from each other.
- StoreFilters.TheTextSelectsTheRows: the evaluator reads conjunctions of the forms of condition the filters use, not all of SQL.
- StoreFilters.BuildWhere: the normal form of a time is a function, and strings are ordered by code point.
- PageProvenance.Preprocess: does not say that the cleaned text has no marker, because cutting one out can join two pieces into another.
- GraphExtraction.Extract: the answer of the prose engine and the stable ids are inputs.
- The Unicode rules of description texts, their trimming and the prompts.
- Heading paths, def/ref walkers, community building, synonym detection, HyDE and export.
- LanceDB, tree-sitter, tokenizers, model clients, logging, redaction, telemetry, file permissions and fsync.
