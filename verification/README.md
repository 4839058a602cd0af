# Verified model of yp-metrics

This project models the metric store of yp-metrics, its three implementations and
the concurrent agent that fills it, and proves properties of whole runs.

- `Basics.dfy`, `Models.dfy`: 64-bit wrap-around, metric values, the DTO and its JSON record.
- `AbstractStore.dfy`: the store as a map with the mutations of the `Repositories`
  interface, the mutex, and what a batch means name by name.
- `MemStorage.dfy`: the in-memory store as a class with shared metric objects and a
  mutex that can leak; the `UpdateJSON` handler over it.
- `DBStorage.dfy`: the SQL table with nullable columns, upserts, transaction rollback
  and the two readers, as a class; the same handler over it.
- `TableBatch.dfy`: what a batch and a request mean to the table, row by row.
- `Refinement.dfy`: exactly when the table and memory represent the same map.
- `HybridStorage.dfy`, `HybridRuns.dfy`, `HybridDurability.dfy`: the store with a backup file:
  the class; restarts and failures over whole runs; the clock of the backups, staleness,
  crashes and failed backups.
- `Pipeline.dfy`, `PipelineInvariant.dfy`, `PipelineTheorems.dfy`, `PipelineTicks.dfy`:
  collectors, forwarders, channels, `WaitGroup` and consumer of the agent as a small-step
  machine; its invariant; safety, conservation, termination and confluence; what the readings
  of the ticks become.
- `SendWorkers.dfy`: the agent's sending producer and worker pool.
- `Requests.dfy`: interleaved get-then-write requests of the server over memory: lost and
  kept updates, serializability.
- `Replies.dfy`, `ReplyGuard.dfy`: the same with metric objects and a third step, the reply
  that is read after the mutex is released.
- `Clients.dfy`: concurrent batches, whose elements interleave.
- `TableRequests.dfy`, `TableFirstWrites.dfy`, `TableReplies.dfy`: interleaved requests over
  the table, which refuses overflow and doubles on conflict, and answers from a copy.
- `Wire.dfy`: the JSON and protobuf batch paths from store to store.
- `EndToEnd.dfy`: collection, report and backup file composed.
- `WorkerPath.dfy`: the worker pool and the server's concurrent requests composed.

Conventions. A call ends in an `Outcome`: `Done`, `Failed` (an error), `Panicked`, or
`Blocked` (waiting for a mutex nobody releases). The clock, the file system, the sensors,
the connection failures of a transaction, map iteration order and the scheduler are
parameters or nondeterminism. Spec functions (`...Spec`) say what one call does; the
methods of the classes are proved to compute them, and the lemmas are about them.
Every lemma turns automatic induction off, so its proof is the one written there.

Where the code and its intent differ, the model follows the code:

- `MemStorage.Update` keeps the mutex on a nil value and on a value of the wrong type;
  `UpdateLeaksLockIff` says exactly when, `LeakedLockIsFinal` what follows.
- The counter upsert doubles the new delta on conflict. Serial traffic with names of at
  most 30 characters never gets there (`RequestRefines`, `ElementKeepsRows`); a name padded
  with spaces does (`PaddedNameReachesConflict`), and so do concurrent first writes
  (`FirstWriteRaceInTable`; which requests may race is `FirstWritesInTableIff`). That a value longer than its `VARCHAR` column is an error unless
  the excess is all spaces, and that character code zero cannot be stored, are PostgreSQL's
  documented rules for character types; memory takes both (`ZeroCharacterNameOnlyInMemory`).
- `Get` and `GetAll` disagree on a row with both columns set (`ReadersAgreeIff`). A gauge for a
  counter row sets both, with a panic in a request (`GaugeOnCounterSplitsReaders`) and without
  an error in a batch; so does, with success, a new name cut to the name of a row of the other
  kind (`PaddedNameSplitsReaders`). There is no third way in serial traffic
  (`RequestSplitsReadersIff`, `ElementSplitsReadersIff`, `ReadersAgreeAfterRunIff`).
- Concurrent first writes to one name lose deltas (`FirstWriteRace`) unless at most one
  request names it or all deltas are 0 (`FirstWritesKeepTotalIff`).
- Over memory `UpdateJSON` reads its reply after the mutex is released, so later updates show
  in it (`ReplyIsSerialIff`; which requests can share a name is `RepliesAreSerialIff`). Over
  the table it answers from the copy it read first, so earlier updates are missing in it
  (`ReplyMissesOthers`, `AnswersAreRowsIff`).
- Concurrent batches over memory are not atomic (`BatchesMix`), though no update of an existing
  name is lost (`BatchesKeepUpdates`).
- While a NaN or infinite gauge is stored, and a protobuf batch or the URL form of the update
  can carry one, every backup and JSON report fails (`NonFiniteGaugeStopsBackups`, `BackupSucceedsIff`,
  `RestartPreservesIff`, `DeliveredIff`), and an empty store is reported as JSON `null`, which
  the server refuses.
- `GetCounterMetrics` lists `RandomValue`, but the collector sends it as a gauge.
- A stray closing bracket in the backup file ends a restore without an error and with backups
  on, so the next backup erases what follows it (`StrayBracketErasesRest`, `NewerValueIsLost`;
  exactly when that loses nothing is `NothingLostIff`).
- A record without the field of its type is decoded to a nil value, and then stops a batch half
  way, with the mutex locked if its name is known (`MissingFieldStopsBatch`).
- A backup that fails after the truncation has lost metrics (`FailedBackupLoses`), and a start
  without a restore replaces the old file at its first backup (`StartWithoutRestore`).
- A call after `Close` still changes memory, and the next start does not have it
  (`CallAfterStopIsLost`).
- A negative rate limit starts no workers and still queues (`PoolWithoutWorkersHangs`).

## Model

| member | source | states |
|---|---|---|
| Int64.WrapIsTheCongruentInt64 | internal/storage/models.go:118-120 | int64 addition yields the one int64 congruent to the mathematical sum modulo 2^64 |
| Int64.WrapAbsorbs | internal/storage/models.go:118-120 | wrapping after each addition or once at the end gives the same counter |
| Models.NewMetricIff | internal/storage/models.go:106-112 | the constructors build a metric of the declared type around the value given and panic on any other type |
| Models.Metric.UpdateValue | internal/storage/models.go:114-120 | counters accumulate, gauges overwrite; a value of the other type panics and changes nothing |
| Models.JsonRoundTrip | internal/storage/models.go:147-214 | encoding succeeds exactly on int64 and finite float64 values; decoding recovers name, value and kind though the DTO carried no type |
| Models.UnmarshalMeaning | internal/storage/models.go:147-171 | decoding refuses exactly unknown types and deltas beyond 64 bits; the value is that of the field the type calls for, and nil without it |
| AbstractStore.UpdateLeaksLockIff | internal/storage/memory.go:35-48 | an update leaves the mutex locked exactly when the name exists and the value does not have its metric's type; it is an error exactly for a missing name or a nil value |
| AbstractStore.RequestOutcomes | internal/handlers/main.go:173-203 | how a get-then-write ends, in full: hangs, errors, panics, what changes and what leaks |
| AbstractStore.LeakedLockIsFinal | internal/storage/memory.go:18-81 | once the mutex has leaked no run of calls changes the store and each call hangs |
| AbstractStore.BatchAppend | internal/storage/memory.go:58-81 | a concatenated batch is one batch after the other whenever the first succeeds |
| AbstractStore.BatchAppliesPrefix | internal/storage/memory.go:58-81 | a batch that returns an error has applied exactly the elements before the offending one |
| AbstractStore.StoppingElement | internal/storage/memory.go:58-81 | the offending element ends the batch with an error for a missing value and a panic for a value of another kind, and leaks the mutex exactly when its name is known |
| AbstractStore.BatchLeaksLockIff | internal/storage/memory.go:35-81 | a batch leaves the mutex locked exactly when some element, with all before it going through, meets a metric of another kind under its name, stored before or by an earlier element |
| AbstractStore.BatchMeaning | internal/storage/memory.go:58-81 | a batch succeeds exactly when the values of each name agree in kind; each counter is then the wrapped old value plus the mathematical sum of its deltas, each gauge its last value, other names untouched |
| Memory.MemStorage.Get | internal/storage/memory.go:18-26 | returns the stored object itself or nil, and releases the mutex |
| Memory.MemStorage.Insert | internal/storage/memory.go:28-33 | rebinds one name; distinct names keep distinct objects if the object is not stored elsewhere |
| Memory.MemStorage.Update | internal/storage/memory.go:35-48 | changes at most the object under the key, follows the update rule, and reports error, panic and lock state exactly |
| Memory.MemStorage.BatchUpdate | internal/storage/memory.go:58-81 | the loop computes the batch semantics, keeps every existing object and the non-aliasing of names |
| Memory.UpdateJSON | internal/handlers/main.go:151-215 | rejects bad types and empty names without touching the store; otherwise acts as one get-then-write, and the value it replies with is the stored one |
| Database.DBStorage.Get | internal/storage/db.go:27-64 | a fresh copy of the row's reading, nil for a missing row, an error for a row of NULLs or a name that is not SQL text |
| Database.DBStorage.Insert | internal/storage/db.go:66-87 | the upsert, with column widths, conflict and overflow; nil metrics are refused |
| Database.DBStorage.Update | internal/storage/db.go:89-104 | runs the statement of the value's type, which does nothing to a missing row, then updates the caller's copy; the copy's panic does not undo the statement |
| Database.DBStorage.BatchUpdate | internal/storage/db.go:106-168 | commits exactly when every step succeeds, with the fold of the whole batch; on any error, such as a value that is no number wherever it stands, the table is what it was |
| Database.DBStorage.GetAll | internal/storage/db.go:170-208 | every row with a value, the counter column winning |
| Database.UpdateJSON | internal/handlers/main.go:151-215 | as over memory; the reply is what the next Get returns exactly for names of at most 30 characters |
| TableBatch.TableBatchMeaning | internal/storage/db.go:106-168 | a batch can commit exactly when every element is a number under a name of SQL text that fits, the type fits where a row is inserted, and no running counter or doubled delta leaves 64 bits; then every row has the type, last gauge and counter its own elements make of it |
| TableBatch.ShortNamesAdd | internal/storage/db.go:122-137 | for names that fit that counter is the old one plus the sum of the deltas |
| TableBatch.TableRequestOutcomes | internal/storage/db.go:27-104 | how a get-then-write over the table ends, in full: when it is refused and changes nothing, when it panics, and the row it writes |
| TableBatch.ColumnWidths | internal/storage/db.go:226-227 | names of at most 30 characters and types of at most 7 are stored, longer ones that do not end in spaces refused |
| Refinement.ReadersReturnTheStore | internal/storage/db.go:170-208 | both readers of a represented table return the abstract reading of every name |
| Refinement.RequestRefines | internal/handlers/main.go:173-203 | a get-then-write leaves table and memory with the same map exactly when the name fits and is SQL text, the kind matches and nothing overflows; then no upsert conflicts |
| Refinement.BatchRefines | internal/storage/db.go:106-168 | a batch leaves both stores with the same map exactly when each element's guard holds at its turn |
| Refinement.RunRefines | internal/storage/db.go:27-168 | over a run of requests and batches the table refines memory after every call exactly when every call meets its guard |
| Refinement.SteadyTrafficRefines | internal/storage/db.go:27-168 | names of at most 30 characters without a zero character, one kind per name and deltas of total size below 2^63 suffice for any run |
| Refinement.ReadersAgreeOverRuns | internal/storage/db.go:27-208 | over every run with names the column holds and one kind per name, failing calls included, each row keeps one value column and the readers agree |
| Refinement.ElementKeepsRows | internal/storage/db.go:66-168 | a value of its name's kind keeps every row well formed and never meets the ON CONFLICT branch |
| Refinement.RequestSplitsReadersIff | internal/storage/db.go:27-104 | readers that agree still agree after a request exactly when it is neither a gauge for a counter row nor a new name cut to a row of the other kind that takes it |
| Refinement.ElementSplitsReadersIff | internal/storage/db.go:138-163 | likewise for an element of a batch |
| Refinement.ReadersAgreeAfterRunIff | internal/storage/db.go:27-208 | after any run of requests and batches the readers agree on every name exactly when no call was of that kind at its turn |
| Refinement.GaugeOnCounterSplitsReaders | internal/storage/db.go:89-104 | a concrete gauge update on a counter row after which the readers disagree and memory has leaked its mutex |
| Refinement.CounterOnGaugeIsLost | internal/storage/db.go:134-145 | a counter value on a gauge row is dropped by a batch without an error |
| Refinement.PaddedNameReachesConflict | internal/storage/db.go:73 | a name padded beyond the column meets its own row in the upsert and stores twice the new delta |
| Refinement.PaddedNameSplitsReaders | internal/storage/db.go:79 | a padded gauge name over a counter row: both requests succeed and the readers disagree |
| Refinement.ZeroCharacterNameOnlyInMemory | internal/storage/db.go:226-227 | a name with a zero character is stored in memory and refused by the table |
| Refinement.FirstWriteRaceInTable | internal/storage/db.go:73 | the concrete race: two first inserts of a counter store twice the second delta, the right sum exactly when the deltas are equal |
| Hybrid.HybridStorage.Insert | internal/storage/hybrid.go:57-63 | the in-memory insert, then a backup if one is due |
| Hybrid.HybridStorage.Update | internal/storage/hybrid.go:65-71 | the in-memory update, then a backup if it succeeded and one is due |
| Hybrid.HybridStorage.BatchUpdate | internal/storage/hybrid.go:153-159 | the in-memory batch, then a backup if it succeeded and one is due |
| Hybrid.HybridStorage.BackupCaller | internal/storage/hybrid.go:73-81 | nothing when backups are off or not due, otherwise one backup |
| Hybrid.HybridStorage.Encode | internal/storage/hybrid.go:99-102 | appends the record, or fails: on a value JSON rejects, on a full disk, or for good after a write error |
| Hybrid.HybridStorage.Backup | internal/storage/hybrid.go:83-108 | the file becomes a record per metric in some order, or some of them up to the first failure; memory is untouched |
| Hybrid.HybridStorage.Restore | internal/storage/hybrid.go:110-138 | reads the file into memory without writing it; backups end on exactly when it succeeds |
| Hybrid.HybridStorage.Close | internal/storage/hybrid.go:140-151 | a final backup when backups are on; the file is then closed, unless the backup failed, and closing it twice is an error |
| Hybrid.GetThenWrite | internal/handlers/main.go:173-203 | a handler's two calls over the backed-up store are one request on memory, then a backup if it succeeded and one is due |
| Hybrid.NewHybridStorage | internal/storage/hybrid.go:23-55 | an error without an interval or when a named file cannot be opened; otherwise a storage with the restored metrics, backups on exactly when there is a file and no restore failed |
| HybridRuns.RestoreInvertsBackup | internal/storage/hybrid.go:83-138 | restoring a complete backup in any record order rebuilds exactly the saved map, kinds included |
| HybridRuns.BackupSucceedsIff | internal/storage/hybrid.go:83-108 | a backup succeeds exactly when every gauge is finite and no write error sticks to the encoder |
| HybridRuns.StopSucceedsIff | internal/storage/hybrid.go:140-151 | a graceful stop succeeds under the same condition; the file is then the image of memory, otherwise it holds part of it |
| HybridRuns.RestartPreservesIff | internal/storage/hybrid.go:23-151 | stop plus start brings the state back exactly when every gauge is finite, the mutex is free and no write error sticks; what comes back is always part of what was there |
| HybridRuns.RestartTransparency | internal/storage/hybrid.go:23-159 | two runs with the same store calls end with the same map however many stops and restarts each has; it is the map memory alone computes, and each call ends as it does there |
| HybridDurability.DueIffOverdue | internal/storage/hybrid.go:77 | the test in backupCaller is the plain difference of the times for intervals up to 9223372036 seconds, and never true beyond |
| HybridDurability.LastIsTimeOfSave | internal/storage/hybrid.go:83-93 | in every run, failing calls included, the storage remembers the clock of the last event that emptied the file and started to write it, or Go's zero time after an opening |
| HybridDurability.MutationWritesIff | internal/storage/hybrid.go:57-108 | in every run a mutation within the store interval of that event leaves the file alone, and a successful later one with backups on writes it |
| HybridDurability.StalenessBound | internal/storage/hybrid.go:73-108 | at every moment the file is the image of the store as the last save left it, and every mutation that has succeeded since was made within the store interval of that save |
| HybridDurability.CrashLosesOnlyRecentMutations | internal/storage/hybrid.go:73-138 | starting again on the file after a crash between calls brings back the store as the last save left it; every successful mutation that is lost was made within the store interval of that save |
| HybridDurability.ZeroIntervalWritesThrough | internal/storage/hybrid.go:73-81 | with interval 0 and a clock that has moved on since the last save every successful mutation is in the file |
| HybridDurability.FirstBackupIsDueIff | internal/storage/hybrid.go:49-77 | the first successful mutation of a storage that has just been opened is in the file exactly for intervals up to 9223372036 seconds; beyond that the file stays |
| HybridDurability.StartWithoutRestore | internal/storage/hybrid.go:23-55 | a storage opened without a restore starts empty, keeps the file until its first save and then replaces it |
| HybridDurability.WithoutFileIsMemory | internal/storage/hybrid.go:28-37 | without a file every call does and ends as in memory, and a restart loses everything |
| HybridDurability.FailedBackupLoses | internal/storage/hybrid.go:83-108 | a backup that fails after the truncation leaves a file that restores only metrics that were there, and not all; the restore fails exactly when the last record is torn |
| HybridDurability.StopErrors | internal/storage/hybrid.go:140-151 | a second stop is an error and changes nothing; a stop whose file does not close is one but has saved; with backups off a stop only closes the file |
| HybridRuns.FailedRestoreFreezesFile | internal/storage/hybrid.go:110-151 | after a failed restore no mutation, stop or restart changes the file or turns backups on |
| HybridRuns.WriteErrorIsPermanent | internal/storage/hybrid.go:99-105 | after a write error the file is only ever emptied until a restart |
| HybridRuns.CallAfterStopIsLost | internal/storage/hybrid.go:83-151 | a call after a stop changes memory and not the closed file, reports an error exactly when a backup was due, and is gone after the next start |
| HybridRuns.RestoreStopsAtStray | internal/storage/hybrid.go:110-138 | a restore reads nothing from the first stray bracket on, and ends without an error exactly when every line before it is a readable record |
| HybridRuns.RestoredMeaning | internal/storage/hybrid.go:110-138 | it then gives every name what its last record before the bracket says, and no other name anything |
| HybridRuns.StrayBracketErasesRest | internal/storage/hybrid.go:83-138 | backups are then on, and one of the storage as opened makes the file the image of what stood before the bracket |
| HybridRuns.NothingLostIff | internal/storage/hybrid.go:83-138 | memory and the file then still hold what every name's last record says exactly when each name with a record after the bracket ends there on the reading it has before it |
| HybridRuns.RecordsWithoutBrackets | internal/storage/hybrid.go:110-138 | for a file of readable records and brackets, that is what restoring the records without the brackets gives |
| HybridRuns.NewerValueIsLost | internal/storage/hybrid.go:110-138 | a concrete file with a newer value of a name behind the bracket, which is lost |
| PipelineInvariant.TickIsGood | internal/agent/collect.go:24-54 | a tick of the first source is 29 messages of its own names with one PollCount, at place 27; the extra source sends none |
| PipelineTheorems.MemTickIsStored | internal/agent/collect.go:27-54 | the 29 names of a tick are distinct, so a new store that receives it holds each reading under its own name and a PollCount of 1 |
| PipelineTheorems.ExtraTickIsStored | internal/agent/collect.go:76-94 | likewise for the three readings of the extra source |
| PipelineInvariant.StepKeepsInv | internal/agent/collect.go:15-145 | every step keeps FIFO order per source, channel capacities, the closing protocol and the store's kinds |
| PipelineInvariant.UntypedMessage | internal/agent/collect.go:122-143 | a message of neither type is dropped under a new name and applied under a known one |
| PipelineTheorems.NeverCrashes | internal/agent/collect.go:102-143 | no reachable state sends on or closes a closed channel, drives the WaitGroup negative or reaches a store error or kind panic; the update channel closes only after both forwarders returned |
| PipelineTheorems.PollsInWindow | internal/agent/collect.go:27-54 | any stretch of the first stream holds one PollCount per 29 positions |
| PipelineTheorems.PollCountIsConserved | internal/agent/collect.go:16-143 | stored PollCount is the number emitted minus those in flight, and at most two are in flight |
| PipelineTheorems.SnapshotIsSequential | internal/agent/collect.go:102-145 | at every moment of every run the store is that of applying a prefix of the first stream and then a prefix of the second |
| PipelineTheorems.CompleteRunIsSequential | internal/agent/collect.go:102-145 | every complete run ends with the store of applying the first stream and then the second |
| PipelineTheorems.Confluence | internal/agent/collect.go:102-145 | complete runs with the same streams end with the same store |
| PipelineTheorems.ReachableStep | internal/agent/collect.go:22-143 | every step but a tick strictly decreases the weighted count of messages and goroutines |
| PipelineTheorems.TicklessRunsEnd | internal/agent/collect.go:22-144 | runs without further ticks are bounded, and one that is stuck after cancellation is complete |
| PipelineTheorems.CancelledPipelineDrains | internal/agent/collect.go:22-144 | after cancellation the consumer can always be driven to its end with every message applied exactly once |
| PipelineTicks.StreamCarriesTicks | internal/agent/collect.go:24-94 | in every run each source's stream is one block per tick, and the k-th block carries, name by name, the readings of the k-th tick |
| PipelineTicks.SnapshotHoldsTicks | internal/agent/collect.go:22-145 | at every moment of every run the store has of each source the readings of some tick, but for the first names in sending order, which may have the next one's; PollCount is the number of ticks it has seen |
| PipelineTicks.CompleteRunHoldsLastTick | internal/agent/collect.go:22-145 | a complete run ends with every gauge at the reading of its source's last tick and PollCount at the wrapped number of ticks |
| PipelineTicks.SnapshotNames | internal/agent/collect.go:27-94 | the store never has a name that is not one of the 32 |
| PipelineTicks.EveryTickListHappens | internal/agent/collect.go:22-145 | any list of ticks is that of some complete run, wherever in it the cancellation comes |
| PipelineTicks.CollectorWaitsAfterTwenty | internal/agent/collect.go:16 | with its forwarder asleep a collector sends 20 messages and waits |
| PipelineTicks.ForwarderWaitsAfterTwenty | internal/agent/main.go:53 | with the consumer asleep a forwarder passes on 20 messages and waits with the next |
| SendWorkers.PoolConserves | internal/agent/send.go:26-87 | rateLimit workers and at most as many sends at once, queue order, each queued message in exactly one place, nothing sent after the close |
| SendWorkers.QueueIsTicks | internal/agent/send.go:41-84 | in every reachable state the queue is a front of the items the ticks have brought, in their order; before cancellation it is all of them but the message on offer and the rest of the loop |
| SendWorkers.CancelAtSelect | internal/agent/send.go:41-84 | a producer cancelled at its select has queued everything brought by then and queues nothing later |
| SendWorkers.CancelStopsQueueing | internal/agent/send.go:41-84 | after cancellation at most the message already being offered is still queued, whatever ticks follow |
| SendWorkers.PoolDrains | internal/agent/send.go:38-163 | with a worker, runs without further ticks are bounded and end, after cancellation, with every queued message handled by one worker once |
| SendWorkers.EverySnapshotIsHandled | internal/agent/send.go:38-163 | with a worker, any snapshot can be queued whole before the cancellation and handled to the end |
| SendWorkers.ChannelHoldsTwenty | internal/agent/main.go:54 | up to 20 metrics are queued even without workers |
| SendWorkers.PoolWithoutWorkersHangs | internal/agent/send.go:30-77 | with no workers and more than 20 metrics the producer blocks for good |
| Requests.NoLostUpdates | internal/handlers/main.go:253-263 | in every complete interleaving every request succeeds; an existing counter ends at its wrapped start plus all deltas, an existing gauge at the last Update |
| Requests.RaceFreeRunsAreSerializable | internal/handlers/main.go:173-203 | any interleaving of any requests equals the completed ones run one after the other in write order, with the same store and outcomes, unless an insert overtook another first write; with all names present it always does |
| Requests.FirstWritesKeepTotalIff | internal/handlers/main.go:173-203 | a missing counter ends at the total of its deltas in every complete interleaving exactly when at most one request names it or all its deltas are 0 |
| Requests.LosingRun | internal/handlers/main.go:173-203 | for any two requests on a missing counter a complete interleaving that loses exactly the delta of the first |
| Requests.FirstWriteRace | internal/handlers/main.go:173-203 | the interleaving of two first writes that loses the first delta |
| Replies.RunIsPlainRun | internal/handlers/main.go:173-208 | with replies and metric objects every run is a run of the two-step requests with the same store and outcomes |
| Replies.ReplyAddsLaterWrites | internal/handlers/main.go:208 | a reply is the value of the handler's object right after its own write plus all deltas written to that object until the reply is read, or the last gauge |
| Replies.ReplyIsSerialIff | internal/handlers/main.go:173-208 | without an insert race a reply is the one of serial execution in write order exactly when what was written in between comes to nothing |
| ReplyGuard.RepliesAreSerialIff | internal/handlers/main.go:173-208 | all interleavings give all clients serial replies, for names that are stored and names that are not, exactly when requests that share a counter bring no deltas and requests that share a gauge bring one value |
| Clients.BatchesKeepUpdates | internal/storage/memory.go:58-81 | concurrent batches and requests, interleaved element by element: when no client can go on all elements are applied, an existing counter has all deltas, an existing gauge its last value |
| Clients.ClientsStopAtFailure | internal/storage/memory.go:58-81 | in every run no element moves before all earlier ones of its batch have succeeded, and after a failing one its client never moves again |
| Clients.AloneIsBatch | internal/storage/memory.go:58-81 | a client nobody interrupts does what the batch does |
| Clients.BatchesMix | internal/storage/memory.go:58-81 | two concurrent batches that leave one gauge of each, which neither order does |
| TableRequests.AloneIsSerial | internal/handlers/main.go:173-203 | an uninterrupted request of the interleaved model is the serial request on the table |
| TableRequests.NoLostUpdatesInTable | internal/storage/db.go:89-104 | at any moment of any interleaving an existing counter row is its start plus the deltas of exactly the requests that succeeded, an existing gauge row the last success |
| TableRequests.NeverRefusedIff | internal/storage/db.go:89-104 | no interleaving refuses a request for an existing counter exactly when the row has room for all increments and for all decrements |
| TableRequests.RoomKeepsTotal | internal/storage/db.go:89-104 | then the row ends, as the counter in memory does, at the start plus all deltas |
| TableFirstWrites.FirstWritesInTableIff | internal/storage/db.go:66-104 | a missing counter ends in the table at the sum of its deltas in every complete interleaving exactly when at most one request names it, or all deltas are 0, or two requests bring one delta whose double fits |
| TableFirstWrites.LastWins | internal/storage/db.go:73 | for any two requests on a missing counter an interleaving in which the last upsert leaves twice its delta, or is refused |
| TableReplies.RunIsPlainRun | internal/handlers/main.go:173-208 | with replies every run over the table is a run without them |
| TableReplies.AloneAnswersRow | internal/handlers/main.go:173-208 | an uninterrupted request that succeeds, by an UPDATE or by an INSERT, is answered with what the next Get returns; any other ends as the serial request |
| TableReplies.ReplyMissesOthers | internal/storage/db.go:89-104 | a reply is the row as its SELECT saw it plus its own delta; the row after its UPDATE also has the successes in between, and the two are equal exactly when those cancel out |
| TableReplies.AnswersAreRowsIff | internal/storage/db.go:89-104 | with room in the counter, all interleavings answer all clients with the row exactly when one request names it or none changes it |
| Wire.SendReportInBatch | internal/agent/send.go:90-106 | the body is the JSON report of the whole store, each name once, in some order; null for an empty store, an error for a non-finite gauge |
| Wire.SendReportInBatchGRPC | internal/agent/send.go:246-281 | the request is the protobuf report of the whole store, each name once, in some order |
| Wire.DecodeMetrics | internal/handlers/main.go:312-335 | the token and element loop computes the decoding; empty braces are an empty batch, null and other bodies fail, as does an array without its end |
| Wire.DecodesElementwise | internal/handlers/main.go:318-332 | the loop succeeds exactly when every element decodes, with the elements in order, and otherwise fails with the error of the first that does not |
| Wire.Translate | internal/grpc/server/main.go:187-210 | the loop computes the translation, with its error or nil dereference |
| Wire.TranslatesElementwise | internal/grpc/server/main.go:187-210 | it succeeds exactly when every message translates, in order, and otherwise fails with the error of the first that does not |
| Wire.Updates | internal/handlers/main.go:338-360 | a body that is neither empty braces nor an ended array of records of named gauges and counters is an error and stores nothing; any other is one batch of the records' names and fields, in order |
| Wire.BatchUpdate | internal/grpc/server/main.go:187-216 | unless every message has a name, a type and its value nothing is stored, and the first that has not decides between an error and a nil dereference; otherwise one batch of the names and values, in order |
| Wire.MissingFieldStopsBatch | internal/handlers/main.go:312-360 | a record without the field of its type is accepted and stops the batch with an error: what stood before it is stored, and the mutex stays locked exactly if its name is known by then |
| Wire.DeliveredIff | internal/agent/send.go:90-106 | the JSON path delivers exactly the non-empty stores with finite gauges and non-empty names, the protobuf path every store |
| Wire.CarriedMerges | internal/grpc/server/main.go:187-216 | a report adds each counter, stores each gauge, creates each new name and leaves the rest, and succeeds exactly when the kinds agree |
| Wire.WirePathsAgree | internal/agent/send.go:90-281 | both paths change any server in the same way whatever orders the encoders walk the map in |
| Wire.ReportRebuildsStore | internal/grpc/server/main.go:187-216 | a report to an empty server rebuilds the agent's store |
| EndToEnd.FirstReportSurvivesRestart | internal/agent/send.go:41-56 | the first report the agent delivers, taken at any moment of a run, to a new server, over either path and across a restart, is the store of applying a prefix of the first stream and then a prefix of the second |
| EndToEnd.FirstReportHoldsTicks | internal/agent/send.go:41-56 | in terms of the ticks: of each source the readings of some tick, and those of the next under its first names |
| EndToEnd.TableTakesAgentReports | internal/storage/db.go:106-168 | the table takes the reports of any number of agents and stays equal to memory while their poll counts add up to less than 2^63 |
| EndToEnd.NonFiniteGaugeStopsBackups | internal/storage/hybrid.go:98-107 | one protobuf message with a NaN or infinite gauge is stored, and then backups and JSON reports fail |
| WorkerPath.ItemArrives | internal/agent/send.go:62-82 | a queued metric reaches the handler as itself exactly when its name is not empty and its gauge finite |
| WorkerPath.SnapshotMerges | internal/handlers/main.go:173-203 | concurrent requests that carry each metric of a snapshot once merge it into the server as one batch would, in any interleaving |
| WorkerPath.WorkersDeliverSnapshot | internal/agent/send.go:26-163 | a pool whose ticks bring the snapshot, cancelled when its producer is back at the select, and drained: the requests its workers have made, in any order of handling and any interleaving at the server, do that |
| WorkerPath.PoolHandlesSnapshot | internal/agent/send.go:58-163 | those requests carry each metric of the snapshot once |
| WorkerPath.SnapshotsDrain | internal/agent/send.go:26-163 | with a worker there is such a run for every store |

## Left out

- Clients.ClientsStopAtFailure: an element without a number under a new name counts as a panic there, where the batch returns an error (`StoppingElement` has it right); either way its client stops.
- HTTP routing, status codes, content types, HTML pages, logging, pprof and signal handling: no state to reason about.
- Gzip, RSA, HMAC and subnet checks: thin wrappers over libraries that are not part of this model.
- The gRPC single-metric update (`internal/agent/send.go:213-243`, `internal/grpc/server/main.go:136-185`): it writes through nil sub-messages, so it has no useful run.
- gRPC `List` and `Get`: the same per-metric translation as `ToPb`, streamed one by one.
- Equality of agent and server counters over several reports: the agent sends its running total as a delta each time, so it does not hold; the composed result is about the first report.
- Names that are not valid UTF-8, which JSON would rewrite: names are Unicode text here.
- Float rounding, range and text formatting, and JSON tokenising: finite gauges are reals and JSON is modelled at the level of records.
- The float64 rounding of `Duration.Seconds` in the backup test: compared exactly in nanoseconds.
- Concurrent use of the backed-up store and of the live map that `GetAll` returns, which race in the code: the file store is serial, and the agent's reports are taken from an atomic snapshot.
- A crash inside `Backup`, between the truncation and the last record: `CrashLosesOnlyRecentMutations` is about crashes between calls.
- The batch transaction is serial: isolation between concurrent transactions is not modelled. Interleaved requests over the table are single statements, for names the column holds.
- Sensor read errors of the extra collector, which panic the agent, and lost ticker ticks: a tick happens or does not.
- A second `Restore` on one storage, which no caller makes: the decoder would start where the first one stopped.
- What happens to a message a worker has taken: it counts as handled whether or not the server gets it. `WorkersDeliverSnapshot` is about requests that each arrive once. After cancellation every attempt fails, and `Run` returns without waiting for the workers or the consumer, so draining is what they do if the process lives on.
- The reply is read off the metric object without the mutex; it is modelled as one atomic read.
- The `UpdateJSON` handler appears once per store class, because one Go interface value stands for all of them; the URL form of the handler makes the same storage calls.
- Retry schedules, configuration precedence and the static analyser: only easy claims.
