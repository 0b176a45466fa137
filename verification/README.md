# PranaDB: a verified model

PranaDB is a sharded streaming database on a vendored Dragonboat Raft engine. This project models, in Dafny, the
parts of it whose correctness rests on bookkeeping or encoding, and proves what those parts are for:

- **Keys** (`Bytes`, `StringKeys`, `KeyEncoding`, `RowKeys`, `TableKeys`): byte order of encoded keys is the order of the
  encoded tuples, encodings are prefix-free, decoding inverts encoding, table scans hold exactly one table.
- **Exactly-once forwarding** (`Forwarding`, `ForwardingLimits`, `ShardReceiver`): rows move between shards under
  failures, retries and re-batching; the whole system is a state machine over arbitrary interleavings.
- **The Raft host** (`SnapshotPipeline`, `SnapshotRequests`, `WorkerPool`, `NodeStatus`, `ApplyQueue`, `SnapshotStore`,
  `EntryQueue`, `WorkReady`, `Proposals`, `ProposalOutcomes`, `ReadIndex`, `ReadOutcomes`): apply workers, the snapshot
  worker pool, ready maps, pending requests. Every panic of the modelled code is a flag in the state, and the theorems say
  which runs never set it. Beside what never goes wrong, they say what does happen: what is asked for is served, what is
  marked is handed over, what is due is told, each of it told from the steps of the run alone.
- **The leader rebalancer** (`Rebalancer`): in-place swaps, undo and a randomized search with a real guarantee.
- **Replicated state machines** (`NamedKeys`, `LockMachine`, `SequenceMachine`): memory and stored table agree over
  batches and reloads.
- **Phased DDL** (`PhasedDdl`, `DdlGuarantees`, `DdlFailures`, `DdlRuns`): commands whose broadcasts skip nodes, whose
  phases fail and whose nodes crash and come back at any moment; what always holds, what holds but for certain steps, and
  that exactly those steps break it.
- **Framing** (`Framing`), **write batches and initial loading** (`WriteBatches`, `InitialLoad`).

Concurrency is modelled with one step per critical section, channel operation or atomic; the theorems quantify over all
sequences of steps (`Run`). Objects that the source updates in place are classes whose methods are proved against the
functions the theorems are about. Network, clocks, random choices and map iteration order are parameters of steps or
nondeterministic choices.

## What turned out not to hold, and exactly when it does

- *Forwarding.* A batch with a row for an unknown remote consumer is given up without an error
  (`push/engine.go:543-549`) and the scheduler moves on. `ExactlyOnce` is proved for every run that gives up no batch;
  `SkipLosesRow` shows that giving up a batch with a due, not yet accepted row can always be continued, without any
  failure, to a state where that row is lost, and `LostForever` that nothing brings it back. Rows of a batch are grouped
  by consumer in map order, so a shard that is due rows of two consumers for one table can receive their sequences out of
  order: `ExactlyOnce` holds for configurations in which rows of two consumers never meet (`NeverMeet`), and in every
  other configuration some run without failures loses a row (`TwoFeedersLoseRow`, `MeetingLosesRow`). At-most-once,
  in-order and genuine delivery holds in every run without these conditions (`AtMostOnce`).
- *Worker pool.* The pool reads the host's cluster map and publishes what it has loaded in two steps, and the guard on
  starting a cluster looks for the same node id only. A cluster that is started while the pool is going to have an earlier
  incarnation of it makes the pool panic once it reads on (`OvertakingPanics`): a restart between reading and adopting, or
  a start under another node id before the pool has let the stopped node go (`OvertakingHappens` gives both runs). Runs
  without such a start are free of panics (`TokenDiscipline`).
- *Ready maps.* The batch forms keep notified partitions in a 64-bit bitmap. A batch call with a cluster of partition 64
  or above panics, whatever has happened before (`WideBatchPanics`); runs without such a call do not.
- *Doubles.* Negative zero and NaNs with a clear sign bit do not survive the key round trip; all other bit patterns do
  (`FloatRoundTrip`).
- *Scans.* A key shorter than 16 bytes is in a table's scan range exactly when the next table's prefix starts with it and
  the table's own does not (`ShortKeyInScan`), and there are such keys (`ForeignShortKey`). Every key the modelled code
  stores has a full prefix.
- *Framing.* The type byte is taken once per socket read, so messages completed by one read are reported with the type of
  the first one (`ReadReportsOneKind`); with one type per connection framing is exact.
- *Initial load.* Any number can be set as the page size. From two on the load ends. With pages of one row, or with -1,
  which the scan takes for no limit, no number of passes finishes a shard that has rows (`LoadPasses`,
  `OneRowPagesRepeat`); with no positive size a pass over an empty page looks up its last pair and panics (`LoadShard`).
- *DDL, registration.* A registered object has its row persisted, but for two kinds of steps: the first broadcast of a drop
  misses a node that has the view registered, or a node starts before a drop has deleted the row. `RegisteredIsPersisted`
  is proved for runs without them and `SpoiltDrop` shows that each of them, in whatever run, can be continued to a view
  that is registered without its row (`MissedNodeKeepsView`, `RejoinBreaksDrop`).
- *DDL, data.* Data is that of a persisted object or marked in to_delete, except on a node that never stored the prefixes,
  which a fill can reach all the same, because the broadcast has missed it (`FillReachesMissedNode`) or because another
  node is ahead (`IndexFillsEarly`), and except on nodes that did not drop the view themselves, as a drop stores its
  prefixes on the originating node only (`DropUncovers`). And but for two kinds of steps: a node that has stored the
  prefixes starts while a fill is still to come, or the second broadcast of a drop misses the dropping node.
  `DataIsCovered` is proved for runs without them, and `LostMark` shows that each of them can be continued to data that
  nothing covers (`RejoinLosesMark`, `DropMissesItself`).
- *DDL, start-up.* The startup check looks for tables only. Data of a persisted view is never lost; data of a persisted
  index is lost exactly when a node starts that has stored the prefixes and not yet removed them (`PersistedDataLoss`,
  `IndexDataLost`).

Where code and comments disagree the code is followed: the group marker of encoded strings is 255 less the padding count,
not a number from 1 to 8 (`common/string_key_encoding.go:35-55`).

## Model

| member | source | states |
|---|---|---|
| `Bytes.BigEndianSplits` | common/encoding.go:33-35 | smaller numbers have big-endian bytes that differ from larger ones at a smaller byte, so order survives any suffix |
| `Bytes.BigEndianAt` | common/encoding.go:33-35 | each appended byte is the shifted and masked number |
| `Bytes.LittleEndianAt` | common/encoding.go:28-31 | the same, least significant byte first |
| `Bytes.LittleEndianRoundTrip` | common/encoding.go:75-98 | reading appended little-endian bytes gives the number back |
| `Bytes.ReadUint64BEInverse` | common/encoding.go:105-111 | a big-endian word is read back wherever it sits, with the offset after it |
| `StringKeys.KeyEncodeString` | common/string_key_encoding.go:35-55 | the loop appends exactly the grouped encoding |
| `StringKeys.KeyDecodeString` | common/string_key_encoding.go:57-98 | the loop computes the decoding, errors included |
| `StringKeys.PaddingValid` | common/string_key_encoding.go:57-98 | padding is valid exactly when it is all zero |
| `StringKeys.EncodeStringSplits` | common/string_key_encoding.go:35-55 | encodings of ordered strings differ at a smaller byte: order and prefix-freedom at once |
| `StringKeys.DecodeEncode` | common/string_key_encoding.go:57-98 | decoding inverts encoding, at any offset and with any bytes following |
| `StringKeys.EncodeDecode` | common/string_key_encoding.go:57-98 | what decodes is exactly an encoding of the result |
| `StringKeys.EncodingAt` | common/string_key_encoding.go:35-55 | the layout, byte by byte: the string in groups of eight, zeros behind its end, and 255 less their number |
| `KeyEncoding.IntKeyOrder` | common/key_encoding.go:19-27 | key order is numeric order for signed integers, and the codec inverts |
| `KeyEncoding.IntKeyCounts` | common/key_encoding.go:19-27 | the key of an integer is the integer counted from the smallest one |
| `KeyEncoding.FloatKeyOrder` | common/key_encoding.go:29-37 | key order is IEEE 754 numeric order for all pairs of numbers |
| `KeyEncoding.FloatRoundTrip` | common/key_encoding.go:29-48 | exactly which bit patterns survive the round trip |
| `KeyEncoding.ColumnEmbeds` | common/key_encoding.go:158-189 | per column type, comparing values decides how encodings compare under any suffix |
| `KeyEncoding.ColumnRoundTrip` | common/key_encoding.go:203-264 | a column is decoded from any position with any suffix, to its value and end offset |
| `RowKeys.EncodeKeyCols` | common/key_encoding.go:129-156 | both column loops compute the tuple encoding, with null markers for index keys, errors included |
| `RowKeys.RowEmbeds` | common/key_encoding.go:129-156 | encodings of two tuples compare as the tuples do, under any suffix |
| `RowKeys.KeyOrder` | common/key_encoding.go:129-189 | byte order of keys is column-wise order, nulls first, equal keys are equal tuples, no key is a proper prefix of another |
| `RowKeys.DecodeIndexOrPKCols` | common/key_encoding.go:191-264 | the decoding loop fills the output columns with the decoded cells |
| `RowKeys.KeyRoundTrip` | common/key_encoding.go:191-264 | decoding an encoded tuple returns its cells and the end offset |
| `TableKeys.IncrementBytesBigEndian` | common/util.go:108-123 | the in-place loop computes the next byte string, and fails exactly for all ones |
| `TableKeys.IncrementIsSuccessor` | common/util.go:108-123 | as numbers, the result is one more |
| `TableKeys.PrefixRange` | common/util.go:108-123 | for keys at least as long, the range from p to its increment is exactly the keys that start with p |
| `TableKeys.NextTablePrefix` | table/table.go:23-29 | the increment of a table's prefix is the prefix of the next table id |
| `TableKeys.TableScan` | table/table.go:23-29 | a scan from prefix to next prefix holds exactly the table's keys in that shard |
| `TableKeys.ShortKeyRange` | common/util.go:108-123 | of the shorter keys, the range holds exactly those that the increment starts with and p does not |
| `TableKeys.ShortKeyInScan` | table/table.go:23-29 | exactly which keys without a full prefix a table's scan would return |
| `TableKeys.ForeignShortKey` | table/table.go:23-29 | there is such a key |
| `TableKeys.IndexOrder` | table/table.go:36-53 | index entries sort by the index columns, then the primary key, and are unique per primary key |
| `TableKeys.IndexValueFindsRow` | table/table.go:36-53 | table prefix plus index value is the row's table key |
| `TableKeys.TableKeyUnique` | table/table.go:31-34 | rows with equal table keys have equal key columns |
| `Forwarding.ReceiveAllRecords` | cluster/dedup.go:78-95 | whatever is interleaved, an originator's arrivals are let through exactly where they exceed all before |
| `Forwarding.MessageIsRouted` | push/engine.go:539-631 | for any iteration order of consumers, a batch sends a shard exactly the rows it owes, in order |
| `Forwarding.RoutedAreDue` | push/exec/aggregator.go:132-149 | the rows owed are rows of the log that feed the table and are routed to the shard, each carrying what the routing gives for it, in order of their sequences |
| `Forwarding.DueAreRouted` | push/exec/aggregator.go:132-149 | and every such row is among them |
| `Forwarding.QueueFollows` | push/sched/scheduler.go:244-272 | rows that enter the receiver table are queued, in order and once, exactly as long as the processor has not failed |
| `Forwarding.ResendCompletes` | cluster/dedup.go:23-77 | resending any stretch that starts within what was accepted adds exactly what is missing |
| `Forwarding.NextRowsFollow` | push/sched/scheduler.go:431-514 | the next batch is the rows right after the committed ones, after a restart or from the queue |
| `Forwarding.BeginInv` | push/engine.go:419-465 | starting a batch keeps the invariant |
| `Forwarding.DeliverInv` | cluster/dragon/shard_odsm.go:215-287 | delivering a message, late or again, keeps the invariant |
| `Forwarding.CommitInv` | push/engine.go:596-631 | committing a batch whose forwards were all accepted keeps the invariant |
| `Forwarding.StepInv` | push/engine.go:419-465 | every step that gives up no batch keeps the invariant |
| `Forwarding.ExactlyOnce` | cluster/dedup.go:23-77 | in every run, what a shard accepts from an originator is the in-order, duplicate-free list of the rows due to it up to some sequence that covers every committed row: nothing but due rows, each as the routing gives it, and all of them; local effects happen once and in order, and a row leaves the receiver table exactly then |
| `ForwardingLimits.AtMostOnce` | cluster/dedup.go:78-95 | in every run at all, accepted rows are genuine and strictly ascending |
| `ForwardingLimits.AcceptedIsRouted` | push/exec/aggregator.go:132-149 | in every run at all, an accepted row stands for a stored row of its originator that feeds the table and is routed there, and is what the routing gives for it |
| `ForwardingLimits.RowsConserved` | cluster/dragon/shard_odsm.go:215-287 | in every run at all, a receiver table has been given exactly the rows produced there and those accepted, each as often |
| `ForwardingLimits.AcceptedIsStored` | cluster/dragon/shard_odsm.go:219-268 | in every run what has been accepted has been stored |
| `ForwardingLimits.AlwaysReadable` | push/engine.go:499-537 | in every run the rows of the next batch exist in the receiver table |
| `ForwardingLimits.LostForever` | cluster/dedup.go:78-95 | a row passed over by dedup is never accepted later |
| `ForwardingLimits.SkipLosesRow` | push/engine.go:543-549 | giving up a batch with a due row leads, without failures, to its loss |
| `ForwardingLimits.TwoFeedersLoseRow` | push/engine.go:539-631 | rows of two consumers that meet: a run without failures that loses a row |
| `ForwardingLimits.MeetingLosesRow` | push/engine.go:539-631 | every configuration that exactly-once leaves out has such a run |
| `ShardReceiver.ShardStateMachine.DoDedup` | cluster/dedup.go:78-95 | reports and records exactly as the protocol's test says |
| `ShardReceiver.ShardStateMachine.CheckDedup` | cluster/dragon/shard_odsm.go:366-383 | the batch's dedup entries follow the cache |
| `ShardReceiver.ShardStateMachine.HandlePut` | cluster/dragon/shard_odsm.go:219-268 | one forwarded row takes caches and batch to the protocol's next state |
| `ShardReceiver.ShardStateMachine.HandleForwardWrite` | cluster/dragon/shard_odsm.go:215-287 | a forward write is receiving its rows one by one, in caches and batch |
| `ShardReceiver.ShardStateMachine.Update` | cluster/dragon/shard_odsm.go:129-205 | a batch of entries is applied as a whole and then storage is the protocol's state, or fails and leaves storage alone; the processor is handed exactly the accepted sequences |
| `ShardReceiver.ShardStateMachine.Load` | cluster/dragon/shard_odsm.go:534-585 | after a crash at any moment, also within a batch, reloading gives the state of the last applied batch |
| `SnapshotPipeline.ApplyOk` | dragonboat/node.go:1322-1480 | the apply worker's steps trip no assertion while what is ready is flagged |
| `SnapshotPipeline.ApplyTokens` | dragonboat/node.go:1332-1480 | a token is created exactly when a flag is set and taken exactly when it is cleared |
| `SnapshotPipeline.RequestIsPassedOn` | dragonboat/node.go:1332-1355 | in flags and mailboxes: a task is passed on exactly when none of its kind is under way and, to stream, when it can be; an uninitialized node asks to recover |
| `SnapshotPipeline.CompletionIsTaken` | dragonboat/node.go:1432-1480 | a flagged, completed request is taken and its flag cleared, and nothing else is touched |
| `SnapshotPipeline.RecoveryInitializes` | dragonboat/node.go:1432-1453 | a node becomes initialized by taking its initial recovery and in no other way |
| `SnapshotPipeline.PassGoesOn` | dragonboat/node.go:1402-1480 | where a pass of the apply worker stops, and that it otherwise comes to the next task |
| `SnapshotPipeline.ScheduleActs` | dragonboat/engine.go:643-734 | the scheduler gives the first idle worker the first job that can be acted on, or drops it exactly when its incarnation is gone; it does nothing only when there is no such worker or job |
| `SnapshotPipeline.StepInv` | dragonboat/engine.go:371-465 | every step of host, apply worker, pool and snapshot workers that does not overtake the pool keeps the invariant |
| `SnapshotPipeline.TokenDiscipline` | dragonboat/snapshotstate.go:36-63 | no assertion fails in any run that does not overtake the pool; at most one outstanding token per node and kind, only while flagged, and exactly one while flagged until the node is stopped |
| `SnapshotPipeline.PoolBooks` | dragonboat/engine.go:509-633 | saving, recovering and streaming count exactly what busy workers do and exclude each other; loads are map membership plus busy uses |
| `SnapshotPipeline.UsersCount` | dragonboat/engine.go:581-598 | the busy map names exactly the workers that use a node |
| `SnapshotPipeline.OvertakingPanics` | dragonboat/engine.go:480-507 | a start that overtakes the pool, in any run, leads to the two-incarnations panic |
| `SnapshotPipeline.OvertakingHappens` | dragonboat/nodehost.go:1591-1660 | both kinds of such a start come up, for every cluster |
| `SnapshotRequests.StepAccounts` | dragonboat/engine.go:371-465 | every step: tokens and flags come from asking for a request and go by taking or dropping it |
| `SnapshotRequests.RequestsAreServed` | dragonboat/node.go:1332-1480 | in every run that does not overtake the pool, requests asked for are those taken as completed, those dropped and the one under way; the flag is set exactly while one was asked for and not taken; none is dropped of a node that runs |
| `SnapshotRequests.InitializedByRecovery` | dragonboat/node.go:1432-1453 | in every such run a node is initialized exactly when a recovery has been taken for it |
| `SnapshotRequests.QueuedInOrder` | dragonboat/engine.go:415-450 | in every run the queue of the pool is in order of arrival |
| `SnapshotRequests.AsStarted` | dragonboat/nodehost.go:1591-1660 | in every run a node is of the kind it was started as |
| `WorkerPool.SnapshotPool.constructor` | dragonboat/engine.go:330-356 | a new pool has empty books |
| `WorkerPool.SnapshotPool.GetWorker` | dragonboat/engine.go:362-369 | the loop finds the first idle worker |
| `WorkerPool.SnapshotPool.Start` | dragonboat/engine.go:581-633 | marks worker and cluster as the pipeline's step does, panics included |
| `WorkerPool.SnapshotPool.ScheduleOne` | dragonboat/engine.go:643-734 | the loop drops or starts the job the pipeline's step chooses |
| `WorkerPool.SnapshotPool.ScheduleAll` | dragonboat/engine.go:635-641 | repeats until nothing can be dropped or started, and terminates |
| `WorkerPool.SnapshotPool.Completed` | dragonboat/engine.go:509-543 | books after a completion, panics included |
| `WorkerPool.SnapshotPool.Merge` | dragonboat/engine.go:480-495 | the merged map, unless two incarnations meet |
| `WorkerPool.SnapshotPool.LoadNodes` | dragonboat/engine.go:480-507 | adopts the host's map, loading what is new and offloading what is gone, and fails exactly when two incarnations meet |
| `WorkerPool.SnapshotPool.UnloadNodes` | dragonboat/engine.go:467-474 | with matching books every load returns to zero |
| `NodeStatus.SnapshotStatus.SetReady` | dragonboat/snapshotstate.go:47-55 | panics exactly when the mailbox is full |
| `NodeStatus.SnapshotStatus.TakeCompleted` | dragonboat/snapshotstate.go:57-63 | takes what is there and empties the mailbox |
| `NodeStatus.SnapshotStatus.ReportRequest` | dragonboat/node.go:1388-1398 | sets flag and mailbox as the pipeline's step does |
| `NodeStatus.SnapshotStatus.ProcessSaveStatus` | dragonboat/node.go:1455-1467 | is the pipeline's step at save |
| `NodeStatus.SnapshotStatus.ProcessStreamStatus` | dragonboat/node.go:1469-1480 | is the pipeline's step at stream |
| `NodeStatus.SnapshotStatus.ProcessRecoverStatus` | dragonboat/node.go:1432-1453 | is the pipeline's step at recover |
| `NodeStatus.SnapshotStatus.ProcessStatusTransition` | dragonboat/node.go:1402-1430 | an undisturbed pass is the composition of the pipeline's steps |
| `NodeStatus.SnapshotStatus.HandleSnapshotTask` | dragonboat/node.go:1332-1355 | is the pipeline's step for a snapshot request, panics included; in flags and mailboxes: the request is passed on exactly when none of its kind is under way and it can be served |
| `ApplyQueue.SliceStart` | dragonboat/node.go:553-570 | exactly when entries panic; otherwise the wrapping expression keeps exactly the entries after the pushed index |
| `ApplyQueue.PushesAreContiguous` | dragonboat/engine.go:1329-1350 | over any run of updates and saves pushes have no gap and no repeat and jump only to a snapshot not behind |
| `ApplyQueue.PushesAreTheLog` | dragonboat/node.go:586-625 | whatever updates repeat, the entries handed over are those of the committed log, each under its own index |
| `ApplyQueue.PanicsExactly` | dragonboat/node.go:553-625 | a run panics exactly when an update leaves a gap or ends behind, or a snapshot is behind what was handed over, stored or applied; otherwise the pushed index is how far the log was handed over |
| `ApplyQueue.NeverPanics` | dragonboat/node.go:553-625 | a gapless committed log never panics, whatever it repeats, and is handed over to its end |
| `ApplyQueue.Node.ProcessUpdate` | dragonboat/node.go:586-625 | one update, as the queue's specification says, panics included |
| `ApplyQueue.Node.StoreSaved` | dragonboat/node.go:712-765 | a saved snapshot's index is stored beside the updates |
| `SnapshotStore.CompactKeeps` | dragonboat/snapshotter.go:267-284 | compaction keeps everything above the limit and the newest three of the others, and removes only records older than all it keeps |
| `SnapshotStore.Snapshotter.CompactTo` | dragonboat/snapshotter.go:267-284 | the removal loop computes that compaction |
| `SnapshotStore.LogIsCovered` | dragonboat/node.go:712-779 | in every run the log is truncated only at or below a recorded snapshot, and removeLog's assertion holds |
| `SnapshotStore.TruncationFollowsSaves` | dragonboat/node.go:712-779 | in every run the log is truncated exactly as far as finished saves say, their index less their overhead, and only saved or received snapshots are recorded |
| `SnapshotStore.StepRecordsAre` | dragonboat/snapshotter.go:199-284 | what every step does to the set of records; finishing a save or a recovery leaves at most three up to its index |
| `SnapshotStore.ReaderMovesForward` | dragonboat/node.go:712-765 | the log reader moves only forward but for a restart, and a save behind it is given up |
| `SnapshotStore.NewestNeverDecreases` | dragonboat/snapshotter.go:199-234 | the newest recorded snapshot index never decreases |
| `EntryQueue.FirstInFirstOut` | dragonboat/queue.go:70-113 | what gets return, followed by what waits, is what adds accepted, in order; never more than the size |
| `EntryQueue.QueueIs` | dragonboat/queue.go:57-113 | how much waits, and whether the queue is paused, closed and takes an add, follows from the operations alone |
| `EntryQueue.OperationsDecide` | dragonboat/queue.go:70-113 | an add is accepted exactly when the operations before it leave room and neither pause nor close the queue; a get returns all that was taken since |
| `EntryQueue.EntryQueue.constructor` | dragonboat/queue.go:47-55 | a new queue is the empty bounded queue |
| `EntryQueue.EntryQueue.AddEntry` | dragonboat/queue.go:70-84 | refines the bounded queue and leaves the lent slice untouched |
| `EntryQueue.EntryQueue.Free` | dragonboat/queue.go:86-99 | frees exactly the commands it is due to free, and only in the new write buffer; with cycle 1 no stale command remains |
| `EntryQueue.EntryQueue.GetEntries` | dragonboat/queue.go:101-113 | returns exactly what was accepted since the previous get, as a slice that stays valid until the next |
| `EntryQueue.EntryQueue.CloseQueue` | dragonboat/queue.go:57-61 | closes the queue |
| `WorkReady.NoLostWakeup` | dragonboat/engine.go:153-226 | unless a batch call has a cluster of partition 64 or above, the ready map holds exactly what calls have marked since the last swap, told from the calls alone; if it is not empty there is a token, a producer about to notify or an awake consumer; ready is always maps[index % 2] |
| `WorkReady.SwapDelivers` | dragonboat/queue.go:204-215 | a swap hands over exactly what calls have marked since the previous one, told from the calls alone |
| `WorkReady.RunMarks` | dragonboat/engine.go:153-226 | in every such run how far each call is, the marks of every partition and what its worker was handed follow from the calls alone |
| `WorkReady.WideBatchPanics` | dragonboat/engine.go:41-57 | any batch call with a cluster of partition 64 or above, after any run, panics once it goes on |
| `WorkReady.ReadyCluster.SetClusterReady` | dragonboat/queue.go:198-202 | marks in the current map |
| `WorkReady.ReadyCluster.GetReadyClusters` | dragonboat/queue.go:204-215 | returns the marked clusters and leaves an empty map, also when the index wraps |
| `Proposals.CollectClears` | dragonboat/request.go:1188-1204 | after a due collection nothing pending has expired, nothing else is touched, exactly the expired are timed out |
| `Proposals.AtMostOneResult` | dragonboat/request.go:1061-1204 | over every interleaving a proposal gets at most one result, timeouts only past and results only up to the deadline, and an accepted proposal is never lost |
| `Proposals.CloseTerminates` | dragonboat/request.go:1113-1123 | closing terminates every pending proposal once |
| `ProposalOutcomes.RunTold` | dragonboat/request.go:1061-1094 | in every run the clock, the request and deadline of each key and the results under way are what the steps say |
| `ProposalOutcomes.StepNotices` | dragonboat/request.go:1113-1204 | every step sends each proposal exactly the notice it is due, or none |
| `ProposalOutcomes.StepPending` | dragonboat/request.go:1094-1204 | a proposal leaves the table exactly by a timeout, a result or being withdrawn |
| `ProposalOutcomes.ResultArrives` | dragonboat/request.go:1135-1182 | in every run a pending proposal can be given its result at any tick up to its deadline, is then sent exactly that, and only for its own client and series |
| `ProposalOutcomes.LateAreTimedOut` | dragonboat/request.go:1188-1204 | in every run a collection that is due times out every late pending proposal and no other |
| `ProposalOutcomes.QueuedIsNeverLost` | dragonboat/request.go:1094-1111 | in every run a proposal whose caller was told that it is queued is pending, about to be notified, or notified once |
| `Proposals.ProposalShard.TakeProposal` | dragonboat/request.go:1135-1152 | takes exactly a live, matching, pending proposal |
| `Proposals.ProposalShard.GcAt` | dragonboat/request.go:1188-1204 | is the collection, with the unsigned comparison of ticks |
| `Proposals.ProposalShard.ExpireAll` | dragonboat/request.go:1198-1203 | the loop times out and removes exactly the expired |
| `Proposals.ProposalShard.CloseShard` | dragonboat/request.go:1113-1123 | the loop terminates every pending proposal |
| `ReadIndex.ReadsAreSafe` | dragonboat/request.go:799-962 | over every interleaving a read is notified at most once, completed only at the applied, non-zero index confirmed for its own context before its deadline, and in exactly one place until then |
| `ReadIndex.OneSlot` | dragonboat/request.go:871-886 | no read is in two batch slots |
| `ReadIndex.StepInv` | dragonboat/request.go:799-962 | every step keeps the invariant |
| `ReadOutcomes.RunTold` | dragonboat/request.go:799-886 | in every run the clock, each read's deadline, each batch's index and whether the table is closed are what the steps say |
| `ReadOutcomes.StepNotices` | dragonboat/request.go:799-962 | every step tells each read exactly what it is due: a read is completed when the index of its batch is not zero and has been applied |
| `ReadOutcomes.NoneLeft` | dragonboat/request.go:888-927 | after an index was applied no batch waits for it or an earlier one, and a dropped batch is gone |
| `ReadOutcomes.CollectionIsDone` | dragonboat/request.go:928-962 | a collection that is due leaves no late read and no old empty batch, and the next one counts from it |
| `ReadOutcomes.AppliedCompletes` | dragonboat/request.go:904-933 | in every run an applied index completes every read whose confirmed index it covers, late ones with a timeout, and leaves alone every other read that is not late |
| `ReadIndex.PendingReadIndex.TellRipe` | dragonboat/request.go:911-927 | the loops tell and remove exactly the ripe batches: afterwards none waits for the applied index or an earlier one |
| `ReadIndex.PendingReadIndex.Gc` | dragonboat/request.go:935-962 | both loops: expired reads are told and cleared, old empty batches removed |
| `ReadIndex.PendingReadIndex.AppliedTo` | dragonboat/request.go:904-933 | is the model's step for an applied index, early return and unsigned tick comparison included; afterwards no batch waits for the applied index or an earlier one |
| `ReadIndex.PendingReadIndex.DropCtx` | dragonboat/request.go:888-902 | tells and removes exactly the reads of a dropped context, unless the table is closed |
| `ReadIndex.PendingReadIndex.AddReady` | dragonboat/request.go:857-869 | records confirmed indexes for the contexts that still have a batch |
| `ReadIndex.PendingReadIndex.TerminateAll` | dragonboat/request.go:799-817 | terminates every read in the queue and in the batches, once |
| `Rebalancer.NewPartition` | shardlb/rebalancer.go:29-41 | accepts exactly partitions whose leader is a replica |
| `Rebalancer.Replicas` | shardlb/rebalancer.go:49-57 | counts the replicas |
| `Rebalancer.CheckPartitions` | shardlb/rebalancer.go:101-115 | accepts exactly partitions with equal node and replica counts |
| `Rebalancer.RandomFollowerIndex` | shardlb/rebalancer.go:72-86 | some follower, or -1 exactly when there is none |
| `Rebalancer.Cluster.constructor` | shardlb/rebalancer.go:116-124 | the cached sums are the recomputed sums |
| `Rebalancer.Cluster.SwapLeader` | shardlb/rebalancer.go:143-164 | fails exactly for an invalid partition or replica; otherwise swaps roles and scores and keeps the cache exact |
| `Rebalancer.SwapExchanges` | shardlb/rebalancer.go:143-164 | leader and replica exchange their scores and nothing else changes |
| `Rebalancer.Cluster.Undo` | shardlb/rebalancer.go:234-237 | swaps back |
| `Rebalancer.Cluster.UndoSwaps` | shardlb/rebalancer.go:242-249 | restores the cluster the swaps started from |
| `Rebalancer.Cluster.RandomPartitionIndex` | shardlb/rebalancer.go:166-180 | some partition that is not excluded, or -1 exactly when there is none |
| `Rebalancer.Cluster.SwapRandom` | shardlb/rebalancer.go:185-202 | one recorded swap, a no-op when nothing can be swapped |
| `Rebalancer.Cluster.Score` | shardlb/rebalancer.go:205-218 | the variance of the node totals |
| `Rebalancer.VarianceIs` | shardlb/rebalancer.go:205-218 | the variance is the mean of the squares less the square of the mean |
| `Rebalancer.Cluster.TrySwap` | shardlb/rebalancer.go:255-284 | a swap that lowers the score is always kept, one that leaves it as it is never, and what is not kept is undone |
| `Rebalancer.Cluster.SimulatedAnnealing` | shardlb/rebalancer.go:255-284 | ends exactly where the returned swaps lead, each partition swapped at most once and to another replica; a round ends with the first swap that is accepted or when its tries are used up |
| `Rebalancer.Cluster.Rebalance` | shardlb/rebalancer.go:287-306 | ends in the original state with the returned swaps applied, which are the best of all simulations and the shortest of the best: none has a lower score; never worse, strictly better when anything is swapped |
| `Rebalancer.SwapsMove` | shardlb/rebalancer.go:308-319 | what the returned swaps mean for each partition |
| `Rebalancer.SwapsKeepSum` | shardlb/rebalancer.go:157-158 | swaps conserve the total over all nodes |
| `Rebalancer.BetterScore` | shardlb/rebalancer.go:205-218 | comparing scores is comparing sums of squares |
| `NamedKeys.NameKeyDecodes` | cluster/dragon/locks_odsm.go:139-142 | the name is read back from a stored key |
| `LockMachine.AlwaysExclusive` | cluster/dragon/locks_odsm.go:80-103 | in every run no held name is a prefix of another |
| `LockMachine.HeldByHistory` | cluster/dragon/locks_odsm.go:80-119 | in every run a lock is held, and by whom, exactly when a get for it was granted and no release came after; a get is granted when no related lock is held |
| `LockMachine.IncomparableGet` | cluster/dragon/locks_odsm.go:80-103 | among incomparable names a get succeeds exactly when the lock was not granted to another locker and kept since, told from the commands; the locker holds it afterwards exactly then |
| `LockMachine.SchemaLocksUnrelated` | command/ddl_runner.go:220-222 | locks of different schemas are incomparable |
| `LockMachine.SplitIntoBatches` | cluster/dragon/locks_odsm.go:69-128 | any split of the log leads to the same locks and allows the same answers |
| `LockMachine.LocksStateMachine.FindConflict` | cluster/dragon/locks_odsm.go:81-95 | the loop finds whether a conflicting lock is held, and a possible answer |
| `LockMachine.LocksStateMachine.UpdateOne` | cluster/dragon/locks_odsm.go:80-119 | one entry, with what it adds to the batch; a release frees the lock, and a get takes it when no related lock is held |
| `LockMachine.LocksStateMachine.Update` | cluster/dragon/locks_odsm.go:69-128 | a batch is its entries one by one; the store holds the same locks; an unknown command is an error |
| `LockMachine.LocksStateMachine.LoadLocks` | cluster/dragon/locks_odsm.go:38-54 | the stored table decodes back to the locks |
| `SequenceMachine.EachNumberOnce` | cluster/dragon/sequence_odsm.go:30-72 | over a whole log each number below the count is answered exactly once |
| `SequenceMachine.SequenceStateMachine.Take` | cluster/dragon/sequence_odsm.go:34-63 | one request, from cache or store |
| `SequenceMachine.SequenceStateMachine.Update` | cluster/dragon/sequence_odsm.go:30-72 | answers depend only on the log before, not on its batches |
| `Framing.BodiesAppend` | remoting/cluster_message.go:244-263 | cutting the kept tail with the next chunk is cutting everything at once |
| `Framing.StreamBodies` | remoting/cluster_message.go:214-224 | a written stream is cut into exactly its messages |
| `Framing.FramesRecovered` | remoting/cluster_message.go:226-265 | one type per connection, any non-empty chunks: exactly the messages arrived, in order, and only the unfinished tail is kept |
| `Framing.ReadReportsOneKind` | remoting/cluster_message.go:242-243 | the types one read reports are right exactly when its messages share their type |
| `Framing.ReadMessages` | remoting/cluster_message.go:226-265 | the loop with its kept buffer and length computes this |
| `WriteBatches.WriteBatch.AddPut` | cluster/write_batch.go:31-35 | appends a pair |
| `WriteBatches.WriteBatch.AddDelete` | cluster/write_batch.go:37-40 | appends a key to delete |
| `WriteBatches.WriteBatch.ForEachPut` | cluster/write_batch.go:83-99 | yields exactly the pairs added, in order |
| `WriteBatches.WriteBatch.ForEachDelete` | cluster/write_batch.go:101-113 | yields exactly the keys added, in order |
| `InitialLoad.LocalStore.LocalScan` | cluster/dragon/dragon.go:657-688 | a page is the first entries of the range in key order, all of them for the limit -1, none for other negative limits |
| `InitialLoad.LocalStore.WriteBatchLocally` | cluster/dragon/dragon.go:519-541 | applies the batch's pairs in order and then its deletes |
| `InitialLoad.LocalStore.WritePage` | push/engine.go:880-892 | writes a page under the new prefix, without a repeated first row |
| `InitialLoad.LocalStore.LoadPage` | push/engine.go:876-897 | one pass of the loop, the lookup outside an empty page included |
| `InitialLoad.LocalStore.LoadShard` | push/engine.go:868-898 | ends having copied exactly the shard's rows, unless interrupted; with no positive page size it panics and copies nothing |
| `InitialLoad.LocalStore.LoadPasses` | push/engine.go:872-898 | with pages of one row or of all rows no number of passes over a shard with rows is enough |
| `InitialLoad.LocalStore.LoadInitialState` | push/engine.go:862-905 | if it comes to its end every row has one copy with the same value and key suffix; however it ends, nothing but such copies has changed |
| `InitialLoad.CopiedMeans` | push/engine.go:862-905 | what copying means: each row again under the key that differs in the table id alone, all else as it was |
| `InitialLoad.OneRowPagesRepeat` | push/engine.go:893-897 | such a pass reads the row it starts from, writes nothing, is not the last and starts from that row again |
| `PhasedDdl.StepInv` | command/ddl_runner.go:337-362 | every step, with broadcasts that skip nodes, failures, crashes and starts, keeps the invariant |
| `PhasedDdl.CreateCompletes` | command/create_mv_command.go:198-242 | a creation that comes to its end has its row, and is registered and unmarked on every node that took part in the last phase and is up |
| `PhasedDdl.DropCompletes` | command/drop_mv_command.go:121-151 | a drop that comes to its end leaves no row, and no data on any node that took part in the last phase |
| `PhasedDdl.HistoryTells` | cluster/dragon/dragon.go:991-1018 | in every run, who has stored, removed or lost its prefixes decides to_delete, and the last write decides the row |
| `PhasedDdl.DataFollows` | cluster/dragon/dragon.go:1030-1102 | every step: data comes from fills and loading and goes by deletion or by a start with stored prefixes and no table of that name, and in no other way |
| `PhasedDdl.PersistedDataLoss` | cluster/dragon/dragon.go:1030-1102 | in every run, data of a persisted object is lost exactly when a node starts with prefixes of an index stored and not yet removed |
| `DdlGuarantees.RegistrationStep` | command/drop_mv_command.go:93-119 | every step but the ones that spoil a drop keeps registrations persisted |
| `DdlGuarantees.RegisteredIsPersisted` | command/create_mv_command.go:198-242 | in every run without such a step a registered view or index has its row persisted |
| `DdlGuarantees.DataStep` | command/create_mv_command.go:132-196 | every step but the ones that lose a mark keeps data covered |
| `DdlGuarantees.DataIsCovered` | command/create_mv_command.go:132-172 | in every run without such a step data is persisted or marked for deletion, with two named exceptions |
| `DdlFailures.FinishPhase` | remoting/client.go:110-161 | a phase that no node holds up comes to its end, touching only nodes that had not answered |
| `DdlFailures.SpoiltDrop` | command/drop_mv_command.go:93-151 | each step that registration leaves out, in any run, can be continued to a view registered without its row |
| `DdlFailures.LostMark` | command/create_mv_command.go:132-196 | each step that coverage leaves out, in any run, can be continued to data that nothing covers |
| `DdlRuns.FillReachesMissedNode` | remoting/client.go:28-47 | a run in which a fill reaches a node that was down when the creation of the view began |
| `DdlRuns.IndexFillsEarly` | command/create_index_command.go:102-148 | a run in which index data reaches a node before it has marked it |
| `DdlRuns.DropUncovers` | command/drop_mv_command.go:132-151 | a run in which deleting the row leaves data on another node unmarked |
| `DdlRuns.DropMissesItself` | remoting/client.go:28-47 | a run in which the dropping node keeps data that nothing marks |
| `DdlRuns.RejoinBreaksDrop` | command/drop_mv_command.go:93-119 | a run in which a node rejoins a drop and ends up with an unpersisted view registered |
| `DdlRuns.MissedNodeKeepsView` | remoting/client.go:28-47 | a run in which a drop misses a node that keeps the view registered |
| `DdlRuns.RejoinLosesMark` | command/create_mv_command.go:132-196 | a run in which a node rejoins a creation and is filled without its mark |
| `DdlRuns.IndexDataLost` | command/create_index_command.go:150-172 | a run in which data of a persisted index is deleted at startup |

## Left out

- Raft core, log database, transport and user state machines: committed entries, recorded snapshots and what a state machine asks for are inputs of the steps.
- Network, gRPC, HTTP, metrics, logging, command line, configuration.
- SQL planning, expressions, decimals and timestamps: their key bytes are opaque fixed-width values whose byte order is their order.
- Sources, sinks, push queries, aggregation results and row contents: a forwarded row is an identity and a route.
- Rows ingested from Kafka enter a receiver table in one step; their screening by partition and offset is the same dedup test and is not modelled as a sender.
- Fill rows and their separate queue, rows that nested aggregations forward with another sequence, and two processors of one shard during a leader change.
- A local commit whose outcome is unknown to the processor: a batch commits or fails.
- `processReceiveBatch` and the scheduler loop are modelled on values as steps of the system, not as classes; update in place of the row cache and write batch is not captured.
- The DDL phase methods are modelled on values as lists of actions per node; the runner's command and cancellation maps and what a cleanup disconnects in memory are not part of this model. A command begins only when what the one before it has started has come to rest.
- Filled rows reach a replica, whether it is up or down, when they are written; a replica that lags behind a drop or a start is not modelled.
- Forwarding.ExactlyOnce: proved for runs that give up no batch and configurations in which rows of two consumers never meet, because it fails otherwise (`SkipLosesRow`, `MeetingLosesRow`).
- DdlGuarantees.RegisteredIsPersisted: proved for runs without the steps of `SpoilsDrop`, because each of them breaks it (`SpoiltDrop`).
- DdlGuarantees.DataIsCovered: proved for runs without the steps of `LosesMark`, because each of them breaks it (`LostMark`).
- DdlGuarantees.RegistrationStep: leaves out the steps of `SpoilsDrop`, for the same reason.
- DdlGuarantees.DataStep: leaves out the steps of `LosesMark`, for the same reason.
- SnapshotPipeline.TokenDiscipline: proved for runs in which no start of a cluster overtakes the pool, because the pool panics otherwise (`OvertakingPanics`).
- SnapshotPipeline.StepInv: for the same steps.
- SnapshotPipeline.PoolBooks: for the same runs.
- SnapshotRequests.RequestsAreServed: for the same runs.
- SnapshotRequests.InitializedByRecovery: for the same runs.
- WorkReady.NoLostWakeup: proved for runs in which no batch call has a cluster of partition 64 or above, because such a call panics (`WideBatchPanics`).
- WorkReady.SwapDelivers: for the same runs.
- WorkReady.RunMarks: for the same runs.
- WriteBatches.WriteBatch.AddPut: for keys and values shorter than 2^32 bytes, as the length fields truncate.
- Framing.ReadMessages: reads are not empty; an empty read of an empty buffer panics in the code.
- Framing.FramesRecovered: for bodies shorter than 2^32 bytes, as the length field truncates; an error of the handler, which ends the loop, is not modelled.
- InitialLoad.LocalStore.LoadShard: page sizes 1 and -1 are admitted for shards without rows only, because over other shards the loop does not end (`LoadPasses`).
- ApplyQueue.NeverPanics: for logs without a gap; without that condition `PanicsExactly` says which runs panic.
- InitialLoad.LocalStore.LoadInitialState: the same, for all its shards; keys of the store are at least 16 bytes long and, with their values, shorter than 2^32 bytes, as the write batch's length fields truncate.
- LockMachine.LocksStateMachine.Update: after an unknown command the entries before it stay applied in memory; the contract speaks about the store only. With several conflicting locks the answer is any one the iteration order allows.
- ReadIndex.ReadsAreSafe: a read in the step worker's hands when the table closes is discarded without a notice, as in the code.
- Proposals: commit notifications, the reuse of request objects through a pool and colliding random keys are not modelled; keys and read contexts are never drawn twice.
- ShardReceiver.ShardStateMachine.Update: for batches of forward writes; other writes and leader changes are not modelled.
- SnapshotStore: `ss.index`, which two threads store without a lock, is not claimed to be monotone; a save may have any index, which includes those the guard on the last applied index lets through.
- Rebalancer: scores are exact variances instead of rounded standard deviations; slices shared between partitions are not modelled.
- The read index queue has the same two buffers as the entry queue, without freeing, and is not modelled again.
