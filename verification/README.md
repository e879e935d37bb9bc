# Verified models of ceremonyclient components

Dafny models of the parts of ceremonyclient where correctness is hardest to see
from the code: Pebble's compaction and point reads, its commit pipeline and batch
format, the BlossomSub mesh, the Kademlia lookup and optimistic provide, and the
multiaddr codec. `dafny verify dfyconfig.toml` verifies the whole project.

Code that only computes is modelled by functions. Loops and objects that the source
updates in place are methods and classes with the same fields, proved against
functions that say what they compute. Code that several goroutines execute at once
(commit pipeline, lookup, optimistic provide) is a state machine over its atomic
steps, and its theorems speak of every finite interleaving.

| file | content |
|---|---|
| `Basics.dfy`, `Varint.dfy` | shared types, unsigned varints |
| `Lsm.dfy` | internal keys, snapshots, stripes and the simple reader |
| `Compaction.dfy` | what a compaction emits, as a recursion over its input |
| `CompactionIter.dfy` | the iterator with its cursor, producing exactly that |
| `CompactionReads.dfy`, `CompactionOrder.dfy` | reads are preserved; the output is legal input and reads the same there |
| `CompactionExact.dfy` | what becomes of each kind of entry, said of input and output alone |
| `RangeDelThinning.dfy` | the in-place filter on range tombstones |
| `SingleDelete.dfy`, `SingleDeleteExact.dfy` | a store living through writes, snapshots and compactions; when single deletes are safe |
| `PointGet.dfy`, `GetIter.dfy` | what a lookup should find; the iterator that finds it |
| `LookupCompaction.dfy` | the value a lookup returns, through a batch or not, before and after a compaction |
| `CommitQueue.dfy`, `CommitPipeline.dfy`, `CommitOrder.dfy`, `CommitSafety.dfy`, `CommitFailure.dfy`, `CommitProgress.dfy` | index arithmetic, steps and invariants, sequence numbers, theorems, failed commits, how many steps a run has |
| `BatchFormat.dfy`, `Batch.dfy` | records, reader and round trip; the buffer and its operations |
| `MeshPrune.dfy`, `Backoff.dfy`, `SlicePeers.dfy`, `Mesh.dfy`, `RpcSplit.dfy` | pruning, backoff timers, candidates, the router, RPC splitting |
| `KadQuery.dfy`, `KadLookup.dfy`, `OptimisticProvide.dfy` | lookup state and loop bodies, whole lookups, completion counting |
| `Multiaddr.dfy`, `MultiaddrCodec.dfy`, `MultiaddrProtocols.dfy` | the codec and its round trips, its loops and decapsulation, the registry and its transcoders |

Conventions and assumptions:

- User keys of the LSM are integers: only their order matters. Sequence numbers are
  natural numbers below 2^56 and are not wrapped. The merge operator is associative
  where a theorem needs it.
- Visibility is `seq < snapshot`, as the code has it. The comment above
  `snapshotIndex` says "greater than or equal"; the code takes the first snapshot
  that is strictly greater.
- `elideTombstone(k)` is true only if nothing lies below the compaction for `k`, and
  `allowZeroSeqNum` only if that is so for every key.
- In the commit pipeline, fewer than 2^32 batches are enqueued between one
  consumer's load and its compare-and-swap, and each batch is committed once.
- In the mesh, time never goes back, one clock reading serves each call, and sorting
  and shuffling give any listing of the set that is sorted where the code sorts it.
  Times are nanoseconds since Go's zero time, so any clock reading exceeds any 64-bit
  duration.
- The comment in `getIter.Next` says that a covered key makes `Valid()` false; the
  code leaves `iterKey` set there. The model follows the code's return value.

Some properties one might expect are false of the code. Each has the exact condition
under which it holds and a member for an input where it fails:

- A batch reads back (`RoundTrip`, `ReadBack`): the reader compares lengths in 32 bits,
  and of the writers Apply can make a batch that large (`LargeIsIllegible`,
  `AppliedTooLarge`).
- Single deletes are safe (`SingleDeleteSafeExactly`): not over a key set twice, not
  over several MERGEs when older data lies under the last tombstone, and without
  SETWITHDEL not over such data at all (`MisuseResurrects`, `MergesResurrect`,
  `OldFormatResurrects`).
- The pipeline goes on (`NoDeadlock`): not behind a failed batch (`FailedBatchBlocks`,
  `SomeRunFails`), and not once rejected batches have kept all permits (`LeakedStays`,
  `SomeRunLeaks`).
- What parses as a multiaddr validates and prints (`ParseValid`, `ParsePrintParse`): not
  if a value has more than 2^31 - 1 bytes, since its length is written but not read back
  (`LongUnreadable`, `LongFileName`).
- A PRUNE's backoff is as many seconds as it says (`AskedExactly`): not from 2^63
  nanoseconds on, where it can lie in the past (`AskedTooMuch`).
- The peers found for a bitmask are peers of all its slices (`SharedExactly`,
  `StrangerFound`).
- Pruning keeps the best scored (`TopKeptExactly`, `AlwaysStayExactly`, `PushedOut`),
  splitting keeps IDONTWANT (`AppendOrMerge`, `LosesIDontWant`), path values survive
  printing (`PathValueExactly`, `PathValueShortened`), the spawn budget is kept
  (`BudgetKeptExactly`, `NoBudgetSpawnsAll`), optimistic provide returns
  (`ReturnsExactly`, `NeverReturns`).

## Model

| member | source | states |
|---|---|---|
| `Lsm.SnapshotIndexSplits` | pebble/compaction_iter.go:591-599 | the index of a sequence number separates exactly the snapshots that see it from those that do not |
| `Lsm.StripesDescend` | pebble/compaction_iter.go:591-599 | older entries of a key never lie in a higher stripe |
| `Lsm.ViewSeesWholeStripes` | pebble/compaction_iter.go:591-599 | an open snapshot or the latest view sees all of a stripe or none of it |
| `Varint.DecodeEncode` | pebble/batch.go:597-604 | decoding undoes encoding whatever follows |
| `Varint.EncodeDecode` | go-multiaddr/varint.go:18-28 | re-encoding gives the same bytes if and only if the varint was minimal |
| `Compaction.StepShape` | pebble/compaction_iter.go:326-574 | each step advances, stays within its stripe and keeps the user key and sequence number of its source |
| `Compaction.ScanMergeRun` | pebble/compaction_iter.go:814-902 | the operands that mergeNext folds are exactly a run of one stripe ending where its result says |
| `Compaction.SkipSingleDeletesRun` | pebble/compaction_iter.go:914-969 | the entries skipped behind a SINGLEDEL are points of its stripe and all SINGLEDELs, and the first one not skipped is not |
| `Compaction.ScanSizedKind` | pebble/compaction_iter.go:977-1137 | a sized delete ends as DEL or DELSIZED or reports corruption, nothing else |
| `CompactionReads.CompactionPreservesReads` | pebble/compaction_iter.go:326-574 | for every key, every open snapshot and the latest view, reading the output over any permitted lower level gives what reading the input gives, range tombstones included, provided cancelled SINGLEDEL/SET pairs uncover nothing |
| `CompactionReads.CompactionPreservesPlainReads` | pebble/compaction_iter.go:326-574 | for keys without SINGLEDEL the same holds unconditionally |
| `CompactionReads.KeptStandsIn` | pebble/compaction_iter.go:1215-1245 | a tombstone dropped by thinning has a kept one of its stripe that hides the same points from the same views |
| `CompactionReads.PutMeaning` | pebble/compaction_iter.go:724-902 | an emitted entry reads like the run of entries it replaces |
| `CompactionReads.PassMeaning` | pebble/compaction_iter.go:326-574 | entries dropped without output did not show in any view |
| `CompactionOrder.OutputOrdered` | pebble/compaction_iter.go:603-722 | emitted points are in strict internal key order, and two share a key and stripe only if a range tombstone of that key and stripe lies between the entries they stand for |
| `CompactionOrder.OutputIsLegalInput` | pebble/compaction_iter.go:677-685 | the points emitted, merged with the thinned range tombstones written, are legal input of any later compaction, so its ordering panic cannot be raised |
| `CompactionOrder.WrittenIsKept` | pebble/compaction_iter.go:1215-1245 | over its keys a fragment written holds exactly the newest tombstone of every stripe that is not elided |
| `CompactionOrder.OutputReadsAgain` | pebble/compaction_iter.go:326-574 | what the next compaction reads in its input, at any view, is what the output of this one reads |
| `CompactionOrder.CompactedTwice` | pebble/compaction_iter.go:326-574 | two compactions in a row leave every view that both have to keep as it was |
| `CompactionOrder.ZeroedOnce` | pebble/compaction_iter.go:1259-1272 | at most one emitted entry of a user key has sequence number zero |
| `CompactionExact.TombstonesElided` | pebble/compaction_iter.go:447-462 | no tombstone is emitted in the bottom stripe of a key for which tombstones can be elided, whatever snapshots are open |
| `CompactionExact.DeleteStays` | pebble/compaction_iter.go:470-476 | a DEL that heads its stripe, is not covered and may still be needed is emitted as it came |
| `CompactionExact.NothingCovered` | pebble/compaction_iter.go:426-431 | no emitted point is deleted by a range tombstone of its stripe |
| `CompactionExact.SizedStays` | pebble/compaction_iter.go:977-1137 | over sized deletes and data of exactly the sizes they announce a DELSIZED stays one, with the last size not used up, or none |
| `CompactionExact.SizedSettles` | pebble/compaction_iter.go:1030-1118 | at the first entry that is neither, it becomes a DEL, with the value of another tombstone and otherwise none |
| `CompactionExact.SizedCorrupt` | pebble/compaction_iter.go:1079-1084 | an announced size that cannot be read, met by data, fails the compaction |
| `CompactionExact.SizedOutcome` | pebble/compaction_iter.go:977-1137 | DELSIZED(n) alone is emitted as it came, over one entry of size n it is DELSIZED without a value, over one of another size it is DEL without one, over DEL or SINGLEDEL it is DEL |
| `CompactionExact.SetOutcome` | pebble/compaction_iter.go:724-812 | a SET or SETWITHDEL that heads its stripe is emitted with its value, numbered zero exactly in the bottom stripe when allowed, and as SETWITHDEL exactly if it was one or covers a tombstone and the format allows |
| `CompactionExact.SingleDeleteOutcome` | pebble/compaction_iter.go:914-969 | a SINGLEDEL over nothing but SINGLEDELs is emitted as it came, over a SET it goes without a trace, over anything else it is emitted as DEL |
| `CompactionExact.MergeOutcome` | pebble/compaction_iter.go:814-902 | MERGEs are emitted as one, as MERGE at the end of the stripe, SETWITHDEL over a tombstone, SET over a covered entry and SET with its value over a SET |
| `CompactionExact.RangeDelsHandedOn` | pebble/compaction_iter.go:390-420 | all range tombstones of the input are handed on, in order |
| `CompactionIter.CompactionIter.constructor` | pebble/compaction_iter.go:272-324 | the cursor starts at the first entry with the whole output still to come |
| `CompactionIter.CompactionIter.SaveKey` | pebble/compaction_iter.go:1139-1145 | the saved key and its stripe are those of the current entry |
| `CompactionIter.CompactionIter.NextInStripe` | pebble/compaction_iter.go:661-722 | moves one entry and classifies it exactly as new key, new stripe, same stripe or interleaved range tombstone |
| `CompactionIter.CompactionIter.SkipInStripe` | pebble/compaction_iter.go:603-617 | stops at the next stripe or range tombstone, having skipped nothing that would be emitted |
| `CompactionIter.BottomStops` | pebble/compaction_iter.go:455-460 | skipping in the bottom stripe never meets another stripe of the same key, so neither panic behind an elided tombstone is reached |
| `CompactionIter.CompactionIter.MaybeZeroSeqnum` | pebble/compaction_iter.go:1259-1272 | zeroes the sequence number exactly in the bottom stripe when allowed |
| `CompactionIter.CompactionIter.Covers` | pebble/internal/keyspan/fragmenter.go:255-293 | the verdict on pending spans is exact: visible tombstone newer than the key, invisible one, or none |
| `CompactionIter.CompactionIter.CoveredNow` | pebble/compaction_iter.go:426-445 | asking only the spans added so far decides coverage by all tombstones of the input |
| `CompactionIter.CompactionIter.SetNext` | pebble/compaction_iter.go:724-812 | the SET is emitted as SETWITHDEL exactly when it absorbs a tombstone of its stripe and the format allows |
| `CompactionIter.CompactionIter.MergeNext` | pebble/compaction_iter.go:814-902 | the key holds the fold of the stripe's operands, with the kind that what stopped the fold calls for |
| `CompactionIter.CompactionIter.FoldOperands` | pebble/compaction_iter.go:814-902 | the loop of mergeNext folds exactly the operands up to the first tombstone, covered entry, SET or stripe end |
| `CompactionIter.CompactionIter.SingleDeleteNext` | pebble/compaction_iter.go:914-969 | a SINGLEDEL cancels with a SET, becomes DEL on meeting a SETWITHDEL, MERGE or other tombstone, and is emitted otherwise |
| `CompactionIter.CompactionIter.DropSized` | pebble/compaction_iter.go:977-1137 | the loop of deleteSizedNext decides the kind and announced size as the scan of the stripe does |
| `CompactionIter.CompactionIter.DeleteSizedNext` | pebble/compaction_iter.go:977-1137 | the sized delete is emitted as that scan says, and the rest of its stripe is skipped |
| `CompactionIter.CompactionIter.ProcessTombstone` | pebble/compaction_iter.go:447-495 | each tombstone kind is emitted, elided or dropped as the specification says |
| `CompactionIter.CompactionIter.ProcessMerge` | pebble/compaction_iter.go:509-560 | a merge is emitted with the folded value and resumes where the fold stopped |
| `CompactionIter.CompactionIter.Advance` | pebble/compaction_iter.go:326-386 | the cursor reaches the next entry to consider and the ordering panic is unreachable |
| `CompactionIter.CompactionIter.Next` | pebble/compaction_iter.go:326-574 | returns the next entry of the specified output, or ends, or fails, exactly as it does |
| `CompactionIter.RunCompaction` | pebble/compaction.go:3464-3529 | the driver loop over Next, feeding range tombstones back, produces exactly the specified output |
| `RangeDelThinning.EmitRangeDelChunk` | pebble/compaction_iter.go:1215-1245 | the in-place loop leaves the filtered keys at the front of the slice |
| `RangeDelThinning.FilterIsThinned` | pebble/compaction_iter.go:1215-1245 | on descending keys the filter keeps the newest tombstone of every stripe, and none of an elidable bottom stripe |
| `RangeDelThinning.OnePerStripe` | pebble/compaction_iter.go:1215-1245 | no two tombstones kept lie in one stripe, each is the newest of its stripe, and with elision none lies in the bottom one |
| `RangeDelThinning.ThinningPreservesCoverage` | pebble/compaction_iter.go:1215-1245 | at every view a point is covered afterwards if and only if a tombstone that is not elided covered it before |
| `SingleDelete.NextKeepsInv` | pebble/compaction_iter.go:914-969 | every safe write, snapshot and compaction of a contiguous part of the history, eliding or not and with snapshots listed at its start, keeps the reads and the shape that single deletes need |
| `SingleDelete.SingleDeleteNeverResurrects` | pebble/compaction_iter.go:914-969 | in every run with safe writes the latest view and every snapshot read what they would without any compaction |
| `SingleDeleteExact.SingleDeleteSafeExactly` | pebble/compaction_iter.go:724-969 | a sequence of writes keeps all reads in every run if and only if each SINGLEDEL deletes nothing, one write, or MERGEs over one write with no data before the last tombstone; without SETWITHDEL also a single SET needs the latter |
| `SingleDeleteExact.DocumentedRuns` | pebble/compaction_iter.go:724-812 | documented use keeps all reads in every run if and only if SETWITHDEL is known or each SINGLEDEL over a SET deletes the first data of its key |
| `SingleDeleteExact.UnsafeBetrayed` | pebble/compaction_iter.go:814-969 | for every unsafe SINGLEDEL some run of at most three compactions ends with the key deleted by its writes yet reading the value it had after an earlier one, which lies before the last tombstone if no SET is deleted together with older data |
| `SingleDeleteExact.MisuseResurrects` | pebble/compaction_iter.go:914-969 | SET x, SET y, SINGLEDEL reads x again in a run of at most three compactions |
| `SingleDeleteExact.MergesResurrect` | pebble/compaction_iter.go:814-896 | SET x, DEL, two MERGEs, SINGLEDEL reads x again in a run of at most three compactions |
| `SingleDeleteExact.OldFormatResurrects` | pebble/compaction_iter.go:724-745 | without SETWITHDEL, SET x, SINGLEDEL, SET y, SINGLEDEL reads x again in a run of at most three compactions |
| `PointGet.VisibleAtFinds` | pebble/internal/keyspan/span.go:262-280 | looking at the first and last key of a span decides whether any is visible |
| `PointGet.CoversAt` | pebble/internal/keyspan/span.go:346-362 | stopping at the first visible key decides whether a visible tombstone newer than the point exists |
| `PointGet.AnswerIsSimpleRead` | pebble/get_iter.go:73-226 | the answer is exactly the versions of the key that the snapshot sees and no visible tombstone of any source deletes, in strictly decreasing sequence order |
| `PointGet.AnswerInNumbers` | pebble/internal/base/internal.go:390-410 | in numbers: found are exactly the versions below the snapshot or from 2^55 on without a newer range tombstone below the snapshot or from 2^55 on |
| `PointGet.BatchIsFound` | pebble/batch.go:572-577 | a record of the batch that no range tombstone of the batch deletes is found at every snapshot, and whatever is found from the store is older than the snapshot |
| `GetIter.StepOpen` | pebble/get_iter.go:79-91 | after a step within a level the tombstone in hand is that of the table arrived in, though only one is kept |
| `GetIter.LeaveClosed` | pebble/get_iter.go:112-119 | when a source is left, any visible tombstone it has for the key is in hand |
| `GetIter.TombCoversBelow` | pebble/get_iter.go:140-144 | a visible tombstone deletes everything in the older sources |
| `GetIter.CoveredStops` | pebble/get_iter.go:95-103 | at a covered position, of this key or a later one, nothing further is live |
| `GetIter.UncoveredLive` | pebble/get_iter.go:104-110 | a visible version that the tombstone in hand does not cover is deleted by no tombstone anywhere |
| `GetIter.GetIter.Examine` | pebble/get_iter.go:80-119 | one look at the iterator returns the next live version, stops with none left, or goes on without losing any |
| `GetIter.GetIter.OpenNext` | pebble/get_iter.go:121-224 | opens the next newest source, or reports an unindexed batch, or ends with nothing left |
| `GetIter.GetIter.Next` | pebble/get_iter.go:73-226 | returns the next live version, newest first, and none once they are exhausted |
| `GetIter.Lookup` | pebble/get_iter.go:65-226 | repeated Next yields exactly the answer of the simple read, newest first, batch records included, or reports an unindexed batch |
| `LookupCompaction.LookupReads` | pebble/iterator.go:527-641 | the versions a lookup finds evaluate, over SET, DEL and MERGE, to what the simple reader reads from the batch, if there is one, over what it reads at the snapshot from all other sources, range tombstones included |
| `LookupCompaction.ReadLayers` | pebble/get_iter.go:121-224 | reading newer entries over older ones is reading the newer with what the older give as a base, their range tombstones included |
| `LookupCompaction.OutputLayered` | pebble/compaction_iter.go:1259-1272 | the output in place of the input is again newer than what lies below and older than what lies above, zeroed numbers included |
| `LookupCompaction.LookupSurvivesCompaction` | pebble/get_iter.go:73-226 | a lookup at any open snapshot or the latest state, through a batch or not, returns the same value before and after a group of its sources is compacted, however the output is split into tables, the sources above and below staying as they are |
| `CommitQueue.UnpackPack` | pebble/commit.go:46-57 | packing two 32-bit indices loses nothing |
| `CommitQueue.AddHead` | pebble/commit.go:80-83 | adding one to the head leaves the tail alone even when the head wraps |
| `CommitQueue.WordIdentifies` | pebble/commit.go:105-108 | equal packed words mean equal unbounded counters under the lapping bound |
| `CommitQueue.FullTest` | pebble/commit.go:62-66 | the full and empty tests on wrapped indices are exact |
| `CommitPipeline.CasConfirms` | pebble/commit.go:105-118 | a successful compare-and-swap took the tail the thread had examined |
| `CommitPipeline.RingKept` | pebble/commit.go:59-120 | every step keeps head, tail and slots in agreement with the queue of batches |
| `CommitPipeline.Room` | pebble/commit.go:268 | batches in the ring plus the one entering never exceed the permits |
| `CommitPipeline.NoPanic` | pebble/commit.go:62-66 | neither the full-queue panic nor the panic in publish is reached |
| `CommitPipeline.NotLapped` | pebble/commit.go:68-83 | a producer never overtakes a consumer that has still to clear its slot |
| `CommitPipeline.HoldersKept` | pebble/commit.go:108-116 | a consumer owns its slot until it clears it, whatever the others do |
| `CommitPipeline.SettledKept` | pebble/commit.go:473-517 | every dequeued batch is done or some thread still has to publish it |
| `CommitOrder.NumberMove` | pebble/commit.go:361-461 | a step assigns fresh numbers to the last batch in the queue, above all earlier ones, or assigns none |
| `CommitOrder.RaiseStays` | pebble/commit.go:498-512 | while a batch is being sequenced, visibility stays at or below the batch before it |
| `CommitOrder.NextKeepsOrder` | pebble/commit.go:361-517 | every step keeps sequence numbers in queue order without overlap, visibility below undequeued batches, and the number an ingestion waits for |
| `CommitSafety.RingIsFifo` | pebble/commit.go:59-120 | in every interleaving what is dequeued is a prefix of what was enqueued, each batch once and applied, within the permits and without panic |
| `CommitSafety.DequeuesOldestApplied` | pebble/commit.go:89-120 | at the moment of dequeue the batch is the oldest one and is applied |
| `CommitSafety.VisibleMeansApplied` | pebble/commit.go:473-517 | a batch owning a sequence number below the visible one has been applied |
| `CommitSafety.VisibleOnlyGrows` | pebble/commit.go:498-512 | visibility only grows, stays within the assigned numbers, and assigned numbers never change |
| `CommitSafety.ReturnedIsVisible` | pebble/commit.go:292-352 | when a committer returns, all its records are applied and visible |
| `CommitSafety.NumbersContiguous` | pebble/commit.go:387-461 | each batch starts where the one before it ends, except that an ingestion takes one in place of zero; no ingestion has number zero |
| `CommitSafety.WalInSequenceOrder` | pebble/commit.go:453-469 | the WAL holds each batch once in sequence order, and every applied commit is in it |
| `CommitSafety.PrepareSeesEarlier` | pebble/commit.go:399-414 | when the prepare callback is called every earlier batch with records has been applied |
| `CommitSafety.NoStrandedBatch` | pebble/commit.go:473-517 | if every publisher is blocked, the queue is empty or its oldest batch is not applied |
| `CommitSafety.NoDeadlock` | pebble/commit.go:296-517 | for every committer that has not returned, unless the oldest batch in the queue has failed, somebody can take a step that is not a failure if and only if not all permits are held by committers whose batch was rejected |
| `CommitFailure.FailedBatchBlocks` | pebble/commit.go:314-331 | once the oldest batch has failed, in every later state of every run neither it nor any batch behind it is dequeued, done or returned from |
| `CommitFailure.SomeRunFails` | pebble/commit.go:314-321 | a committer whose write to the WAL fails reaches such a state, in which nobody can step |
| `CommitFailure.LeakedStays` | pebble/commit.go:303-331 | no step leads out of a state whose permits are all held by committers whose batch was rejected |
| `CommitFailure.SomeRunLeaks` | pebble/commit.go:429-431 | rejected batches alone reach such a state, with an empty queue, no failed batch in it and a committer waiting at the semaphore |
| `CommitProgress.StepPays` | pebble/commit.go:59-517 | every step uses up potential, since a failed swap or a retried ratchet is paid for by another committer's progress |
| `CommitProgress.RunBounded` | pebble/commit.go:59-517 | n committers take at most 12n^2 + 26n atomic steps in any interleaving, rounds of the two busy-wait loops not counted |
| `CommitProgress.AllFinish` | pebble/commit.go:296-331 | a run without failures in which nobody can go on has every committer finished |
| `BatchFormat.DecodeStrIsDecode` | pebble/batch.go:1481-1513 | the unrolled decoder reads the same number as the varint it unrolls, for all five lengths |
| `BatchFormat.DecodeStrReads` | pebble/batch.go:1481-1513 | a length-prefixed string reads back or is rejected, as its length is within the low 32 bits of the length of the rest |
| `BatchFormat.ReadNextReads` | pebble/batch.go:1553-1575 | one encoded record reads back if and only if its strings pass that check with what follows |
| `BatchFormat.RoundTrip` | pebble/batch.go:1553-1575 | reading the encoding of any records gives those records in order if every string passes that check, and fails otherwise |
| `BatchFormat.SmallIsLegible` | pebble/batch.go:1509 | below 4 GiB every string passes |
| `BatchFormat.LargeIsIllegible` | pebble/batch.go:1509 | two records with values of 2 GiB cannot be read |
| `BatchFormat.EncodedSplit` | pebble/batch.go:512 | the payload of a concatenation is the concatenation of the payloads |
| `BatchFormat.BatchReader.Next` | pebble/batch.go:1553-1575 | returns the entry, the end or the error that the bytes hold; moves past an entry, and to the end after a string that cannot be decoded |
| `BatchFormat.ReadAll` | pebble/batch.go:1553-1575 | repeated Next reads all records or reports an illegible payload |
| `Batch.PutVarint` | pebble/batch.go:596-607 | the inlined writer lays down the varint and nothing before it changes |
| `Batch.Batch.Init` | pebble/batch.go:1366-1377 | an empty payload behind a header with sequence number zero, in a buffer of at least the size asked for |
| `Batch.Batch.Grow` | pebble/batch.go:1426-1441 | room for n more bytes with the contents kept, or the too-large panic exactly at the limit |
| `Batch.Batch.PutKeyValue` | pebble/batch.go:580-630 | appends exactly one key-value record to the payload, across growth and all varint lengths |
| `Batch.Batch.PutKey` | pebble/batch.go:632-667 | appends exactly one key-only record to the payload |
| `Batch.Batch.Set` | pebble/batch.go:714-726 | adds a SET record and counts it |
| `Batch.Batch.Merge` | pebble/batch.go:743-755 | adds a MERGE record and counts it |
| `Batch.Batch.Delete` | pebble/batch.go:770-791 | adds a DEL record and counts it |
| `Batch.Batch.SingleDelete` | pebble/batch.go:863-884 | adds a SINGLEDEL record and counts it |
| `Batch.Batch.DeleteRange` | pebble/batch.go:892-925 | adds a RANGEDEL record and counts it |
| `Batch.Batch.DeleteSized` | pebble/batch.go:806-857 | adds a DELSIZED record whose value is the varint of the size plus the key length, counts it, and panics exactly at the size limit |
| `Batch.Batch.LogData` | pebble/batch.go:1046-1055 | adds a LogData record and leaves the count as it was |
| `Batch.Batch.Apply` | pebble/batch.go:496-564 | the records become the concatenation of both batches, the counts being added in 32 bits |
| `Batch.Batch.ReadBack` | pebble/batch.go:1474-1479 | reading a batch gives exactly the records added to it, in order, if and only if they are legible, as they are up to 4 GiB |
| `Batch.AppliedTooLarge` | pebble/batch.go:496-564 | applying a batch can exceed the limit that other writers keep, and the result cannot be read |
| `Batch.CountsBoth` | pebble/batch.go:514 | the 32-bit sum of two correct counts is the correct count of both batches together, exact below 2^32 |
| `MeshPrune.Rotate` | go-libp2p-blossomsub/blossomsub.go:1704-1711 | moves one peer to the front and shifts those before it, nothing else |
| `MeshPrune.KeepBest` | go-libp2p-blossomsub/blossomsub.go:1694-1733 | the first D places keep all outbound peers selected, gain more until Dout is met, and otherwise keep the earliest of the selection |
| `MeshPrune.QuotaMet` | go-libp2p-blossomsub/blossomsub.go:1694-1733 | at least min(Dout, outbound peers available) outbound peers are kept |
| `MeshPrune.TopKeptExactly` | go-libp2p-blossomsub/blossomsub.go:1679-1733 | the first Dscore peers all stay if and only if their non-outbound ones fit beside the outbound peers kept |
| `MeshPrune.TopKept` | go-libp2p-blossomsub/blossomsub.go:1679-1733 | they all stay whenever Dscore + Dout is at most D |
| `MeshPrune.AlwaysStayExactly` | go-libp2p-blossomsub/blossomsub.go:1679-1733 | for Dscore up to D, they stay in every mesh if and only if Dscore + Dout is at most D |
| `MeshPrune.PushedOut` | go-libp2p-blossomsub/blossomsub.go:1725-1733 | otherwise a mesh whose outbound peers all come last loses one of them |
| `Backoff.AddedFaithful` | go-libp2p-blossomsub/blossomsub.go:1099-1109 | adding a backoff leaves an entry for the peer and loses no backoff that is running |
| `Backoff.SweptFaithful` | go-libp2p-blossomsub/blossomsub.go:1893-1912 | clearing loses no backoff that is running |
| `Backoff.SweptExactly` | go-libp2p-blossomsub/blossomsub.go:1893-1912 | an entry goes exactly when it has been over for more than 1.4 seconds, and no row is left empty |
| `Backoff.Sweep` | go-libp2p-blossomsub/blossomsub.go:1899-1911 | the nested loops drop exactly the stale entries and the rows left empty |
| `Backoff.MayEnter` | go-libp2p-blossomsub/blossomsub.go:975-977 | a peer without an entry, or with one that is over, has no recorded backoff running |
| `SlicePeers.CommonPeers` | go-libp2p-blossomsub/blossomsub.go:2165-2193 | finds the peers common to all slices from the first one on that has any, and nobody if a slice is unknown |
| `SlicePeers.SharedExactly` | go-libp2p-blossomsub/blossomsub.go:2180-2192 | with all slices known, a peer that is found is a peer of every slice if and only if the first slice has peers that pass the filter |
| `SlicePeers.StrangerFound` | go-libp2p-blossomsub/blossomsub.go:2180-2181 | with both slices known, a peer of the second only is found when the first has none |
| `Mesh.GetPeers` | go-libp2p-blossomsub/blossomsub.go:2195-2203 | exactly count of the candidates that pass the filter, or all of them where there are no more than that or count is not positive |
| `Mesh.Router.AddBackoff` | go-libp2p-blossomsub/blossomsub.go:1091-1109 | the peer backs off at least for the interval, no timer is lost or moved earlier |
| `Mesh.Router.HandleGraft` | go-libp2p-blossomsub/blossomsub.go:936-1032 | of the meshes it names, the peer enters exactly those it was welcome in before the message, and is sent a PRUNE for exactly those it is still not in, however often it names them; nobody else enters, and only where the recorded backoff is over |
| `Mesh.Router.Graft` | go-libp2p-blossomsub/blossomsub.go:943-1019 | one GRAFT is accepted if and only if the peer is not direct, not backing off, not negative and the mesh has room or the peer is outbound; a refusal refreshes the backoff except for direct peers |
| `Mesh.StaysUnwelcome` | go-libp2p-blossomsub/blossomsub.go:975-1014 | a refused GRAFT repeated in the same message is refused again, and refusals do not spread to other meshes |
| `Mesh.Router.HandlePrune` | go-libp2p-blossomsub/blossomsub.go:1034-1069 | the peer leaves exactly the meshes it names, backs off at least for the seconds of each PRUNE taken as a 64-bit duration, or the default, and no timer moves earlier |
| `Mesh.Router.AskedExactly` | go-libp2p-blossomsub/blossomsub.go:1050-1056 | that duration is the seconds asked for if and only if they are less than 2^63 nanoseconds |
| `Mesh.Router.AskedTooMuch` | go-libp2p-blossomsub/blossomsub.go:1050-1056 | the first number of seconds beyond gives a negative backoff |
| `Mesh.Router.Join` | go-libp2p-blossomsub/blossomsub.go:1283-1339 | every fanout peer without a backoff entry or a negative score stays, eligible candidates fill up to D, and the fanout is given up |
| `Mesh.Router.Leave` | go-libp2p-blossomsub/blossomsub.go:1341-1361 | the mesh is gone, all its peers back off for at least the unsubscribe interval, and no timer moves earlier |
| `Mesh.Router.PublishPeers` | go-libp2p-blossomsub/blossomsub.go:1234-1257 | sends to the mesh, or where there is none to the fanout, which is chosen from the candidates above the threshold if empty; publishing time is noted only without a mesh |
| `Mesh.Router.AddPeer` | go-libp2p-blossomsub/blossomsub.go:651-678 | the peer counts as outbound if and only if some connection that is not limited was opened by this node and carries the protocol |
| `Mesh.Router.RemovePeer` | go-libp2p-blossomsub/blossomsub.go:680-701 | the peer leaves every mesh and fanout, nobody else does |
| `Mesh.Router.ClearBackoff` | go-libp2p-blossomsub/blossomsub.go:1893-1912 | sweeps once every fifteen ticks and keeps the invariant |
| `Mesh.Router.ChooseExcess` | go-libp2p-blossomsub/blossomsub.go:1679-1735 | the list splits into D peers kept and the others pruned, with the outbound quota and, if Dscore + Dout is at most D, the first Dscore of the ranking among the kept |
| `Mesh.HeadIsBest` | go-libp2p-blossomsub/blossomsub.go:1682-1692 | then at least Dscore of the kept peers score at least as high as everyone pruned |
| `Mesh.Router.PruneExcess` | go-libp2p-blossomsub/blossomsub.go:1679-1741 | exactly D peers of the mesh stay, with the outbound quota, at least Dscore of them scoring no lower than anyone pruned if Dscore + Dout is at most D; the others back off for at least the prune interval |
| `Mesh.Router.FixSize` | go-libp2p-blossomsub/blossomsub.go:1652-1741 | of the peers without a negative score, too few are filled up to D as far as candidates go, too many are cut to D as above, others stay; nobody is both grafted and pruned |
| `Mesh.Router.AddOutbound` | go-libp2p-blossomsub/blossomsub.go:1743-1768 | a mesh of at least Dlo short of outbound peers gets exactly the missing number of eligible ones, or all there are |
| `Mesh.Router.Median` | go-libp2p-blossomsub/blossomsub.go:1779-1785 | a score of the mesh with at most half of the peers below it and fewer than half above it |
| `Mesh.Router.Opportunistic` | go-libp2p-blossomsub/blossomsub.go:1770-1803 | grafts on its ticks, and only if that median is below the threshold, as many eligible peers above the median as asked for, or all there are |
| `Mesh.SizedSettles` | go-libp2p-blossomsub/blossomsub.go:1652-1741 | a mesh fixed in size has no negative score, at most Dhi peers, and fewer than Dlo only if no candidate is left, under any later timers |
| `Mesh.SettledLater` | go-libp2p-blossomsub/blossomsub.go:1633-1803 | maintaining other meshes afterwards does not undo this |
| `Mesh.Router.Maintain` | go-libp2p-blossomsub/blossomsub.go:1633-1803 | the mesh is the old one without negative scores, put right in size, given the missing outbound peers and then the opportunistic ones, each from the eligible candidates; grafts and prunes are disjoint, exactly the pruned peers are entered in the backoff table, no negative score is left, and fewer than Dlo peers only if no candidate is |
| `Mesh.QuotaOrNone` | go-libp2p-blossomsub/blossomsub.go:1743-1768 | a mesh that can reach Dlo has Dout outbound peers after maintenance or no eligible outbound candidate is left |
| `Mesh.ProgressNext` | go-libp2p-blossomsub/blossomsub.go:1633-1803 | maintaining one more mesh disturbs nothing said of the meshes maintained before it, nor the candidates of those to come |
| `Mesh.Router.MaintainFanouts` | go-libp2p-blossomsub/blossomsub.go:1819-1850 | exactly the fanouts published to within the time to live stay, each refilled as above |
| `Mesh.Router.FillFanout` | go-libp2p-blossomsub/blossomsub.go:1827-1850 | the fanout keeps exactly the members above the threshold and is filled up to D from the candidates |
| `Mesh.Router.Heartbeat` | go-libp2p-blossomsub/blossomsub.go:1598-1865 | every mesh changes exactly by the grafts and prunes to be sent and is maintained as above against the backoff table the tick starts with, cleared every fifteenth time; grafts and prunes are disjoint, whoever enters had no backoff running, exactly the pruned peers are entered in the table, for at least the prune interval, and every fanout is expired or refilled as above |
| `RpcSplit.Push` | go-libp2p-blossomsub/blossomsub.go:1469-1476 | the last RPC grows by the thing if it stays within the limit, and otherwise the thing starts another; either way it is added once at the end of its kind |
| `RpcSplit.PushIHaves` | go-libp2p-blossomsub/blossomsub.go:1542-1565 | all (bitmask, id) pairs are added in order whatever the splitting |
| `RpcSplit.PushIWants` | go-libp2p-blossomsub/blossomsub.go:1517-1540 | all IWANT ids are added in order through a single IWANT per RPC |
| `RpcSplit.AppendOrMerge` | go-libp2p-blossomsub/blossomsub.go:1446-1570 | every kind of content but IDONTWANT comes out as it went in; each RPC is within the limit or holds one item at most; none had room for the first thing of the next; all is one RPC if every RPC on the way to the whole is within the limit; IDONTWANTs survive if and only if there are none or the single RPC is returned as it is |
| `RpcSplit.NeighboursApart` | go-libp2p-blossomsub/blossomsub.go:1441-1446 | where more content is never smaller, no two neighbouring RPCs together are within the limit |
| `RpcSplit.WholeFits` | go-libp2p-blossomsub/blossomsub.go:1441-1446 | and content that as a whole is within the limit is sent as one RPC |
| `RpcSplit.LosesIDontWant` | go-libp2p-blossomsub/blossomsub.go:1446-1570 | two RPCs, one with an IDONTWANT and one empty, lose it whatever the sizes |
| `KadQuery.Query.UpdateState` | go-libp2p-kad-dht/query.go:477-526 | it panics exactly unless everyone reported on is waiting and reported once; then who answered is queried, who did not is unreachable, newcomers are heard of and nobody else changes |
| `KadQuery.UpdatedExactly` | go-libp2p-kad-dht/query.go:496-526 | the same of the update as a function of the peer states |
| `KadQuery.Query.LookupTermination` | go-libp2p-kad-dht/query.go:379-387 | true exactly when the closest beta reachable peers, by distance to the key, have all been queried |
| `KadQuery.CompleteMeans` | go-libp2p-kad-dht/query.go:377-387 | then whoever was heard of but not queried has beta queried peers at least as close to the key |
| `KadQuery.IncompleteMeans` | go-libp2p-kad-dht/query.go:377-387 | until then somebody heard of but not queried has fewer than beta queried peers closer to the key |
| `KadQuery.Query.PeersToQuery` | go-libp2p-kad-dht/query.go:362-374 | the counting loop takes the first heard peers up to the budget, and all of them for a budget below one |
| `KadQuery.NextAreClosest` | go-libp2p-kad-dht/query.go:362-374 | the peers picked are no further from the key than any heard peer passed over |
| `KadQuery.Query.Turn` | go-libp2p-kad-dht/query.go:288-317 | one turn of the loop panics, ends or spawns, and leaves the peer states, exactly as the steps of a lookup say |
| `KadQuery.BudgetKeptExactly` | go-libp2p-kad-dht/query.go:362-374 | the loop stays within its budget if and only if the budget is at least one or nobody is left |
| `KadQuery.NoBudgetSpawnsAll` | go-libp2p-kad-dht/query.go:362-374 | with a budget of nought everybody heard of is queried |
| `KadLookup.ReportApplies` | go-libp2p-kad-dht/query.go:477-526 | a report for a waiting peer moves that peer only, to queried if it answered and to unreachable if not, makes those it named known, and never panics |
| `KadLookup.NextKeepsInv` | go-libp2p-kad-dht/query.go:274-318 | waiting peers are exactly those whose query is running or whose report is queued, at most alpha of them |
| `KadLookup.LookupBounded` | go-libp2p-kad-dht/query.go:274-526 | in every interleaving at most alpha peers are waiting, each peer is queried at most once, and no panic is reached |
| `KadLookup.ReportNeverBlocks` | go-libp2p-kad-dht/query.go:417-475 | a query that has still to report finds room in the channel, also after termination |
| `KadLookup.NeverHangs` | go-libp2p-kad-dht/query.go:274-318 | until the lookup terminates an update is queued or a query is in flight |
| `KadLookup.BudgetPositive` | go-libp2p-kad-dht/query.go:299-301 | after every update there is room for at least one more query |
| `KadLookup.LookupEnds` | go-libp2p-kad-dht/query.go:274-318 | a lookup that knows n peers has made at most n + 1 turns and 2n + 2 steps, so every lookup among finitely many peers ends |
| `KadLookup.StatesMean` | go-libp2p-kad-dht/query.go:417-526 | in every lookup a peer is known if and only if it is a seed or was named in an answer, queried if and only if it answered, unreachable if and only if its dial or query failed |
| `KadLookup.GoesOnFor` | go-libp2p-kad-dht/query.go:288-317 | a lookup that goes on has alpha queries waiting or nobody else to query, and knows a peer without answer or failure that has fewer than beta answers closer to the key |
| `KadLookup.EndReason` | go-libp2p-kad-dht/query.go:350-391 | it ends by starvation exactly if everybody known has answered or failed to |
| `KadLookup.EndMeans` | go-libp2p-kad-dht/query.go:350-391 | a lookup that ended without being stopped or cancelled has an answer or failure from everyone it heard of, or beta answers at least as close as each other one |
| `OptimisticProvide.NextKeepsInv` | go-libp2p-kad-dht/lookup_optim.go:238-313 | completions are conserved, planned receives match outstanding signals, and each own step uses up work |
| `OptimisticProvide.CompletesSafely` | go-libp2p-kad-dht/lookup_optim.go:238-313 | nothing is lost or counted twice, the channel is closed at most once and only after all signals, and no send or receive follows |
| `OptimisticProvide.WaitsExactly` | go-libp2p-kad-dht/lookup_optim.go:259-274 | the caller is past its first loop if and only if the smaller of threshold and number of RPCs have been counted |
| `OptimisticProvide.LeavesAtLast` | go-libp2p-kad-dht/lookup_optim.go:269-274 | it leaves the loop at the completion that makes up that number |
| `OptimisticProvide.LeaseInstead` | go-libp2p-kad-dht/lookup_optim.go:286-301 | beyond it the caller waits for no further completion while the pool has a lease to give |
| `OptimisticProvide.SignalsFit` | go-libp2p-kad-dht/lookup_optim.go:93-109 | the pool is never overdrawn, at most threshold signals are buffered, and an RPC can signal while there are fewer |
| `OptimisticProvide.FinishedClean` | go-libp2p-kad-dht/lookup_optim.go:259-313 | at the end every lease is back, every RPC was counted, and the channel was closed if and only if the threshold was below the number of RPCs |
| `OptimisticProvide.NeverStuck` | go-libp2p-kad-dht/lookup_optim.go:259-313 | until the end some own step is possible whatever other users of the pool do |
| `OptimisticProvide.BoundedWork` | go-libp2p-kad-dht/lookup_optim.go:238-313 | the call takes at most seven steps per RPC in any interleaving |
| `OptimisticProvide.ReturnsExactly` | go-libp2p-kad-dht/lookup_optim.go:259-313 | no run gets stuck if and only if at least one RPC is issued and the threshold is at least one |
| `OptimisticProvide.NeverReturns` | go-libp2p-kad-dht/lookup_optim.go:269-274 | otherwise the caller never leaves its first loop |
| `Multiaddr.ComponentBytes` | go-multiaddr/codec.go:111-148 | the bytes of a component are the minimal encodings of its code and length followed by its value, which has the size the protocol announces or at most 2^31 - 1 bytes |
| `Multiaddr.PrintParse` | go-multiaddr/codec.go:11-166 | bytes that validate print, and parsing the text gives the same bytes, provided values a component can carry and that validate have a text that reads back |
| `Multiaddr.PathValueExactly` | go-multiaddr/component.go:129-140 | a path value survives printing and parsing if and only if it starts with a slash and does not end in one |
| `Multiaddr.PathValueShortened` | go-multiaddr/component.go:129-140 | the value /a/ comes back as /a |
| `Multiaddr.ReadEncoded` | go-multiaddr/codec.go:111-148 | an encoded component with a value it can carry reads back whatever follows |
| `Multiaddr.LongUnreadable` | go-multiaddr/varint.go:18-28 | a component with a longer value is not read |
| `Multiaddr.ParseValid` | go-multiaddr/codec.go:11-109 | what parses validates if and only if no length-prefixed value has more than 2^31 - 1 bytes |
| `Multiaddr.ParsePrintParse` | go-multiaddr/codec.go:11-166 | exactly then it prints, and as a text for the same bytes |
| `MultiaddrCodec.StringToBytes` | go-multiaddr/codec.go:11-64 | the loop over slash-separated pieces computes the parse, errors included |
| `MultiaddrCodec.ValidateBytes` | go-multiaddr/codec.go:66-109 | the loop accepts exactly the valid multiaddrs |
| `MultiaddrCodec.BytesToString` | go-multiaddr/codec.go:150-166 | the loop computes the printed form, errors included |
| `MultiaddrCodec.Split` | go-multiaddr/util.go:6-26 | gives the components in order, or nothing if one cannot be read |
| `MultiaddrCodec.Join` | go-multiaddr/util.go:29-62 | gives the concatenation |
| `MultiaddrCodec.ComponentsConcat` | go-multiaddr/util.go:193-211 | the components of a concatenation are the components of the parts |
| `MultiaddrCodec.Matches` | go-multiaddr/multiaddr.go:161-174 | the inner loop decides whether the right parts occur at this position |
| `MultiaddrCodec.Decapsulate` | go-multiaddr/multiaddr.go:152-192 | gives everything before the last occurrence, nil for an occurrence at the start, the whole if there is none |
| `MultiaddrCodec.DecapsulatedMeans` | go-multiaddr/multiaddr.go:152-192 | the last occurrence and all behind it go, one at the start gives nil, and without any the multiaddr stays |
| `MultiaddrCodec.DecapsulateUndoesEncapsulate` | go-multiaddr/multiaddr.go:137-192 | decapsulating what was encapsulated gives the original, even if it also occurs inside it |
| `MultiaddrProtocols.RegistryLawful` | go-multiaddr/protocol.go:53-75 | a registry filled by AddProtocol with lawful protocols meets what the codec relies on |
| `MultiaddrProtocols.AddsExactly` | go-multiaddr/protocol.go:53-75 | adding a list of protocols succeeds if and only if no name or code is taken or given twice and no path protocol has a fixed size |
| `MultiaddrProtocols.AliasKeepsLaws` | go-multiaddr/protocols.go:368-370 | so does one with a second name for a protocol |
| `MultiaddrProtocols.NumbersLawful` | go-multiaddr/transcoders.go:60-156 | ports, which nothing validates, and prefix lengths are lawful: decimal text reads back |
| `MultiaddrProtocols.PortOnWire` | go-multiaddr/transcoders.go:143-156 | a port is two bytes, the high one first |
| `MultiaddrProtocols.NamesLawful` | go-multiaddr/transcoders.go:92-442 | host, zone and file names are lawful |
| `MultiaddrProtocols.UnescapeBack` | go-multiaddr/transcoders.go:468-484 | unescaping undoes escaping for all bytes |
| `MultiaddrProtocols.PathsLawful` | go-multiaddr/transcoders.go:466-491 | escaped paths are lawful, slashes included |
| `MultiaddrProtocols.BuiltInLawful` | go-multiaddr/protocols.go:323-371 | the registry that init builds meets what the codec relies on if its protocols with values of other libraries are lawful |
| `MultiaddrProtocols.BuiltInCodec` | go-multiaddr/codec.go:11-166 | so with that registry, second name included, valid bytes print and parse back, and what parses validates exactly when no value is too long |
| `MultiaddrProtocols.LongFileName` | go-multiaddr/transcoders.go:397-399 | a file name of n letters parses, and the result is valid if and only if n is below 2^31 - 1 |

## Left out

- Range keys in compactions and batches, and ingested-sstable records: they pass through their own encodings, which are not part of this model.
- Compaction errors other than a corrupt sized delete, value closers, buffer lifetimes, statistics and mergers that finish as a delete: they need library code that is not part of this model.
- `CompactionIter.CompactionIter.Covers`: spans are kept as the list handed to the fragmenter and are not fragmented; its answer is stated for the spans added so far.
- The merging iterator below the compaction iterator: its output is taken as a sequence in internal key order.
- `GetIter.GetIter.OpenNext`: levelIter is represented by the positions it presents, table by table, with the boundary key it returns for a table ending in a range tombstone; that such a boundary is never the key looked up, because the seek passes over a table whose exclusive end is that key, is taken as given; bloom filters, file loading and iterator errors are not modelled.
- The choice of memtables by log sequence number before a lookup, and iterators over several keys.
- `CommitSafety.WalInSequenceOrder`: speaks of the order and completeness of WAL writes, not of fsync; the sync semaphore and the wait for it are not modelled.
- Reuse of a batch after commit, and the empty batch that Commit returns for at once.
- `Batch.Batch.Apply`: does not model the update of the skiplist index, the memtable size estimate or the rejection of ingested-sstable batches.
- Deferred batch operations: key and value are copied in the same call that lays down the record.
- `Mesh.GetPeers`: takes the candidates as a shuffled list without duplicates; that `SlicePeers.CommonPeers` makes such a list out of the slices is not carried through the router's methods.
- `Mesh.Router.HandleGraft`: does not model behavioural penalties and peer exchange.
- `Mesh.Router.PublishPeers`: models one slice of the bitmask without flood publishing; direct peers and peers without the mesh feature are added by the caller.
- Floating-point scoring and its decay, gossip emission, peer gater, tracers, discovery and streams.
- `RpcSplit.AppendOrMerge`: starts from an empty slice and does not track the `from` field.
- `KadLookup.NextKeepsInv`: one turn of the main loop is one step, since only the main goroutine touches the peer states; dialling, timing and events are not modelled.
- The follow-up queries after a lookup and the evaluation of its result.
- The distance thresholds of optimistic provide, and which peers its RPCs go to.
- The transcoders of IP, onion, garlic, CID and multihash values, whose encodings belong to other libraries: they are represented by the laws a transcoder has to satisfy.
- `MultiaddrProtocols.RegistryLawful`: the registry is a value and not two global maps, and a protocol has a transcoder if and only if it has a value.
- Aliasing of slices returned to callers, and unsafe memory access: a varint that runs past the end of a batch is an explicit outcome of the decoder instead.
