# EventStore transaction-log core, modelled in Dafny

This project models the part of EventStore's transaction-log layer that works
on chunks and records, plus the small value types and guards around it, and
proves properties of the model.

- **Chunk registry** (`ChunkManager`, `TFChunkManager`). A fixed array of
  400,000 slots maps chunk numbers to chunks. A chunk covering
  `[ChunkStartNumber..ChunkEndNumber]` sits in every slot of that range. A
  count records how many chunk numbers are in use. The model covers:
  - adding a chunk, or a new chunk at the tail;
  - replacing a run of slots with a merged (scavenged) chunk, once every old
    occupant has been checked to lie inside the new range;
  - switching a completed chunk in, cutting the tail after a raw replication;
  - resolving a log position or a chunk number to a chunk;
  - the cache pass, which chooses a boundary under the cache budget, takes
    completed chunks below it out of memory and loads those from it onward.
- **Storage chaser** (`StorageChasers`). It replays durable log records.
  - Prepares of the transaction in progress are buffered and handed to the
    index committer when the transaction ends or another one starts.
  - Commits and prepares are acknowledged, and epochs are cached.
  - The chaser checkpoint is flushed under an adaptive delay.
  - Everything the chaser hands on is recorded, in order, as a sequence of
    outputs.
- **Chaser cursor** (`ChunkChaser`, `TFChunkChaser`). After each read the
  chaser checkpoint holds the position the next read starts from. Close and
  dispose flush it once.
- **Stream names**:
  - `SystemNames`: system streams, `$$` metastreams, `$mem-` in-memory
    streams, and decoding the data of link and stream-reference events;
  - `LogV3Metastreams`: log-format V3 metastreams, which are the odd `uint`
    stream numbers.
- **Value types and guards**:
  - `AnyStreamRevisions`: the gRPC `AnyStreamRevision`;
  - `EpochRecords`: the epoch record and its ordering and rendering;
  - `Ensure`: the argument guards;
  - `StreamAcls`: the stream ACL.
- **Small state machines**:
  - `Forwarder`: the single-target forwarder and the round-robin `Balancing`
    forwarder;
  - `PersistentSubscriptionCheckpoint`: the persistent-subscription
    checkpoint writer, with its outstanding-write gate, metadata-first
    bootstrap of the state stream, and version tracking.

Shared modules:

- `Primitives`: integer widths and unchecked C# `int`/`long` wrap-around;
- `Wrappers`: `Option`, `Result` and `Outcome`;
- `LogRecords`: the record types the chaser reads;
- `Text`: the .NET text helpers the core relies on (decimal formatting and
  `long.Parse`, `Split` with a count of two, `Join`, hexadecimal).

An exception the source throws is an `Err` or `Fail` value in the model. A
precondition appears only where the source's callers must guarantee it.
Objects the source mutates are Dafny classes:

- the chunk registry and its chunks;
- the chaser, its checkpoint and its reader;
- the forwarders and their publishers;
- the checkpoint writer and its I/O dispatcher.

The publishers, the I/O dispatcher and the chunk reader are recorders or
stand-ins for collaborators whose source is not part of this model.

In the source, `SwitchChunk` moves the file of a completed chunk and reopens
it. The model passes the reopened chunk in as a parameter (`reopened`).
`GetCommitLastEventNumber` of the index committer is a function parameter.
The stopwatch readings of the chase loop are integer parameters.

## Model

| member | source | states |
|---|---|---|
| ChunkManager.TFChunkManager.constructor | src/EventStore.Core/TransactionLog/Chunks/TFChunkManager.cs:27-44 | The registry starts with every slot empty, count 0 and caching off. |
| ChunkManager.TFChunkManager.EnableCaching | src/EventStore.Core/TransactionLog/Chunks/TFChunkManager.cs:46-51 | Caching becomes enabled and exactly one cache pass is requested. |
| ChunkManager.TFChunkManager.TriggerBackgroundCaching | src/EventStore.Core/TransactionLog/Chunks/TFChunkManager.cs:296-303 | One pass more is requested when caching is enabled, none otherwise. Nothing else changes. |
| ChunkManager.TFChunkManager.AddChunk | src/EventStore.Core/TransactionLog/Chunks/TFChunkManager.cs:166-178 | Every slot of the chunk's range holds the chunk and every other slot is untouched. The count becomes `max(old, end + 1)` and a pass is requested. The registry invariant is kept. |
| ChunkManager.AddedChunkIsFound | src/EventStore.Core/TransactionLog/Chunks/TFChunkManager.cs:170-174 | After an add, looking up any number of the chunk's range finds the chunk. |
| ChunkManager.AddLeavesOthers | src/EventStore.Core/TransactionLog/Chunks/TFChunkManager.cs:170-174 | After an add, a lookup outside the chunk's range gives what it gave before. |
| ChunkManager.TFChunkManager.AddNewChunk | src/EventStore.Core/TransactionLog/Chunks/TFChunkManager.cs:120-138 | A fresh ongoing chunk of the configured size gets start = end = the old count, and the count grows by exactly one. With all 400,000 numbers in use, the slot write throws and nothing changes. |
| ChunkManager.TFChunkManager.AddNewChunkWithHeader | src/EventStore.Core/TransactionLog/Chunks/TFChunkManager.cs:140-164 | It succeeds iff the file size is positive and the header starts at the count. A non-positive size is refused by the positive-number guard; a wrong start number gets the start/end/count error. Either refusal changes nothing. On success the chunk is added as by `AddChunk`. |
| ChunkManager.TFChunkManager.CheckReplacement | src/EventStore.Core/TransactionLog/Chunks/TFChunkManager.cs:244-256 | The check loop's verdict is `ReplaceCheck`, the jump-by-chunk scan that skips empty slots. It changes nothing. |
| ChunkManager.FittingOccupantsPass | src/EventStore.Core/TransactionLog/Chunks/TFChunkManager.cs:244-256 | If every occupant of the range lies within it, the check passes. |
| ChunkManager.PassingRangeFits | src/EventStore.Core/TransactionLog/Chunks/TFChunkManager.cs:244-256 | Converse, when every chunk fills its whole range: if the check passes, every occupant lies within the range. |
| ChunkManager.TFChunkManager.SwapIn | src/EventStore.Core/TransactionLog/Chunks/TFChunkManager.cs:258-280 | Every slot of the range holds the new chunk and other slots are untouched. Every chunk that occupied the range is marked for deletion; no cached flag changes. |
| ChunkManager.TFChunkManager.ReplaceChunksWith | src/EventStore.Core/TransactionLog/Chunks/TFChunkManager.cs:241-281 | The result is the check's verdict. On refusal, slots and occupants are unchanged. On success, the range holds the new chunk and each displaced chunk is marked for deletion. |
| ChunkManager.SwitchedInPlaceChunkIsDisplaced | src/EventStore.Core/TransactionLog/Chunks/TFChunkManager.cs:193-225 | When the in-memory path switches a chunk that already fills its own range, the check passes and the chunk is among the occupants marked for deletion. |
| ChunkManager.TFChunkManager.RemoveChunks | src/EventStore.Core/TransactionLog/Chunks/TFChunkManager.cs:283-294 | The slots of the range become empty, every chunk that occupied one is marked for deletion, and other slots are untouched. |
| ChunkManager.TFChunkManager.Install | src/EventStore.Core/TransactionLog/Chunks/TFChunkManager.cs:222-225 | The replacement runs, and a chunk it refuses is itself marked for deletion. |
| ChunkManager.TFChunkManager.CutBack | src/EventStore.Core/TransactionLog/Chunks/TFChunkManager.cs:227-236 | The count becomes the new count and the tail slots are emptied, their chunks marked. A chunk at the new count is the excessive-chunk error; a count of 400,000 indexes past the array. A pass is requested only when neither happens. |
| ChunkManager.TFChunkManager.SwitchKeepingTail | src/EventStore.Core/TransactionLog/Chunks/TFChunkManager.cs:221-237 | Without raw replication the count is unchanged, the new chunk is installed or marked, and a pass is requested. |
| ChunkManager.TFChunkManager.SwitchCuttingTail | src/EventStore.Core/TransactionLog/Chunks/TFChunkManager.cs:221-237 | After raw replication, after the install, the count is the new chunk's end + 1, the slots past the switched chunk up to the old count are emptied and marked, and a leftover chunk is an error. |
| ChunkManager.TFChunkManager.SwitchChunk | src/EventStore.Core/TransactionLog/Chunks/TFChunkManager.cs:180-239 | A chunk that is not completed is refused and nothing changes. Otherwise, for an in-memory db, the chunk itself is installed (the reopened one otherwise): installed if the check passes, else marked for deletion. With removal, the tail is cut as in `SwitchCuttingTail`. The whole new registry, count and pass count are given in each case. |
| ChunkManager.Lookup | src/EventStore.Core/TransactionLog/Chunks/TFChunkManager.cs:328-338 | It succeeds iff the number is in `[0, count)` and its slot is occupied, and then returns that slot. An out-of-range number is the argument-out-of-range error. |
| ChunkManager.TFChunkManager.GetChunk | src/EventStore.Core/TransactionLog/Chunks/TFChunkManager.cs:328-338 | It succeeds iff `0 <= chunkNum < ChunksCount` and the slot is occupied; the chunk found covers the number. Out of range is `ArgumentOutOfRange("chunkNum")`, an empty slot is the not-present error. |
| ChunkManager.TruncDiv | src/EventStore.Core/TransactionLog/Chunks/TFChunkManager.cs:316 | C# division truncates toward zero. The remainder is smaller in magnitude than the divisor and has the dividend's sign. The quotient is 0 when the dividend is smaller in magnitude than the divisor. It agrees with Euclidean division on non-negative operands, and its magnitude is at most the dividend's. |
| ChunkManager.SmallNegativePositionResolvesAsZero | src/EventStore.Core/TransactionLog/Chunks/TFChunkManager.cs:316-317 | A position strictly between `-ChunkSize` and 0 has chunk number 0. Both the as-written lookup and the corrected one resolve it exactly as position 0. |
| ChunkManager.PositionQuotient | src/EventStore.Core/TransactionLog/Chunks/TFChunkManager.cs:316 | `long` division fails iff the chunk size is 0 or the operands are `long.MinValue / -1`. For non-negative operands the quotient `q` satisfies `q*size <= pos < (q+1)*size`. |
| ChunkManager.GetChunkForAsWritten | src/EventStore.Core/TransactionLog/Chunks/TFChunkManager.cs:315-326 | As written, the quotient is cast to `int` unchecked before the range check. A chunk found sits at the wrapped quotient. |
| ChunkManager.HugePositionResolvesToFirstChunk | src/EventStore.Core/TransactionLog/Chunks/TFChunkManager.cs:316-317 | With 256 MiB chunks, position 2^60 has chunk number 2^32, well past the last slot, yet the cast turns it into 0 and the first chunk is returned. |
| ChunkManager.ChunkForPosition | src/EventStore.Core/TransactionLog/Chunks/TFChunkManager.cs:315-326 | Corrected lookup, with the range check made on the `long` quotient. It succeeds iff the quotient is in `[0, count)` with an occupied slot. The chunk found covers the quotient, and for non-negative input its byte range `[start*size, (end+1)*size)` contains the position. |
| ChunkManager.AsWrittenAgreesInRange | src/EventStore.Core/TransactionLog/Chunks/TFChunkManager.cs:316-317 | Wherever the quotient fits in an `int`, the as-written and the corrected lookup agree. |
| ChunkManager.TFChunkManager.GetChunkFor | src/EventStore.Core/TransactionLog/Chunks/TFChunkManager.cs:315-326 | This is the corrected lookup (see Left out). A chunk found sits at `logPosition / ChunkSize` within the count, covers that number, and its byte range contains the position. Wherever that quotient fits in an `int`, the result equals the as-written `GetChunkForAsWritten`. |
| ChunkManager.TFChunkManager.TryGetChunkFor | src/EventStore.Core/TransactionLog/Chunks/TFChunkManager.cs:305-313 | This is the corrected lookup (see Left out). It returns true iff the position's chunk number is in range and occupied, paired with `GetChunkFor`'s chunk. Every failure gives false and null. Wherever the quotient fits in an `int`, the flag is true iff the as-written lookup finds a chunk, and the chunk is the one it finds. |
| ChunkManager.ChainExtends | src/EventStore.Core/TransactionLog/Chunks/TFChunkManager.cs:70-84 | One more step of the backward scan adds the chunk below the boundary to the chain and its cache size to the total. |
| ChunkManager.TFChunkManager.ComputeCacheBoundary | src/EventStore.Core/TransactionLog/Chunks/TFChunkManager.cs:66-85 | The boundary is reached by stepping to `ChunkStartNumber - 1`. The chunks from it to the tail fit `MaxChunksCacheSize`, using the per-chunk sizes of lines 72-75, and the chunk just below would not fit. An empty slot on the way is a null dereference. It changes nothing. |
| ChunkManager.TFChunkManager.UncacheBelow | src/EventStore.Core/TransactionLog/Chunks/TFChunkManager.cs:87-92 | Exactly the completed chunks of the backward chain below the boundary are uncached; every other flag keeps its value. |
| ChunkManager.TFChunkManager.CacheFrom | src/EventStore.Core/TransactionLog/Chunks/TFChunkManager.cs:94-99 | Exactly the completed chunks of the forward chain from the boundary are cached; every other flag keeps its value. |
| ChunkManager.ChainsAgree | src/EventStore.Core/TransactionLog/Chunks/TFChunkManager.cs:87-99 | When every chunk fills its range, the forward scan from the boundary meets exactly the chunks the backward scan added up. |
| ChunkManager.TFChunkManager.CacheUncacheReadOnlyChunks | src/EventStore.Core/TransactionLog/Chunks/TFChunkManager.cs:64-100 | The whole pass, with the chosen boundary returned. It satisfies the budget and maximality. Completed chunks from the boundary on are cached, those below it are uncached, and all others keep their flag. No deletion mark changes. |
| StorageChasers.CommitPending | src/EventStore.Core/Services/Storage/StorageChaser.cs:266-271 | A non-empty buffer is handed over whole in one `AddPendingPrepare` carrying the given post position; an empty one produces no call. |
| StorageChasers.StorageChaser.CommitPendingTransaction | src/EventStore.Core/Services/Storage/StorageChaser.cs:266-271 | The buffer is cleared and the outputs grow by `CommitPending` of the old buffer; nothing else changes. |
| StorageChasers.EventNumbersCount | src/EventStore.Core/Services/Storage/StorageChaser.cs:219-227 | Away from overflow, a transaction-end prepare acknowledges `TransactionOffset + 1` events when it carries data and none when it does not. |
| StorageChasers.FlushStaleConserves | src/EventStore.Core/Services/Storage/StorageChaser.cs:209-210 | A prepare of another transaction hands the whole buffer over. What remains buffered belongs to the prepare's transaction. |
| StorageChasers.AfterFlushConserves | src/EventStore.Core/Services/Storage/StorageChaser.cs:212-238 | For the rest of a prepare: the old buffer plus what the prepare adds equals what is handed over plus what stays buffered. The buffer keeps holding committed data/delete prepares of one transaction. |
| StorageChasers.PrepareConserves | src/EventStore.Core/Services/Storage/StorageChaser.cs:208-239 | A whole prepare keeps the buffer invariant and loses or invents no buffered prepare. |
| StorageChasers.StorageChaser.ProcessPrepareRecord | src/EventStore.Core/Services/Storage/StorageChaser.cs:208-239 | The new buffer and the appended outputs are those of `ProcessPrepare`. Flag, flush delay and last flush are unchanged. |
| StorageChasers.StorageChaser.ProcessPrepareAfterFlush | src/EventStore.Core/Services/Storage/StorageChaser.cs:212-238 | The second half of the prepare handler, as specified by `PrepareAfterFlush`: a committed prepare is buffered iff it has data or a deletion. A committed transaction end hands over and sends a `CommitAck` with the event numbers of lines 219-227. An uncommitted prepare sends one `PrepareAck` with its flags iff it begins, ends or carries data. |
| StorageChasers.PrepareAcksCount | src/EventStore.Core/Services/Storage/StorageChaser.cs:208-239 | A prepare gets one commit acknowledgment iff it is a committed transaction end. It gets one prepare acknowledgment iff it is uncommitted and begins, ends or carries data. It never emits the end-of-file marker. |
| StorageChasers.CommitConserves | src/EventStore.Core/Services/Storage/StorageChaser.cs:241-251 | A commit loses or invents no buffered prepare: the old buffer is what is handed over followed by what stays buffered. |
| StorageChasers.CommitAcksCount | src/EventStore.Core/Services/Storage/StorageChaser.cs:241-251 | A commit gets exactly one commit acknowledgment and no prepare acknowledgment. |
| StorageChasers.ProcessCommitAck | src/EventStore.Core/Services/Storage/StorageChaser.cs:241-251 | A commit's outputs are the buffer hand-off, then `AddPendingCommit` with the post position, then a `CommitAck`. Its last event number is the committer's, or first-1 when the committer reports none. |
| StorageChasers.StorageChaser.ProcessCommitRecord | src/EventStore.Core/Services/Storage/StorageChaser.cs:241-251 | The new buffer and appended outputs are those of `ProcessCommit`; nothing else changes. |
| StorageChasers.SystemConserves | src/EventStore.Core/Services/Storage/StorageChaser.cs:253-264 | A system record loses or invents no buffered prepare, in the same sense. |
| StorageChasers.SystemAcksCount | src/EventStore.Core/Services/Storage/StorageChaser.cs:253-264 | A system record acknowledges nothing and emits no end-of-file marker. |
| StorageChasers.StorageChaser.ProcessSystemRecord | src/EventStore.Core/Services/Storage/StorageChaser.cs:253-264 | The buffer is handed over at the record's own log position, then an epoch record is cached. These are `ProcessSystem`'s buffer and outputs. |
| StorageChasers.ProcessRecordConserves | src/EventStore.Core/Services/Storage/StorageChaser.cs:175-206 | Any record processed keeps the buffer invariant. The old buffer plus the record's buffered prepare equals the prepares handed over plus the new buffer. |
| StorageChasers.ProcessRecordAcks | src/EventStore.Core/Services/Storage/StorageChaser.cs:175-206 | Any record processed gets exactly the commit and prepare acknowledgments listed above, and no others. |
| StorageChasers.ProcessRecordEofMarker | src/EventStore.Core/Services/Storage/StorageChaser.cs:184-205 | Only an unknown record type is refused, with the argument-out-of-range error. A commit sets the flag to `!Eof`. A non-commit at EOF with the flag set emits the marker last and clears the flag. Any other record leaves flag and marker alone. |
| StorageChasers.StorageChaser.ProcessLogRecord | src/EventStore.Core/Services/Storage/StorageChaser.cs:175-206 | A null record is a null dereference. Otherwise it fails iff `ProcessRecord` does, and then state and outputs are unchanged. On success they become `ProcessRecord`'s. |
| StorageChasers.ReplayConserves | src/EventStore.Core/Services/Storage/StorageChaser.cs:112-117 | Over any run of the chase loop, every committed data/delete prepare reaches the index committer exactly once and in log order, unless it is still buffered. |
| StorageChasers.ShouldFlushPlain | src/EventStore.Core/Services/Storage/StorageChaser.cs:156-157 | Away from overflow, the flush decision is "no record read, or `now - lastFlush >= flushDelay + MinFlushDelay`". |
| StorageChasers.StorageChaser.constructor | src/EventStore.Core/Services/Storage/StorageChaser.cs:31-83 | The chaser starts with an empty buffer, the flag clear, no outputs, flush delay 0 and last flush at the current reading. `MinFlushDelay` is `2 * TicksPerMs` in `int` arithmetic. |
| StorageChasers.StorageChaser.ChaserIteration | src/EventStore.Core/Services/Storage/StorageChaser.cs:143-173 | One read is made, and a successful record is processed. The iteration fails iff the processing does. Otherwise the checkpoint is flushed once exactly when due, and then flush delay and last flush become the flush's duration and end. The chaser checkpoint holds the record's post position after a success, or otherwise wherever the failed read left the reader. |
| ChunkChaser.TFChunkChaser.constructor | src/EventStore.Core/TransactionLog/Chunks/TFChunkChaser.cs:17-25 | The reader starts at the chaser checkpoint's durable position. |
| ChunkChaser.TFChunkChaser.Open | src/EventStore.Core/TransactionLog/Chunks/TFChunkChaser.cs:27-29 | Nothing changes. |
| ChunkChaser.TFChunkChaser.TryReadNextResult | src/EventStore.Core/TransactionLog/Chunks/TFChunkChaser.cs:37-44 | The reader's result is returned unchanged. The checkpoint is written with its post position after a success, or with the reader's position after a failure, which is wherever that read left it. Nothing is flushed. |
| ChunkChaser.TFChunkChaser.TryReadNext | src/EventStore.Core/TransactionLog/Chunks/TFChunkChaser.cs:31-35 | Returns the same read's success flag and record, with the checkpoint written as above. |
| ChunkChaser.TFChunkChaser.Flush | src/EventStore.Core/TransactionLog/Chunks/TFChunkChaser.cs:54-56 | One checkpoint flush makes the written position durable. |
| ChunkChaser.TFChunkChaser.Close | src/EventStore.Core/TransactionLog/Chunks/TFChunkChaser.cs:50-52 | Exactly one checkpoint flush. |
| ChunkChaser.TFChunkChaser.Dispose | src/EventStore.Core/TransactionLog/Chunks/TFChunkChaser.cs:46-48 | Exactly one checkpoint flush. |
| SystemNames.IsSystemStream | src/EventStore.Core/Services/SystemNames.cs:38-40 | True iff the name is non-empty and starts with `$`. |
| SystemNames.IsMetastream | src/EventStore.Core/Services/SystemNames.cs:46-48 | True iff the name starts with `$$`. |
| SystemNames.OriginalStreamOf | src/EventStore.Core/Services/SystemNames.cs:50-52 | It succeeds iff the name is at least two characters long, and the name is its first two characters followed by the result. |
| SystemNames.MetastreamOf | src/EventStore.Core/Services/SystemNames.cs:42-44 | The result is a metastream and a system stream, and `OriginalStreamOf` of it gives the stream back. |
| SystemNames.MetastreamOfOriginal | src/EventStore.Core/Services/SystemNames.cs:42-52 | The other round trip: a metastream is the metastream of its original stream. |
| SystemNames.IsInMemoryStream | src/EventStore.Core/Services/SystemNames.cs:54-56 | True iff the name starts with `$mem-`, compared character by character (see Left out). Such a stream is a system stream and not a metastream. |
| SystemNames.KnownInMemoryStreams | src/EventStore.Core/Services/SystemNames.cs:35-36 | The node-state and gossip streams are in-memory streams; the metastream of one is not. |
| SystemNames.StreamReferenceEventToStreamId | src/EventStore.Core/Services/SystemNames.cs:122-141 | A link yields the text after its first `@`; without one, `parts[1]` is out of range. The three reference types yield the data unchanged. Any other type throws not-supported with the type in the message. |
| SystemNames.EventLinkToEventNumber | src/EventStore.Core/Services/SystemNames.cs:143-146 | `long.Parse` of the text before the first `@`, or of the whole link when there is none. |
| SystemNames.LinkDataRoundTrip | src/EventStore.Core/Services/SystemNames.cs:122-146 | Decoding `"{number}@{stream}"` gives back the number and the stream, even when the stream name contains `@`. |
| LogV3Metastreams.IsMetaStream | src/EventStore.Core/LogV3/LogV3Metastreams.cs:10-11 | True iff the id is odd. |
| LogV3Metastreams.MetaStreamOf | src/EventStore.Core/LogV3/LogV3Metastreams.cs:14-18 | An odd id is refused. Otherwise the result is `id + 1`, which is odd and never wraps around. |
| LogV3Metastreams.OriginalStreamOf | src/EventStore.Core/LogV3/LogV3Metastreams.cs:21-25 | An even id is refused. Otherwise the result is `id - 1`, which is even and never wraps around. |
| LogV3Metastreams.MetaStreamRoundTrips | src/EventStore.Core/LogV3/LogV3Metastreams.cs:14-25 | Both round trips hold: for even and for odd ids. |
| LogV3Metastreams.StreamOrMetastream | src/EventStore.Core/LogV3/LogV3Metastreams.cs:10-25 | Exactly one of the two mappings accepts any given id. |
| EpochRecords.ToDto | src/EventStore.Core/TransactionLog/LogRecords/EpochRecord.cs:83-91 | The DTO copy keeps all six fields. |
| EpochRecords.FromDto | src/EventStore.Core/TransactionLog/LogRecords/EpochRecord.cs:45-47 | Copying a DTO into a record and back gives the DTO. |
| EpochRecords.FromDtoToDto | src/EventStore.Core/TransactionLog/LogRecords/EpochRecord.cs:35-47 | Copying a record into a DTO and back gives the record. |
| EpochRecords.CompareTo | src/EventStore.Core/TransactionLog/LogRecords/EpochRecord.cs:64-69 | Null gives 1. Any other kind of object throws with the source's message. Two records compare to -1, 0 or 1 with the sign of their epoch numbers' comparison. |
| EpochRecords.CompareIsTotalPreorder | src/EventStore.Core/TransactionLog/LogRecords/EpochRecord.cs:68 | The comparison is reflexive, antisymmetric in sign, transitive and total, and fields other than the epoch number do not affect it. |
| EpochRecords.GuidToStringB | src/EventStore.Core/TransactionLog/LogRecords/EpochRecord.cs:12 | The `B` format of a GUID is 38 characters between braces. Hyphens sit at 9, 14, 19 and 24, and the groups of 8, 4, 4, 4 and 12 between them are lower-case hexadecimal digits. |
| EpochRecords.GuidToStringBReadBack | src/EventStore.Core/TransactionLog/LogRecords/EpochRecord.cs:12 | Parsing the `B` rendering of any GUID gives that GUID back. |
| EpochRecords.GuidToStringBInjective | src/EventStore.Core/TransactionLog/LogRecords/EpochRecord.cs:12 | Two GUIDs with the same `B` rendering are equal, so the rendering identifies the epoch id. |
| Text.HexValueOfHex | src/EventStore.Core/TransactionLog/LogRecords/EpochRecord.cs:12 | A number below 16^width, written as `width` lower-case hexadecimal digits with leading zeros, reads back to that number. |
| EpochRecords.AsStringReadBack | src/EventStore.Core/TransactionLog/LogRecords/EpochRecord.cs:11-16 | `"E{number}@{position}:{id}"` can be read back to the epoch's number, position and id. For a null epoch it reads back to -1, -1 and the empty GUID. |
| Ensure.NotNull | src/EventStore.Common/Utils/Ensure.cs:12-15 | It fails iff the argument is null, with an argument-null exception naming the parameter. |
| Ensure.NotNullOrEmptyAsWritten | src/EventStore.Common/Utils/Ensure.cs:17-20 | As written: it fails iff the string is null or empty. The exception gets the string's value as parameter name and the parameter name as message. |
| Ensure.NotNullOrEmptyAsWrittenLosesName | src/EventStore.Common/Utils/Ensure.cs:17-20 | An empty argument is reported under the parameter name `""`, not its own name. |
| Ensure.NotNullOrEmpty | src/EventStore.Common/Utils/Ensure.cs:17-20 | Corrected guard: it fails iff the string is null or empty, naming the parameter. |
| Ensure.Positive | src/EventStore.Common/Utils/Ensure.cs:22-30 | It fails iff `number <= 0`, with the out-of-range exception, the parameter name and the "should be positive." message. |
| Ensure.Nonnegative | src/EventStore.Common/Utils/Ensure.cs:32-40 | It fails iff `number < 0`, with the "should be non negative." message. |
| Ensure.NotEmptyGuidAsWritten | src/EventStore.Common/Utils/Ensure.cs:47-50 | As written: it fails iff the GUID is empty. The parameter name is passed as the message and the message as the parameter name. |
| Ensure.NotEmptyGuidAsWrittenMisnames | src/EventStore.Common/Utils/Ensure.cs:47-50 | The empty GUID is reported under a parameter name that is not the argument's name. |
| Ensure.NotEmptyGuid | src/EventStore.Common/Utils/Ensure.cs:47-50 | Corrected guard: it fails iff the GUID is empty, with message and parameter name in place. |
| Ensure.Equal | src/EventStore.Common/Utils/Ensure.cs:52-62 | It fails iff `expected != actual`, with the formatted message of the two numbers. |
| Ensure.EqualBool | src/EventStore.Common/Utils/Ensure.cs:64-68 | The boolean overload: it fails iff the values differ, rendering them `True` or `False`. |
| Ensure.Valid | src/EventStore.Common/Utils/Ensure.cs:70-72 | A null validator passes; otherwise the validator's verdict is the guard's. |
| AnyStreamRevisions.New | src/EventStore.Core/Services/Transport/Grpc/AnyStreamRevision.cs:22-32 | It accepts exactly 1, 2 and 4 and stores the value. Anything else throws argument-out-of-range for `value`. |
| AnyStreamRevisions.FromInt64 | src/EventStore.Core/Services/Transport/Grpc/AnyStreamRevision.cs:20 | A value outside `int` overflows the checked conversion. Exactly -1, -2 and -4 are accepted, storing `-value`. |
| AnyStreamRevisions.ToInt64 | src/EventStore.Core/Services/Transport/Grpc/AnyStreamRevision.cs:39 | The result is negative iff the stored code is positive. |
| AnyStreamRevisions.Int64RoundTrips | src/EventStore.Core/Services/Transport/Grpc/AnyStreamRevision.cs:20-39 | `FromInt64` then `ToInt64` gives back every accepted value, and `ToInt64` then `FromInt64` gives back every valid revision. |
| AnyStreamRevisions.Equals | src/EventStore.Core/Services/Transport/Grpc/AnyStreamRevision.cs:34-37 | Equality is equality of the stored code. |
| AnyStreamRevisions.NotEquals | src/EventStore.Core/Services/Transport/Grpc/AnyStreamRevision.cs:38 | `!=` is the negation of `==`. |
| AnyStreamRevisions.ToInt | src/EventStore.Core/Services/Transport/Grpc/AnyStreamRevision.cs:40 | The implicit conversion returns the stored code, from which the revision is rebuilt. |
| AnyStreamRevisions.ToString | src/EventStore.Core/Services/Transport/Grpc/AnyStreamRevision.cs:42-47 | 1, 2 and 4 print as `NoStream`, `Any` and `StreamExists`; any other code as its decimal value. |
| AnyStreamRevisions.ToStringInjective | src/EventStore.Core/Services/Transport/Grpc/AnyStreamRevision.cs:42-47 | Different revisions print differently, the default revision (0) included. |
| Forwarder.F.constructor | src/EventStore.Core/Messaging/Forwarder.cs:31-33 | The forwarder keeps its destination. |
| Forwarder.F.Handle | src/EventStore.Core/Messaging/Forwarder.cs:35-37 | Exactly the message is appended to the destination's published messages. |
| Forwarder.Next | src/EventStore.Core/Messaging/Forwarder.cs:64-68 | From a cursor in `[0, Count)`, the next cursor is `(last + 1) mod Count`, again in range. |
| Forwarder.Balancing.constructor | src/EventStore.Core/Messaging/Forwarder.cs:59-61 | The cursor starts at 0. |
| Forwarder.Balancing.Handle | src/EventStore.Core/Messaging/Forwarder.cs:63-70 | The cursor advances by `Next` and stays in range. The message goes to the publisher it names and no other publisher changes. An empty list makes the indexer throw after the cursor has moved. |
| Forwarder.Targets | src/EventStore.Core/Messaging/Forwarder.cs:63-70 | The publishers the next `n` messages go to are all valid indexes. |
| Forwarder.TargetsAreConsecutive | src/EventStore.Core/Messaging/Forwarder.cs:63-70 | The `k`-th next message goes to index `(last + 1 + k) mod Count`. |
| Forwarder.EachTargetOnce | src/EventStore.Core/Messaging/Forwarder.cs:63-70 | Over any `Count` consecutive messages, each publisher receives exactly one. |
| Forwarder.FirstMessageGoesToSecond | src/EventStore.Core/Messaging/Forwarder.cs:57-69 | With two or more publishers the first message goes to index 1. |
| PersistentSubscriptionCheckpoint.StateStreamOf | src/EventStore.Core/Services/PersistentSubscription/PersistentSubscriptionCheckpointWriter.cs:21 | The state stream is a system stream and not a metastream. |
| PersistentSubscriptionCheckpoint.StateStreamsAreDistinct | src/EventStore.Core/Services/PersistentSubscription/PersistentSubscriptionCheckpointWriter.cs:21 | Distinct subscriptions checkpoint to distinct streams. |
| PersistentSubscriptionCheckpoint.StateStreamMetadata | src/EventStore.Core/Services/PersistentSubscription/PersistentSubscriptionCheckpointWriter.cs:67-76 | The new stream keeps at most two events, with no age or cache limit. Only admins may read, write, delete or change its metadata; everybody may read its metadata. |
| PersistentSubscriptionCheckpoint.PersistentSubscriptionCheckpointWriter.constructor | src/EventStore.Core/Services/PersistentSubscription/PersistentSubscriptionCheckpointWriter.cs:15-23 | The writer starts with the subscription's state stream, version `Any` and no outstanding write. |
| PersistentSubscriptionCheckpoint.PersistentSubscriptionCheckpointWriter.StartFrom | src/EventStore.Core/Services/PersistentSubscription/PersistentSubscriptionCheckpointWriter.cs:25-27 | Only the version changes. |
| PersistentSubscriptionCheckpoint.PersistentSubscriptionCheckpointWriter.CheckpointRequest | src/EventStore.Core/Services/PersistentSubscription/PersistentSubscriptionCheckpointWriter.cs:46-51 | The checkpoint write goes to the state stream, expects the current version, carries the state and completes to `WriteStateCompleted`. |
| PersistentSubscriptionCheckpoint.PersistentSubscriptionCheckpointWriter.MetadataRequest | src/EventStore.Core/Services/PersistentSubscription/PersistentSubscriptionCheckpointWriter.cs:53-57 | The metadata write goes to `$$` + the state stream, expects `Any` and carries the state-stream metadata. Its callback captured the state. |
| PersistentSubscriptionCheckpoint.PersistentSubscriptionCheckpointWriter.BeginWriteState | src/EventStore.Core/Services/PersistentSubscription/PersistentSubscriptionCheckpointWriter.cs:29-39 | Nothing is issued while a write is outstanding. Otherwise exactly one write is issued and the gate closes: the metadata write when the version is `NoStream`, else the checkpoint write. |
| PersistentSubscriptionCheckpoint.PersistentSubscriptionCheckpointWriter.PublishCheckpoint | src/EventStore.Core/Services/PersistentSubscription/PersistentSubscriptionCheckpointWriter.cs:46-51 | The gate closes and the checkpoint write is issued. |
| PersistentSubscriptionCheckpoint.PersistentSubscriptionCheckpointWriter.PublishMetadata | src/EventStore.Core/Services/PersistentSubscription/PersistentSubscriptionCheckpointWriter.cs:53-65 | The gate closes and the metadata write is issued. |
| PersistentSubscriptionCheckpoint.PersistentSubscriptionCheckpointWriter.MetadataWritten | src/EventStore.Core/Services/PersistentSubscription/PersistentSubscriptionCheckpointWriter.cs:57-64 | The gate opens. Only a successful metadata write is followed by the checkpoint write, which closes it again. |
| PersistentSubscriptionCheckpoint.PersistentSubscriptionCheckpointWriter.WriteStateCompleted | src/EventStore.Core/Services/PersistentSubscription/PersistentSubscriptionCheckpointWriter.cs:78-86 | The gate opens. Success sets the version to the last event number written; failure resets it to `Any`. |
| StreamAcls.SingleRole | src/EventStore.Core/Data/StreamAcl.cs:19-23 | A null role gives a null array, and a role `r` gives `[r]`. |
| StreamAcls.FromRoleArrays | src/EventStore.Core/Data/StreamAcl.cs:26-33 | The five arrays are stored as given. |
| StreamAcls.FromRoles | src/EventStore.Core/Data/StreamAcl.cs:17-24 | Each of the five roles becomes null when null and a one-element array otherwise. |
| StreamAcls.RolesToString | src/EventStore.Core/Data/StreamAcl.cs:37-41 | A null array prints `<null>`, any other its roles comma-joined between brackets. |
| StreamAcls.RolesToStringDistinguishesNull | src/EventStore.Core/Data/StreamAcl.cs:37-41 | A null array and a non-null one never print alike, and `[r]` prints as `[` r `]`. |
| StreamAcls.FromRolesToString | src/EventStore.Core/Data/StreamAcl.cs:35-42 | An ACL built from single roles prints Read, Write, Delete, MetaRead and MetaWrite in that order. Each role appears between brackets, or as `<null>` when missing. |
| Primitives.WrapToInt32 | src/EventStore.Core/TransactionLog/Chunks/TFChunkManager.cs:316 | The unchecked `(int)` cast keeps in-range values and is congruent to its input modulo 2^32. |
| Primitives.WrapToInt64 | src/EventStore.Core/Services/Storage/StorageChaser.cs:222-226 | Unchecked `long` arithmetic keeps in-range values and is congruent modulo 2^64. |
| Text.ParseIntToString | src/EventStore.Core/Services/SystemNames.cs:145 | `long.Parse` of the decimal rendering of a `long` gives the number back. |

## Left out

- Concurrency:
  - the `_chunksLocker` lock, the `volatile` fields and `Interlocked.Exchange`;
  - the background pass coalescing (`BackgroundCachingProcess`, and the `_backgroundRunning` flag and `ThreadPool` queueing in `TriggerBackgroundCaching`).
  The model runs everything sequentially. A requested pass is a counter, and the pass itself is `CacheUncacheReadOnlyChunks`, called explicitly.
- `SwitchChunk`'s file work (dispose, `WaitForDestroy`, `File.Move`, reopening through `FromCompletedFile`, lock diagnostics) and the log messages. The reopened chunk is a parameter.
- `CreateTempChunk`, `TryClose` and `GetChunkForOrDefault` work on files and file names; they are not modelled.
- `TFChunk` internals are not part of this model. A chunk keeps only its number range, completed flag, sizes and the cached and deletion flags. `ChunkHeader.Size` and `ChunkFooter.Size` are constants of the registry.
- Chunk numbers are typed as registry slots `[0, 400000)`. A chunk whose range reaches past the array would make the source's fill loops throw part-way through. The model does not represent such a chunk.
- ChunkManager.CacheSize: the source adds sizes as `int` and compares them as `long`. The model adds them unbounded, so an `int` overflow of one chunk's size is not captured.
- ChunkManager.TFChunkManager.CacheUncacheReadOnlyChunks: on a null slot met by the second or third scan, the model says only that the error is a null dereference. It does not state which flags were already changed.
- `Ensure.NotNull` on the registry's, chaser's and writer's own arguments is not modelled: Dafny's non-null reference types already exclude null. `Ensure.Nonnegative(double)` works on floating point and is left out.
- The chaser thread, `FlushSignal`, queue statistics, `QueueMonitor`, the `Stopwatch` and `Application.Exit` are left out. Stopwatch readings are integer parameters.
- The index committer and the epoch manager are recorded as outputs. The committer's `GetCommitLastEventNumber` is a function parameter.
- `TFChunkReader` is a stand-in that serves given reads in order; its reading is not part of this model. Each read it serves carries the position where a failed read leaves the reader, so a failed read can move the cursor, as the real reader's can.
- StreamAcls.ToString has no contract of its own. Its rendering is stated for ACLs built from single roles (`FromRolesToString`) and per array (`RolesToString`). An ACL from the array constructor with several roles per array has no lemma about its full text.
- `StreamAcl.ApproximateSize` depends on `MemSizer` and `Unsafe`, which are not part of this model.
- `EpochRecord.AsSerialized` and the checkpoint writer's event bodies are JSON and left out. Event ids from `Guid.NewGuid` are left out. `BeginDelete` only delegates, and `EpochRecord.ToString` is diagnostic text; both are left out.
- `ExpectedVersion.Any` and `NoStream` are symbolic constants, because their values are not part of this model. A concrete version is an event number.
- A `Guid`'s 16-byte layout is not modelled. A GUID is identified with the 128-bit number its `B` text spells, groups in order.
- The `ReadOnlyMemory<byte>` overload of `StreamReferenceEventToStreamId` decodes UTF-8 and is left out. `long.Parse` is modelled for the invariant culture only: an optional sign and decimal digits, with no surrounding white space.
- `Forwarder.FTracing` writes to the console and is left out.
- SystemNames.IsInMemoryStream is a character-by-character prefix test. The source's one-argument `StartsWith("$mem-")` compares under the current culture, which can skip ignorable code points such as a leading `\u200B` or `\0`. For such names the source answers true and the model false. The model's promise that an in-memory stream is a system stream does not hold of the source for them.
- The decimal renderings in `Ensure.Equal`, `AnyStreamRevisions.ToString` and `EpochRecords.AsString` assume the invariant culture's `-` sign and digits. A culture with another negative sign is not modelled.
- ChunkManager.TFChunkManager.GetChunkFor uses the corrected lookup (see Findings). It equals the source's lookup wherever `logPosition / ChunkSize` fits in an `int`. Beyond that the source wraps the chunk number, so position 2^60 with 2^28-byte chunks returns chunk 0; the model refuses it as out of range.
- ChunkManager.TFChunkManager.TryGetChunkFor inherits the corrected lookup. Wherever the quotient fits in an `int` it answers as the source does. Beyond that it gives `(false, null)` where the source can return `true` with a wrapped chunk.
- StorageChasers.EventNumbersCount is stated only where the unchecked `long` sums of lines 222-226 do not wrap; `EventNumbers` itself wraps them.
- StorageChasers.ProcessCommitAck is stated only for a first event number above `long.MinValue`, where `FirstEventNumber - 1` does not wrap.
- StorageChasers.ShouldFlushPlain restates the decision only where neither `long` sum wraps; `ShouldFlush` wraps both.

## Findings

| source | as written | input that shows it | evidently intended | confidence | as-written member | corrected member |
|---|---|---|---|---|---|---|
| src/EventStore.Common/Utils/Ensure.cs:17-20 | `new ArgumentNullException(argument, argumentName)` passes the string's value as the parameter name and the name as the message | `NotNullOrEmpty("", "name")` reports the parameter `""` | the exception names `argumentName` | high, not executed | Ensure.NotNullOrEmptyAsWrittenLosesName | Ensure.NotNullOrEmpty |
| src/EventStore.Common/Utils/Ensure.cs:47-50 | `new ArgumentException(argumentName, argumentName + " should be non-empty GUID.")` swaps message and parameter name | `NotEmptyGuid(Guid.Empty, "id")` reports the parameter `"id should be non-empty GUID."` | message and parameter name in the constructor's order | high, not executed | Ensure.NotEmptyGuidAsWrittenMisnames | Ensure.NotEmptyGuid |
| src/EventStore.Core/TransactionLog/Chunks/TFChunkManager.cs:316-317 | the quotient is cast to `int` unchecked before the range check | chunk size 2^28 and position 2^60 give chunk number 2^32, which the cast turns into 0, so the first chunk is returned | an out-of-range position is refused | low, not executed | ChunkManager.HugePositionResolvesToFirstChunk | ChunkManager.ChunkForPosition |
