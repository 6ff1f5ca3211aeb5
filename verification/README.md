# VELOC checkpoint/restart runtime: a Dafny model

VELOC protects the memory of an HPC application by writing checkpoints to fast node-local storage (scratch) and moving them to persistent storage in the background. A client library writes checkpoint files and sends commands over a queue; a backend runs every command through a list of modules (watchdog, erasure coding, transfer, checksum, versioning). This project models the protocols and formats that the recovery of the data rests on, and proves what they guarantee in every run.

- `Bytes`, `Transfer`: little-endian encodings, `pwrite` semantics, and the two copy loops under every schedule of short transfers.
- `Layout`, `Memory`, `Client`: the checkpoint file, its writer, the header validator, selective recovery and the inspect tool.
- `AggregatedFile`: one shared file for all ranks, written concurrently and read back through the offset map.
- `Naming`: file names and the pattern that finds them again.
- `Barrier`: the aggregation barrier of the backend's worker threads.
- `Cache`, `CacheSafety`, `CacheContent`: the write-behind file cache with its background thread, and what its files hold.
- `CommandQueue`, `SocketQueue`, `IpcQueue`, `ThalliumQueue`: one abstract command queue, two implementations that refine it and one that does not.
- `Pipeline`, `Manager`: the modules as functions of the directories, and as methods that change them in place.
- `PipelineSafety`, `RestartTest`, `EndToEnd`, `Answers`: many commands at once with restarts of the backend, checksums, persistence, throttling, version lookup, what every command answers, and the way of a checkpoint from memory to storage and back.
- `Retention`: keeping the newest versions, as a protocol of small steps with crashes anywhere. `StoredFiles`, `CrashSafety`: every run of the backend is a run of that protocol, so its guarantees hold of the files. `SharedRetention`: the same question when all ranks share one file per version.
- `Status`, `Sets`: return codes, and facts about finite sets of versions.

Every critical section and every module call is one atomic step; a crash inside a module call is that call failing half-way (a copy that leaves a prefix, files that are not removed) followed by a restart of the backend. A run is any sequence of enabled steps, and the main results hold in every state of every run. Files are byte sequences in maps from names. What the file system, the clock, MPI, the digest function, the erasure coding library and the user's serialisers do is a parameter or a nondeterministic choice.

Properties that the code does not have are stated too: a run or an input that breaks each, and the condition under which the code is right.

| does not hold | broken by | right when |
|---|---|---|
| a waiter at the barrier returns | `Barrier.StragglerIsReachable` | `Barrier.ReturnsIff` |
| a batch has one command per client | `Barrier.DoubleCallBreaksBatch` | `Barrier.BatchRightIff` |
| a caller at the barrier gets the answer of its own batch | `Barrier.LateWakerMisreads` | `Barrier.AnswerRightIff` |
| `flush` of the cache reports failures | `CacheSafety.FlushHidesFailure` | `CacheSafety.FlushRightIff` |
| `flush` of the cache waits for all writes | `CacheSafety.FlushBeforeCopy` | `CacheContent.FlushLeavesOnlyInFlight` |
| a polling wait reports failures | `ThalliumQueue.PollingLosesFailure` | `ThalliumQueue.WaitIsRightIff` |
| a name finds only its own files | `Naming.DotMatchesOther` | `Naming.MatchKey` |
| a RESTART brings the checkpoint back | `PipelineSafety.LongerFileShowsThrough` | `PipelineSafety.RestartRestores` |
| a CHECKPOINT within the interval is put off | `PipelineSafety.RebootBreaksSpacing` | `PipelineSafety.PutOffIff`, `PipelineSafety.PutOffExactly` |
| the newest complete versions are kept | `Retention.SkippingLosesAll`, `Retention.PartialFileCosts`, `Retention.PartialRestartCosts`, `Retention.RewritingLosesAll` | `Retention.NewestKeptIff`, `CrashSafety.NewestKeptIff` |
| in aggregated mode too | `SharedRetention.EarlyTrimLosesAll` | `SharedRetention.NewestKeptIff`, `SharedRetention.TrimsInTimeIff` |

At the barrier, right batches need only that nobody deposits twice in a round; right answers need more, and the full discipline of `Barrier.BarrierSafety`, one outstanding call per registered client, is enough for both.

Where comments and code disagree, the model follows the code: `validate_name` accepts a dot although its error message does not list it.

## Model

| member | source | states |
|---|---|---|
| Bytes.DecodeEncodeInt | src/lib/client.cpp:196-200 | a 32-bit id is read back as written |
| Bytes.EncodeDecodeInt | src/common/ckpt_util.cpp:21-22 | every four bytes are the encoding of the int they decode to |
| Bytes.DecodeEncodeSize | src/lib/client.cpp:196-200 | a size below 2^64 is read back as written |
| Bytes.EncodeDecode | src/common/ckpt_util.cpp:19-22 | every byte string is the encoding of the number it decodes to, so decoding loses nothing |
| Bytes.DecodeSnoc | src/common/ckpt_util.cpp:19-22 | little-endian: every further byte counts 256 times as much as the one before |
| Bytes.IntValue | src/common/ckpt_util.cpp:21 | four bytes are the number that fits an `int`, up to a multiple of 2^32 |
| Bytes.WrapIsRemainder | src/common/ckpt_util.cpp:24 | a 64-bit sum is the remainder of the exact one |
| Bytes.WrapAdd | src/common/ckpt_util.cpp:24 | summing in `size_t` step by step is the exact sum reduced once |
| Transfer.CopiedInChunks | src/common/file_util.cpp:70-100 | chunks copied back to back are one copy of the whole range |
| Transfer.FileSystem.TransferDirect | src/common/file_util.cpp:71-82 | under every schedule of short transfers and errors the loop copies exactly a prefix of the slice, the whole slice iff it succeeds, and changes nothing else; it goes on for ever only when it has copied all there is and is asked for more |
| Transfer.FileSystem.TransferReadWrite | src/common/file_util.cpp:84-100 | the same contract for the read/write loop, partial writes included, so the two variants agree |
| Transfer.FileSystem.TransferFile | src/common/file_util.cpp:105-127 | a missing source changes nothing; success copies the size clipped by the source; failure leaves a strict prefix; an offset past the end never succeeds with a positive size, and only then can the copy go on for ever |
| Layout.ReadHeader | src/common/ckpt_util.cpp:7-36 | on every file the entry-by-entry reader answers as `HeaderOf` says, and leaves the table of the entries it could read, accepted or not |
| Layout.HeaderAccepts | src/common/ckpt_util.cpp:20-30 | a file that announces its own length is accepted with its header size and the table as an ordered map |
| Layout.HeaderIff | src/common/ckpt_util.cpp:15-35 | a file is accepted exactly when it starts with some table and has as many further bytes as that table announces, modulo 2^64 |
| Layout.HeaderOfImage | src/common/ckpt_util.cpp:7-36 | the reader accepts every written checkpoint and recovers its table |
| Layout.RejectsPrefix | src/common/ckpt_util.cpp:15-35 | every proper prefix of a written checkpoint is rejected |
| Layout.RejectsExtension | src/common/ckpt_util.cpp:26-35 | every proper extension of a written checkpoint is rejected |
| Layout.TableSurvives | src/common/ckpt_util.cpp:10-25 | behind a complete table any bytes leave the sizes in the table, though the file is rejected |
| Layout.TableCutShort | src/common/ckpt_util.cpp:10-25 | a file cut anywhere within its table leaves exactly the entries that are whole |
| Layout.HeaderLayout | src/lib/client.cpp:195-200 | where the count, every id and every size lie in the header, and how wide they are |
| Layout.FirstEntryCounts | src/common/ckpt_util.cpp:23 | the table has exactly the ids of the header, and of several entries for one id the first counts |
| Layout.ImageSlice | src/lib/client.cpp:182-193 | each region's bytes lie at the prefix sum of the sizes before it |
| Layout.Extract | src/tools/veloc-inspect.cpp:71-94 | the tool's accumulating loop, with its wrapping offset, computes `Extracted` on every file, id and size |
| Layout.ExtractFromImage | src/tools/veloc-inspect.cpp:71-94 | on a written checkpoint extraction returns the region's own bytes, their first `size` bytes, or an error if fewer |
| Layout.ExtractsNothing | src/tools/veloc-inspect.cpp:46-86 | nothing is extracted from a rejected file, for a negative id, or for an id that is not in the header |
| Memory.Ordered | src/lib/client.cpp:184 | iteration visits every region once, in ascending id order |
| Memory.WriteData | src/lib/client.cpp:183-193 | the first pass leaves the regions' bytes behind a gap of the header's size and notes the serialised sizes |
| Memory.WriteHeader | src/lib/client.cpp:194-200 | the second pass writes the header over the front and nothing else |
| Memory.WriteCheckpoint | src/lib/client.cpp:176-200 | the seek-past-the-header writer yields header followed by data |
| Memory.RecoverUntouched | src/lib/client.cpp:316-321 | a recovery, successful or not, leaves alone the regions not in the header, those outside the ids for SOME and those in them for REST |
| Memory.RecoverMeaning | src/lib/client.cpp:305-348 | the sequential reader succeeds iff every selected entry fits at the place the header gives it, and then leaves each region with the bytes from that place |
| Memory.RecoverModes | src/lib/client.cpp:316-340 | what ALL, SOME and REST mean: success iff every listed region, every listed one in the ids, every listed one outside them fits; these are then filled from their places in the file, and no other is changed |
| Memory.RecoverFails | src/lib/client.cpp:322-346 | a recovery that fails has filled the regions asked for before the first that does not fit and none behind it; a buffer whose bytes the file cuts short has taken what there is |
| Memory.FileTable | src/lib/client.cpp:195-200 | the table of a written checkpoint lists exactly the ids of its regions |
| Memory.SomeThenRest | src/lib/client.cpp:305-348 | recovering SOME and then REST succeeds iff ALL does, and leaves the same memory |
| Memory.CheckpointRecovers | src/lib/client.cpp:157-206 | for raw and serialised regions mixed, what was checkpointed is accepted, and recovering all of it, some ids or the rest reinstates exactly these regions and leaves the others untouched |
| Client.Client.CheckpointMem | src/lib/client.cpp:157-206 | refuses without a checkpoint in progress or with an empty selection; on success the file is that of all regions, those in the ids for SOME, those outside them for REST |
| Client.Client.ReadCurrentHeader | src/lib/client.cpp:290-293 | succeeds iff the header is valid, and leaves the table that reading it leaves |
| Client.Client.RecoverSize | src/lib/client.cpp:295-303 | the size of the region in the table at hand, 0 if it is not there; the table of a rejected header counts too |
| Client.Client.RecoverMem | src/lib/client.cpp:305-348 | refuses a bad header without touching memory; otherwise memory and answer are those of `Recover` |
| AggregatedFile.Tiling | src/lib/client.cpp:209-212 | the prefix-sum ranges tile the file: every byte below the total belongs to exactly one rank |
| AggregatedFile.RunKeepsInv | src/storage/posix_agg_module.cpp:23-26 | in every interleaving of the ranks' chunks each rank's copied part is in place and the file never exceeds the total |
| AggregatedFile.WriteOffsetMap | src/lib/client.cpp:213-218 | rank 0's loop writes the number of ranks and every prefix sum |
| AggregatedFile.RangeOfMap | src/storage/posix_agg_module.cpp:40-54 | looking up the map gives the rank's offset and size, unlimited for the last rank, whatever the local variables held before |
| AggregatedFile.RestoresOwnBytes | src/storage/posix_agg_module.cpp:32-62 | in every interleaving a rank whose own flush is complete restores exactly its own bytes, whatever the others still copy, and the copy ends unless the rank is the last one, is empty and the file has not reached its offset |
| AggregatedFile.SharedFileComplete | src/storage/posix_agg_module.cpp:23-62 | when all ranks have finished the shared file is their checkpoints end to end, and every rank restores its own, the last one included |
| AggregatedFile.Restore | src/storage/posix_agg_module.cpp:32-62 | for every map, truncated or foreign ones included: without map or shared file nothing changes; success leaves exactly the slice that the map gives in the scratch file, failure a prefix of it; it goes on for ever only if the offset is past the end |
| Naming.ValueOfDigits | src/common/command.cpp:38-41 | `std::stoi` inverts `std::to_string` on non-negative numbers |
| Naming.MatchIff | src/common/command.cpp:26-43 | the parser succeeds exactly on the strings the regular expression describes |
| Naming.MatchCaptures | src/common/command.cpp:30-43 | the groups are unique, and id and version are read from them, with the two special ids and the range check |
| Naming.MatchKey | src/common/command.cpp:21-43 | the pattern of one name matches a file of another iff the names agree up to wildcard dots, and then yields that file's id and version |
| Naming.MatchInverts | src/common/command.cpp:21-51 | `match` inverts the checkpoint name and the checksum name |
| Naming.MatchAgg | src/common/command.cpp:53-55 | `match` recognises the shared file and its version |
| Naming.MatchEc | src/common/command.cpp:34-35 | `match` recognises the files of the erasure coding and their version |
| Naming.OtherName | src/common/command.cpp:26-33 | a name without dots matches nothing that starts with another valid name and a dash |
| Naming.StemInjective | src/common/command.cpp:21-24 | distinct (name, id, version) have distinct files |
| Naming.ChecksumInjective | src/common/command.cpp:49-51 | distinct (name, id, version) have distinct checksum files |
| Naming.MatchesOwnFiles | src/common/command.cpp:26-43 | a name without dots matches its own files and no other name's |
| Naming.DotMatchesOther | src/lib/client.cpp:19-22 | a valid name with a dot matches another valid name's file |
| Barrier.ClientAggregator.Deposit | src/modules/client_aggregator.cpp:28-35 | the command is buffered, or the round is full: the aggregate is called once, with all buffered commands and this one, its answer fills the slot and the buffer empties; the other kind is untouched, and slot and calls change as in the step of the same name |
| Barrier.ClientAggregator.TryLeave | src/modules/client_aggregator.cpp:36-41 | a waiter leaves iff the buffer is empty, with the slot's value |
| Barrier.RoundCannotFill | src/modules/client_aggregator.cpp:30-37 | while a batched caller has not returned the next round cannot fill |
| Barrier.BarrierSafety | src/modules/client_aggregator.cpp:23-41 | in every run with one outstanding call per registered client, each aggregate call sees exactly one command per client, no two batches share a command, every call is outstanding or answered once, and every answer is the outcome of the batch with the caller's command |
| Barrier.BatchRightIff | src/modules/client_aggregator.cpp:28-35 | in every run, with any number of outstanding calls: the batch of a round has exactly one command per registered client iff nobody deposited twice in that round and nobody unregistered deposited |
| Barrier.AnswerRightIff | src/modules/client_aggregator.cpp:36-41 | in every run: the command of a call that returns is in exactly one batch, and the answer is that batch's outcome iff the latest batch has the same outcome |
| Barrier.StrandedForever | src/modules/client_aggregator.cpp:37-38 | a waiter that misses the empty buffer before the next deposit never returns, in any continuation |
| Barrier.ReturnsIff | src/modules/client_aggregator.cpp:37-41 | a waiter whose round is over can return in some continuation iff no command of the next round has been deposited |
| Barrier.StragglerIsReachable | src/modules/client_aggregator.cpp:28-41 | such a waiter is reachable with two clients |
| Barrier.DoubleCallBreaksBatch | src/modules/client_aggregator.cpp:29-32 | a client with two outstanding calls fills a round of two alone |
| Barrier.LateWakerMisreads | src/modules/client_aggregator.cpp:36-41 | a run with right batches in which a caller with a second call outstanding wakes up late and reads the outcome of the next batch |
| Cache.AsyncContext.SendCommand | src/lib/posix_cache.cpp:78-88 | a producer waits iff the command would exceed the limit before shutdown; otherwise it is queued and counted, or dropped after shutdown |
| Cache.AsyncContext.Take | src/lib/posix_cache.cpp:51-59 | the thread takes the oldest command, waits, or ends when finished and empty |
| Cache.AsyncContext.Flush | src/lib/posix_cache.cpp:192-200 | answers iff the queue is empty, with the negated status, which it clears |
| CacheSafety.CounterExact | src/lib/posix_cache.cpp:57-88 | in every state of every run the byte counter is exactly what is queued and in flight, between 0 and the limit |
| CacheSafety.CopiesTheRightFiles | src/lib/posix_cache.cpp:57-66 | every chunk is copied between the files that the descriptors named when the WRITE was sent, though files are closed and descriptor numbers reused |
| CacheSafety.NothingLost | src/lib/posix_cache.cpp:149-166 | without failures and shutdown no range is lost |
| CacheSafety.FlushAnswer | src/lib/posix_cache.cpp:66-70 | the status that `flush` negates is set iff a WRITE has succeeded since the previous flush |
| CacheSafety.FlushRightIff | src/lib/posix_cache.cpp:192-200 | the answer of `flush` tells whether a WRITE failed since the previous flush iff some succeeded and some failed, or none finished |
| CacheSafety.FlushHidesFailure | src/lib/posix_cache.cpp:66-70 | a run in which the only WRITE fails and `flush` answers true |
| CacheSafety.FlushBeforeCopy | src/lib/posix_cache.cpp:194-196 | a run in which `flush` returns while the byte is not at its remote place |
| CacheSafety.RunKeepsInv | src/lib/posix_cache.cpp:113-174 | accounting, descriptor ownership and cover hold in every state of every run |
| CacheContent.WrittenBytes | src/lib/posix_cache.cpp:149-166 | in every run, failures and shutdown included, the local file holds the byte written last, told by the calls alone, and so does the remote file unless the byte is in an unfinished `pwrite`, a queued WRITE, the uncopied part of the WRITE in flight, or a lost range |
| CacheContent.FlushLeavesOnlyInFlight | src/lib/posix_cache.cpp:192-200 | when `flush` returns with no writer active the byte written last is at its remote place unless the WRITE in flight has still to copy it; if there is none every byte is |
| CacheContent.UnwrittenBytes | src/lib/posix_cache.cpp:57-66 | in every run the remote file keeps, at every offset that no write covers, what it held before, or zeros where it did not reach or was truncated |
| CacheContent.LossHasCause | src/lib/posix_cache.cpp:78-82 | a range counts as lost only if a local write was cut short, its transfer failed before it was copied, or its WRITE was sent after the shutdown |
| CacheContent.ShutdownDrains | src/lib/posix_cache.cpp:51-82 | after the shutdown no command is queued; the thread only finishes what it had |
| CacheContent.NothingLeaks | src/lib/posix_cache.cpp:57-63 | without a shutdown every open descriptor is owned by a cached file or will be closed by a command on its way to the thread |
| CommandQueue.MergeLaws | src/common/socket_queue.hpp:107-110 | the status merge is a commutative monoid with identity VELOC_SUCCESS |
| CommandQueue.MergeMeaning | src/common/ipc_queue.hpp:107-110 | a merge is the minimum if any status is negative and the maximum otherwise |
| CommandQueue.MergeOrderFree | src/common/socket_queue.hpp:102-112 | completions may arrive in any order: only the set of statuses matters |
| CommandQueue.MergeZero | src/common/socket_queue.hpp:107-110 | the merge is zero iff every merged status is zero |
| CommandQueue.QueueLaws | src/common/ipc_queue.hpp:61-84 | after every trace the abstract queue allows, commands are taken in arrival order, each is pending, in progress or completed, and the status is the merge of the completions since the last reset |
| CommandQueue.WaitReplies | src/common/ipc_queue.hpp:61-70 | a wait is allowed only with nothing outstanding and replies the merge of all completions since the last reset |
| SocketQueue.Backend.SendWaitReply | src/common/socket_queue.hpp:115-124 | a waiting client with nothing outstanding gets its status, reset if asked; otherwise nothing happens |
| SocketQueue.Backend.EnqueueStatus | src/common/socket_queue.hpp:126-133 | the request is recorded and answered at once iff nothing is outstanding |
| SocketQueue.Backend.SetCompletion | src/common/socket_queue.hpp:102-112 | the command leaves progress, its status is merged, and a waiting client is answered if that was the last |
| SocketQueue.Backend.FindNonEmptyPending | src/common/socket_queue.hpp:92-100 | a client with pending commands, or none iff there is none |
| SocketQueue.Backend.DequeueAny | src/common/socket_queue.hpp:194-206 | the head of some pending list moves to that client's progress list, or all lists are empty |
| SocketQueue.SocketRefines | src/common/socket_queue.hpp:102-139 | every run is a run of the abstract queue for every client |
| SocketQueue.NobodyForgotten | src/common/socket_queue.hpp:115-139 | no critical section ends with a client waiting and nothing outstanding |
| SocketQueue.OneReplyPerRequest | src/common/socket_queue.hpp:62-70 | a client that blocks on its requests has exactly one reply to each, but for the one it is waiting for |
| SocketQueue.AnswersAsAsked | src/common/socket_queue.hpp:115-133 | in every run each critical section does what its arguments say, and answers a client that is asking iff nothing is outstanding, with the merge since the last reset; the status is then reset iff the last request asked for it |
| SocketQueue.SocketSafety | src/common/socket_queue.hpp:102-139 | in every run each accepted command is in exactly one of pending, progress and completed, in arrival order, with the merged status |
| IpcQueue.ClientQueue.WaitCompletion | src/common/ipc_queue.hpp:61-70 | returns iff nothing is outstanding, as a wait of the abstract queue |
| IpcQueue.ClientQueue.Enqueue | src/common/ipc_queue.hpp:77-84 | an enqueue of the abstract queue |
| IpcQueue.ClientQueue.Dequeue | src/common/ipc_queue.hpp:125-131 | a dequeue of the abstract queue |
| IpcQueue.ClientQueue.SetCompletion | src/common/ipc_queue.hpp:102-113 | a completion of the abstract queue |
| IpcQueue.IpcRefines | src/common/ipc_queue.hpp:119-132 | every run is a run of the abstract queue, and the queue found non-empty is still non-empty when it is locked |
| IpcQueue.IpcSafety | src/common/ipc_queue.hpp:61-132 | the same exactly-once, order and status laws in every run of the shared-memory queue |
| IpcQueue.StatusOfCalls | src/common/ipc_queue.hpp:61-113 | told by the calls alone: each acts on the queue of its own client as its arguments say, and the status, which a wait replies, is the merge of what was finished since the last wait that asked for a reset |
| ThalliumQueue.WaitIsRightIff | src/common/thallium_queue.hpp:63-72 | a polling wait replies the merge of all completions since the last reset iff merging in what earlier polls threw away leaves its reply unchanged |
| ThalliumQueue.NothingDropped | src/common/thallium_queue.hpp:123-132 | if every resetting poll with work outstanding finds status zero, nothing is dropped and the status is the merge it should be |
| ThalliumQueue.StatusOfCalls | src/common/thallium_queue.hpp:98-132 | told by the calls alone: each acts on the queue of its own client as its arguments say, and the status is the merge of what was finished since the last poll that asked for a reset, work outstanding or not |
| ThalliumQueue.PollingLosesFailure | src/common/thallium_queue.hpp:123-132 | a run in which a failed command is reported as success, so the abstract queue does not allow it |
| Manager.ListVersions | src/common/file_util.cpp:16-34 | the directory walk collects exactly the versions of matching files with one of the ids |
| Manager.RemoveVersion | src/modules/versioning_module.cpp:73-77 | the directory walk removes exactly the files of one version, whatever their id |
| Manager.ModuleManager.constructor | src/modules/module_manager.cpp:8-28 | the modules are installed in their order, with empty histories |
| Manager.ModuleManager.TrimPersistent | src/modules/versioning_module.cpp:56-67 | the loop from the oldest version up leaves the newest in the history and removes exactly the files of the others |
| Manager.ModuleManager.TrimScratch | src/modules/versioning_module.cpp:69-80 | the same for the scratch directory, across all ids |
| Manager.ModuleManager.VersioningProcess | src/modules/versioning_module.cpp:30-93 | lookup, trimming and recording compute `VersioningCall` |
| Manager.ModuleManager.NotifyCommand | src/modules/module_manager.cpp:39-49 | the loop with early exit computes the fold `Finish` over the installed modules |
| PipelineSafety.PassedCalled | src/modules/module_manager.cpp:39-49 | in every interleaving a command that got past a module called it and was not failed by it |
| PipelineSafety.ChecksumOrigin | src/modules/chksum_module.cpp:52-55 | in every run a full-size checksum file holds the digest recorded last for its name, id and version |
| PipelineSafety.ChecksumSafety | src/modules/chksum_module.cpp:42-73 | in every run with arbitrary damage to scratch and persistent files, a RESTART that does not fail saw a scratch file with the digest recorded last for it |
| PipelineSafety.RegisteredFirst | src/modules/client_watchdog.cpp:29-54 | in every run with the watchdog on, a CHECKPOINT that does not fail comes from a client that registered before |
| PipelineSafety.KnownIff | src/modules/client_watchdog.cpp:34-40 | in every run the watchdog knows exactly the clients that sent an INIT to this backend process |
| PipelineSafety.UnknownFailsIff | src/modules/client_watchdog.cpp:42-49 | so it fails a CHECKPOINT iff its client did not |
| PipelineSafety.PutOffExactly | src/modules/transfer_module.cpp:30-45 | in every run, whatever the clock does: a CHECKPOINT is put off iff less than an interval has passed since the INIT or flush that set the client's timer last in this backend process |
| PipelineSafety.PutOffIff | src/modules/transfer_module.cpp:30-45 | in every interleaving, with a clock that does not run backwards: within the interval after a flush, a CHECKPOINT of the same client is put off iff a flush or an INIT set the timer after the last restart of the backend |
| PipelineSafety.FlushesSpaced | src/modules/transfer_module.cpp:30-45 | so two flushes of one client are at least the persistence interval apart if the timer was set after the last restart of the backend |
| PipelineSafety.RebootBreaksSpacing | src/modules/transfer_module.cpp:40-43 | a run in which a client flushes twice within the interval because the backend was restarted and the client sent no INIT |
| PipelineSafety.CompletedFlushed | src/modules/transfer_module.cpp:36-46 | a CHECKPOINT that completes was flushed, or put off by the interval |
| PipelineSafety.TrimPersistent | src/modules/versioning_module.cpp:56-67 | a file stays, unchanged, iff it is not a retired version of the command's own name and id |
| PipelineSafety.StaysPersisted | src/modules/versioning_module.cpp:54-67 | in every interleaving a flushed file stays as it is until a step damages, rewrites or retires it |
| PipelineSafety.RestartRestores | src/modules/transfer_module.cpp:48-57 | in every interleaving a RESTART that must fetch the file gets the checkpointed bytes iff the flush did not meet a longer file of the same version |
| PipelineSafety.LongerFileShowsThrough | src/common/file_util.cpp:112-119 | a run in which a flush meets a longer file of the same version and the restored file differs from the checkpoint |
| RestartTest.TestAnswer | src/modules/module_manager.cpp:39-49 | the fold passes the versioning module's answer to a TEST through unchanged |
| RestartTest.RestartTestAnswer | src/modules/versioning_module.cpp:37-52 | the answer after fold and merge is the greatest version not above the requested one (the greatest for 0) on either level, negative iff there is none |
| RestartTest.TestFinds | src/lib/client.cpp:236-249 | a checkpoint file on either level is found: the answer is at least its version |
| RestartTest.ListingExact | src/modules/versioning_module.cpp:9-15 | in a directory of checkpoint, shared and erasure coding files the listing of a name without dots is exactly the versions stored under the name and id, and those of its erasure coding files where they count |
| Retention.AlwaysDurable | src/modules/versioning_module.cpp:54-67 | in every run, whatever is skipped, fails, crashes, is looked up incomplete or written over: of the newest versions ever complete or known, the complete ones are still there or being written over |
| Retention.NewestKeptIff | src/modules/versioning_module.cpp:54-67 | in every run: the newest versions ever complete are stored all along iff no flush has written over one of them and no trimming has removed one |
| Retention.NeverFewer | src/modules/versioning_module.cpp:54-67 | what the state alone tells: if no never-complete version entered the history and no complete file is being written over, the newest versions ever complete are stored |
| Retention.RetainsFlushedNewest | src/modules/transfer_module.cpp:36-46 | after trimming, the stored versions known since the lookup are the complete ones among the newest known since then |
| Retention.EnoughRemainIff | src/modules/versioning_module.cpp:56-67 | after trimming, enough complete versions remain iff there were enough since the lookup and each of the newest known is complete or no complete one was pushed out |
| Retention.RetainsNewest | src/modules/versioning_module.cpp:56-67 | without never-complete versions in the history, after trimming the newest ever complete are stored and at most as many others as complete versions wait to be recorded, across earlier crashes |
| Retention.SkippingLosesAll | src/modules/transfer_module.cpp:40-41 | with a limit of one, one flush that is put off leaves nothing complete |
| Retention.PartialFileCosts | src/modules/versioning_module.cpp:37-43 | a run in which a TEST finds a file left by a crash in a flush, and the next CHECKPOINT leaves one version instead of two |
| Retention.PartialRestartCosts | src/modules/versioning_module.cpp:83-85 | a run in which a RESTART records such a file, and the next CHECKPOINT removes one of the newest two complete versions |
| Retention.RewritingLosesAll | src/common/file_util.cpp:112-119 | a run in which a crash while a complete version is flushed again leaves nothing complete |
| StoredFiles.OthersKeepShelf | src/modules/versioning_module.cpp:30-93 | a module call for another name or id leaves the history and the files of this one alone, and so does every module but transfer and versioning |
| StoredFiles.StepMatches | src/modules/transfer_module.cpp:23-62 | every step of the backend, whatever the module, the answer of the file system and the command, is a sequence of retention steps for each name and id, with the same history and files |
| CrashSafety.BackendRefines | src/modules/module_manager.cpp:39-49 | every run of the backend, all interleavings, failures and restarts included, is for each name and id a run of the retention protocol |
| CrashSafety.StoredIsComplete | src/storage/posix_module.cpp:29-32 | the versions the protocol counts as stored are exactly those whose last flush finished and whose file is still there |
| CrashSafety.EverIsComplete | src/storage/posix_module.cpp:29-32 | those it counts as ever complete are exactly the versions that were so at some point of the run |
| CrashSafety.RecentIsNoted | src/modules/versioning_module.cpp:37-43 | those it counts as known since the lookup are exactly the ones the last TEST of this backend process found or a CHECKPOINT or RESTART entered since |
| CrashSafety.WholeIsComplete | src/modules/versioning_module.cpp:37-43 | and those it counts as complete since then are exactly the ones that were complete at that TEST or flushed since |
| CrashSafety.CompleteContent | src/storage/posix_module.cpp:29-32 | a complete file holds the bytes its last flush left |
| CrashSafety.NewestKeptIff | src/modules/versioning_module.cpp:54-67 | in every run of the backend: the newest versions ever complete are complete on storage all along iff no flush over one of them failed half-way and no CHECKPOINT retired one |
| CrashSafety.NewestSurvive | src/modules/versioning_module.cpp:54-67 | which is the case, after any failures and restarts, with interval 0, no incomplete file found by a lookup and no complete file written over |
| CrashSafety.NewestFilesStored | src/modules/versioning_module.cpp:54-67 | in every interleaving, after a CHECKPOINT has trimmed, the newest versions ever complete are complete, and at most as many other files as complete ones wait to be recorded: none if all are |
| CrashSafety.EnoughFilesIff | src/modules/versioning_module.cpp:54-67 | with flushes put off and incomplete files found: enough complete files remain iff there were enough since the lookup and none was pushed out of the newest by an incomplete or skipped version |
| SharedRetention.NewestKeptIff | src/storage/posix_agg_module.cpp:23-30 | in every interleaving of all ranks: the newest versions that every rank could restore stay so iff no rank writes its part of one again and no rank's trimming removes one |
| SharedRetention.TrimsInTimeIff | src/modules/versioning_module.cpp:56-67 | for ranks that record what they find and flush: iff, whenever a rank removes a version that was complete, more than the limit of its recorded versions have been flushed by every rank |
| SharedRetention.OneOverIff | src/modules/versioning_module.cpp:57-60 | one version over the limit: iff every rank has flushed every version of the trimming rank's history, the new one included |
| SharedRetention.OneRankRefines | src/storage/posix_agg_module.cpp:15-30 | with one rank every run is, step by step, a run of the retention protocol with the same files and history |
| SharedRetention.EarlyTrimLosesAll | src/storage/posix_agg_module.cpp:28-30 | a run in which the first of two ranks trims before the second has flushed, and no version is left that both can restore |
| EndToEnd.Chain | src/modules/module_manager.cpp:39-49 | the first failure ends a command with what the modules before it have done; otherwise every module has run and the greatest answer counts |
| EndToEnd.CheckpointRetains | src/modules/versioning_module.cpp:56-67 | a CHECKPOINT that completes leaves files of exactly the newest versions and keeps the history in step with the files |
| EndToEnd.TrimChecksums | src/modules/versioning_module.cpp:63-64 | a checksum file stays, unchanged, iff it is not that of a retired version of the command's own name and id |
| EndToEnd.FileRoundTrip | src/storage/posix_module.cpp:29-46 | CHECKPOINT, loss of everything but persistent storage and metadata, and RESTART through all modules, erasure coding and throttling included, succeed and bring the file back |
| EndToEnd.MemoryRoundTrip | src/lib/client.cpp:260-264 | memory, checkpoint file, flush, loss of the node, restore and recovery: any selection comes back exactly, the rest is untouched |
| Answers.RestartAnswer | src/modules/transfer_module.cpp:48-57 | a RESTART on every state and environment: what it leaves in scratch, and when it succeeds, fails or is ignored, in terms of the directories, the recorded digest and the answer of erasure coding |
| Answers.RestartSucceedsIff | src/lib/client.cpp:276-287 | without erasure coding it succeeds iff the file is in scratch or can be fetched, or with checksums on is confirmed; it then is in scratch, and otherwise the answer is negative |
| Answers.CheckpointAnswer | src/modules/module_manager.cpp:39-49 | a CHECKPOINT on every state fails iff the client is unknown to the watchdog, erasure coding fails, the file should be flushed and cannot, or its digest cannot be recorded; otherwise it succeeds |
| Answers.InitAnswer | src/modules/transfer_module.cpp:30-34 | an INIT never fails, registers the client and sets its timer one interval ahead, and changes nothing else |
| Answers.NoLimitKeepsAll | src/modules/versioning_module.cpp:17-20 | without a limit a CHECKPOINT removes no persistent file and no checksum file, and changes only its own |
| Answers.StaysSaved | src/modules/versioning_module.cpp:54-67 | in every interleaving a saved version keeps its file and its digest while no step rewrites, retires or damages them |
| Answers.KeptRestarts | src/modules/chksum_module.cpp:57-70 | so an older version that is kept restarts, checksums on or off, in a new backend on another node |
| Answers.TrimScratch | src/modules/versioning_module.cpp:69-80 | a scratch file stays, unchanged, iff it is not of a retired version of the command's name, whatever its id; 0 keeps all |
| Answers.TestSyncs | src/modules/versioning_module.cpp:41-42 | a TEST puts the scratch history in step with the files |
| Answers.RestartSyncs | src/modules/versioning_module.cpp:86-87 | a RESTART keeps it so |
| Answers.CheckpointSyncs | src/modules/versioning_module.cpp:69-80 | a CHECKPOINT then leaves exactly the newest versions on scratch, its own counted in |

## Left out

- Sockets, polling, shared-memory segments, the RPC transport, daemon start-up and signals: only the queue state they drive is modelled.
- MPI, ER, AXL and DAOS: prefix sums stand for the collectives, and erasure coding answers and rewrites scratch arbitrarily.
- The maximum over processes in `restart_test` and the combination of answers in `restart_begin` with several processes.
- SHA-256 and third-party serialisers: parameters, the latter assumed to consume exactly what they wrote.
- Configuration files, logging, C wrappers, Python bindings and example applications.
- Liveness and fairness: the barrier does not have them; only safety is claimed.
- The file-based interface (`route_file`, symbolic links in `flush`): checkpoints are memory-based.
- Named region groups: the selected region map is an input.
- The cache's `pread`, and short local writes in its `pwrite`, whose loop does not advance the buffer: a local write is whole or fails; remote files with equal base names share a local file and are excluded.
- The watchdog's timeout thread, which only logs.
- Files whose id or version overflows an `int`: `match` then throws; listings skip them here.
- Regular-expression metacharacters other than the dot cannot occur in valid names.
- Scratch retention per rank: the code trims by version across all ids, and that is what is modelled.
- AggregatedFile.RunKeepsInv: the shared file starts empty, since an existing longer file is not truncated.
- Client.Client.CheckpointMem: VELOC_CKPT_SOME is the intended filter; the loop advances an erased iterator.
- Memory.RecoverMeaning: a seek over an unselected region is not wrapped; a recorded size of 2^63 or more would become a negative stream offset.
- Memory.RecoverUntouched: a deserialiser that fails halfway through its own object is taken to leave it alone.
- The copy of a file is one step of the pipeline here, and a failed copy leaves a prefix; its loops are in `Transfer`.
- PipelineSafety.ChecksumOrigin: runs start with an empty metadata directory, which nothing but the runtime writes.
- RestartTest.RestartTestAnswer: one client with nothing else outstanding, so that the merge has one status.
- Retention.NeverFewer: sufficient only, as a condition on the state; the exact condition on the steps is `Retention.NewestKeptIff`.
- CrashSafety.NewestFilesStored: storage is not damaged from outside and names have no dots; the conditions on put-off flushes, incomplete files and rewriting exclude what the runs above show.
- CrashSafety.NewestSurvive: sufficient only, in terms of the configuration and the commands; the exact condition is `CrashSafety.NewestKeptIff`.
