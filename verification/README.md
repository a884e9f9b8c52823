# A verified model of the sivfs snapshot-isolation engine

sivfs is a kernel file system whose files are memory-mapped transactionally. Every
transaction reads one snapshot, commits go to a timestamped log, a background thread folds
the log into copy-on-write checkpoint trees, and two collectors reclaim checkpoint pages
and log memory using nothing but the versions each thread announces. Two allocators, one in
the kernel and one in user space, hand out file space to transactions.

The reference meaning is in `Types.dfy`: memory maps (file, word offset) to a value, and
the snapshot at `t` is the fold of the non-aborted log entries `1..t` over zeros. What the
other modules prove comes down to that fold.

| module | what it models |
|---|---|
| `CommitProtocol` | committers and the log's deletion as a step system, every interleaving |
| `LogWalk` | the loops over the log: validation, first write to a range, page rebuild |
| `Radix`, `CheckpointHeap`, `CheckpointStore` | radix trees of pages, path copying, lifetimes, reading |
| `CheckpointProtocol` | maker, threads and both collectors as a step system, every interleaving |
| `GcPass` | one pass of the checkpoint collector over its grouped stacks, memory running out anywhere |
| `WorkingSet` | a thread's pages: faults, loads and stores, commit and update |
| `LogStore` | packing of log entries into chunks, deletion of the log's tail |
| `Protocols` | runs of the commit protocol beside runs of the checkpoint protocol |
| `CheckpointProgress` | what each party of the checkpoint protocol gets done by its own steps; how fresh a checkout is |
| `Engine` | checkpoint protocol, pages and log together, every interleaving |
| `EngineProgress` | a build in progress can be finished |
| `BlockArena`, `BlockAllocator`, `BlockRuns` | the kernel's block allocator: tiling, boundary records, merging; tentative operations; runs that go wrong |
| `SlabBins`, `SlabAllocator`, `FreeListUndo` | size classes, slabs and free lists of the user-space allocator |

Memory is sequentially consistent and lock sections are atomic. Where the kernel can run out
of memory the model either chooses nondeterministically or takes the answer as a parameter.

## How the parts meet

* `CommitUpdate` asks for what `CommitProtocol` establishes (`PublishedCommitWins`) and for a
  checkpoint and snapshot ordered as `CheckoutMovesForward` and `DoubleReadLock` say.
* What deletes entries under the committers is the log collector of `CheckpointProtocol`.
  `Protocols` runs the two side by side: a deleted entry that a validation needs, and so an abort
  without a rival or a crash, goes back to a misfiring checkout of the same thread.
* The double-read protocol frees by lifetimes; `LifetimeIsReachability` turns these into
  reachability. `Engine` runs the protocol on the pages themselves, with builds that apply the
  log write by write, and proves in every interleaving that the two agree and that whoever holds
  a checkpoint reads the log's snapshot from it.
* `Gc` asks that entries start by its lower bound; `LowerBoundInLifetime` is where that comes from.
* `FreePage` is legitimate for exactly the pages `CollectorIsSafe` speaks about; while a thread's
  checkpoint is kept, `ViewTreesMoveOn` keeps the thread's view.

## Model

| member | source | states |
|---|---|---|
| `CommitProtocol.InvAlways` | kern/sivfs_commit_update_checkpoints.c:547-597 | the commit invariant holds in every state of every interleaving of lock section, lookup and parallel validation, status write, ordered publish and log deletion |
| `CommitProtocol.FirstCommitterWins` | kern/sivfs_commit_update_checkpoints.c:273-462 | in every run, two published non-aborted entries i < j with i after j's snapshot write disjoint words, although validators read aborted flags before they are final |
| `CommitProtocol.AbortHasRival` | kern/sivfs_commit_update_checkpoints.c:367-462 | a published abort has a concurrent earlier entry that writes one of its words and was not itself aborted at some moment since the abort was stamped, or at an earlier moment of the run the lookup of the first entry it had to validate against was refused |
| `CommitProtocol.AbortedAlone` | kern/sivfs_commit_update_checkpoints.c:418-426 | a run with the second case: a published abort in a log in which nothing writes anything |
| `CommitProtocol.OrderedPublication` | kern/sivfs_commit_update_checkpoints.c:547-597 | master_ts <= commit_started_ts; every entry up to a published timestamp is stamped and has its status filled in, and a walk up to it never enters the half-built tail entry |
| `CommitProtocol.CommitIsTheTransaction` | kern/sivfs_commit_update_checkpoints.c:565-589 | the entry a committer is about to publish carries its own write set and is judged against the snapshot it ran on |
| `CommitProtocol.CommitAlone` | kern/sivfs_commit_update_checkpoints.c:547-589 | from every reachable state with the lock free, whatever else is pending, a committer reaches the sequence lock by its own steps with exactly one more entry in the log, its write set, aborted exactly if the lookup is refused or a concurrent entry that is not aborted writes one of its words; it runs into a deleted entry exactly if the first one needed is gone and the tested cut does not say so |
| `CommitProtocol.StatusIsFinal` | kern/sivfs_commit_update_checkpoints.c:588-597 | an entry at or below master_ts never changes again |
| `CommitProtocol.SnapshotsAgree` | kern/sivfs_commit_update_checkpoints.c:588-597 | threads at the same published timestamp agree on every word, at whatever later moment they look |
| `CommitProtocol.OldestCanPublish` | kern/sivfs_commit_update_checkpoints.c:591-597 | the owner of entry master_ts + 1 reaches publication by its own steps alone, unless it is doomed: it has run into a deleted entry, or is about to look one up that is gone while the tested cut does not say so |
| `CommitProtocol.DoomedCannotPublish` | kern/sivfs_commit_update_checkpoints.c:418-429 | a doomed committer never publishes by its own steps, so that condition is exact |
| `CommitProtocol.SequenceLockIsLive` | kern/sivfs_commit_update_checkpoints.c:591-597 | in every reachable state with an unpublished entry the owner of entry master_ts + 1 is on its way, and advances master_ts by its own steps unless it is doomed |
| `CommitProtocol.CrashBlocksForever` | kern/sivfs_commit_update_checkpoints.c:591-597 | once a committer has dereferenced a deleted entry, master_ts stays below its own entry in every continuation |
| `CommitProtocol.CrashedCommit` | kern/sivfs_commit_update_checkpoints.c:418-429 | a run in which that happens to the owner of entry master_ts + 1 |
| `Protocols.AbortAloneMisfired` | kern/sivfs_commit_update_checkpoints.c:1083-1090 | beside any run of the checkpoint protocol: a published abort without a rival was refused its lookup after the checkout shortcut misfired in its thread |
| `Protocols.LiveWithoutMisfires` | kern/sivfs_commit_update_checkpoints.c:1083-1090 | beside any run of the checkpoint protocol in which no checkout misfires, the owner of entry master_ts + 1 always publishes by its own steps, so the sequence lock cannot deadlock |
| `LogWalk.WsEntConflictsLog` | kern/sivfs_commit_update_checkpoints.c:217-271 | true exactly if some write of the entry has the same file and offset |
| `LogWalk.ValidateOne` | kern/sivfs_commit_update_checkpoints.c:273-361 | conflict exactly if the other entry is not aborted and the write sets are not disjoint |
| `LogWalk.Validate` | kern/sivfs_commit_update_checkpoints.c:367-462 | aborts exactly for a conflict with a non-aborted entry in the range, an empty range, or a start below the tested cut; dereferences NULL exactly if the start is gone and not below that cut |
| `LogWalk.FindFirstWrite` | kern/sivfs_shared_state.h:173-267 | first non-aborted entry in (start, end] writing into the byte range, SIVFS_INVALID_TS exactly if there is none; the error cases exactly, a refused and a missing first entry told apart |
| `LogWalk.ReplayEntry` | kern/sivfs_commit_update_checkpoints.c:1318-1366 | takes a page of the snapshot at k - 1 to the page of the snapshot at k, in place |
| `LogWalk.UpdatePage` | kern/sivfs_commit_update_checkpoints.c:1221-1389 | checkpoint page plus replay is the page of the snapshot at the thread's timestamp; the error cases exactly |
| `Radix.IterInit` | kern/sivfs_checkpoints.h:210-294 | accepts exactly the inodes and offsets whose top digit fits and fills in their base-512 digits |
| `Radix.DigitsInjective` | kern/sivfs_checkpoints.h:210-294 | for accepted inputs the digit path determines file and page |
| `Radix.WordPathInjective` | kern/sivfs_writeset.h:281-291 | with the word inside the leaf, the path determines the word address |
| `CheckpointHeap.LifetimeIsReachability` | kern/sivfs_checkpoints.h:62-81 | a non-zero page is reachable from a readable checkpoint c exactly if checkpoint_ts <= c < obsoleted_ts |
| `CheckpointHeap.CowCurrent` | kern/sivfs_make_checkpoint.c:88-138 | after copying the page at a path, that path leads to the copy and every other path, in particular every word, to what it led to |
| `CheckpointHeap.CowOld` | kern/sivfs_make_checkpoint.c:88-138 | the copy changes nothing reachable from older checkpoints |
| `CheckpointHeap.CowInv` | kern/sivfs_make_checkpoint.c:88-138 | path copying keeps well-formedness and exact lifetimes |
| `CheckpointHeap.FreeInv` | kern/sivfs_checkpoints.c:1082-1106 | freeing a page outside all kept lifetimes keeps the invariant for the kept checkpoints |
| `CheckpointStore.CheckpointTrees.constructor` | kern/sivfs_checkpoints.c:969-1049 | the shared zero tables and an empty checkpoint 0 that reads as zeros everywhere |
| `CheckpointStore.CheckpointTrees.PrivatePath` | kern/sivfs_make_checkpoint.c:76-202 | every table on the way to the leaf is made private to the checkpoint being built, all words and other leaves unchanged, each replaced page listed as obsoleted |
| `CheckpointStore.CheckpointTrees.ApplyChange` | kern/sivfs_make_checkpoint.c:42-211 | the newest tree differs in exactly the written word, earlier checkpoints not at all; out-of-range entries are refused, and a page that cannot be allocated stops the change midway without harm to them |
| `CheckpointStore.CheckpointTrees.ApplyLog` | kern/sivfs_make_checkpoint.c:317-417 | applying the entries after `from` up to `next` gives the snapshot at `next`; fails with EINVAL only for a non-aborted entry out of range or a first entry that is missing, with ENOMEM only for one that is refused or a page that cannot be allocated |
| `CheckpointStore.CheckpointTrees.MakeCheckpoint` | kern/sivfs_make_checkpoint.c:421-623 | however the log is divided into checkpoints, each one holds the snapshot of its timestamp; all earlier ones read the same word for word, also when the build fails, for whichever reason; unwritten leaves are shared |
| `CheckpointStore.CheckpointTrees.Publish` | kern/sivfs_make_checkpoint.c:535-585 | publication records the inode and makes the obsoleted list exactly the pages with an end of life, each once |
| `CheckpointStore.SharingBuilt` | kern/sivfs_make_checkpoint.c:317-417 | a leaf nothing in (v, v'] writes is the same page in checkpoints v and v', across any number of builds |
| `CheckpointStore.CheckpointTrees.LogGrows` | kern/sivfs_make_checkpoint.c:317-417 | checkpoints stay right while commits are appended to the log |
| `CheckpointStore.CheckpointTrees.TraversePartial` | kern/sivfs_checkpoints.c:605-661 | the page on the path at the requested level, 0 if a table on the way is missing, EINVAL exactly out of range |
| `CheckpointStore.CheckpointTrees.ReadCheckpoint` | kern/sivfs_checkpoints.c:747-791 | the page read from checkpoint T is the page of the snapshot at T, absent subtrees and zero tables included |
| `CheckpointStore.CheckpointTrees.FreePage` | kern/sivfs_checkpoints.c:1082-1106 | freeing an obsoleted page whose lifetime meets no kept checkpoint leaves all of these readable and unchanged |
| `CheckpointProtocol.InvAlways` | kern/sivfs_checkpoints.c:565-585 | the invariant of three-write publication, double-read checkout, updates that succeed or are refused, the two non-atomic scans, freeing and log deletion holds in every state of every interleaving |
| `CheckpointProtocol.CollectorIsSafe` | kern/sivfs_gc_checkpoints.c:378-411 | nothing freed belongs to a checkpoint some thread has settled on or not yet released, nor to the published one or any later |
| `CheckpointProgress.FreeAlone` | kern/sivfs_gc_checkpoints.c:313-514 | an object handed over whose life is over and contains no announced version is freed by the collector's own steps |
| `CheckpointProgress.KeptWhileAnnounced` | kern/sivfs_gc_checkpoints.c:378-411 | an object of a checkpoint somebody holds is neither freed nor garbage in that sense |
| `CheckpointProtocol.ScanComplete` | kern/sivfs_state.c:200-234 | in every run, after either collector's scan everything anybody holds is at or above the lower bound or was seen, although the fields were read one at a time |
| `CheckpointProtocol.DoubleReadLock` | kern/sivfs_commit_update_checkpoints.c:1083-1144 | a settled pointer and timestamp belong to one published checkpoint; while a fault can run, checkpoint_ts <= ts exactly if prior_checkpoint_ts equals it, that is, unless the last update was refused |
| `CheckpointProtocol.CheckoutMovesForward` | kern/sivfs_commit_update_checkpoints.c:1118-1144 | the checkpoint and snapshot taken over are no older than those left |
| `CheckpointProgress.CheckoutIsFresh` | kern/sivfs_commit_update_checkpoints.c:1118-1144 | in every run the snapshot a checkout takes is no older than master_ts was when the checkout began, so it contains the thread's own commit |
| `CheckpointProgress.ChooseAlone` | kern/sivfs_commit_update_checkpoints.c:1080-1116 | from anywhere in the double-read loop, after any number of dirty reads, a thread gets out by its own steps with the latest checkpoint while none is being published |
| `CheckpointProgress.CheckoutAlone` | kern/sivfs_commit_update_checkpoints.c:1075-1191 | a checkout by a thread's own steps ends with the latest checkpoint in both fields and master_ts as snapshot, or, exactly if the log it needs is gone, with the latest checkpoint and everything else as it was |
| `CheckpointProgress.PauseAlone` | kern/module.c:195-220 | a pause ends with nothing announced and no snapshot |
| `CheckpointProgress.MakeAlone` | kern/sivfs_make_checkpoint.c:421-623 | whenever something was committed since the last checkpoint, the maker can publish one of the newest state by its own steps |
| `CheckpointProtocol.PublicationsIncrease` | kern/sivfs_checkpoints.c:575-584 | published timestamps strictly increase |
| `CheckpointProtocol.ObjectsAreConserved` | kern/sivfs_gc_checkpoints.c:83-127 | in every run each object is in exactly one of: live, handed over, under collection, freed; so it is freed at most once |
| `CheckpointProtocol.LogCollectorIsSafe` | kern/sivfs_gc_log.c:17-42 | in every run no entry below what is deleted is needed by a build, fault, validation or update, nor is it the newest, and no lookup of a needed entry is refused, although the cut lookups are tested against may move back |
| `CheckpointProgress.DeleteAlone` | kern/sivfs_gc_log.c:11-52 | by its own steps the log collector deletes everything below the least of the published checkpoint and all announced versions, and tests lookups against exactly that |
| `CheckpointProtocol.LowerBoundInLifetime` | kern/sivfs_gc_checkpoints.c:236-238 | an entry under collection that outlives the lower bound contains it |
| `CheckpointProtocol.BareNeedsMisfire` | kern/sivfs_commit_update_checkpoints.c:1083-1090 | over whole runs, threads that avoid that moment always hold a checkpoint in a transaction |
| `CheckpointProtocol.BareExactly` | kern/sivfs_commit_update_checkpoints.c:1083-1090 | a thread starts a transaction without a checkpoint exactly if it has none and reads latest_checkpoint.ts during a publication |
| `CheckpointProtocol.MisfireRun` | kern/sivfs_commit_update_checkpoints.c:1083-1090 | a run in which it happens and the log collector then deletes an entry the thread's validation needs |
| `CheckpointProtocol.NoMisfireNoRefusal` | kern/sivfs_commit_update_checkpoints.c:856-883 | over whole runs, a thread that avoids that moment finds all entries after its snapshot, is never refused an update, and when it can fault has a checkpoint no newer than its snapshot |
| `CheckpointProtocol.RefusedRun` | kern/sivfs_commit_update_checkpoints.c:1178-1191 | a run in which an update is refused and the thread is left on a checkpoint newer than its snapshot |
| `CheckpointProtocol.StrandedUntilPause` | kern/sivfs_commit_update_checkpoints.c:869-878 | such a thread is refused every later update, and its snapshot never moves, until it pauses |
| `Engine.InvAlways` | kern/sivfs_make_checkpoint.c:547-563 | one system of protocol, pages and log: in every run the protocol's lifetimes are those recorded in the pages, and every checkpoint that must stay readable has its root |
| `Engine.HeldReadsSnapshot` | kern/sivfs_make_checkpoint.c:317-417 | in every run, whatever commits, builds and collections go on, every word read from a checkpoint somebody holds is that word in the log's snapshot at the checkpoint's timestamp |
| `Engine.HeldPagesAreThere` | kern/sivfs_gc_checkpoints.c:378-411 | in every run no path from the root of a held checkpoint leads to a freed page |
| `Engine.HeldReadsAreStable` | kern/sivfs_commit_update_checkpoints.c:1092-1116 | a held checkpoint reads, page for page and word for word, as it did at any moment since it was published, through every build and collection |
| `Engine.PagesAreConserved` | kern/sivfs_gc_checkpoints.c:352-369 | in every run each page in memory stands for one object that is live, handed over or under collection, no two for the same, and an object has no page exactly if it was freed |
| `Engine.FreeIsReady` | kern/sivfs_checkpoints.c:1082-1106 | what the collector may free is part of no checkpoint that must stay readable |
| `Engine.CopyEnabled` | kern/sivfs_make_checkpoint.c:88-138 | whenever the build can copy a page, recording it with the protocol is possible |
| `Engine.FreeEnabled` | kern/sivfs_gc_checkpoints.c:255-264 | whenever the collector may free an object, there is a page that stands for it |
| `Engine.InitExists` | kern/sivfs_checkpoints.c:969-1049 | the system has an initial state for any set of threads |
| `EngineProgress.BuildCanFinish` | kern/sivfs_make_checkpoint.c:317-417 | in every run a build in progress whose remaining entries are in addressable range can be finished by the maker's own steps, every page copied and every word written, and changes nothing the other parties go by |
| `GcPass.FindBlocker` | kern/sivfs_gc_checkpoints.c:231-253 | the lower bound if the entry outlives it, else the last scanned version in its lifetime, and none exactly if the simple collector frees it |
| `GcPass.TagRoundTrip` | kern/sivfs_checkpoints.h:486-530 | a word is the entry of an object exactly if its tag and pointer read back as that object |
| `GcPass.Collector.MarkObsoleted` | kern/sivfs_gc_checkpoints.c:69-143 | all of the pages and the inode are handed over, in order and as entries that stand for them, or none |
| `GcPass.Collector.GcOrReassign` | kern/sivfs_gc_checkpoints.c:210-289 | frees or files one entry; a failure loses nothing |
| `GcPass.Collector.DrainOne` | kern/sivfs_gc_checkpoints.c:471-488 | the stack being drained is never pushed onto and shrinks by its top |
| `GcPass.Collector.Gc` | kern/sivfs_gc_checkpoints.c:313-514 | a completed pass keeps an entry exactly if obsoleted_ts > L or a scanned version lies in its lifetime; no pass, failed or not, loses, duplicates or wrongly frees an entry; it terminates; after a completed pass the group of unsorted entries is there exactly if there was nothing to do, and without it a pass that can have no new object changes nothing |
| `GcPass.StarvedHandOver` | kern/sivfs_gc_checkpoints.c:338-348 | a run in which one completed pass removes that group and the next page handed over cannot be taken |
| `WorkingSet.ShowsPast` | kern/sivfs_commit_update_checkpoints.c:766-799 | applying an earlier concurrent entry after the thread's own writes gives the page in log order |
| `WorkingSet.MayMapOn` | kern/sivfs_workingset.c:307-321 | a mapped checkpoint page that survives an update is the leaf of the new checkpoint's tree |
| `WorkingSet.MappedShows` | kern/inode.c:419-456 | reading through a mapped checkpoint page reads the snapshot at the thread's timestamp |
| `WorkingSet.ViewLogGrows` | kern/sivfs_commit_update_checkpoints.c:806-901 | a thread's view stays right while others commit |
| `WorkingSet.ViewTreesMoveOn` | kern/sivfs_make_checkpoint.c:547-563 | and while checkpoints are built and collected, as long as its own is kept |
| `WorkingSet.PublishedCommitWins` | kern/sivfs_commit_update_checkpoints.c:1004-1010 | every commit the protocol publishes meets what the update relies on |
| `WorkingSet.ThreadState.FaultCheckpoint` | kern/inode.c:374-586 | the checkpoint's own page is served exactly if nothing in (cp_ts, ts] wrote to it, there is no private copy and the tree has the page; refused outside transactions, without a checkpoint, and on one newer than the snapshot |
| `WorkingSet.ThreadState.FillPage` | kern/inode.c:906-930 | copying the checkpoint page and rebuilding from the log both give the page of the snapshot at ts |
| `WorkingSet.ThreadState.Fault` | kern/inode.c:623-979 | after a served fault the page is mapped exactly if it was read, an unwritten checkpoint page stands for it and no copy of that page was asked for, and is private otherwise; no other page is touched |
| `WorkingSet.ThreadState.MakeWritable` | kern/inode.c:1092-1126 | a write to a mapped checkpoint page unmaps it and asks for a copy |
| `WorkingSet.ThreadState.Load` | kern/inode.c:623-979 | a load sees the transaction's snapshot with its own writes on top, by whichever path the page came; it is refused only outside transactions, without a checkpoint no newer than the snapshot, with the log behind it lost or out of range, and never for a page in place; no other page is touched |
| `WorkingSet.ThreadState.Store` | kern/inode.c:990-1134 | a store goes to a private page and keeps the view right; it is refused only where a load is or while another copy is pending; no other page is touched |
| `WorkingSet.ThreadState.ApplyLogEntry` | kern/sivfs_commit_update_checkpoints.c:646-735 | every resident page is replayed, exactly the written mapped pages are evicted |
| `WorkingSet.ThreadState.ApplyLogs` | kern/sivfs_commit_update_checkpoints.c:750-799 | resident pages reach the snapshot at the stop; the pages still mapped are exactly the unwritten ones |
| `WorkingSet.ThreadState.InvalidateLog` | kern/sivfs_workingset.c:345-404 | exactly the pages the writes fall on are thrown away |
| `WorkingSet.ThreadState.Update` | kern/sivfs_commit_update_checkpoints.c:806-901 | brings all pages to next_ts; ENOMEM exactly if the first entry needed is below the tested cut, EINVAL exactly if it is gone and not below it |
| `WorkingSet.ThreadState.CommitUpdate` | kern/sivfs_commit_update_checkpoints.c:962-1204 | after a successful commit_update every resident page equals the replay of all non-aborted entries up to ts, every mapped page belongs to the current checkpoint, and only aborted writes cost private pages; a refused one leaves the new checkpoint with the old snapshot, pages and writes |
| `LogStore.EntriesDisjoint` | kern/sivfs_shared_state.c:260-346 | no two log entries that are still there overlap in memory, whether or not the kernel heap reuses addresses |
| `LogStore.FreedExactly` | kern/sivfs_shared_state.c:167-187 | a chunk is freed exactly if an entry of a later chunk was deleted, and then all its own entries had been |
| `LogStore.DeleteStep` | kern/sivfs_shared_state.c:167-187 | deleting the next entry frees the chunk before if it starts one, that chunk was still allocated, and nothing else goes |
| `LogStore.LogStore.CreateEntry` | kern/sivfs_shared_state.c:247-416 | the new entry lies behind the last one, or starts a new chunk exactly if it does not fit; a failed cache insertion leaves the log intact exactly if it came with a new chunk |
| `LogStore.LostChunk` | kern/sivfs_shared_state.c:334-339 | a run in which a second entry fails to be inserted and the chunk of the first is freed while in the cache and in use |
| `LogStore.LogStore.DeleteLog` | kern/sivfs_shared_state.c:142-218 | exactly the entries below the cut go, in batches, with exactly their chunks; no chunk is freed twice |
| `LogStore.LogCut` | kern/sivfs_gc_log.c:31-39 | the least of the published timestamp and all scanned versions |
| `LogStore.LogStore.GcLog` | kern/sivfs_gc_log.c:11-52 | the cut is the oldest of the published checkpoint and the scanned versions, lookups are tested against it, an entry stays in the cache exactly if it is at or after it, and something is reported deleted exactly if there was something below it |
| `BlockArena.EveryOffsetCovered` | kern/alloc/sivfs_allocation.c:163-222 | in a tiled file every byte offset belongs to exactly one chunk |
| `BlockArena.SplitTiled` | kern/alloc/sivfs_allocation.c:163-214 | a split keeps the tiling and its boundary records exactly if the new boundary is a file offset, without wrapping around, and in another page than the chunk's start; always so for a page or more while offsets last |
| `BlockArena.CarvedTimes` | kern/alloc/sivfs_allocation.c:159-222 | handing out the front of a chunk changes the recorded time of no byte of the file, as long as offsets do not wrap around |
| `BlockArena.SmallRequestBreaksTiling` | kern/alloc/sivfs_allocation.c:90-107 | an accepted eight-byte request after which the block's start has no record |
| `BlockArena.MergeTiled` | kern/alloc/sivfs_allocation.c:382-407 | absorbing the next chunk keeps the tiling and its boundary records |
| `BlockArena.BackSwallowed` | kern/alloc/sivfs_allocation.c:497-508 | merging backward leaves the bytes of a free chunk exactly at the start of the last chunk in front that the budget covers, past any number of free ones and no further than a busy one, and with a busy block exactly if it reaches one |
| `BlockArena.SizeAheadIs` | kern/alloc/sivfs_allocation.c:481-495 | merging forward absorbs exactly the free, bounded chunks that lie one behind the other after the freed one, as long as four times its size covers them |
| `BlockArena.FreedSwallowed` | kern/alloc/sivfs_allocation.c:458-522 | a whole free loses its bytes to a busy block in front exactly under that condition on the arena before the free, with the size after merging forward and five times the freed size less that as budget |
| `BlockArena.SwallowedByNeighbour` | kern/alloc/sivfs_allocation.c:417-450 | with a busy block directly in front: exactly if twice the size after merging forward is at most five times the freed size, so always when nothing was merged |
| `BlockArena.FreedLeaves` | kern/alloc/sivfs_allocation.c:497-508 | freed bytes leave their own chunk, and with it the time of their free, exactly if a chunk lies in front and twice the size after merging forward is at most five times the freed size |
| `BlockAllocator.Allocator.constructor` | kern/alloc/sivfs_allocation.c:49-77 | one wilderness chunk from 0, tiled |
| `BlockAllocator.Allocator.FindChunk` | kern/alloc/sivfs_allocation.c:115-157 | some chunk always fits: the first listed one that is large enough and visible, and the wilderness only if there is none |
| `BlockAllocator.Allocator.AllocBlock` | kern/alloc/sivfs_allocation.c:79-251 | requested <= returned <= requested + PAGE_SIZE, from the first listed visible chunk that fits; the remainder field by field, at the front of the free list; no byte changes its recorded time; ENOMEM exactly for a split without memory; the exact new arena; the tiling survives exactly if the chunk is handed out whole or cleanly cut |
| `BlockAllocator.Allocator.FreeBlock` | kern/alloc/sivfs_allocation.c:272-342 | marks a chunk as being freed exactly if an allocated one with recorded time at most the timestamp starts there; the invariant survives exactly if no other running transaction has it allocated; the null chunk exactly if the page record has none and boundary matches |
| `BlockAllocator.Allocator.CoalesceNext` | kern/alloc/sivfs_allocation.c:345-415 | merges exactly if the next chunk is free, bounded and within budget, and charges its bytes; failures change nothing |
| `BlockAllocator.Allocator.CoalesceForward` | kern/alloc/sivfs_allocation.c:481-495 | ends, absorbs byte for byte what the budget lost, and on success has merged exactly as long as a free, bounded neighbour within budget followed (`Ahead`) |
| `BlockAllocator.Allocator.CoalesceBackward` | kern/alloc/sivfs_allocation.c:497-508 | ends with the freed bytes inside one chunk, on success exactly the chunk reached by merging into each predecessor in turn, stopping at a busy one (`Back`); handed-out blocks keep place and bytes |
| `BlockAllocator.Allocator.CoalesceBoth` | kern/alloc/sivfs_allocation.c:478-508 | merging both ways with four times the freed size as budget: the result reaches no further than that behind the freed chunk, and everything stays in order |
| `BlockAllocator.Allocator.FreeReal` | kern/alloc/sivfs_allocation.c:458-522 | clears the flags, dates the chunk and merges it both ways: where the bytes begin and end afterwards, told on the arena before, whether they are lost to a busy block, and the time they are recorded under, that of the free exactly if they stay in their chunk, else that of the chunk they end up in; the free list is the old one with the chunk in front, less what was absorbed |
| `BlockAllocator.Allocator.OnCommit` | kern/alloc/sivfs_allocation.c:524-563 | carries out the transaction's frees and nothing else, with the exact resulting arena; other blocks keep place, bytes and flags |
| `BlockAllocator.Allocator.OnAbort` | kern/alloc/sivfs_allocation.c:565-622 | takes the frees back and gives the allocations back, also for a chunk allocated and freed in the same transaction; the recorded time is kept exactly for chunks it had not freed or that had time 0 |
| `BlockRuns.TwoHolders` | kern/alloc/sivfs_allocation.c:272-342 | a run in which a transaction frees another's fresh block, commits, and a third is given the block the first still holds |
| `BlockRuns.EarlyReuse` | kern/alloc/sivfs_allocation.c:590-597 | a run in which a block freed at 5 has recorded time 0 after an abort and goes to a transaction at 3 |
| `BlockRuns.OlderNeighbour` | kern/alloc/sivfs_allocation.c:417-450 | a run without aborts in which a block freed at 5 is merged into a neighbour freed at 3 and goes to a transaction at 4 |
| `BlockRuns.SwallowedBlock` | kern/alloc/sivfs_allocation.c:497-508 | a run of two page-sized blocks in which the second, freed and committed, is part of the first and on no free list |
| `BlockRuns.NoChunkThere` | kern/alloc/sivfs_allocation.c:289-310 | a run in which a free of a page-aligned offset inside the wilderness finds no chunk to look at |
| `SlabBins.FreedToSameBin` | lib/sivfs_allocator_bins.h:29-75 | the bin's size is enough for the request, no smaller bin's is, and it maps back to the same bin |
| `SlabBins.PageHasBin` | lib/sivfs_allocator_bins.h:36-40 | there is a bin for every size up to a page |
| `SlabAllocator.HeaderRoundTrip` | lib/sivfs_allocator.h:163-188 | size, index, magic and head flag of a slab object's header word read back whatever the others hold |
| `SlabAllocator.HeaderReads` | lib/sivfs_allocator.h:245-269 | in a laid-out bin the header word of every region says its size, index and flags exactly |
| `SlabAllocator.WalkBack` | lib/sivfs_allocator.h:272-313 | index times element size leads back to the slab's first region |
| `SlabAllocator.Bin.BlockHead` | lib/sivfs_allocator.h:272-290 | from the header word of a live object alone, the slab it lies in is found and the sanity test passes |
| `SlabAllocator.RegionsDisjoint` | lib/sivfs_allocator.h:1103-1200 | no two regions, live or free, share a byte |
| `SlabAllocator.RingAdd` | lib/sivfs_allocator.h:79-103 | the four writes insert right behind the head and keep a circular list |
| `SlabAllocator.RingRemove` | lib/sivfs_allocator.h:127-161 | removal keeps a circular list of the others in order |
| `SlabAllocator.CutLaid` | lib/sivfs_allocator.h:1129-1183 | cutting an element off the last region keeps indices and layout |
| `SlabAllocator.Bin.AddSlab` | lib/sivfs_allocator.h:900-923 | a new slab is one long free region and the whole list |
| `SlabAllocator.Bin.Malloc` | lib/sivfs_allocator.h:1081-1230 | returns the region behind the head, or the lone head's second element, or last the head, cut to exactly the element size and not live before; the exact list afterwards, with the rest of a cut region right behind the head, and the exact size of everything on it; live objects are untouched |
| `SlabAllocator.Bin.Free` | lib/sivfs_allocator.h:1324-1408 | the region joins the list behind the head or becomes it, in links and header words, all sizes unchanged; a double free is caught by the magic in the word |
| `FreeListUndo.ReplayAfterSet` | lib/sivfs_allocator.h:441-487 | saving and overwriting a slot does not change what a backward replay restores |
| `FreeListUndo.ThreadLists.SetFreeList` | lib/sivfs_allocator.h:441-487 | sets the slot and keeps the undo log exact, and only when memory runs out changes nothing |
| `FreeListUndo.ThreadLists.OnCommit` | lib/sivfs_allocator.h:489-529 | an abort puts back every slot as it was when the transaction began, a commit keeps them |

## Where the code does not do what it is meant to

* The checkout shortcut compares `checkpoint_ts` with `latest_checkpoint.ts` before checking
  that either is valid. `BareNeedsMisfire` proves over whole runs that this is the only way into
  a transaction without a checkpoint, `BareExactly` gives the condition, `MisfireRun` a run. Such
  a thread announces nothing, so the log it needs may be deleted, with three consequences. Its
  next update can be refused, which leaves `checkpoint_ts` above `ts` (`DoubleReadLock` for the
  exact condition, `RefusedRun` for a run), for good unless it pauses (`StrandedUntilPause`). Its
  commit can be aborted without any conflict (`AbortHasRival`, `CommitAlone`, `AbortedAlone`). And its commit can
  dereference NULL, after which nobody can ever publish again (`Validate` and
  `DoomedCannotPublish` for the exact condition, `CrashedCommit`, `CrashBlocksForever`).
  `NoMisfireNoRefusal`, `AbortAloneMisfired` and `LiveWithoutMisfires` prove that without a misfire
  none of these happens.
* `sivfs_alloc_block` accepts requests below a page. `SplitTiled` and `AllocBlock` give the
  exact condition under which the boundary records survive, `SmallRequestBreaksTiling` an input.
* `sivfs_free_block` does not look at who allocated a block. `FreeBlock` gives the exact
  condition under which the allocator stays in order, `TwoHolders` a run that ends with two
  transactions holding one block. In the source the block is moreover on two lists through one
  list node; the model keeps the lists apart.
* `sivfs_free_block` on a page that never held a boundary has no chunk to look at, and
  dereferences it: exactly `NoChunk` in `FreeBlock`, with `NoChunkThere` as a run.
* An aborted free masks with the flags, which keeps both flags and drops the timestamp.
  `Allocator.OnAbort` says exactly whose recorded time is kept, against the intention stated at
  kern/alloc/sivfs_allocation.c:607-611; in `EarlyReuse` space freed at 5 goes to a transaction
  at 3, so a recorded time is no bound on when space became free.
* `sivfs_coalesce_with_prev` merges into a predecessor without testing that it is free.
  `FreedSwallowed` and `SwallowedByNeighbour` say exactly when freed space is lost to a busy
  block that way, `SwallowedBlock` is a run.
* A failed insertion into the log cache frees the chunk even if it is the one in use
  (`CreateEntry` for the exact condition, `LostChunk` for a run).
* A chunk merged into a free neighbour in front takes that neighbour's time, which may be earlier
  (`FreeReal` and `FreedLeaves` for the exact condition, `OlderNeighbour` for a run), against
  kern/alloc/sivfs_allocation.c:253-256, where merging is said to raise the time.
* The group of unsorted entries is meant to stay, so that taking entries over cannot fail when
  memory is low (kern/sivfs_gc_checkpoints.c:338-340). The code removes it like the others: `Gc`
  says exactly when it survives, `StarvedHandOver` is a run in which the next hand-over fails.

## Left out

- Weak memory ordering, write throttling, spin-lock retries, signals and sleeping: steps are atomic and sequentially consistent.
- VFS, mmap, page tables, TLBs, page locks and reference counts, mounting, ioctl plumbing, statistics.
- Direct access mode, whole-checkpoint checkout and the external-consistency option.
- Stream write-set entries and unaligned or blind writes: an entry is one aligned word, and a transaction writes only to pages it has resident. Packing of write sets into bytes is not modelled.
- Truncation and file size; entries out of addressable range are modelled in checkpoint builds only.
- Table entries carry page addresses without their flag bits, and a leaf is linked before its word is written only within one atomic build.
- Pages of a failed checkpoint build are not reclaimed, as in the source; `MakeCheckpoint` then promises only that earlier checkpoints read the same. A failure to remember a replaced page, after it was marked obsoleted, is not modelled.
- Commits by a thread that is in no transaction, and threads that come and go during a scan.
- `CheckpointProtocol` identifies a checkpoint inode with its timestamp, and inodes are objects there only, not in `Engine`. The set of threads is fixed in both. A build in `Engine` does not fail: one that meets an entry out of range stops.
- A walk that has found its first entry keeps reading: what a thread without a checkpoint sees of entries deleted while it walks over them is not modelled. `CommitProtocol` keeps their contents.
- sivfs_stack as a growable array: stacks are sequences whose growth may fail.
- Destruction of the log, the checkpoints and the allocators.
- BlockAllocator.Allocator.OnAbort: asks that no block the aborting transaction has allocated was freed by another one; what the code does then, to a chunk that may be gone, is not modelled.
- The recovery path of the block allocator and big blocks of the user-space allocator.
- SlabAllocator.Bin.Free: asks that the object belongs to a slab of this bin; objects from slabs laid by another thread's allocator are not modelled. The bin's slot is not tied to `FreeListUndo`.
- WorkingSet.ThreadState.CommitUpdate: the commit's outcome, the checkpoint and the snapshot are parameters; that the protocols supply them in order is stated beside it, not inside.
- SlabBins.FreedToSameBin: the source computes bin numbers with floating-point logarithms; rounding there is not modelled.
