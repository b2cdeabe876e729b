# Proofs about the xv6 kernel in A5 and the cab protocol in A4

A Dafny model of the hardest parts of this repository, and proofs of what they promise. Code that updates state
step by step is a class whose methods follow the C functions, proved against specifications on values; the
properties over whole runs are proved of those specifications. Panics and failed assertions of the C code are
results (`false`, `None`, `NoSlots`, ...), so that a contract says when they can happen.

`dafny verify dfyconfig.toml` checks everything.

| files | what they model |
|---|---|
| `BufferCache`, `BufferCacheCode`, `CacheCopies`, `Disk` | the buffer cache (`bio.c`) over the memory disk (`memide.c`) |
| `RedoLog`, `RedoLogRuns`, `RedoLogCode` | the write-ahead log (`log.c`), its crashes and recovery, and its code over the cache |
| `FileSystem`, `FileSystemCode`, `Dinodes`, `Bytes` | block allocation, block mapping, inodes on disk and file contents (`fs.c`), and filewrite (`file.c`) |
| `CrashFiles` | the file system on the log: what a crash leaves of the files |
| `Paths`, `PathsCode` | inode references, directories and path names (`fs.c`, `string.c`) |
| `Heap`, `HeapCode` | the user heap allocator (`umalloc.c`) |
| `PageTables`, `PageMaps`, `PageTablesCode` | page tables and physical frames (`vm.c`, `kalloc.c`) |
| `Mlfq`, `MlfqRuns`, `MlfqCode` | the multi-level feedback queues and aging (`proc.c`) |
| `ProcLife`, `ProcLifeCode` | fork, exit, wait, sleep, wakeup and kill (`proc.c`) |
| `ShellGrammar`, `ShellParser`, `ShellRoundTrip` | the shell's parser (`sh.c`) |
| `Regex` | the pattern matcher (`grep.c`) |
| `Pipe` | pipes (`pipe.c`) |
| `Cabs`, `CabsCode` | cab booking (`A4/q3`) |
| `Common`, `Counting` | what several of them share |

How the parts are put together:

- The disk is an array of blocks whose one-block writes are atomic. A run of the log is any interleaving of calls,
  single writes of commit and recovery, and crashes; a crash loses the cache and everything in memory.
- The file system's blocks are what bread returns. Each store into one is a log_write, kept in order with the blocks
  of begin_op, so that a call of the file system is a call in the runs of the log.
- A kernel address of a page is written as its frame number. The set of frames that are free or in hand is kept
  beside memory, so that every procedure can be seen to conserve frames.
- Locks make steps atomic. Where the C code sleeps, a method ends and says so, and the run continues with a later step.

Where the code gives less than its documentation or layout suggests, the model follows the code and the exact
condition is proved:

- the log has one data slot too few (`SmallLogPanics`, `NewBlockAlwaysFits`), and a full log panics on a block that
  would be absorbed (`FullLogPanicsOnAbsorption`) and, if it has NBUF slots, leaves commit no buffer (`Commit`);
- malloc's rounding wraps for the largest requests (`RoomForRequest`), and for requests from 2^31 - 15 bytes on it
  asks sbrk for too little (`MemoryForRequest`);
- a runnable process loses its queue in two ways and in no other (`StepPlaced`, `RunnableWithoutPlace`,
  `YieldWithoutPlace`), so aging can go wrong (`AgingNeedsPlaces`, `AgingGoesWrong`), and a killed one never runs
  (`KilledNeverRuns`);
- namex locks a free inode, which is a panic, exactly when a path leads through one with a name still to come
  (`SettledTrip`), as it does from a removed current directory whose parent is removed too (`RemovedCurrentDirectory`);
- a killed pipe writer wakes nobody (`KilledWriterIsNotHeard`);
- riders are turned away although there is a cab to take (`TurnedAwayWithCabFree`).

## Model

| member | source | states |
|---|---|---|
| `BufferCache.StepKeepsInv` | A5/xv6-public/bio.c:59-131 | every locked step of bget, iderw, brelse or a buffer update keeps: the list holds each buffer once, at most one buffer per block of device 1, valid clean buffers equal the disk, dirty ones are never recycled |
| `BufferCache.StepView` | A5/xv6-public/bio.c:59-131 | no step but a store into a buffer changes what any block appears to hold; recycling in particular loses nothing |
| `BufferCache.CacheTransparent` | A5/xv6-public/bio.c:59-131 | in every run a valid buffer holds exactly what was last stored for its block, as if there were one flat array of blocks |
| `BufferCache.RunView` | A5/xv6-public/bio.c:92-108 | in every run the contents seen for a block are those last recorded for it |
| `BufferCache.MostRecentlyReleasedFirst` | A5/xv6-public/bio.c:112-131 | moving released buffers to the front keeps the list in most-recently-released order |
| `BufferCache.RunOrder` | A5/xv6-public/bio.c:112-131 | in every run the list order is the one determined by the history of final releases |
| `BufferCache.VictimIsLeastRecentlyReleased` | A5/xv6-public/bio.c:73-86 | in every run the buffer bget recycles is the eligible one released longest ago |
| `BufferCache.ReadSucceeds` | A5/xv6-public/bio.c:59-100 | bread succeeds if and only if the block is cached or some buffer is neither referenced nor dirty |
| `BufferCache.ReadSpecPost` | A5/xv6-public/bio.c:92-100 | a successful bread returns the block's contents in a locked valid buffer and leaves every other buffer and every block's contents alone |
| `BufferCacheCode.UnlinkLinks` | A5/xv6-public/bio.c:119-123 | unlinking a buffer from the prev/next pointers leaves a circular list without it |
| `BufferCacheCode.PushLinks` | A5/xv6-public/bio.c:124-127 | linking it after the head leaves a circular list that starts with it |
| `BufferCacheCode.Cache.constructor` | A5/xv6-public/bio.c:38-54 | binit builds a circular list of all buffers |
| `BufferCacheCode.Cache.Bget` | A5/xv6-public/bio.c:59-89 | the two pointer scans end at the cached buffer, which gets one more reference, or else at the last buffer in list order that is free and clean, which is recycled, or else in a panic |
| `BufferCacheCode.Cache.Iderw` | A5/xv6-public/memide.c:39-60 | a dirty buffer is written to its block, an invalid one read from it; it panics if and only if the buffer is not locked, has nothing to do, or is not for a block of device 1 |
| `BufferCacheCode.Cache.Bread` | A5/xv6-public/bio.c:92-100 | bread refines its specification on values; its panics are exactly no buffer to be had and a block past the end of the disk |
| `BufferCacheCode.Cache.Bwrite` | A5/xv6-public/bio.c:103-108 | bwrite refines its specification on values and appends one write to the disk |
| `BufferCacheCode.Cache.Brelse` | A5/xv6-public/bio.c:112-131 | brelse gives up the lock and a reference, and moves the buffer to the front if it was the last one; it panics if and only if the buffer is not locked |
| `CacheCopies.PutPost` | A5/xv6-public/log.c:164-175 | bread, store, bwrite, brelse of one block: that block changes, cached and on disk, and no other |
| `CacheCopies.CopyPost` | A5/xv6-public/log.c:67-79 | copying one block to another through two buffers has that effect with the source's contents |
| `CacheCopies.UpdatePost` | A5/xv6-public/log.c:187-194 | bread, store, log_write, brelse of one block: that block shows the new contents and is pinned, the disk and every other block are as before |
| `CacheCopies.FreeUnlessAllPinned` | A5/xv6-public/bio.c:73-86 | with no buffer in use one can be recycled if and only if fewer than NBUF blocks are pinned |
| `RedoLog.HeadRoundTrip` | A5/xv6-public/log.c:82-106 | read_head after write_head gives the same list of block numbers; the header is the count in word 0, the numbers in the words behind it, and what was there before behind those |
| `RedoLog.CommitOrder` | A5/xv6-public/log.c:164-185 | commit writes block lh[k] to block start + 1 + k for each k, then the header with the list, then each block to its home, then a header with count 0, in this order |
| `RedoLog.RecoverOrder` | A5/xv6-public/log.c:67-113 | recovery writes block start + 1 + k to the block that word 1 + k of the header names, for each k up to the count, and then a header with count 0 |
| `RedoLog.LogicalIs` | A5/xv6-public/log.c:67-79 | what recovery makes of a block is the log block whose header word names it, or the block itself |
| `RedoLog.CommitAtomicAtEveryWrite` | A5/xv6-public/log.c:164-185 | after any number of commit's block writes the disk, as recovery would read it, shows the old contents of all home blocks before the header write and the new contents of all of them from it on |
| `RedoLog.RecoveryKeepsContents` | A5/xv6-public/log.c:67-79 | after any number of recovery's writes the disk, read through the log, still shows the same contents |
| `RedoLog.CommitEndsLikeRecovery` | A5/xv6-public/log.c:177-185 | a completed commit leaves the disk that a crash right after the header write and a recovery would leave |
| `RedoLog.CommitDiskTail` | A5/xv6-public/log.c:177-185 | the writes after the header write are those of a recovery |
| `RedoLogRuns.StepKeepsInv` | A5/xv6-public/log.c:116-214 | begin_op, log_write, end_op, each disk write of commit and recovery, and a crash at any point keep the invariant of the log |
| `RedoLogRuns.RunInv` | A5/xv6-public/log.c:53-214 | the invariant holds in every state of every run |
| `RedoLogRuns.CallsAreAtomic` | A5/xv6-public/log.c:116-161 | in every run the log_writes of one system call are durable all together or not at all |
| `RedoLogRuns.DurableChangesAtHeader` | A5/xv6-public/log.c:177-185 | what is durable changes at commit's header write only, and then takes in everything logged so far with no call outstanding |
| `RedoLogRuns.RecoveryKeepsHistory` | A5/xv6-public/log.c:108-113 | crashes during recovery, as many as there are, change nothing that is durable |
| `RedoLogRuns.CrashAtomicity` | A5/xv6-public/log.c:67-185 | crash anywhere, crash again during recovery any number of times, let recovery finish: every block, on disk and in the cache, is what the log_writes durable at the first crash made it, and the log is clear |
| `RedoLogRuns.RecoversAMoment` | A5/xv6-public/log.c:53-185 | and that is what every block showed at one moment before the crash at which no call was between begin_op and end_op |
| `RedoLogRuns.RunPending` | A5/xv6-public/log.c:116-185 | in every run, between transactions the log is empty and everything logged is durable |
| `RedoLogRuns.CommitDoneIsDurable` | A5/xv6-public/log.c:134-161 | the last end_op returns only when everything logged is durable at home |
| `RedoLogRuns.CommitFollowsPlan` | A5/xv6-public/log.c:177-185 | in every run commit makes the planned writes in the planned order |
| `RedoLogRuns.NeverStuck` | A5/xv6-public/log.c:108-185 | no run is stuck: from every state of every run a crash can come, and a commit or a recovery under way can finish by itself in exactly the writes it still has to make, after which any new call can begin |
| `RedoLogRuns.CommitRunsAlone` | A5/xv6-public/log.c:116-161 | while commit runs no call is outstanding and none can begin, log or end; the only panic reached is the one about a transaction too big |
| `RedoLogRuns.RunRoom` | A5/xv6-public/log.c:116-130 | if each call adds at most MAXOPBLOCKS new blocks, logged blocks plus unused reservations never exceed LOGSIZE |
| `RedoLogRuns.FrugalIsBudgeted` | A5/xv6-public/log.c:116-130 | a call that logs at most MAXOPBLOCKS different blocks adds at most that many to the log, whatever other calls log at the same time |
| `RedoLogRuns.NewBlockAlwaysFits` | A5/xv6-public/log.c:196-214 | then, with at least LOGSIZE data slots, logging a block not yet in the log never panics |
| `RedoLogRuns.SmallLogPanics` | A5/xv6-public/log.c:199-200 | with fewer data slots, which is what mkfs makes, calls within their budgets do panic on a new block |
| `RedoLogRuns.FullLogPanicsOnAbsorption` | A5/xv6-public/log.c:199-208 | even with LOGSIZE slots, logging a block again when the log is full panics, because the size test precedes absorption |
| `RedoLogCode.Log.WriteHead` | A5/xv6-public/log.c:96-106 | write_head writes the header block: the count, the list, and what was behind it before |
| `RedoLogCode.Log.ReadHead` | A5/xv6-public/log.c:82-91 | read_head loads the list that the header encodes |
| `RedoLogCode.Log.WriteLog` | A5/xv6-public/log.c:164-175 | write_log, through the buffer cache, makes a prefix of the planned writes, all of them unless it panics |
| `RedoLogCode.Log.InstallTrans` | A5/xv6-public/log.c:67-79 | install_trans copies logged blocks home and unpins them, in order |
| `RedoLogCode.Log.Commit` | A5/xv6-public/log.c:177-185 | commit, through the buffer cache, makes exactly a prefix of the planned writes; it completes if a buffer is free, and then the log is empty and blocks keep their contents; with no buffer in use it completes if and only if fewer than NBUF blocks are logged, so mkfs's 29 slots leave it a buffer and LOGSIZE logged blocks do not |
| `RedoLogCode.Log.RecoverFromLog` | A5/xv6-public/log.c:108-113 | recovery makes a prefix of its planned writes; it completes if two buffers are free, and then every block shows its committed contents |
| `RedoLogCode.Log.BeginOp` | A5/xv6-public/log.c:116-130 | begin_op starts a call if and only if nothing is committing and the reservation fits |
| `RedoLogCode.Log.LogWrite` | A5/xv6-public/log.c:196-214 | log_write absorbs repeated blocks, keeps logged numbers distinct and pins the buffer; it panics if and only if the log is full or no call is outstanding |
| `RedoLogCode.Log.Update` | A5/xv6-public/log.c:187-214 | a system call's update of a block leaves the pinned blocks exactly the logged ones, shows the new contents, writes nothing to disk and gives its buffer back; it panics if and only if no buffer can be had, the log is full or no call is outstanding |
| `RedoLogCode.Log.UpdateAll` | A5/xv6-public/log.c:187-214 | with no other call about, updates of up to NBUF different blocks all find a buffer and end with no buffer in use and exactly those blocks logged |
| `RedoLogCode.Log.FullLogStopsCommit` | A5/xv6-public/log.c:164-185 | after NBUF of them, which takes a log of as many data slots, commit does fail |
| `RedoLogCode.UpdateMatches` | A5/xv6-public/log.c:196-214 | such an update is the log_write step of the runs, panics included |
| `RedoLogCode.Log.EndOp` | A5/xv6-public/log.c:134-161 | only the last outstanding call commits, and it leaves committing set if and only if commit has failed |
| `Heap.Freed` | A5/xv6-public/umalloc.c:25-44 | free adds exactly the block's units to the free ones and leaves the list circular, in address order and fully coalesced |
| `Heap.UnitsFixList` | A5/xv6-public/umalloc.c:21-44 | the set of free units determines the free list, node for node and header for header |
| `Heap.RunInOneNode` | A5/xv6-public/umalloc.c:33-42 | because blocks are coalesced, any run of free units lies in one block |
| `Heap.FreeUndoesMalloc` | A5/xv6-public/umalloc.c:25-90 | free after malloc restores the free list exactly |
| `Heap.Removed` | A5/xv6-public/umalloc.c:76-77 | taking an exactly fitting block removes its units and keeps the list well formed |
| `Heap.Carved` | A5/xv6-public/umalloc.c:78-82 | carving a block off the tail of a larger one does the same |
| `HeapCode.AccountsAfterFree` | A5/xv6-public/umalloc.c:25-44 | free and live units stay disjoint and together are the units obtained from morecore, across free |
| `HeapCode.AccountsAfterMalloc` | A5/xv6-public/umalloc.c:64-90 | ... across malloc |
| `HeapCode.AccountsAfterGrant` | A5/xv6-public/umalloc.c:47-61 | ... across morecore |
| `HeapCode.RoomForRequest` | A5/xv6-public/umalloc.c:69 | a block of the computed units has room for the request if and only if rounding the size up does not wrap at 2^32 |
| `HeapCode.SbrkArgExact` | A5/xv6-public/umalloc.c:54 | sbrk is asked for all of the bytes if and only if there are fewer than 2^28 units, because its argument is a signed 32-bit number |
| `HeapCode.MemoryForRequest` | A5/xv6-public/umalloc.c:52-54 | so a block in new memory has room for the request and memory behind it if and only if the request is at most 2^31 - 16 bytes |
| `HeapCode.NothingAskedFor` | A5/xv6-public/umalloc.c:54 | two requests that pass the rounding and fail: for 0xFFFFFFF8 bytes sbrk is asked for 0, for 0xFFFFEFF8 bytes it is asked to give 4096 back |
| `HeapCode.NewTopExact` | A5/xv6-public/umalloc.c:54 | the end of memory moves by all of the units if and only if there are fewer than 2^28 of them |
| `HeapCode.FitEndsGrant` | A5/xv6-public/umalloc.c:86-88 | after morecore the only block that fits is the one that ends where the new memory ends |
| `HeapCode.Allocator.Locate` | A5/xv6-public/umalloc.c:30-32 | the cyclic search of free terminates at the right predecessor |
| `HeapCode.Allocator.Free` | A5/xv6-public/umalloc.c:25-44 | free on the headers in memory: exactly that block becomes free, and the next search starts at the free block below it |
| `HeapCode.Allocator.Morecore` | A5/xv6-public/umalloc.c:47-61 | morecore puts at least 4096 units at the end of memory on the free list, and the end of memory moves by what sbrk was really asked for, or not at all when that would take more away than there is |
| `HeapCode.Allocator.Search` | A5/xv6-public/umalloc.c:74-88 | the cyclic search of malloc terminates and finds the next fit, or shows that nothing fits |
| `HeapCode.Allocator.Malloc` | A5/xv6-public/umalloc.c:64-90 | malloc returns null if and only if nothing fits and sbrk refuses; it asks for memory at most once and only when nothing fits, for at least 4096 units; it takes the first block from freep upwards and round that fits, by address, which was free and is now live; nothing else changes; the block is in memory with room for the request if and only if the request is at most 2^32 - 8 bytes, or 2^31 - 16 when memory had to be obtained |
| `HeapCode.Allocator.MallocFree` | A5/xv6-public/umalloc.c:25-90 | malloc then free leaves the same list and headers, or, if memory had to be obtained, the same free units and the new ones |
| `FileSystem.FlipUsed` | A5/xv6-public/fs.c:57-95 | setting or clearing one bit of the bitmap changes the state of that block only |
| `FileSystem.FileLayout` | A5/xv6-public/fs.c:373-400 | a file has the contents c if and only if c has the inode's size and each byte of it is where the inode's twelve direct blocks and its indirect block put it |
| `FileSystem.AllocTurnsBit` | A5/xv6-public/fs.c:57-78 | allocating turns on one bit and zeroes one block, in the bytes of the disk |
| `FileSystem.AllocKeeps` | A5/xv6-public/fs.c:57-78 | balloc takes a block that nothing references, zeroed and marked in use; no reference and no byte of any file changes |
| `FileSystem.PutDirectKeeps` | A5/xv6-public/fs.c:378-388 | storing a new block number in the inode keeps every block owned by one slot |
| `FileSystem.PutEntryKeeps` | A5/xv6-public/fs.c:389-396 | storing a new block number in the indirect block does the same |
| `FileSystem.StoreKeeps` | A5/xv6-public/fs.c:498-504 | storing into a data block changes that stretch of that file and no other byte of any file |
| `FileSystemCode.FileStore.Balloc` | A5/xv6-public/fs.c:57-78 | balloc finds the first clear bit, turns it on, which is bit b % 8 of byte b % 4096 / 8 of block bmapstart + b / 4096, and zeroes the block; no other byte of the disk changes; it panics if and only if every block is in use |
| `FileSystemCode.FileStore.Bfree` | A5/xv6-public/fs.c:81-95 | bfree turns that bit off and changes no other byte of the disk; it panics if and only if the block was free |
| `FileSystemCode.FileStore.Bmap` | A5/xv6-public/fs.c:373-400 | bmap returns the block of the file, allocating only what is missing: block bn is addrs[bn] of the inode for bn below 12, and behind that word bn - 12 of the block addrs[12]; it fails only out of range or with every block in use |
| `FileSystemCode.FileStore.Readi` | A5/xv6-public/fs.c:453-476 | readi returns the matching slice of the file, each byte o from byte o % 512 of block addrs[o / 512] or of the block that word o / 512 - 12 of block addrs[12] names; it changes and logs nothing; its errors are exactly an offset past the end or a 32-bit wrap, and bmap's panics are not reached |
| `FileSystemCode.FileStore.Writei` | A5/xv6-public/fs.c:482-511 | writei replaces exactly bytes off to off+n, which are in those blocks afterwards, growing the file if needed, and changes no other file; its errors are exactly an offset past the end or a file too big, it panics only with every block in use, inodes on disk agree with those in memory afterwards, the blocks are those of begin_op with its log_writes made, and it logs at most two blocks for each data block, one less if it starts inside a block, and three more |
| `FileSystemCode.FileStore.Itrunc` | A5/xv6-public/fs.c:408-435 | itrunc frees exactly the inode's blocks, data and indirect, leaves every other file alone, never frees a free block, and the disk agrees with memory afterwards |
| `FileSystemCode.Truncated` | A5/xv6-public/fs.c:408-435 | freeing the slots in itrunc's order leaves a consistent file system in which exactly those blocks are free |
| `Dinodes.WithInodeOf` | A5/xv6-public/fs.c:221-236 | iupdate replaces one of the eight inodes of a block, type, size and block numbers, and no other |
| `Dinodes.DinodeLayout` | A5/xv6-public/fs.c:221-236 | an inode on the disk is its type in bytes 64s and 64s + 1 of the block, its size in word 16s + 2 and its block numbers in the thirteen words behind it |
| `FileSystemCode.FileStore.Iupdate` | A5/xv6-public/fs.c:221-236 | iupdate stores the inode in that layout at place i % 8 of block inodestart + i / 8, and changes no other byte |
| `Dinodes.UpdateSyncs` | A5/xv6-public/fs.c:221-236 | if only one inode in memory differs from the disk, iupdate of it makes them agree |
| `FileSystemCode.Bound` | A5/xv6-public/file.c:127-133 | a write of at most the 1536 bytes that filewrite allows touches at most 7 blocks beside the inode, the indirect block and its bitmap block |
| `FileSystemCode.FileStore.WriteCall` | A5/xv6-public/file.c:140-145 | so each such call logs at most MAXOPBLOCKS different blocks, whatever the offset and the size of the file system, as the comment there wants it, and takes a sound file system to a sound one |
| `FileSystemCode.FileStore.FileWrite` | A5/xv6-public/file.c:118-156 | filewrite is a series of such calls, each starting where the one before ended, after the m-th of which the file has the first m chunks; it returns -1 if and only if the offset is past the end or the file would be too big, and may then have written some of the chunks |
| `CrashFiles.FilesSurvive` | A5/xv6-public/log.c:53-185 | crash at any point of any run, crash again while recovering, and recover: inodes, blocks and so every file are as they were at one moment before the crash at which no call was running |
| `CrashFiles.CallIsAllOrNothing` | A5/xv6-public/log.c:116-185 | a call such as a writei and a crash anywhere in it or in its commit: after recovery the file system is the one before the call or the one after it, and the one after it if and only if commit had written the header |
| `CrashFiles.EndedIsKept` | A5/xv6-public/log.c:134-161 | once end_op has returned the crash keeps the call |
| `CrashFiles.CallNeverPanics` | A5/xv6-public/log.c:196-214 | a call that runs alone and logs at most MAXOPBLOCKS blocks never meets the panic of log_write if the log has more slots than that, absorbed blocks included |
| `CrashFiles.CrashInFileWrite` | A5/xv6-public/file.c:135-152 | a crash in the m-th call of a filewrite leaves the file with the first m chunks of the new bytes or the first m + 1, and every other file as it was |
| `Paths.LinkIsUpdate` | A5/xv6-public/fs.c:552-578 | linking a new name is an update of a finite map: that name is bound, every other binding stays, live names stay distinct |
| `Paths.ParentThenLast` | A5/xv6-public/fs.c:625-657 | a path leads where its parent directory's entry for the last name leads |
| `Paths.SettledTrip` | A5/xv6-public/fs.c:625-657 | when every inode without a link is in use, the walk frees nothing; it ends in the panic of ilock if and only if after some names it is at a free inode with a name still to look up, and otherwise where iterated lookup leads |
| `Paths.LinkedTrip` | A5/xv6-public/fs.c:625-657 | from a directory that has a link it never panics, frees nothing and ends where iterated lookup leads |
| `Paths.FreeKeepsLinked` | A5/xv6-public/fs.c:332-352 | freeing an inode without a link leaves the linked part of the tree sound |
| `Paths.RemovedCurrentDirectory` | A5/xv6-public/sysfile.c:198-209 | the panic happens: with /a/b as current directory, unlink of /a/b and of /a frees /a, and ../x makes namex lock it |
| `Paths.SlotHasRefs` | A5/xv6-public/fs.c:242-272 | the one slot of an inode holds all references to it |
| `PathsCode.Strncmp` | A5/xv6-public/string.c:59-66 | 0 if and only if the strings agree up to their NULs or for n characters |
| `PathsCode.Strncpy` | A5/xv6-public/string.c:69-79 | the string up to its NUL or n characters, padded with NULs |
| `PathsCode.SkipElem` | A5/xv6-public/fs.c:596-618 | skipelem passes slashes, splits off the characters up to the next slash, cut to DIRSIZ, and passes the slashes behind them; this is the first of the path's elements |
| `PathsCode.Inodes.Iget` | A5/xv6-public/fs.c:242-272 | iget adds one reference to the inode and to nothing else, keeps slots of inodes in use apart, and fails only when all slots are in use |
| `PathsCode.Inodes.Iput` | A5/xv6-public/fs.c:332-352 | iput takes one reference; it frees the inode if and only if that was the last one, the inode has been read and it has no link, whatever entries still name it, as the dot entry of a removed directory does |
| `PathsCode.Inodes.DirLookup` | A5/xv6-public/fs.c:525-548 | dirlookup is lookup in the directory as a map, with one reference to what it finds, in removed directories too |
| `PathsCode.Inodes.DirLink` | A5/xv6-public/fs.c:552-578 | dirlink fails for a name that is there and panics if and only if the directory is full and cannot grow; otherwise it binds the name in the first free entry, leaves the other entries, and no reference is kept; the linked part of the tree stays sound |
| `PathsCode.Inodes.Namex` | A5/xv6-public/fs.c:625-657 | namex from any current directory, removed or not, leaves the inodes as the walk does, one lookup at a time, and ends where it ends: at an inode with exactly one new reference, nowhere with all counts as they were, or in the panic of ilock |
| `PageTables.SetPteFlat` | A5/xv6-public/vm.c:41-54 | a store through walkpgdir's pointer updates the flat page map at that page and nowhere else |
| `PageTables.AddTableKeeps` | A5/xv6-public/vm.c:45-53 | a new page table changes no mapping and moves one frame into the address space |
| `PageTables.SpareWrites` | A5/xv6-public/kalloc.c:53-69 | writes to frames outside an address space are not seen through its tables |
| `PageTables.UnmapPageKeeps` | A5/xv6-public/vm.c:269-276 | unmapping a page moves its frame out of the address space; no frame is gained or lost |
| `PageMaps.UnmappingSkip` | A5/xv6-public/vm.c:266-268 | skipping a missing table passes over no mapped page |
| `PageMaps.SkipAddress` | A5/xv6-public/vm.c:268 | the skip address is the last page of the missing table |
| `PageMaps.TablesAreGaps` | A5/xv6-public/vm.c:61-80 | mapping a range makes one table for each missing directory entry in it |
| `PageMaps.FramesReverted` | A5/xv6-public/vm.c:234-246 | when the map is as before, a frame that is no longer free holds a new table |
| `PageMaps.OtherSpace` | A5/xv6-public/vm.c:316-345 | what happens in frames of one address space leaves every other one and its contents as they were |
| `PageTablesCode.Kernel.Kfree` | A5/xv6-public/kalloc.c:53-69 | kfree pushes the page on the free list and panics if and only if it is out of range; if the page is free already it does so too, and the list has no end from then on |
| `PageMaps.TwiceFreed` | A5/xv6-public/kalloc.c:53-69 | a page freed twice makes the free list run in a circle |
| `PageTablesCode.Kernel.Kalloc` | A5/xv6-public/kalloc.c:74-85 | kalloc pops a page, and fails if and only if none is free |
| `PageTablesCode.Kernel.Freerange` | A5/xv6-public/kalloc.c:42-47 | freerange adds exactly the pages of the range to the free ones |
| `PageTablesCode.Kernel.Walk` | A5/xv6-public/vm.c:36-55 | walkpgdir changes no mapping and fails if and only if the table is missing and none may or can be made; a new directory entry has bits 0, 1 and 2 set, present, writable and user |
| `PageMaps.MapOutcomeOpen` | A5/xv6-public/vm.c:61-80 | mappages keeps every present directory entry user-writable, however it ends |
| `PageMaps.GrownMmu` | A5/xv6-public/vm.c:222-249 | through directory entry and table entry together, every page that allocuvm adds can be written and used by the user and holds zeros, and every other address means what it meant |
| `PageMaps.CopiedMmu` | A5/xv6-public/vm.c:316-345 | through both entries, every address below the size means a page with the parent's rights and contents, in another frame |
| `PageMaps.KspaceMmu` | A5/xv6-public/vm.c:105-136 | through both entries, a new space maps RAM at KERNBASE and the devices for the kernel alone, read-only from EXTMEM to the kernel's data, and nothing else |
| `PageTablesCode.Kernel.Mappages` | A5/xv6-public/vm.c:61-80 | mappages is an update of the flat map on the range; it stops exactly at a mapped page or when a table is missing and no frame is free, takes one frame per missing table, and keeps directory entries user-writable |
| `PageTablesCode.Kernel.Deallocuvm` | A5/xv6-public/vm.c:256-279 | exactly the pages between the sizes are unmapped and their frames are free again; other pages keep entry and contents; kfree does not panic and frees nothing twice |
| `PageTablesCode.Kernel.Freevm` | A5/xv6-public/vm.c:284-298 | the free frames are those that were free plus every frame of the address space, tables and directory included |
| `PageTablesCode.Kernel.Allocuvm` | A5/xv6-public/vm.c:222-249 | it succeeds if and only if enough frames are free for the pages and the tables they need, and the new pages hold zeros and can be written and used by the user; otherwise the map is as before and every data frame is free again; directory entries stay user-writable |
| `PageTablesCode.Kernel.Setupkvm` | A5/xv6-public/vm.c:118-136 | a new space with exactly the kernel's mappings and rights, address by address, or 0 if and only if fewer than 65 frames are free, and then every frame taken is free again |
| `PageTablesCode.Kernel.Copyuvm` | A5/xv6-public/vm.c:316-345 | the child has equal flags, rights and contents on frames of its own and the parent is untouched; out of memory and panic happen exactly when frames run out or a page is missing first, and out of memory restores the free frames |
| `ShellGrammar.Lex` | A5/xv6-public/sh.c:260-301 | a token moves the cursor forward within the text, and a word token is a whole word |
| `ShellGrammar.Parse` | A5/xv6-public/sh.c:318-331 | parsing terminates, ends at the end of the text, and every token it returns is a whole word |
| `ShellRoundTrip.ParseExact` | A5/xv6-public/sh.c:318-425 | a text parses if and only if it writes a form of the command language, words, redirections, parentheses, pipes, background marks and lists, with any blanks between the tokens, and then it parses to what that form means |
| `ShellRoundTrip.FormReads` | A5/xv6-public/sh.c:333-425 | a form written anywhere in a text, followed by what may follow it, is parsed to what it means, at its level of the grammar |
| `ShellRoundTrip.RestReads` | A5/xv6-public/sh.c:396-425 | words and redirections of a simple command, in any order, are read one by one |
| `ShellRoundTrip.AppendRedirects` | A5/xv6-public/sh.c:374-376 | words, then ">>" and a word, with any blanks between, parse to a redirection of descriptor 1 to that word, opened with mode 0x201, around a simple command of those words |
| `ShellRoundTrip.ParseSpread` | A5/xv6-public/sh.c:318-425 | any form, written out with blanks between its tokens, parses to what it means |
| `ShellRoundTrip.ParseRendered` | A5/xv6-public/sh.c:318-425 | parsing the written form of any command tree with proper words and at most 9 arguments gives the tree back |
| `ShellRoundTrip.ParseStable` | A5/xv6-public/sh.c:318-425 | whatever text parses, the written form of what it means parses to the same |
| `ShellParser.EndsOutside` | A5/xv6-public/sh.c:428-470 | no word of a parsed command ends inside any word |
| `ShellParser.CutTerminates` | A5/xv6-public/sh.c:428-470 | so writing a NUL at each end makes every word a C string with the word's text |
| `ShellParser.Parser.GetToken` | A5/xv6-public/sh.c:260-301 | gettoken over the shared cursor computes the token function |
| `ShellParser.Parser.Peek` | A5/xv6-public/sh.c:303-311 | peek skips white space and tests the next character |
| `ShellParser.Parser.ParseRedirs` | A5/xv6-public/sh.c:359-380 | parseredirs computes the grammar's redirections; before each file name stands "<", and it is opened with mode 0 as descriptor 0, or ">" or ">>", and it is opened with mode 0x201 as descriptor 1 |
| `ShellParser.Parser.ParseExec` | A5/xv6-public/sh.c:396-425 | parseexec computes the grammar's simple commands, panics included |
| `ShellParser.Parser.ParseBlock` | A5/xv6-public/sh.c:382-394 | parseblock computes the grammar's blocks, panics included |
| `ShellParser.Parser.ParsePipe` | A5/xv6-public/sh.c:348-357 | parsepipe computes the grammar's pipelines |
| `ShellParser.Parser.ParseLine` | A5/xv6-public/sh.c:333-346 | parseline computes the grammar's lines |
| `ShellParser.Parser.NulTerminate` | A5/xv6-public/sh.c:428-470 | a NUL is written where each word ends and nowhere else |
| `ShellParser.Parser.ParseCmd` | A5/xv6-public/sh.c:318-331 | on success every word of the command is a C string in the buffer; on failure the buffer is unchanged |
| `Mlfq.QueuesStaySmall` | A5/xv6-public/proc.c:902-918 | processes with one place each keep every queue within NPROC, far below its ring |
| `Mlfq.DeletedKeeps` | A5/xv6-public/proc.c:920-933 | deleting a position removes that process alone and keeps one place for each |
| `Mlfq.PromotedKeeps` | A5/xv6-public/proc.c:946-969 | incPrio moves one process one queue up and every other process stays in its queue |
| `MlfqRuns.PushKeeps` | A5/xv6-public/proc.c:902-918 | pushBack, which looks for the pid in one queue only, leaves the process in exactly that queue and everything else in place, provided it is in no other |
| `MlfqRuns.PushesAreClear` | A5/xv6-public/proc.c:73-87 | at every call of pushBack, from allocproc, the scheduler, decPrio and wakeup1, the process is in no other queue and no queued process has its pid, although nothing checks it |
| `MlfqRuns.SwitchOutLands` | A5/xv6-public/proc.c:611-622 | the same of the step in the runs, which changes nothing else of any process |
| `MlfqRuns.AgingLands` | A5/xv6-public/proc.c:842-872 | an aging step moves up by one queue exactly the live runnable processes that have waited 84, 83, 82, 81 or 80 ticks in queue 0, 1, 2, 3 or 4, and changes nothing else of any process |
| `MlfqRuns.EnterLands` | A5/xv6-public/proc.c:73-87 | a new process goes to the end of queue 0 unless it is in there already |
| `MlfqRuns.WakeLands` | A5/xv6-public/proc.c:742-752 | a woken process goes to the end of its own queue unless it is in there already |
| `MlfqRuns.KillAndReapLand` | A5/xv6-public/proc.c:765-781 | kill makes a sleeper runnable and puts it in no queue, and a collected process is in none |
| `MlfqRuns.StepKeepsInv` | A5/xv6-public/proc.c:73-996 | every step of fork (failing or not), the scheduler, sleep, wakeup, kill, exit, wait and aging keeps: a queued process is in the queue it records and nowhere else, running processes and zombies are in none, free and half-built slots only in the highest, pids differ |
| `MlfqRuns.RunKeepsPlaces` | A5/xv6-public/proc.c:873-996 | in every run from boot each process has at most one place, in the queue it records, running processes and zombies have none, queued processes have different pids, and no ring comes near being full |
| `MlfqRuns.AgingNeedsPlaces` | A5/xv6-public/proc.c:842-872 | an aging call is a series of proper promotions if and only if every process that is due is in a queue; then exactly the due ones move up one queue |
| `MlfqRuns.StepPlaced` | A5/xv6-public/proc.c:473-661 | while every live runnable process is in a queue, a step keeps that so if and only if it is not one of two: a process made runnable after the scheduler has popped it half built, or a process that gives up the CPU after no tick or after more ticks than its slice |
| `MlfqRuns.RunnableIsQueued` | A5/xv6-public/proc.c:473-661 | so in a run from boot every live runnable process is in a queue all the time if and only if neither of the two happens |
| `MlfqRuns.PlacedAging` | A5/xv6-public/proc.c:842-872 | and while it holds aging goes right |
| `MlfqRuns.RunnableWithoutPlace` | A5/xv6-public/proc.c:503-506 | the first of the two happens: the scheduler pops a half-built child between allocproc and the end of fork, which leaves it live, runnable and in no queue |
| `MlfqRuns.YieldWithoutPlace` | A5/xv6-public/proc.c:613-622 | and so does the second: a process preempted in its first tick goes to no queue, because its ticks are neither above 0 nor its slice |
| `MlfqRuns.AgingGoesWrong` | A5/xv6-public/proc.c:842-872 | 82 ticks after the first of them the next aging call would promote a process from a place it does not have |
| `MlfqRuns.AgingLadder` | A5/xv6-public/proc.c:842-872 | in any run in which a waiting process is neither picked nor killed it keeps its place and its queue is min(start, max(0, 82 - ticks waited)): it climbs one queue per tick once its limit is reached and is in queue 0 after 82 ticks from wherever it started |
| `MlfqRuns.KilledNeverRuns` | A5/xv6-public/proc.c:412-414 | a process killed while it is not running never runs again, in any run, because the scheduler takes killed processes for dead; so it never exits |
| `MlfqCode.Scheduler.PopFront` | A5/xv6-public/proc.c:882-895 | popFront on the ring is removal of the first element; it panics if and only if the queue is empty |
| `MlfqCode.Scheduler.PushBack` | A5/xv6-public/proc.c:902-918 | pushBack on the ring appends to that queue and records the place, unless a process with that pid is in the queue already |
| `MlfqCode.Scheduler.DeleteIdx` | A5/xv6-public/proc.c:920-933 | deleteIdx, around the wrap, removes the element and corrects the recorded place of every one behind it |
| `MlfqCode.Scheduler.IncPrio` | A5/xv6-public/proc.c:946-969 | incPrio takes a queued process out of its queue and appends it to the next one up, or to queue 0 |
| `MlfqCode.Scheduler.DecPrio` | A5/xv6-public/proc.c:971-996 | decPrio appends the process to its own or the next lower queue and restarts its clock |
| `MlfqCode.Scheduler.InitProc` | A5/xv6-public/proc.c:73-87 | a new process is last in queue 0, or stays where it is in it, with its clock started |
| `MlfqCode.Scheduler.Wakeup` | A5/xv6-public/proc.c:742-752 | the body of wakeup1 puts a sleeper last in its own queue, or leaves it where it is in it, and makes it runnable |
| `MlfqCode.Scheduler.SwitchBack` | A5/xv6-public/proc.c:611-622 | after swtch a runnable process that ran exactly 1, 2, 4, 8 or 16 ticks in queue 0, 1, 2, 3 or 4 is last in queue 1, 2, 3, 4 or 4; one that sleeps, or was preempted after some of these ticks, is last in the queue it was in; any other is in none; all other queues and places are as they were |
| `MlfqCode.Scheduler.FillEmpty` | A5/xv6-public/proc.c:484-497 | the scheduler leaves every queue that is not empty alone, and into one that is empty it pushes the first runnable process, in table order, that records it |
| `MlfqCode.Scheduler.PickNext` | A5/xv6-public/proc.c:499-517 | the scheduler comes to the first process, by queue and position, that is runnable and not killed; what it pops before it is dead |
| `MlfqCode.Scheduler.Schedule` | A5/xv6-public/proc.c:483-587 | one turn of the scheduler is a run of those steps; what it picks is running from this tick on and in no queue |
| `MlfqCode.Scheduler.UpdateStatsAndAging` | A5/xv6-public/proc.c:842-872 | when every due process is in a queue the loop is the aging step: the processes that have waited 84, 83, 82, 81 or 80 ticks move up by one queue |
| `ProcLife.StepKeepsInv` | A5/xv6-public/proc.c:224-363 | every step of fork, exit, wait, sleep, wakeup, kill and scheduling keeps: parents are live, half-built children belong to one fork, a process asleep in wait has a child and no zombie child |
| `ProcLife.RunKeepsInv` | A5/xv6-public/proc.c:224-363 | in every interleaving no zombie has children, no parent pointer dangles, and a zombie's parent is live and not asleep waiting |
| `ProcLife.BootedInv` | A5/xv6-public/proc.c:143-175 | the table that userinit leaves satisfies the invariant |
| `ProcLife.ExitKeepsInv` | A5/xv6-public/proc.c:276-318 | exit wakes whom it must: its parent, and init when it inherits a zombie |
| `ProcLife.ForkExitWait` | A5/xv6-public/proc.c:180-363 | from any sound table, a fork into any free slot, the parent waiting, the child running and exiting, and the parent collecting it is a run, and it leaves every slot as it was but for processes that slept on the parent |
| `ProcLifeCode.ProcTable.AllocProc` | A5/xv6-public/proc.c:93-110 | allocproc takes the first free slot and fails if and only if there is none |
| `ProcLifeCode.ProcTable.Wakeup1` | A5/xv6-public/proc.c:739-753 | wakeup1 makes exactly the sleepers on the channel runnable |
| `ProcLifeCode.ProcTable.Exit` | A5/xv6-public/proc.c:298-317 | the loops of exit compute the exit step: children are init's, the process is a zombie, and runnable are those who slept on its parent, and on init if a child is a zombie |
| `ProcLifeCode.ProcTable.Wait` | A5/xv6-public/proc.c:322-363 | one turn of wait collects the first zombie child if there is one, fails without children or when killed, and sleeps on itself otherwise |
| `ProcLifeCode.ProcTable.Kill` | A5/xv6-public/proc.c:765-781 | kill marks the process and makes it runnable if it sleeps, and touches no other |
| `Regex.StartsStar` | A5/xv6-public/grep.c:99-106 | a starred character is any number of fitting characters and then the rest |
| `Regex.MatchHere` | A5/xv6-public/grep.c:85-96 | matchhere is true if and only if some string of the pattern's language starts the text, and ends it under $ |
| `Regex.MatchStar` | A5/xv6-public/grep.c:99-106 | the backtracking loop finds a match if and only if there is one |
| `Regex.Match` | A5/xv6-public/grep.c:73-82 | match is true if and only if some substring, tied to the ends as the pattern says, is in the pattern's language |
| `Pipe.StepKeepsInv` | A5/xv6-public/pipe.c:59-121 | every section of a read or write and every close keeps the pipe's invariant: a sleeping reader faces an empty pipe whose writing end is open, a sleeping writer a full one whose reading end is open |
| `Pipe.RunKeepsInv` | A5/xv6-public/pipe.c:59-121 | in every run without kills what was read is a prefix of what was written with at most 512 bytes in between, a sleeping reader has nothing to read and a writer may still come, a sleeping writer has no room and a reader may still come, so they never both sleep and closing an end strands nobody |
| `Pipe.KilledWriterIsNotHeard` | A5/xv6-public/pipe.c:85-89 | a killed writer breaks that if and only if a reader is asleep |
| `Pipe.KilledWriterExample` | A5/xv6-public/pipe.c:85-89 | it happens, in a run from a new pipe: a reader sleeps, 513 bytes are written and the writer is killed |
| `PipeCode.Ring.Write` | A5/xv6-public/pipe.c:79-98 | pipewrite between lock and sleep appends as many bytes as fit, across the wrap of the 32-bit counters; it sleeps or fails only with 512 bytes in the pipe, and fails if and only if the reading end is closed |
| `PipeCode.Ring.Read` | A5/xv6-public/pipe.c:101-121 | piperead takes the oldest bytes, all or as many as asked for, and sleeps if and only if the pipe is empty and the writer open |
| `PipeCode.Ring.Close` | A5/xv6-public/pipe.c:60-75 | closing the second end frees the pipe |
| `Cabs.CabIsFound` | A4/q3/rider.c:52-95 | with the counter positive there is a cab to take, so both assert(0) lines are unreachable |
| `Cabs.TurnedAwayWithCabFree` | A4/q3/rider.c:102-110 | the converse fails: a rider of either type is turned away with a cab to take if and only if waiting cabs equal full pool cabs and one is waiting or the rider could share |
| `Cabs.TurnedAwayExample` | A4/q3/rider.c:102-110 | it happens, in a run from the start, with two cabs and three riders: one cab waits |
| `Cabs.NotSharedExample` | A4/q3/rider.c:102-110 | and with one cab and two pool riders: a seat is free |
| `Cabs.StepKeepsInv` | A4/q3/rider.c:97-133 | booking, giving up and ending a ride keep the counter and cab states consistent |
| `Cabs.RunKeepsInv` | A4/q3/cab.c:39-71 | in every interleaving the counter is cabs minus riders on board and not negative, cab states agree with the recorded riders, and each rider is in at most one cab |
| `CabsCode.Dispatcher.FindCab` | A4/q3/rider.c:52-95 | findCab gives a pool rider the first half-full pool cab, which is full then, or else the first waiting cab, which is half full then, and a premier rider the first waiting cab |
| `CabsCode.Dispatcher.BookCab` | A4/q3/rider.c:97-133 | a rider gets that cab if and only if the counter is positive, and otherwise waits for a pool (0) or premier (1) cab |
| `CabsCode.UsefulIsChoice` | A4/q3/cab.c:22-37 | usefulCab is true of a rider and a cab if and only if findCab would take that cab from a table of it alone |
| `CabsCode.Dispatcher.NextWaiting` | A4/q3/cab.c:58-61 | endRide's search ends at the first rider around the table who waits for either type while the cab waits, or for a pool ride while the cab is half full, and at the rider himself if and only if there is none |
| `CabsCode.Dispatcher.EndRide` | A4/q3/cab.c:39-71 | the rider leaves the cab, the counter goes up and is positive, endRide's first assert cannot fail, and the rider signalled is the first around the table for whom findCab would take that very cab; nobody is signalled if and only if there is none |

## Left out

- Hardware, boot, trap and context-switch code, and the internals of spin locks and sleep locks: steps are atomic instead.
- Waiting for a sleep lock: a buffer or inode is taken to be unlocked when it is asked for.
- RedoLogCode.Log.ReadHead: needs a header whose count and block numbers are in range, which mkfs and write_head provide.
- HeapCode.Allocator.Malloc: promises nothing about calls after one that asked sbrk for too little, and takes the heap to lie above the static base header.
- Device files in readi and writei: the call into the device table is a result of its own, and what the device does is not modelled.
- FileSystemCode.FileStore.Writei: files have no holes, every block below the size being allocated, which writei and itrunc keep; mkfs leaves one in a root directory that exactly fills its blocks.
- PathsCode.Inodes.DirLink: running out of disk blocks when a directory grows is not modelled.
- Directory entries in disk blocks, ialloc, and the device numbers and link count of an inode on disk: directories are values.
- PathsCode.Inodes.Namex: one device, inodes are read from disk where the C code uses the cached copy that it keeps equal, and no other process changes an inode between two of its steps; an unlink in between is not modelled.
- Paths.LinkedTrip: that the linked part of a tree is sound is kept by linking, unlinking and freeing but not proved of every run; mkdir in a removed directory would give that directory a link again while its parent entry may lead nowhere.
- FileSystemCode.FileStore.FileWrite: pipes, and the device table behind writei, are not part of it.
- CrashFiles.CallIsAllOrNothing: between begin_op and the crash there is one call; with several at once FilesSurvive says less.
- HeapCode.Allocator.Morecore: when sbrk is asked to take away exactly as many bytes as the process has, it unmaps them and then fails; the answer None stands for a failure that changes nothing.
- PageTablesCode.Kernel.Deallocuvm: sizes up to KERNBASE, as in every call; beyond it the code would free kernel pages.
- PageTablesCode.Kernel.Allocuvm: the pages from the old size up are not mapped yet, as in every call; a mapped one would be the panic "remap".
- inituvm, loaduvm, clearpteu and copyout: easy consequences of the flat map.
- PageTablesCode.Kernel.Copyuvm: says nothing about memory after its panic, and the position of the kernel's data section is a parameter.
- ShellParser.Parser.ParseExec: an exec node whose arguments are filled in after redirections were wrapped around it is built when the arguments are complete; the nodes are values, not shared memory. Running commands is not modelled.
- MlfqCode.Scheduler.PushBack: the process is in no other queue, which is proved of every caller.
- MlfqCode.Scheduler.IncPrio: the process is in a queue; for one that is not, the C code deletes whatever is at its old place.
- MlfqCode.Scheduler.UpdateStatsAndAging: every due process is in a queue, the exact condition of AgingNeedsPlaces; the running-time statistics are not modelled.
- MlfqRuns.RunKeepsPlaces: pids do not wrap, allocproc's pushBack, which runs without the lock, is one step, and which sleepers a wakeup reaches is left open.
- Pipe.RunKeepsInv: an end of the pipe is closed only when no call on it is in progress, which file reference counts ensure.
- ProcLifeCode.ProcTable.Kill: starts where kill has found the process by its pid.
- ProcLife.RunKeepsInv: memory, files and pids of processes are left out, and so is the scheduler's choice.
- The other schedulers (FCFS, PBS), waitx and getpinfo: they add only easy members.
- Payment servers and liveness of waiting riders: a signal is sent to at most one rider, and not every waiting rider is signalled.
- The shells and exercises of the other assignments, user utilities and console output.
