# A verified model of xv6 with swapping and copy-on-write

This project models the parts of the kernel, its file system and its user programs in which the hard
promises of the system lie, and proves them for all inputs, all runs or all interleavings. Where the source
updates structures in place, so does the model: classes with the source's fields and loops, each method
proved against a specification on values. `dafny verify dfyconfig.toml` checks everything.

- **Redo log** (`RedoLog`, `GroupCommit`, `ShortLog`, `LogCode`). A commit or a recovery is a sequence of single block
  writes. Wherever it is cut, and however often recovery is cut again, the disk ends with none or all of the
  transaction. All interleavings of operations refine an object whose operations are atomic, and `LogCode`
  does exactly the block writes that these theorems are about.
- **Buffer cache** (`BufferRing`, `Buffers`, `BufferCache`) and **the log on top of it** (`LogRegion`, `CommitSteps`,
  `CachedLog`, `CommitRuns`, `CachedRecovery`). One buffer for each block, with the process that holds its lock.
  Operations change and log buffers, and a commit or a recovery reads, copies and writes buffers: its disks are
  exactly those of `RedoLog`, so no home block changes before the header is written, and none ever that is not
  logged. The steps (bread, waiting for a lock, a change, log_write, a copy, bwrite and the two halves of brelse)
  are one critical section or one action on a held buffer each, so what each keeps holds in every interleaving;
  a turn of a loop of commit is those steps in a row, when nobody has locked the two blocks that it needs.
- **Page replacement** (`PageLinks`, `PagePolicy`, `Ageing`, `VmPolicy`). SCFIFO, AQ and NFUA on the doubly linked
  list of resident pages, against specifications on sequences, and page faults under each of them.
- **Virtual memory** (`Frames`, `SwapMeta`, and `VmCore` to `VmRun`). Page tables, reference counts, the free list,
  resident lists and swap files of all processes, which together are one private flat memory and one queue of
  resident pages for each process, over any run and under any replacement policy.
- **Files** (`Bitmap` to `FileWrite`). The bitmap marks exactly the owned blocks, inodes refine sequences of
  bytes, every chunk of a write fits its log reservation, and every block that a transaction changes is logged.
- **Files on the log** (`DiskState`, `FileCrash`, `GroupCrash`, `GroupFiles`). A write to a file that is cut anywhere
  leaves, after recovery, a sound volume in which the file has a whole number of chunks of the write; and so for many
  writers, any number of whose chunks share a commit, over every run of begin_op, chunks, end_op, commits and crashes.
- **Heap** (`FreeRing`, `Heap`). The address-ordered free ring of section 8.7 of The C Programming Language,
  second edition.
- **Pipes** (`PipeRing`, `PipeProtocol`, `PipeBytes`). A ring buffer across counter wraparound, sleep and wakeup
  without a lost wakeup or a deadlock, and one queue of bytes over every run: what each write call stores and
  what each read call gets.
- **Shell parser and grep** (`ShellParser`, `ShellCode`, `ShellGrammar`, `ShellMeaning`, `ShellRoundTrip`, `Grep`). A line
  parses to a tree if and only if a grammar that does not mention the parser says so, a round trip between trees
  and lines, and the meaning of patterns.

`Common` and `DiskBlocks` hold constants and notions that several of these share.

## Where the source falls short

The model follows the code. These promises do not hold of it without a condition; each has its exact
condition proved, and where a failing run is not obvious, one is given.

- A write fault that finds no frame for a copy still takes a reference away from the shared frame
  (trap.c:134-144). The counts stay exact if and only if the frame has one owner or a frame is free
  (`VmCow.FaultInv`, `VmMachine.Machine.WriteFault`); `VmGrow.LastFrame` is such
  a state, and `VmCow.KilledSharerFreesFrame` shows what follows.
- A growth by several pages that stops after its first page returns an error and leaves a broken state
  (vm.c:258-291, proc.c:166-181). At the limit of 32 pages it leaves the pages mapped beyond the size of the
  process, and a later fork breaks (`VmGrow.OverrunForkBreaks`); without a frame it gives them up through
  deletePage, which leaves a record that is not used in the list (`VmMachine.Machine.Unwind`). Which of the three ways it
  ends is decided by the state before: `VmBudget.Fits` counts one frame for each page that there is room for and
  one for each shared page that has to go out (`VmMachine.Machine.GrowProc`). If no resident page is shared, all is
  well if and only if all pages are within 32 and there are min(n, 16 - resident) free frames, or not even one
  page can be had. `VmRun.GrowTooFar` and `VmRun.GrowStarved` are such runs.
- A killed writer returns from a full pipe without waking readers (pipe.c:86-88). The wakeup invariant is
  kept by every other step and broken by exactly this one (`PipeProtocol.StepKeepsInv`);
  `PipeProtocol.KilledWriterStrandsReader` is such a run.
- `addPageToList` into an empty list makes the page its own predecessor (vm.c:631-642). The list is well
  formed afterwards if and only if it was not empty (`PagePolicy.PageList.AddPageToList`); a process that
  swaps has at least 15 resident pages (`SwapMeta.VictimLeft`).
- `log_write` can panic although reservations are respected (log.c:218-219): exactly if the log on the disk is used
  up, or if LOGSIZE blocks are logged and the block is one of them (`GroupCommit.WritePanicsWhen`). mkfs makes a log
  of 29 usable slots, on which only the first can happen (`ShortLog.ShortLogPanics`); the second needs a log of at
  least LOGSIZE slots, and happens there although the write needs no room (`ShortLog.AbsorbedWritePanics`).
- A commit of 30 blocks finds no buffer for its log blocks, because all of them are dirty (bio.c:78-92). With no
  other user of buffers it panics if and only if NBUF blocks are logged, and before any write
  (`CachedLog.Log.Commit`; `CommitRuns.CommitBlocks` is such a run). That needs a log of at least NBUF slots; on the
  log that mkfs makes it cannot happen.
- SCFIFO on a list of one page that was accessed leaves a list that is not well formed
  (`PagePolicy.PageList.ChooseScfifo`); a process that swaps has at least 15 resident pages.
- A request to `malloc` that wraps when it is rounded up gets a block that is too small
  (`Heap.RequestHeld` says exactly when). One whose argument of sbrk is not positive as an int
  (`Heap.SbrkRange` says which) kills the process in morecore if its size is at the end of a page, where exec leaves
  it, or if it gives up the page there (`Heap.KillsWhen`, `Heap.HugeRequestKills`); otherwise it gets memory that the
  process does not have (`Heap.HugeRequestBreaks`). `Heap.Allocator.Malloc` has the exact conditions.
- A growth that moved a page out and then finds no frame leaves one place in memory unused, so a process with
  pages on the disk has 15 or 16 pages in memory between operations (`SwapMeta.AtRest`).

## Model

| member | source | states |
|---|---|---|
| RedoLog.Replay | log.c:69-82 | copying log block i to home block i, in order, leaves every listed block present |
| RedoLog.WithHead | log.c:101-113 | the header that write_head makes lists exactly the logged blocks and leaves the length of its array |
| RedoLog.Sealed | log.c:101-113 | at the commit point the header is one that recovery accepts and lists the transaction, and no home block has changed |
| RedoLog.CommitTrace | log.c:192-202 | a commit of n blocks is 2n + 2 block writes, and none when n is 0 |
| RedoLog.RecoverTrace | log.c:115-122 | recovery of n logged blocks is n + 1 block writes |
| RedoLog.ReplayForgets | log.c:69-82 | what replaying leaves in a block depends on the old disk only where nothing was replayed |
| RedoLog.ReplayElsewhere | log.c:69-82 | replaying changes no block that is not listed |
| RedoLog.ReplayResumed | log.c:69-82 | replaying any prefix of the log and then all of it is replaying all of it |
| RedoLog.ReplayGives | log.c:69-82 | a listed block ends with the contents that were logged for it |
| RedoLog.ReplayIsUpdate | log.c:69-82 | replaying a log that holds the cached contents is updating every listed block at once |
| RedoLog.RecoveryCut | log.c:115-122 | wherever recovery is cut, a later recovery still reaches the same home blocks |
| RedoLog.CutRecoveries | log.c:115-122 | the disk stays recoverable through any number of recoveries that are cut anywhere |
| RedoLog.BootReaches | log.c:115-122 | a full boot after any number of cut boots reaches the same home blocks and an empty log |
| RedoLog.CommitTraceAt | log.c:177-202 | the writes of a commit are those of write_log, the header, and then those of a recovery |
| RedoLog.CommitCut | log.c:177-202 | a commit that is cut recovers to the old blocks before the header write and to all new ones after it |
| RedoLog.LoggedNext | log.c:177-190 | one turn of write_log puts one more new block into the log |
| RedoLog.CommitLeaves | log.c:192-202 | a whole commit leaves an empty log and every listed block updated |
| RedoLog.CommitKeys | log.c:177-202 | a commit adds and removes no home block |
| RedoLog.CommitHome | log.c:177-202 | cut a commit anywhere: a block that is not logged has not changed, no home block has changed before the header is written, a logged block has its old or its new contents, and in the end its new ones |
| RedoLog.CrashAtomicity | log.c:69-202 | cut the commit after any number of writes and recovery any number of times anywhere: the home blocks end as the old disk or as the old disk with the whole transaction, never as a mixture |
| GroupCommit.Append | log.c:213-233 | log_write lists a block once: distinctness is kept, and exactly that block is added |
| GroupCommit.SetLeft | log.c:125-174 | opening, using and closing a reservation changes the totals by exactly that reservation |
| GroupCommit.ReservedBound | log.c:125-141 | open operations together may add at most MAXOPBLOCKS blocks each |
| GroupCommit.BeginStep | log.c:125-141 | an admitted operation finds room for its whole reservation |
| GroupCommit.WriteStep | log.c:213-233 | a write within the reservation that does not panic keeps the invariant and changes what is visible, not what is durable |
| GroupCommit.EndStep | log.c:145-174 | end_op never finds a commit running, so its panic is not reached; the invariant is kept |
| GroupCommit.CommitStep | log.c:192-202 | a commit makes exactly what is visible durable |
| GroupCommit.CrashLeaves | log.c:69-202 | a crash at any write keeps either the durable or the visible contents, never a mixture |
| GroupCommit.CrashStep | log.c:53-66 | after a crash and recovery the invariant holds again with nothing open |
| GroupCommit.StepRefines | log.c:125-233 | every begin, write, end, commit and crash keeps the invariant and is a step of an object with atomic operations |
| GroupCommit.ReachableInv | log.c:125-233 | in every interleaving logged blocks plus unused reservations fit LOGSIZE, numbers are distinct, and a commit runs only while nothing is open |
| GroupCommit.DurableIsQuiescent | log.c:125-233 | what survives a crash at any moment of any run is exactly what was visible at a moment when no operation was open |
| GroupCommit.WritePanicsWhen | log.c:213-219 | a write of any reachable state within its reservation panics if and only if the log on the disk is used up, or LOGSIZE blocks are logged and the block is one of them |
| ShortLog.FillStep | log.c:213-233 | while the log has slots, each of the writes by which three operations log ten blocks each is a step within its reservation |
| ShortLog.FillRun | log.c:125-233 | those writes are a run from a fresh disk |
| ShortLog.ShortLogPanics | log.c:213-219 | a concrete run on the log that mkfs makes (mkfs.c:25): every write is within its reservation, and the next one that is allowed panics |
| ShortLog.AnyNumberShareCommit | log.c:125-175 | for every n a run in which n + 1 operations end and then the first commit makes all of them durable |
| ShortLog.LastingRound | log.c:125-175 | while one operation is open, a whole operation of another process leaves the log as it was |
| ShortLog.AbsorbedWritePanics | log.c:213-219 | a concrete run on any log of at least LOGSIZE slots: with LOGSIZE blocks logged, writing one of them again, which needs no room, panics |
| LogCode.CommitAssembled | log.c:192-202 | the writes of write_log, write_head, install_trans and write_head joined are those of a commit |
| LogCode.Log.constructor | log.c:38-48 | before initlog nothing is outstanding and nothing is logged |
| LogCode.InitLog | log.c:53-66 | a boot passes through exactly the writes of recovery and leaves an empty log and the recovered home blocks |
| LogCode.Log.WriteLog | log.c:177-190 | the loop writes one log block for each listed block, in order |
| LogCode.Log.WriteHead | log.c:101-113 | one block write puts the count and the listed numbers on the disk |
| LogCode.Log.ReadHead | log.c:85-96 | the list in memory becomes the list on the disk |
| LogCode.Log.InstallTrans | log.c:69-82 | the loop passes through exactly the states of an installation, and the installed buffers are clean |
| LogCode.Log.Commit | log.c:192-202 | commit passes through exactly the states that CrashAtomicity is about, and leaves all logged blocks updated and the log empty |
| LogCode.Log.RecoverFromLog | log.c:115-122 | recovery passes through exactly the states that RecoveryCut is about and reaches the recovered blocks |
| LogCode.Log.BeginOp | log.c:125-141 | admitted if and only if nothing commits and all reservations fit; otherwise nothing changes |
| LogCode.Log.EndOp | log.c:145-163 | panics if and only if a commit runs; the last operation, and only it, must commit |
| LogCode.Log.LogWrite | log.c:213-233 | panics exactly when the log is full or nothing is open; else the block is listed once with its new contents |
| BufferRing.Unlink | bio.c:132-133 | unlinking a buffer leaves a well-formed ring of the others, in order |
| BufferRing.PushFront | bio.c:134-137 | linking a buffer in behind the head makes it the first of a well-formed ring |
| Buffers.ContentsOf | bio.c:61-106 | a valid buffer is what its block contains |
| Buffers.RecycleKeepsContents | bio.c:78-92 | giving a clean unreferenced buffer to another block changes what no block contains |
| Buffers.FillKeepsContents | bio.c:96-106 | reading a block into its buffer changes what no block contains |
| Buffers.SettledContents | bio.c:96-116 | a block without a dirty buffer, and whose buffer nobody is changing, contains what is on the disk |
| Buffers.OthersKeepContents | bio.c:109-116 | changing the buffer and the disk copy of one block leaves what the others contain |
| BufferCache.Cache.constructor | bio.c:38-56 | all buffers are empty and in the ring |
| BufferCache.Cache.FindCached | bio.c:68-76 | the first loop finds the block's buffer if and only if there is one |
| BufferCache.Cache.FindUnused | bio.c:78-91 | the second loop finds the least recently used buffer that is neither referenced nor dirty, if there is one |
| BufferCache.Cache.Bget | bio.c:61-93 | panics exactly when the block has no buffer and all are in use; else the block's only buffer gets a reference, and no block's contents change |
| BufferCache.Cache.Lock | sleeplock.c:23-32 | a process with a reference takes the free lock of a buffer; no block's contents change |
| BufferCache.Cache.Fill | bio.c:100-104 | the disk read gives the buffer its block's contents |
| BufferCache.Cache.Bread | bio.c:96-106 | panics exactly when the block has no buffer and all are in use; waits, with a reference, exactly for a buffer that is locked; else the locked buffer has the block's contents, from the cache or from the disk |
| BufferCache.Cache.Modify | log.c:204-212 | a change by the process that holds the lock changes the contents of its block only |
| BufferCache.Cache.Pin | log.c:231 | the buffer is dirty, so it is not recycled; no block's contents change |
| BufferCache.Cache.Bwrite | bio.c:109-116 | panics exactly if the caller does not hold the lock; the only change of the disk: the block becomes what its buffer holds, and what blocks contain does not change |
| BufferCache.Cache.Release | bio.c:120-127 | the first half of brelse: panics exactly if the caller does not hold the lock; else the lock is free and no block's contents change |
| BufferCache.Cache.Unref | bio.c:128-140 | the second half: one reference less, and the last one moves the buffer to the front and keeps the order of the others |
| BufferCache.Cache.Brelse | bio.c:120-141 | panics exactly if the caller does not hold the lock; the last reference moves the buffer to the front, no block's contents change |
| BufferCache.Cache.MoveToFront | bio.c:132-137 | six pointer assignments move a buffer to the front of the ring and keep the order of the others |
| LogRegion.HomeAt | log.c:53-66 | the home blocks are the blocks of the root device outside the log |
| LogRegion.LogWritten | log.c:177-190 | writing a block of the log region changes that log block of the abstract disk and nothing else of it |
| LogRegion.HeadWritten | log.c:101-113 | writing the header block changes the header and nothing else |
| LogRegion.HomeWritten | log.c:69-82 | writing a home block changes that home block and nothing else |
| LogRegion.BufferStep | log.c:125-233 | a change of one buffer that keeps what blocks contain keeps the invariant of log, buffers and disk |
| CommitSteps.LogStep | log.c:213-233 | log_write keeps it: the buffer becomes dirty and its block is listed |
| CommitSteps.OpsStep | log.c:125-163 | operations that begin, or that end with everything logged, keep it |
| CommitSteps.CommitBegins | log.c:145-163 | when the last operation ends, the commit starts from the disk as it is and the contents of the logged blocks |
| CommitSteps.TraceStep | log.c:177-202 | each block write brings the disk to the next one of CommitTrace |
| CommitSteps.WriteStep | log.c:177-202 | the write of a buffer that brings the disk there keeps the invariant |
| CommitSteps.NextLogged | log.c:177-190 | the next disk while the log is written |
| CommitSteps.NextHead | log.c:101-113 | the next disk at the commit point |
| CommitSteps.NextInstall | log.c:69-82 | the next disk while blocks are installed; the log block holds the new contents |
| CommitSteps.NextErase | log.c:192-202 | the next disk when the log is erased |
| CommitSteps.CommitEnds | log.c:164-173 | at the end nothing is dirty and operations may begin again |
| CachedLog.HeadWord | log.c:101-113 | each word of the header block is one field of the header |
| CachedLog.PutHead | log.c:101-113 | the loop makes the header block list exactly the logged blocks, in little-endian words |
| CachedLog.Log.constructor | log.c:38-48 | on a disk whose log is empty, with a cold cache, nothing is logged and the invariant holds; recovery before that is CachedRecovery.InitLog |
| CachedLog.Log.After | log.c:53-66 | the same with a cache that recovery has used |
| CachedLog.Log.Bread | bio.c:96-106 | by an operation, a reader or the commit: keeps the invariant; panics exactly without a buffer; else one buffer, and no other, gets a reference, and it is locked with the block's contents or, exactly if somebody holds it, waited for; buffers that others hold are left |
| CachedLog.Log.Acquire | bio.c:100-104 | a process that slept on a buffer's lock locks it and finds the block's contents; no other buffer changes |
| CachedLog.Log.Release | bio.c:120-127 | keeps the invariant |
| CachedLog.Log.Unref | bio.c:128-140 | keeps the invariant |
| CachedLog.Log.BeginOp | log.c:125-141 | admitted if and only if nothing commits and all reservations fit |
| CachedLog.Log.Modify | log.c:204-212 | only an open operation changes a buffer, only one that it holds, and only what that block contains changes |
| CachedLog.Log.LogWrite | log.c:213-233 | panics exactly when the header or the log is full or no operation is open, as during a commit; else the buffer is dirty and its block listed once |
| CachedLog.Log.EndOp | log.c:145-174 | never finds a commit running, so its panic is not reached; exactly the last operation begins the commit, of the contents at that moment |
| CachedLog.Log.DirtyBlocksAreLogged | log.c:213-233 | outside a commit the dirty buffers are exactly those of the logged blocks |
| CachedLog.Log.CrashAnytime | log.c:115-202 | the machine stops at any point of any interleaving on the cache and boots are cut any number of times: in the end the log is empty, and the home blocks are those on the disk if nobody commits, and otherwise those that the commit found or, once the header is written, those with everything that is logged |
| CachedLog.Log.HomeDuringCommit | log.c:192-202 | at every point of a commit, in any interleaving: a home block on the disk that is not logged, and every home block until the header is written, is as the commit found it; later a logged one is that or its new contents |
| CachedLog.Log.HeldPair | log.c:182-184 | whatever others do between its steps, a commit that holds the buffers of a log block and of a logged block finds the log block as on the disk and the new contents |
| CachedLog.Log.HeldHead | log.c:101-113 | the same for the header |
| CachedLog.Log.WriteOut | bio.c:109-116 | the only write to the disk, of the block that the commit writes next |
| CachedLog.Log.FetchPair | log.c:182-184 | the two reads of a turn: the log block as on the disk, and the home block with its new contents; only the first may find no buffer |
| CachedLog.Log.WriteLogTurn | log.c:177-190 | one turn of write_log is one write of the commit; it panics exactly if there is no buffer for the log block |
| CachedLog.Log.InstallTurn | log.c:69-82 | one turn of install_trans is one write of the commit, and the copy from the log changes nothing that the buffer holds |
| CachedLog.Log.WriteHead | log.c:101-113 | write_head is one write of the commit, with the logged blocks and again with none |
| CachedLog.Log.WriteLog | log.c:177-190 | when nobody has locked a block that it needs: no panic if a buffer is clean and nobody has it; when nobody else has a buffer at all, the loop panics if and only if NBUF blocks are logged, and then before any write |
| CachedLog.Log.InstallTrans | log.c:69-82 | the whole loop, when nobody has locked a block that it needs; no panic if a buffer is free |
| CachedLog.Log.Commit | log.c:192-202 | when nobody has locked a block that it needs: its block writes are exactly CommitTrace, every logged block ends on the disk with what it contained when the commit began, and no other home block changes; no panic if a buffer is free; when nobody else has a buffer it panics if and only if NBUF blocks are logged, before any write, and never on a log of fewer slots |
| CachedLog.Log.EndCommit | log.c:164-173 | the log is empty and operations may begin |
| CachedLog.PairFacts | log.c:182-184 | a logged block that is not installed has a dirty buffer with its new contents, and a log block has none |
| CachedLog.CountDirty | bio.c:78-91 | as many different dirty blocks as dirty buffers, so some buffer is clean if and only if there are fewer than buffers |
| CachedLog.BuffersLeft | bio.c:78-91 | before its first write a commit finds a clean buffer if and only if fewer blocks are logged than there are buffers |
| CachedLog.AllTaken | bio.c:78-91 | with all buffers dirty there is none for a log block |
| CachedLog.CommitFinished | log.c:192-202 | a commit that has made all its writes has gone through CommitTrace and left every home block as Commit says |
| CachedLog.StillHeld | sleeplock.c:23-32 | a buffer that a process holds is as it was, whatever another process did to the cache |
| CommitRuns.LogOne | log.c:204-233 | an operation reads, changes, logs and releases a block: it contains the new bytes, is logged, and nobody has a buffer afterwards |
| CommitRuns.CommitBlocks | log.c:125-202 | three operations on a fresh disk log n blocks and end: the commit panics if and only if n is NBUF, with nothing written, and otherwise all blocks are on the disk |
| CachedRecovery.CopyBlock | log.c:73-79 | one turn of install_trans in recovery: two reads, a copy, a write and two releases copy one block on the disk |
| CachedRecovery.ReadHead | log.c:85-96 | the header is what the header block on the disk says |
| CachedRecovery.InstallTrans | log.c:69-82 | the loop passes through exactly the disks of an installation |
| CachedRecovery.RecoverFromLog | log.c:115-122 | recovery through the buffer cache passes through exactly RecoverTrace and leaves an empty log and every home block recovered |
| CachedRecovery.InitLog | log.c:53-66 | a boot through the buffer cache: recovery, and then the log with that cache and its invariant |
| PageLinks.RemoveOk | vm.c:601-627 | the pointer updates leave a well-formed doubly linked list without that page |
| PageLinks.AppendOk | vm.c:635-642 | linking in behind the last page of a non-empty list gives a well-formed list with it at the end |
| PageLinks.SwapOk | vm.c:918-931 | the pointer exchange gives a well-formed list with the two neighbours exchanged |
| Ageing.ShiftIsNewSample | trap.c:38-50 | shifting right and setting the top bit turns the counter of a history into that of the history with the new sample |
| Ageing.LessDiffers | trap.c:38-50 | a smaller counter means a lexicographically smaller history |
| Ageing.DiffersLess | trap.c:38-50 | a lexicographically smaller history means a smaller counter |
| Ageing.CounterOrder | vm.c:806-820 | counters compare as the 32 newest access samples do, newest first |
| PagePolicy.TurnStep | vm.c:847-867 | one turn of the SCFIFO loop goes on, within two passes |
| PagePolicy.TurnEnds | vm.c:847-867 | where the loop ends is the second-chance page |
| PagePolicy.RotatedReorders | vm.c:847-867 | SCFIFO puts the resident pages in another order and no more |
| PagePolicy.AdvancedNear | vm.c:910-940 | AQ moves no page by more than one place |
| PagePolicy.SecondChanceIs | vm.c:847-867 | the pages passed over are not user pages or were accessed, the victim was accessed only if every user page was, and there is exactly one such page |
| PagePolicy.AdvancedExactly | vm.c:911-938 | an accessed page lets the page behind it pass if that was not accessed, and no other page moves |
| PagePolicy.AdvancedReorders | vm.c:910-940 | AQ puts the resident pages in another order and no more |
| PagePolicy.QueueStay | vm.c:915-936 | of two accessed neighbours the first stays and loses its bit |
| PagePolicy.QueueSwap | vm.c:915-936 | an accessed page and its successor that was not accessed change places |
| PagePolicy.QueueMove | vm.c:915-936 | a page that was not accessed is passed |
| PagePolicy.QueueEnds | vm.c:937-940 | at the end all pairs have changed places at once and all bits are clear |
| PagePolicy.PageList.constructor | proc.c:564-586 | an empty well-formed list with no samples |
| PagePolicy.PageList.RemovePageFromList | vm.c:601-627 | the list without that page, well formed |
| PagePolicy.PageList.Last | vm.c:636-639 | the walk ends at the last page |
| PagePolicy.PageList.AddPageToList | vm.c:630-643 | the page is at the end, and the list is well formed if and only if it was not empty |
| PagePolicy.PageList.AddPageToRam | vm.c:521-568 | a new page is at the end of the list and has no samples; the list is well formed if and only if it was not empty or the page had no predecessor left over |
| PagePolicy.PageList.ChooseScfifo | vm.c:847-867 | ends within two passes; the victim is the first user page with a clear bit, or the first user page if all were accessed; the list is rotated to it; only user pages that were passed lose their bit; the list is well formed afterwards if and only if it has more than one page or its page was not accessed |
| PagePolicy.PageList.PassOver | vm.c:847-867 | the first page goes to the end, and a user page loses its bit; the list is well formed afterwards if and only if it has another page |
| PagePolicy.PageList.Exchange | vm.c:918-931 | two neighbours change places in a well-formed list |
| PagePolicy.PageList.QueueTurn | vm.c:915-936 | one turn of the loop makes progress towards the simultaneous exchange |
| PagePolicy.PageList.SwitchQueueAQ | vm.c:910-940 | exactly the original pairs of an accessed page and a successor that was not change places, at once, and every bit of the list is cleared |
| PagePolicy.PageList.AgePage | trap.c:38-50 | one page gets one new sample and its bit is cleared |
| PagePolicy.PageList.UpdateCounters | trap.c:38-50 | every resident page gets exactly one new sample, no other page does, and the bits are cleared |
| PagePolicy.PageList.ChooseNfua | vm.c:806-820 | the first page, among the head and the user pages, whose samples are lexicographically least |
| Frames.AllocOk | kalloc.c:101-118 | taking the first free frame for a page keeps counts exact and the free list exactly the frames with count 0; nobody maps that frame |
| Frames.ShareOk | kalloc.c:121-131 | one more mapping and one more reference keep the counts exact |
| Frames.DropOk | kalloc.c:65-96 | one mapping and one reference less, and a free frame at 0, keep the counts exact; the count was not 0, so kfree does not panic |
| Frames.FlagsOk | vm.c:413-416 | changing the flags of an entry changes no count |
| Frames.OnlyMapper | kalloc.c:147-156 | a frame with count 1 is mapped by nobody else |
| Frames.SharePrivate | vm.c:713-718 | an entry for a frame that nobody maps may be writable |
| Frames.ShareCow | vm.c:417-421 | a read-only copy-on-write entry may be duplicated |
| Frames.ShareReadOnly | vm.c:413-416 | write-protecting an entry keeps writable frames private |
| Frames.ShareLast | trap.c:118-124 | the last owner of a frame may be allowed to write it |
| SwapMeta.SlotFits | vm.c:673-680 | the lowest free slot is never behind the end of the swap file |
| SwapMeta.OutOk | vm.c:646-670 | moving a page out keeps records, list, slots and counts in agreement, with distinct slots |
| SwapMeta.InOk | vm.c:706-736 | moving a page in keeps them in agreement, with one slot less in use |
| SwapMeta.AddedOk | vm.c:522-570 | a new page in an unused record keeps them in agreement |
| SwapMeta.ForgottenOk | vm.c:338-354 | giving up a record of a page in the swap file keeps them in agreement |
| SwapMeta.DeletedBreaks | vm.c:683-703 | deletePage leaves the record of its page in the list of resident pages, so list and records disagree |
| SwapMeta.CopiedOk | proc.c:588-624 | the metadata that a child gets, with its copied swap file, is in agreement |
| SwapMeta.SlotLeft | vm.c:658-660 | between operations one of the 17 slots is free, so the panic for a full swap file is not reached |
| SwapMeta.VictimLeft | vm.c:761-783 | a process with a page on the disk has at least 15 pages in memory, so there is a victim and the list does not become empty in between |
| SwapMeta.RecordLeft | vm.c:546-556 | a process with fewer than 32 pages has an unused record |
| VmCore.Resident | vm.c:573-579 | a page in the list of resident pages is mapped to a frame |
| VmCore.PageInFile | vm.c:706-736 | a page in the swap file is found through its only record |
| VmCore.OutInv | vm.c:573-599 | moving a page out keeps page tables, counts and metadata in agreement |
| VmCore.FreedFrame | kalloc.c:65-96 | a frame that is freed is mapped by nobody but the page that gives it up |
| VmCore.OutView | vm.c:573-599 | moving any resident page out, shared or not, changes what no process sees |
| VmSwap.OnDisk | vm.c:764-775 | a record of a page in the swap file has an entry that says so |
| VmSwap.InInv | vm.c:706-736 | moving a page in keeps page tables, counts and metadata in agreement |
| VmSwap.InView | vm.c:706-736 | moving a page in changes what no process sees |
| VmSwap.NewInv | vm.c:275-290 | a new page keeps page tables, counts and metadata in agreement |
| VmSwap.NewView | vm.c:275-290 | a new page is all zero, and no other page of any process changes |
| VmCow.ShareInv | vm.c:405-426 | sharing one page with a child keeps counts exact and writable frames private |
| VmCow.ShareView | vm.c:405-426 | sharing one page changes what no process sees |
| VmCow.DropInv | vm.c:311-325 | freeing one page of a process that goes keeps counts exact |
| VmCow.DropView | vm.c:311-325 | freeing one page of a process changes what no other process sees |
| VmCow.BornInv | proc.c:588-624 | with all pages shared and the metadata copied, page tables and metadata of the child agree |
| VmCow.BornView | proc.c:588-624 | each page of the child, in memory or in the swap file, holds what the parent's page holds |
| VmCow.GoneInv | proc.c:312-324 | a process whose pages are all freed may go |
| VmCow.GoneView | proc.c:312-324 | that changes what no other process sees |
| VmCow.FaultInv | trap.c:115-145 | a write fault keeps the invariant if and only if the frame has one owner or a frame is free |
| VmCow.CopyCounts | trap.c:125-145 | a copy for one of several owners keeps all counts exact |
| VmCow.FaultFrame | trap.c:115-145 | after a write fault with the memory it needs every entry still leads to the same page |
| VmCow.ShortCount | trap.c:134-144 | without a free frame the shared count ends too low |
| VmCow.FaultView | trap.c:115-145 | a write fault with the memory it needs changes what no process sees, and the page may be written |
| VmCow.StoreView | trap.c:115-145 | a store through a writable entry is seen by its process and by nobody else |
| VmCow.WritableCountsOne | kalloc.c:147-156 | a writable entry means a reference count of 1 |
| VmCow.KilledSharerFreesFrame | trap.c:134-144 | after a write fault without memory on a frame with two owners, freeing the killed process's page frees and junks the frame that the other process still maps |
| VmSteps.SwapGood | vm.c:761-783 | exchanging any resident page for one in the file changes what no process sees and leaves as many pages in memory and on the disk |
| VmSteps.OutNumbers | vm.c:573-599 | one page less in memory and one more on the disk, and no other process is touched |
| VmSteps.InNumbers | vm.c:706-736 | one page more in memory and one less on the disk, and no other process is touched |
| VmSteps.TouchGood | vm.c:786-873 | any reordering of the list by a policy changes what no process sees |
| VmSteps.TouchCalm | vm.c:786-873 | reordering the list, creating the swap file and setting the size change what no process sees |
| VmSteps.RoomCalm | vm.c:261-273 | a full process that gives up a page stays within 16 pages in memory and 16 on the disk |
| VmSteps.NewCalm | vm.c:275-290 | the next page of a process is all zero, within 16 pages in memory and 16 on the disk |
| VmSteps.FaultGood | trap.c:115-145 | a write fault with the memory it needs changes no process's memory |
| VmSteps.StoreGood | trap.c:115-145 | a store changes the page it goes to and no other page of any process |
| VmSteps.UnusedOk | proc.c:564-586 | the metadata of a new process is in agreement |
| VmSteps.SpawnGood | proc.c:75-123 | a new process changes no other's memory |
| VmFork.ForkTurn | vm.c:405-426 | one turn of copyuvm maps one more page of the child as the parent's, and other processes are untouched |
| VmFork.ForkEnd | proc.c:186-234 | after a whole fork the child has a copy of the parent's memory and nobody else sees a change |
| VmFork.ForkFails | vm.c:418-420 | where copyuvm fails, what was mapped of the child can be freed |
| VmFork.FreeTurn | vm.c:311-325 | one turn of deallocuvm frees one page and leaves other processes untouched |
| VmFork.FreeEnd | vm.c:361-379 | with all its pages freed a process is gone and the others see what they saw |
| VmFork.NoChild | vm.c:432-434 | a fork that failed has changed what nobody sees |
| VmWorld.FlatAt | vm.c:396-435 | what a page of a process holds is what its flat memory holds there |
| VmWorld.SwapFlat | vm.c:761-783 | a swap leaves the flat memory of every process |
| VmWorld.FaultFlat | trap.c:115-145 | a write fault leaves all flat memories, and the state is sound afterwards if and only if there was memory for it |
| VmWorld.StoredFlat | trap.c:115-145 | a store changes one page of one flat memory |
| VmWorld.BornFlat | proc.c:186-234 | fork makes the child's flat memory equal to the parent's and leaves the others |
| VmWorld.NoChildFlat | vm.c:432-434 | a failed fork leaves all flat memories |
| VmWorld.GoneFlat | proc.c:312-324 | exit removes one flat memory and leaves the others |
| VmUnwind.StaleBreaks | vm.c:683-703 | a record that is not used in the list of resident pages breaks the invariant |
| VmUnwind.ForgetTorn | vm.c:338-354 | giving up a page in the swap file keeps everything but the list and the counters |
| VmUnwind.ForgetInv | vm.c:338-354 | and, while the list is right, it keeps the whole invariant |
| VmUnwind.DeleteTorn | vm.c:311-337 | giving up a page in memory keeps everything but the list and the counters, and leaves its record in the list |
| VmUnwind.LoadTorn | vm.c:706-736 | bringing a page in keeps everything but the list and the counters, and a record that is not used stays in the list |
| VmUnwind.ForgetView | vm.c:338-354 | giving up a page in the swap file changes no other page |
| VmUnwind.DeleteView | vm.c:311-337 | giving up a page in memory changes no other page |
| VmUnwind.LoadView | vm.c:706-736 | bringing a page in changes what no process sees, also with a broken list |
| VmUnwind.OwnCount | kalloc.c:147-156 | a page that may be written has a frame of its own, also with a broken list |
| VmBudget.NeedsMore | vm.c:258-291 | what a turn adds to the frames that a growth takes |
| VmBudget.UnsharedNeeds | vm.c:258-291 | of pages none of which is shared none will be, so a growth takes a frame for each page that there is room for in memory, and no more |
| VmBudget.MatchShared | vm.c:270-273 | the account of the resident pages says which of them are shared |
| VmBudget.OutFree | vm.c:593-595 | a page that goes out leaves its frame free if and only if it was not shared |
| VmBudget.OutMatches | vm.c:573-599 | moving a page out keeps the account |
| VmBudget.NewMatches | vm.c:275-290 | a new page, which is not shared, keeps the account |
| VmBudget.UnsharedFits | vm.c:258-291 | if no resident page is shared, a growth by n pages fits if and only if it is within 32 pages and there are min(n, 16 - resident) free frames |
| VmBudget.FitsUpTo | vm.c:258-291 | fewer pages fit where more do, and pages within the limit fit if there is a frame for each |
| VmGrow.GrowStart | vm.c:258-259 | the loop of allocuvm starts with no page added |
| VmGrow.GrowTouch | vm.c:267-269 | creating the swap file adds no page and no process sees it |
| VmGrow.GrowOut | vm.c:261-273 | moving a page out adds no page and no process sees it |
| VmGrow.GrowNew | vm.c:275-290 | a turn adds one page of zeroes behind those it has added |
| VmGrow.GrowDone | proc.c:166-181 | with all pages added and the size set, the flat memory is longer by pages of zeroes and the others are as before |
| VmGrow.GrowStuck | proc.c:166-181 | a growth that stops at the limit leaves a sound state if and only if it has added no page, and every process sees what it saw |
| VmGrow.GrowUndone | vm.c:275-280 | after a growth that found no frame has given up its pages again, every process sees what it saw |
| VmGrow.OverrunForkBreaks | proc.c:588-624 | after a growth has left pages beyond the size, the turns of copyuvm up to the size and the copied records give the child records of pages that it does not have |
| VmGrow.LastFrame | trap.c:134-144 | a concrete failure: one frame, a process that grows, forks and writes; the state before is sound and the state after is not |
| VmMachine.OutFrees | vm.c:593-595 | moving a page out leaves no free frame exactly when there was none and the page's frame is shared |
| VmMachine.Machine.constructor | kalloc.c:34-59 | every frame is free and there is no process |
| VmMachine.Machine.Kalloc | kalloc.c:101-118 | the first free frame with count 1, or nothing if there is none |
| VmMachine.Machine.Kfree | kalloc.c:65-96 | panics exactly at count 0; else the count goes down, and at 0 the frame is junked and free |
| VmMachine.Machine.NextAvOffset | vm.c:673-680 | the lowest free slot, or -1 exactly if all are taken |
| VmMachine.Machine.FindRecord | vm.c:766-771 | the record of a page, or none exactly if it has none |
| VmMachine.Machine.FindUnused | vm.c:549-555 | the first unused record, or none exactly if there is none |
| VmMachine.Machine.MoveToDisk | vm.c:573-599 | the page goes to the lowest free slot, its frame loses a reference, and a full swap file is the only failure |
| VmMachine.Machine.WriteOut | vm.c:646-670 | slot, record, entry, list and frame change as specified |
| VmMachine.Machine.GetPageFromFile | vm.c:706-736 | panics exactly without a free frame; else the page is in a frame of its own, writable, and its slot is free |
| VmMachine.Machine.SwapPages | vm.c:761-783 | panics exactly when no frame is free and the victim is shared; else the page is in memory and all flat memories are as before; record, victim and slot are always found |
| VmMachine.Machine.GrowProc | proc.c:166-181 | growth by any number of pages is decided by the state before: done if all fit, refused if not even one does or the new size reaches KERNBASE, and otherwise stopped half-way; exactly then the state is broken; unless it is done every process sees what it saw; if no resident page is shared it is done if and only if all are within 32 pages and there are min(n, 16 - resident) free frames |
| VmMachine.Machine.AllocUvm | vm.c:252-291 | nothing is done for a new size from KERNBASE on; otherwise as many pages are added as fit; at the limit of 32 they are left as they are; without a frame they are all given up, every process sees what it saw, and the list has a record that is not used |
| VmMachine.Machine.AllocTurn | vm.c:259-290 | one turn: stops exactly at 32 pages or without the frame that it needs, which it does exactly if there is room in memory or the page that has to go out is shared; else one page of zeroes more |
| VmMachine.Machine.MakeRoom | vm.c:261-273 | a full process gives up a page, into a new swap file if it has none, and no memory changes |
| VmMachine.Machine.CreateSwapFile | vm.c:267-269 | creating the file changes no memory |
| VmMachine.Machine.TakePage | vm.c:275-290 | a zeroed page, exactly if a frame is free |
| VmMachine.Machine.PutPage | vm.c:522-570 | frame, entry, record and list change as specified |
| VmMachine.Machine.Unwind | vm.c:311-354 | deallocuvm of all pages of a failed growth, to the end of its loop: all are given up, other pages keep their contents, getPageFromFile does not panic, and the list has a record that is not used, so the invariant does not hold |
| VmMachine.Machine.ForgetPage | vm.c:338-354 | a page in the swap file is given up, with its record and its slot, and no other page changes |
| VmMachine.Machine.DeletePage | vm.c:311-337 | giving up a page in memory leaves its record in the list and brings a page in from the swap file; it panics if and only if the page was shared, no frame is free and a page is in the swap file; no other page changes |
| VmMachine.Machine.BringIn | vm.c:691-702 | the first page in the swap file comes in; panics if and only if there is one and no frame is free |
| VmMachine.Machine.FindOnDisk | vm.c:692-702 | the first record of a page in the swap file, or none exactly if there is none |
| VmMachine.Machine.LoadPage | vm.c:706-736 | the page is in a frame of its own and its record at the end of the list, exactly if a frame is free |
| VmMachine.Machine.WriteFault | trap.c:115-145 | kills the process exactly when the frame is shared and none is free, and then, and only then, the state is broken; else all flat memories are as before and the page is writable |
| VmMachine.Machine.CopyFrame | trap.c:125-145 | the shared frame loses a reference whether or not the copy could be made |
| VmMachine.Machine.Load | trap.c:115-163 | gets the byte of the flat memory; a fault exactly for a page that the process does not have |
| VmMachine.Machine.Store | trap.c:115-163 | changes that byte of that flat memory and nothing else; exact conditions for fault, panic and kill |
| VmMachine.Machine.SharePage | vm.c:405-426 | one turn of copyuvm as specified |
| VmMachine.Machine.CopyUvm | vm.c:396-435 | all pages are shared, or the loop stops at the first page in memory that cannot be mapped |
| VmMachine.Machine.Fork | proc.c:186-234 | the child's flat memory is the parent's; refused exactly if a page in memory cannot be mapped, and then all memories are as before |
| VmMachine.Machine.FreeVm | vm.c:299-379 | all pages of the process are freed, other processes are untouched |
| VmMachine.Machine.DropPage | vm.c:311-325 | one page is freed as specified |
| VmMachine.Machine.Exit | proc.c:296-324 | the flat memory of the process goes, the others stay |
| VmMachine.Machine.NewProc | proc.c:75-123 | a process with an empty memory |
| VmMachine.Machine.Reorder | vm.c:786-873 | any policy's reordering leaves all flat memories |
| VmRun.Do | trap.c:115-163 | each command ends in exactly the way its state says and changes the flat memories, and the order of the resident pages of each process, as the command says |
| VmRun.Run | trap.c:115-163 | every command of a run of growth by any number of pages, loads, stores, write faults, page faults, forks, exits and policy reorderings ends in exactly the way that the state before it says, up to the first failure, and changes the flat memories and the order of the resident pages as the command says |
| VmRun.RunFlat | trap.c:115-163 | at every point of a run the flat memories are those that the commands so far have made, and every byte read is the byte there |
| VmRun.StoredStays | trap.c:115-163 | a byte that was stored is there, through swaps, faults, forks and growth of all processes, until its own process stores another one there or ends |
| VmRun.ReadsWhatWasWritten | trap.c:115-163 | a read answers with the byte that was stored last, or panics, exactly if it finds no frame |
| VmRun.Isolation | trap.c:115-163 | no command changes the memory of another process, and only a store changes a byte of its own |
| VmRun.GrownBytes | vm.c:281 | the bytes that a growth adds are 0 |
| VmQueue.OutQueue | vm.c:573-600 | a page that goes out leaves the order of the others |
| VmQueue.InQueue | vm.c:706-736 | a page that comes in is the last |
| VmQueue.NewQueue | vm.c:541-570 | a new page is the last |
| VmQueue.SwapQueue | vm.c:761-783 | a swap takes one page out of the order and puts the other at its end |
| VmMachine.SizeBound | vm.c:258-266 | between operations a process has at most 32 pages, one record for each |
| VmMachine.Machine.GiveUpAll | vm.c:274-279 | a growth that finds no frame gives up all pages that it has added: every process sees what it saw, and the list has a record that is not used |
| VmRun.FirstGrowth | proc.c:166-181 | how the first growth of the first process ends, for any number of frames and pages |
| VmRun.GrowTooFar | proc.c:166-181 | a concrete failure: a process that asks for 33 pages at once gets an error and keeps 32 pages beyond its size |
| VmRun.GrowStarved | vm.c:275-280 | a concrete failure: a process that asks for two pages on a machine with one frame gets an error and a broken list |
| VmRun.GrowThroughDisk | vm.c:261-273 | a process gets 32 pages on a machine with 16 frames |
| VmPolicy.Exchange | vm.c:761-783 | swapPages with the victim of a policy: it leaves the list, the page that comes in is at the end with its access bit clear, the other pages keep their order and their bits, the list of the machine is the same, and all flat memories are as before; panics exactly as SwapPages |
| VmPolicy.FaultScfifo | vm.c:847-867 | a page fault under SCFIFO takes out the second-chance page, leaves the list rotated behind it with the new page at the end and exactly the bits of the pages passed over cleared, and changes no flat memory, or panics, exactly if no frame is free and that page is shared |
| VmPolicy.FaultAq | vm.c:868-871 | a page fault under AQ advances the queue, takes out its first page, puts the new page at its end, clears the bits, and changes no flat memory, or panics, exactly if no frame is free and that page is shared |
| VmPolicy.FaultNfua | vm.c:806-820 | a page fault under NFUA gives every resident page its sample, takes out the first page with the least history, puts the new page at the end, clears the bits, and changes no flat memory, or panics, exactly if no frame is free and that page is shared |
| Bitmap.OneBit | fs.c:64-69 | setting and clearing a bit of a bitmap byte changes that bit and no other |
| Bitmap.MarkedFree | fs.c:64-69 | marking a free block leaves one free block less |
| Bitmap.MarkFirst | mkfs.c:237-251 | exactly the first blocks are marked |
| BlockOwners.GiveOk | fs.c:58-80 | a block with a clear bit belongs to nobody, and may be given to one place |
| BlockOwners.TakeOk | fs.c:83-97 | a block that a place refers to is marked, so bfree does not panic, and may be taken back |
| DiskBlocks.WordBytes | fs.c:392-394 | the bytes of a word, the least significant first |
| InodeSlots.SlotLayout | fs.c:374-402 | twelve block numbers are in the inode and 128 in the block that its thirteenth address names, four bytes each |
| DiskBlocks.WordsApart | fs.c:392-394 | writing one word of an indirect block changes that word and no other |
| InodeSlots.UnownedBlock | fs.c:45-53 | zeroing a block that nobody owns changes no block number of any inode |
| InodeSlots.DirectSlot | fs.c:380-384 | a direct address is one place of one inode |
| InodeSlots.FreshIndirect | fs.c:389-390 | a fresh indirect block lists nothing |
| InodeSlots.IndirectSlot | fs.c:391-396 | a word of an indirect block is one place of one inode |
| InodeSlots.DropIndirect | fs.c:423-433 | without its indirect block an inode has no indirect places |
| DiskState.CoveredBit | fs.c:64-69 | a bit may change once its bitmap block is logged: then every block that differs from the start of the transaction is logged |
| DiskState.CoveredBlock | fs.c:501-505 | the same for a data block |
| DiskState.CoveredInode | fs.c:222-238 | the same for an inode and its block |
| FileBlocks.Volume.constructor | mkfs.c:93-104 | a volume without files: exactly the metadata blocks are marked, no inode has a block, and nothing is logged |
| FileBlocks.Volume.FindFree | fs.c:65-69 | the lowest block with a clear bit, if there is one |
| FileBlocks.Volume.Balloc | fs.c:58-80 | the lowest free block, zeroed and marked, or 0 exactly if no block is free; exactly two blocks are logged, and one block less is free |
| FileBlocks.Volume.Bfree | fs.c:83-97 | panics exactly on a free block; else its bit and no other is cleared |
| FileBlocks.Volume.GiveDirect | fs.c:380-384 | a free block becomes a direct block, ownership is kept, other contents stay |
| FileBlocks.Volume.GiveIndirect | fs.c:389-390 | a free block becomes the indirect block, ownership is kept, other contents stay |
| FileBlocks.Volume.GiveEntry | fs.c:393-396 | a free block becomes an indirectly listed block, ownership is kept, other contents stay |
| FileBlocks.Volume.BmapDirect | fs.c:380-384 | the direct half of bmap |
| FileBlocks.Volume.BmapEntry | fs.c:391-398 | the indirect half of bmap once there is an indirect block |
| FileBlocks.Volume.BmapNew | fs.c:387-398 | the indirect half for an inode without an indirect block: fails exactly with fewer than two free blocks |
| FileBlocks.Volume.BmapIndirect | fs.c:387-399 | the indirect half of bmap |
| FileBlocks.Volume.Bmap | fs.c:374-402 | a mapped block is found without any change; else it is allocated, ownership and all contents are kept, and exactly the listed blocks are logged; fails exactly beyond MAXFILE or if fewer blocks are free than it needs |
| FileBlocks.Volume.TruncDirect | fs.c:416-421 | all direct blocks are freed, without a panic |
| FileBlocks.Volume.FreeDirect | fs.c:416-421 | one direct block is freed, ownership is kept |
| FileBlocks.Volume.FreeEntries | fs.c:424-430 | every listed block is freed once, without a panic |
| FileBlocks.Volume.TruncIndirect | fs.c:423-433 | listed blocks and the indirect block are freed, without a panic |
| FileBlocks.Volume.SetSize | fs.c:222-238 | the inode on the disk becomes the inode in memory |
| FileBlocks.Volume.Itrunc | fs.c:409-437 | every block of the inode is freed exactly once, the panic for a free block is not reached, and no other inode is touched |
| FileBytes.PatchByte | fs.c:501-505 | writing into one block changes the bytes written and no other byte of any file |
| FileBytes.MapByte | fs.c:374-402 | mapping one more block changes no byte of a mapped block |
| FileBytes.MapNext | fs.c:374-402 | mapping the next block keeps the file without holes |
| FileData.Readi | fs.c:454-478 | exactly the bytes there are, or -1 exactly for a bad range; nothing is allocated or changed |
| FileData.WriteSplices | fs.c:500-506 | one turn of the loop splices the bytes of the file |
| FileData.WriteBlock | fs.c:500-506 | one turn splices the file, keeps other files and the map without holes, and logs a bounded set of blocks |
| FileData.PatchBlock | fs.c:503-504 | the copy changes one block, which is logged |
| FileData.SplicedTwice | fs.c:500-506 | two turns splice what one longer turn would |
| FileData.ProgressStep | fs.c:500-506 | a turn keeps what the loop has done so far, including the count of logged blocks |
| FileData.WriteTurn | fs.c:500-506 | one turn of the loop, to the end of its block |
| FileData.WriteRange | fs.c:500-506 | the whole loop; it fails exactly if fewer blocks are free than the range takes, and else takes exactly that many |
| FileData.NewContents | fs.c:483-513 | the bytes of the file are exactly the spliced ones |
| FileData.OtherFiles | fs.c:483-513 | all other files keep their bytes and their blocks |
| FileData.FinishWrite | fs.c:508-511 | the size grows and the inode goes to the disk whenever a block was allocated |
| FileData.Writei | fs.c:483-513 | -1 exactly for a bad range, with nothing changed; the panic exactly if fewer blocks are free than the write takes; else exactly splice or extend, other files as before, every file mapped exactly up to its size, exactly so many blocks taken, and the logged blocks within the cost of the write |
| FileData.Format | mkfs.c:93-104 | a new volume is sound, its files are empty, and exactly the blocks behind the metadata are free |
| FileData.Truncate | fs.c:409-437 | on a sound volume: the file is empty, exactly its blocks have become free, other files are as before, and the volume is sound |
| FileData.TruncFrees | fs.c:409-437 | what truncation frees is exactly the blocks of the file |
| FileWrite.ChunkFits | file.c:133-143 | a chunk logs at most MAXOPBLOCKS blocks whatever its alignment, even into the indirect block with every bit in another bitmap block |
| FileWrite.ChunkTight | file.c:133-143 | the bound that the cost formula gives is MAXOPBLOCKS for some chunk, and more for a chunk of one byte more |
| FileWrite.SpliceTwice | file.c:135-152 | writing two pieces one after the other is writing them together |
| FileWrite.WriteChunk | file.c:140-145 | one chunk is one transaction of at most MAXOPBLOCKS blocks that splices its piece; the panic exactly if fewer blocks are free than it takes |
| FileWrite.WriteNext | file.c:135-152 | one turn of the loop, which adds one transaction to those so far or stops |
| FileWrite.SpaceSum | file.c:135-152 | two writes in a row take the blocks that one longer write takes |
| FileWrite.ChunkRoom | file.c:135-152 | a chunk that fits the largest file is within the room for whole chunks, and at one that does not the room is used up |
| FileWrite.Filewrite | file.c:117-156 | the file is spliced with all of the data, or with whole chunks up to the largest file size; the panic exactly if fewer blocks are free than those chunks take; every transaction starts and ends at a sound volume, changes only blocks that it logs, and fits its reservation; other files keep their contents |
| FileCrash.UnloggedSame | log.c:213-233 | a disk block that a transaction did not log holds what it held, whether inodes, bitmap or data |
| FileCrash.UpdatedImage | log.c:192-202 | installing the logged blocks turns the disk of the volume before a transaction into that of the volume after it |
| FileCrash.ImageTells | fs.c:374-402 | the blocks behind the log determine inodes, bitmap, places and contents of a sound volume |
| FileCrash.CommitReady | log.c:192-202 | a transaction that fits the log can be committed, and that leaves the volume after it on the disk |
| FileCrash.FilewriteCrash | file.c:117-156 | stop a filewrite after any block write of any of its commits and stop recovery any number of times: the disk ends as that of a sound volume in which the file holds its old bytes with the first k chunks written, for k the number of headers that were written, and all other files are as before |
| GroupCrash.AppliedContents | file.c:117-156 | after k chunks by any writers every file holds its own chunks, spliced in order |
| GroupCrash.LogBound | log.c:125-141 | the transactions that share a commit log at most MAXOPBLOCKS blocks each |
| GroupCrash.GroupCovers | log.c:213-233 | every block that differs between the volume before and after a group of transactions is logged by one of them |
| GroupCrash.FewFit | log.c:130-132 | as many transactions as may be open at once fit the header and the log, whatever they log |
| GroupCrash.GroupReady | log.c:192-202 | any number of transactions whose blocks together fit the header and the log can be committed together, and that brings the disk from the volume before it to the one after it |
| GroupCrash.ManyWritersCrash | log.c:125-202 | several processes write to any files and any number of their chunks share a commit: stop any commit after any block write and recovery any number of times, and the disk ends as that of a sound volume in which every file holds exactly its chunks up to the same commit |
| GroupCrash.RunChunks | file.c:117-156 | chunks of any writes to any files, one after the other, are such transactions until the disk is full: one for each chunk that is not behind the end of its file or too large, in order; refused ones change nothing |
| GroupFiles.WrittenVisible | log.c:213-233 | the log_writes of a chunk, in any order and some more than once, change what operations see to the blocks of the volume after it |
| GroupFiles.ChunkAdmitted | log.c:125-141 | an operation that may still add as many blocks as a chunk has can log all of them, whatever the others have logged: on a log of LOGSIZE slots, or where slots are left, no log_write of it panics |
| GroupFiles.ChunkOk | file.c:140-145 | a chunk in an open operation keeps the agreement of disk, cache and volume |
| GroupFiles.CommitOk | log.c:164-172 | a commit makes all chunks durable, whoever wrote them |
| GroupFiles.CrashOk | log.c:115-122 | a crash at any block write, with any number of cut boots, leaves all chunks or those that were durable |
| GroupFiles.MoveOk | log.c:125-233 | every begin_op, chunk, end_op, commit and crash keeps that agreement |
| GroupFiles.ChunkCan | file.c:140-145 | a chunk of an open operation is possible when its reservation allows it and the log has slots |
| GroupFiles.ChunkGetsDurable | file.c:140-145 | when nobody has an operation open a process can write a chunk and make it durable |
| GroupFiles.FilesSurvive | log.c:125-233 | at every point of every run of begin_op, chunks, end_op, commits and crashes: the disk holds a sound volume in which every file has exactly the durable chunks, spliced in order, what operations see is a sound volume with all chunks, and what is logged fits the header and the log |
| GroupFiles.DurableStays | log.c:164-172 | once a chunk is durable, no later crash takes it away |
| FreeRing.LinkIn | umalloc.c:41-42 | linking a block in keeps the ring circular and address-ordered |
| FreeRing.MergeOk | umalloc.c:33-43 | joining neighbours keeps blocks apart and covers the same memory |
| FreeRing.SplitOk | umalloc.c:78-82 | splitting keeps blocks apart and covers the same memory |
| FreeRing.UpperOk | umalloc.c:33-37 | joining the upper neighbour leaves no adjacent free block above, and the blocks in use as they are |
| FreeRing.LowerOk | umalloc.c:38-43 | joining the lower neighbour, or linking in, leaves no two adjacent free blocks, and the other blocks in use as they are |
| FreeRing.TakeLive | umalloc.c:76-77 | taking a whole block puts it in use and no other |
| FreeRing.SplitLive | umalloc.c:78-82 | the split-off tail is in use and nothing else changes |
| Heap.Allocator.Place | umalloc.c:30-32 | every address has its place in the ring |
| Heap.Allocator.FindPlace | umalloc.c:30-32 | the walk ends at that place |
| Heap.Allocator.JoinUpper | umalloc.c:33-37 | a free upper neighbour is joined |
| Heap.Allocator.JoinLower | umalloc.c:38-43 | a free lower neighbour takes the block in, or it is linked in; the ring is well formed |
| Heap.Allocator.Free | umalloc.c:24-44 | exactly that block is no longer in use, the same memory is covered, no two free blocks are adjacent, and the heap is within the memory of the process if and only if it was |
| Heap.Allocator.constructor | umalloc.c:21-22 | nothing is allocated |
| Heap.Allocator.AddBlock | umalloc.c:56-58 | memory from sbrk whose header has a page becomes one block, apart from the others |
| Heap.Allocator.Morecore | umalloc.c:46-61 | kills the process if and only if the argument of sbrk is not positive as an int and the page for the header is not there afterwards; fails if and only if the argument is positive and sbrk is refused; else the memory grows by exactly 4096 units, or by those of a larger request, a large enough free block is at freep or behind it, freep is the last free block before the new memory, and the blocks in use are as before; a heap that is left is within the memory of the process if and only if the argument is positive |
| Heap.Allocator.TakeWhole | umalloc.c:76-77 | a free block of the right size is in use, and freep is its predecessor |
| Heap.Allocator.TakeTail | umalloc.c:78-82 | the tail of a larger free block is in use, and freep is the predecessor of that block |
| Heap.Allocator.EnsureBase | umalloc.c:70-73 | the first call makes the ring of the empty block |
| Heap.Allocator.FirstFit | umalloc.c:74-89 | the walk ends, and finds the first large enough block from freep on if and only if there is one |
| Heap.Allocator.Take | umalloc.c:75-85 | the whole or the tail of the block is in use, and freep is its predecessor |
| Heap.Allocator.Malloc | umalloc.c:63-90 | for every request, exactly when the process is killed, when the result is 0, and when the heap is sound afterwards; sbrk is called at most once, exactly if no free block fits; else exactly one new block of the requested units is in use: the whole or the tail of the first block with room from freep on, in the heap before the call or in the one that morecore leaves, and freep is the predecessor of that block; when sbrk is called the break grows by exactly 4096 units, or by those of a larger request |
| Heap.RequestHeld | umalloc.c:69 | a block holds the requested bytes, with less than a unit to spare, if and only if rounding up does not wrap around 32 bits |
| Heap.UnvisitedFirst | umalloc.c:74-89 | what the walk has not come by is what lies behind freep, going round, up to where it is |
| Heap.PlacePrecedes | umalloc.c:31-34 | the place that free looks for is the last free block before the address |
| Heap.SbrkRange | umalloc.c:46-61 | the requests whose sbrk argument is positive as an int are exactly those below a limit and those that wrap |
| Heap.ArgRange | sysproc.c:46-58 | what the argument of sbrk is as an int, for every number of units |
| Heap.ExtendedWithin | proc.c:166-181 | new blocks are within the memory of the process if and only if that ends behind them |
| Heap.HugeRequestBreaks | umalloc.c:63-90 | a concrete failure: a process whose size is in the middle of a page asks for half of the address space, sbrk leaves it as it is, and malloc returns memory that the process does not have |
| Heap.HugeRequestKills | umalloc.c:63-90 | the same request at the end of a page, where exec leaves the size, kills the process |
| Heap.KillsWhen | proc.c:166-181 | an argument of sbrk that is not positive kills the process if and only if its size was at the end of a page or the page at its end is given up |
| Heap.HeaderPage | umalloc.c:56-58 | what sbrk did says whether morecore returns 0, is killed or goes on |
| Heap.HugeArgument | umalloc.c:46-61 | requests whose sbrk argument is negative, and whose argument is 0 |
| PipeRing.WrapIndex | pipe.c:93 | a wrapped counter indexes the right cell, because 512 divides 2^32, and counts on |
| PipeRing.WrapEqual | pipe.c:106 | wrapped counters are equal exactly if the pipe is empty |
| PipeRing.WrapFull | pipe.c:85 | wrapped counters differ by the buffer size exactly if the pipe is full |
| PipeRing.CellsDiffer | pipe.c:93 | bytes in flight together are in different cells |
| PipeRing.Pipe.IsFull | pipe.c:85 | the test is exact across wraparound |
| PipeRing.Pipe.IsEmpty | pipe.c:106 | the test is exact across wraparound |
| PipeRing.Pipe.Put | pipe.c:93 | one byte more is stored, and nothing in flight is overwritten |
| PipeRing.Pipe.Get | pipe.c:116 | the oldest byte in flight |
| PipeRing.Pipe.WriteUntilFull | pipe.c:84-94 | bytes are stored in order until all are or the pipe is full |
| PipeRing.Pipe.ReadAvailable | pipe.c:113-117 | the oldest bytes in order, as many as there are up to n |
| PipeProtocol.WriteKeeps | pipe.c:78-98 | a writer's turn keeps the invariant unless it abandons a full pipe with a sleeping reader |
| PipeProtocol.ReadKeeps | pipe.c:100-121 | a reader's turn keeps the invariant |
| PipeProtocol.CloseKeeps | pipe.c:59-75 | closing an end keeps the invariant |
| PipeProtocol.WakeFirstKeeps | proc.c:480-499 | no process is on its way to sleep while a wakeup runs |
| PipeProtocol.WakingKeeps | proc.c:480-499 | a wakeup before letting go of the pipe pays what was owed |
| PipeProtocol.ToSleepKeeps | proc.c:453-460 | a sleeper takes the table lock before it lets go of the pipe lock |
| PipeProtocol.DroppingKeeps | proc.c:459-462 | letting go of the pipe lock under the table lock keeps the invariant |
| PipeProtocol.DozingKeeps | proc.c:463-467 | falling asleep keeps the invariant |
| PipeProtocol.KillKeeps | proc.c:504-522 | a kill keeps the invariant |
| PipeProtocol.StepKeepsInv | pipe.c:59-121 | every step keeps the invariant, except exactly a killed writer that gives up on a full pipe while a reader sleeps |
| PipeProtocol.AbandonBreaks | pipe.c:86-88 | that step does break it |
| PipeProtocol.RunKeepsInv | pipe.c:59-121 | every run without such a step keeps the invariant |
| PipeProtocol.NoDeadlock | pipe.c:59-121 | at any moment of any run, also with kills, if some process is in a call and not asleep, then some process can go on |
| PipeProtocol.LocksAlways | pipe.c:59-121 | each lock is held by the one process that is at a place where it has it |
| PipeProtocol.NoLostWakeup | pipe.c:59-121 | in every interleaving without kills, while the pipe lock is free, a sleeping reader means an empty pipe with the write end open and a sleeping writer a full one with the read end open; what was read is a prefix of what was written, at most 512 bytes behind |
| PipeBytes.FifoAlways | pipe.c:77-121 | in every run, also with kills, what was read is a prefix of what was written, at most 512 bytes behind |
| PipeBytes.StoreStep | pipe.c:77-99 | a step stores exactly the bytes that it takes from the front of the buffer of its process |
| PipeBytes.TakeStep | pipe.c:101-121 | only a turn of a reader takes bytes, the next ones, as many as there are and as were asked for; it waits exactly on an empty pipe that may still be written |
| PipeBytes.FillStep | pipe.c:77-99 | a writer stores as much as there is room for, stops at a full pipe only, and gives up there exactly if nobody can read or it is killed |
| PipeBytes.CallsInOrder | pipe.c:77-121 | in every run, what a write call has stored followed by what it still has to store is the buffer that it was started with, and once it leaves with success it has stored all of it |
| PipeBytes.PipeIsQueue | pipe.c:77-121 | in every run the pipe is one queue: what was stored is what write calls took from their buffers in the order of their turns, and what read calls took, in the order of theirs, is the front of that |
| PipeBytes.ReadGets | pipe.c:101-121 | a read call that was started for n bytes takes exactly the next n of that queue, or all there are |
| PipeBytes.WriterTurn | pipe.c:77-99 | the loop of pipewrite on the ring buffer is a turn of a writer |
| PipeBytes.ReaderTurn | pipe.c:101-121 | the copy loop of piperead on the ring buffer is a turn of a reader |
| PipeProtocol.ReaderFallsAsleep | pipe.c:105-112 | a run in which a reader falls asleep on an empty pipe |
| PipeProtocol.KilledWriterStrandsReader | pipe.c:86-88 | a run in which a killed writer leaves a reader asleep on a full pipe |
| ShellParser.NextToken | sh.c:264-307 | every token but the last makes the rest shorter |
| ShellParser.ParseRedirs | sh.c:373-396 | terminates on every input, and leaves a rest no longer than it |
| ShellParser.ParseArgs | sh.c:425-444 | terminates on every input, and leaves a rest no longer than it |
| ShellParser.ParseExec | sh.c:414-445 | terminates on every input, and leaves a rest no longer than it |
| ShellParser.ParseBlock | sh.c:398-412 | terminates on every input, and leaves a rest no longer than it |
| ShellParser.ParsePipe | sh.c:360-371 | terminates on every input, and leaves a rest no longer than it |
| ShellParser.ParseBack | sh.c:349-352 | terminates on every input and never fails |
| ShellParser.ParseLine | sh.c:343-358 | terminates on every input, and leaves a rest no longer than it |
| ShellParser.SkipToken | sh.c:264-307 | leading blanks change no token and no lookahead |
| ShellParser.SkipRedirs | sh.c:373-396 | leading blanks change nothing |
| ShellParser.SkipArgs | sh.c:425-444 | leading blanks change nothing |
| ShellParser.SkipExec | sh.c:414-445 | leading blanks change nothing |
| ShellParser.SkipPipe | sh.c:360-371 | leading blanks change nothing |
| ShellParser.SkipLine | sh.c:343-358 | leading blanks change nothing |
| ShellRoundTrip.WordToken | sh.c:264-307 | a word followed by a blank is read as that word |
| ShellRoundTrip.SymbolToken | sh.c:264-307 | a symbol is read as itself |
| ShellRoundTrip.RedirsRoundTrip | sh.c:373-396 | printed redirections are read back in order |
| ShellRoundTrip.ArgsRoundTrip | sh.c:414-445 | printed arguments and redirections are read back as the same simple command |
| ShellRoundTrip.WrapBase | sh.c:373-396 | a command is its base inside its redirections |
| ShellRoundTrip.BlockParse | sh.c:398-412 | a parenthesised line is read as that line, with its redirections around it |
| ShellRoundTrip.PipeParse | sh.c:360-371 | two commands with a bar between are read as a pipe |
| ShellRoundTrip.LineEnds | sh.c:343-358 | a line ends where a parenthesis or nothing follows |
| ShellRoundTrip.LineContinues | sh.c:343-358 | two lines with a semicolon between are read as a sequence |
| ShellRoundTrip.ExecRoundTrip | sh.c:414-445 | round trip at the level of parseexec, whatever may follow |
| ShellRoundTrip.PipeRoundTrip | sh.c:360-371 | round trip at the level of parsepipe |
| ShellRoundTrip.BackRoundTrip | sh.c:343-358 | round trip of background commands |
| ShellRoundTrip.CompoundRoundTrip | sh.c:343-358 | round trip of sequences and background commands |
| ShellRoundTrip.LineRoundTrip | sh.c:343-358 | round trip at the level of parseline |
| ShellRoundTrip.RoundTrip | sh.c:326-445 | every tree of words without blanks or symbols and at most 9 arguments is read back from its printed line |
| ShellRoundTrip.TokenIsWord | sh.c:264-307 | a word token is a word without blanks or symbols |
| ShellRoundTrip.LinePrintable | sh.c:343-358 | every tree that parseline returns is printable |
| ShellRoundTrip.ParsedIsPrintable | sh.c:326-445 | the trees that lines stand for are exactly the printable ones, and printing one and parsing it again gives it back |
| ShellGrammar.SameCharacters | sh.c:261-262 | blanks and symbols are exactly those of the source |
| ShellGrammar.FirstToken | sh.c:264-307 | the first token is the first piece of a line that is cut into blanks, longest words, symbols and >> |
| ShellGrammar.CutTokens | sh.c:264-307 | however a line is cut into blanks, longest words, symbols and >>, its tokens are those that gettoken returns |
| ShellGrammar.CutExists | sh.c:264-307 | every line can be cut so |
| ShellMeaning.PeekIs | sh.c:309-319 | peek sees the first token |
| ShellMeaning.RedirsStep | sh.c:373-396 | parseredirs token by token: an operator and a word are a redirection, an operator without a word is an error |
| ShellMeaning.ArgsStep | sh.c:414-445 | the loop of parseexec token by token: words and redirections in any order, an error for anything else and for the tenth word |
| ShellMeaning.WrapAround | sh.c:373-396 | a later redirection is around an earlier one |
| ShellMeaning.LineSound | sh.c:343-358 | what parseline reads stands in the grammar for the tree that it returns |
| ShellMeaning.LineComplete | sh.c:343-358 | tokens that stand for a tree are read as that tree, up to a closing parenthesis or the end |
| ShellMeaning.PipeComplete | sh.c:360-371 | the same for parsepipe |
| ShellMeaning.ExecComplete | sh.c:414-445 | the same for parseexec |
| ShellMeaning.BlockComplete | sh.c:398-412 | the same for parseblock |
| ShellMeaning.BackComplete | sh.c:343-353 | the same for the loop over & |
| ShellMeaning.ParserIsGrammar | sh.c:326-445 | a line parses to a tree if and only if its tokens stand for that tree in the grammar, which does not mention the parser |
| ShellMeaning.GrammarDecides | sh.c:326-445 | it is a syntax error if and only if its tokens stand for no tree, and they never stand for two |
| ShellCode.Parser.constructor | sh.c:326-331 | the cursor is at the start of the line |
| ShellCode.Parser.SkipSpaces | sh.c:271-272 | the cursor is behind the blanks |
| ShellCode.Parser.SkipWord | sh.c:296-297 | the cursor is behind the word |
| ShellCode.Parser.GetToken | sh.c:264-307 | kind, extent and rest are those of the next token |
| ShellCode.Parser.PeekFor | sh.c:309-319 | whether the next character is one of those asked for, behind the blanks |
| ShellCode.Parser.ParseRedirections | sh.c:373-396 | moving the cursor gives what the recursive definition gives |
| ShellCode.Parser.ParseExecCmd | sh.c:414-445 | moving the cursor gives what the recursive definition gives |
| ShellCode.Parser.ParseBlockCmd | sh.c:398-412 | moving the cursor gives what the recursive definition gives |
| ShellCode.Parser.ParsePipeCmd | sh.c:360-371 | moving the cursor gives what the recursive definition gives |
| ShellCode.Parser.ParseLineCmd | sh.c:343-358 | moving the cursor gives what the recursive definition gives |
| ShellCode.Parser.ParseWhole | sh.c:326-341 | the parser on a shared cursor computes the command of the whole line, or the same failure |
| Grep.LanguageOne | grep.c:85-96 | a literal or dot item stands for one fitting character |
| Grep.LanguageStar | grep.c:99-106 | a starred item stands for any number of fitting characters |
| Grep.HereEnd | grep.c:91-92 | a final $ matches exactly at the end of the text |
| Grep.HereOne | grep.c:93-94 | an item matches exactly if the first character fits and the rest matches |
| Grep.HereStar | grep.c:89-90 | a starred item matches exactly if some number of characters fit and the rest matches |
| Grep.MatchHere | grep.c:85-96 | true exactly if the text has a beginning in the language of the pattern; terminates |
| Grep.MatchStar | grep.c:99-106 | true exactly if some number of fitting characters can be skipped; terminates |
| Grep.FrontMatches | grep.c:75-76 | a leading ^ ties the match to the start of the text |
| Grep.Match | grep.c:72-82 | true exactly if some part of the text, tied to its ends by ^ and a final $, is in the language of the pattern's items |

## Left out

- Boot, assembly, interrupt controllers, disk driver, console: hardware without a meaning to prove against.
- exec: it mixes a new page directory with the lists of the running process, so it has no invariant of its own.
- Shrinking a process: deallocuvm is modelled for a process that goes, for a child whose fork failed, and for a failed growth.
- Processes 1 and 2, which have no paging metadata, and the fork of a child from them.
- LAPA: its guard is true for every page, so it never compares counters; LIFO is one walk to the end of the list.
- Frames of page tables and kernel stacks: mappages that fails for lack of them is the parameter `room` of Fork; one that fails in allocuvm, or in copyuvm for a page in the swap file, is not modelled.
- PTE_U and the guard page below the stack: a page is a user page or not by a flag in PagePolicy; in the virtual memory every page may be read and written by its process.
- TLB flushes and more than one CPU in the virtual memory: a page fault is one atomic step.
- The free-page counter: kinit2 overwrites it, so it differs from the length of the free list by a constant.
- Errors of the disk when a swap file is created, read or written.
- The 32-bit width of counters, except those of the pipe, the ageing counters, file offsets and the arguments of malloc.
- Path lookup, directories, link counts, the inode cache and its locks; files are given by inode number.
- Devices in readi and writei, and negative sizes in filewrite.
- The log on the buffer cache and the files are two machines: FileCrash, GroupCrash and GroupFiles join the files with the block writes of commits, not with the buffers that they go through.
- mkfs (but for its bitmap and the order of its regions), system-call arguments, printing, usertests and the other user programs.
- The shell's runcmd and nulterminate, and grep's loop that refills its buffer; text and patterns end where the string ends.
- Fairness of the scheduler: that a process that is woken runs again.
- Heap.Allocator.Free: requires a block that malloc returned and that was not freed since; the source does not check it.
- PagePolicy.PageList.ChooseScfifo: requires a user page; without one the loop in the source does not end.
- VmRun.Run: stops at a panic, at a write fault without memory, after which the counts are wrong, and at a growth that left pages beyond the size.
- PipeProtocol.NoLostWakeup: states runs without kills; StepKeepsInv has the exact condition with kills.
- BufferCache.Cache.Release: requires that a process that changed a clean buffer has logged or written it, as the comments of log.c demand of callers; the source does not check it.
- BufferCache.Cache.Brelse: requires the same.
- CachedLog.Log.Release: requires the same.
- Sizes of processes that are no multiple of a page, and growth by 2^31 bytes or more, which the int argument of growproc cannot express.
- CachedLog.Log.Modify: requires that the process has an open operation, as the convention of log.c demands of callers.
- CachedLog.Log.EndOp: requires that the process has logged what it changed in the buffers that it still holds.
- CachedLog.Log.Commit: states a commit whose steps follow one another, when nobody has locked a block that it needs; with others between its steps each step keeps the invariant, HeldPair and HeldHead say what it finds, and it may find no buffer.
- CachedLog.Log.WriteLog: states the same part of a commit under the same condition.
- CachedLog.Log.InstallTrans: states the same part of a commit under the same condition.
- CachedLog.Log.WriteLogTurn: states the same part of a commit under the same condition.
- CachedLog.Log.InstallTurn: states the same part of a commit under the same condition.
- CachedLog.Log.FetchPair: states the same part of a commit under the same condition.
- CachedLog.Log.WriteHead: states the same part of a commit under the same condition.
- GroupCommit.WriteStep: states writes that do not panic; WritePanicsWhen says which do, and after a panic the machine stops, which is the crash step.
- VmMachine.Machine.CopyUvm: states failure by the parameter `room`, the number of pages that can be mapped, because the frames of page tables are not in the pool.
- VmMachine.Machine.Fork: the same parameter; what a failed fork leaves is stated for every value of it.
- FileWrite.ChunkTight: states values of the cost formula; a volume on which a chunk logs ten blocks needs a nearly full disk and is not constructed.
- FileCrash.FilewriteCrash: states chunks that are committed one by one; GroupCrash.ManyWritersCrash has commits that chunks share.
- GroupCrash.RunChunks: states chunks that follow one another; in the source those of different files may overlap.
- GroupFiles.FilesSurvive: the same; operations overlap in any way, but the writes of one chunk are one step.
- The values that pipe calls return: a call that leaves without a wakeup is one that returns -1, and what it has stored or taken by then is stated.
