# A verified model of xv6's storage, memory, process and shell cores

This project models the hard parts of an xv6 kernel for RISC-V with checkpoint and restore, and of two of
its user programs, and proves what they are for. The layers build on each other.

- **Crash-safe storage.** `Blocks`, `LogFormat` and `LogDisk` model the redo log as a sequence of single
  block writes and prove crash atomicity for a crash after any write, followed by recoveries that may crash
  too. `GroupCommit` runs the log and the buffer cache together as a state machine at lock granularity and
  proves that every interleaving refines a disk that commits atomically. `BufferCache` relinks the LRU list
  in place. `FsModel`, `FileWrites`, `LogBudget` and `FileSystem` model the bitmap allocator and the inode
  layer in place: exact block ownership, files as byte sequences, and the exact set of blocks that every
  transaction of a write logs. `LogPlan` tells that set, and so whether a transaction fits the log, from the
  state before. `CrashFiles` puts the files on the logged disk and proves that a crash leaves whole writes.
- **Virtual memory.** `PageModel`, `PageFrames` and `VirtualMemory` model physical memory as words, with
  the free list threaded through it, and prove that the three-level tree (Sv39, section 4.4 of the RISC-V
  Privileged Architecture, version 1.12) is a finite map and that no page is lost or freed twice, on
  success and on failure. The ghost counter `refused` counts how often kalloc() found no page; contracts
  use it to say that an operation fails exactly when memory runs out.
- **Processes.** `Processes` is a state machine of scheduler, preemption, sleep, wakeup, fork, exit, wait,
  kill, interrupts, sleep locks and other conditions waited for under a lock; `ProcessFrames` and `ProcessSafety` prove
  exclusivity and the absence of lost wakeups over all runs.
- **Checkpoint and restore.** `AddressSpace` writes the pages of a page table through the inode layer and
  reads them back into another; `Descriptors` saves and rebuilds the descriptor and pipe sharing graph;
  `Encoding` and `CheckpointHeader` give the bytes of the header; `Checkpoint` joins them into a whole
  process.
- **Rings.** `Virtqueue` and `VirtioDisk` model the driver and the device (sections 2.6 and 5.2 of VIRTIO
  1.1); `Pipe` models the bounded FIFO. All indices wrap at their machine width.
- **User space.** `Arena` and `Umalloc` model the circular free list of malloc and free; `ShellGrammar` and
  `Shell` the recursive-descent parser, its grammar, and the in-place termination of tokens.

`Common` holds shared parameters. `dafny verify dfyconfig.toml` checks the whole project.

Where the source updates things in place the model is a class or an array with loops and invariants, tied to
a value (`State()`) whose transformations are proved in the module beside it. Where processes interleave,
each step is what happens under one hold of a lock. Panics are preconditions that the callers in the model
are proved to meet, or explicit outcomes (`PanicNoBuffers`, `PanicTooBig`, `panicked`, the shell's `Panic`).
The flag `panicked` of a file system is set by a log_write() that finds the log full. The source stops there;
in the model the writei() at hand runs to its end, nothing is promised about what it then leaves, and the
operation around it stops.

Four properties are false of the code as it stands. Each has the inputs on which it fails and the exact
condition under which it holds.

- *A checkpoint succeeds if the descriptors can be saved and there is room.* checkpoint_proc() writes header
  and pages in one transaction, and log_write() panics at LOGBLOCKS blocks. `Checkpoint.CheckpointProc` and
  `Checkpoint.RoundTrip` panic if and only if `LogPlan.TooBig`, a count over the state before the call;
  `Checkpoint.SevenPages` shows that seven pages in memory are always too many, and `LogPlan.EmptyFile` gives
  the count for a new file. With three pages it is already more than begin_op() has set aside
  (`Checkpoint.ThreePages`).
- *malloc() leaves a sound heap.* It computes a 64-bit byte count that sbrk() takes as a signed 32-bit
  integer. `Umalloc.Heap.Malloc` shows that a call leaves a heap that lies in the memory the process has if
  and only if sbrk() refused, the free list had room, or the request was at most 2^31 - 32 bytes;
  `Umalloc.RequestTooLarge` gives the smallest size that fails.
- *fork() copies a process or fails.* The lazy sbrk() path does not bound the size of a process.
  `VirtualMemory.Vm.Uvmcopy` panics if and only if the size is above TRAPFRAME and memory does not run out
  first; `VirtualMemory.PastTrapframe` gives the number of calls that get there.
- *Whatever writei() changes is logged.* A copy from user space that fails part of the way leaves a block
  changed and unlogged. `FileSystem.FileSystem.Writei` names that block and those bytes; `LogBudget.SpillWhen`
  says when there are any: if and only if the data cannot be read from the middle of a block on.

The log budget of a write depends on an invariant of its own: a chunk of filewrite() fits the budget of one
operation when files are mapped up to their size, which every operation here keeps. The budget is then
attained (`FileSystem.FileSystem.TightChunk`), and without that invariant it is exceeded
(`FileSystem.FileSystem.UnmappedChunk`).

## Model

| member | source | states |
|---|---|---|
| `Blocks.StoreWord` | kernel/fs.c:441-446 | a block behaves as an array of 256 words of 32 bits: a stored word reads back, and every other word stays |
| `LogFormat.HeadRoundTrip` | kernel/log.c:87-115 | a header written over any old header block reads back as the same list of block numbers |
| `LogFormat.CommitReaches` | kernel/log.c:178-204 | after any number k of the block writes of a commit, the log slots, the header and the home blocks are exactly those that k prescribes |
| `LogFormat.CommitDurable` | kernel/log.c:194-204 | what a recovery would restore jumps from all-old to all-new at the header write, and at no other write |
| `LogFormat.RecoverPrefix` | kernel/log.c:66-124 | recovery interrupted after any of its writes changes nothing about what is durable; completed, it puts the durable contents home and empties the log |
| `LogFormat.CrashedRecoveriesKeepDurable` | kernel/log.c:117-124 | any number of recoveries, each crashing anywhere, keep the durable contents |
| `LogFormat.RecoveryCompletes` | kernel/log.c:117-124 | a completed recovery after any number of crashed ones leaves exactly the durable contents and an empty log |
| `LogFormat.CrashAtomicity` | kernel/log.c:66-124 | crash atomicity: a commit crashed after any prefix of its writes, then any series of crashed recoveries, then a completed one, leaves every home block old if the header write had not reached the disk, and every one new if it had |
| `LogDisk.Log.WriteHead` | kernel/log.c:103-115 | the loop writes exactly the encoding of the in-memory header, in one block write |
| `LogDisk.Log.ReadHead` | kernel/log.c:87-98 | the in-memory header becomes the decoded on-disk one |
| `LogDisk.Log.WriteLog` | kernel/log.c:179-192 | the loop puts the disk through the first n states of a commit, and readers still see the same contents |
| `LogDisk.Log.InstallTrans` | kernel/log.c:66-84 | the loop copies every log slot home, one write at a time, after which every buffer agrees with the disk; it unpins exactly the logged blocks, and none of them while recovering |
| `LogDisk.Log.ClearLog` | kernel/log.c:201-202 | one write empties the log on disk and in memory |
| `LogDisk.Log.Commit` | kernel/log.c:194-204 | every disk state the method passes through is, in order, the one that the commit of the crash theorem has after that many writes; with nothing logged there is no write; exactly the logged blocks stop being pinned |
| `LogDisk.Log.RecoverFromLog` | kernel/log.c:117-124 | every disk state passed through is the one of the recovery of the crash theorem |
| `LogDisk.Log.LogWrite` | kernel/log.c:215-236 | a block is recorded, and pinned, once per transaction (absorption); the two panics happen exactly on a full log and outside an operation |
| `GroupCommit.NextInv` | kernel/log.c:127-236 | every step of every process at the granularity of single lock holds (brelse is two of them), every commit write and every crash keeps the invariant of log and cache together |
| `GroupCommit.NextRefines` | kernel/bio.c:58-151 | every step refines an atomic disk with a current and a durable version: modifying a locked buffer changes one block of the current version, the header write publishes the current version as a whole and only with no operation active, a crash returns to the durable one, every other step changes neither |
| `GroupCommit.RunInv` | kernel/log.c:127-236 | the invariant holds at every point of every interleaving, across crashes |
| `GroupCommit.RunFacts` | kernel/log.c:127-176 | in every interleaving: committing implies no outstanding operation, logged block numbers are distinct, the log plus the unused budgets of active operations fits in LOGBLOCKS, each block has at most one buffer, a pinned buffer is never free to recycle, and a valid buffer holds the current contents |
| `GroupCommit.AppendFits` | kernel/log.c:215-236 | an appending log_write within its MAXOPBLOCKS budget always finds room |
| `GroupCommit.PanicOnlyWhenAbsorbing` | kernel/log.c:221-229 | within budget, the full-log panic can only strike a write that would have been absorbed, and only when every active operation has used up its budget |
| `GroupCommit.RunDurable` | kernel/log.c:66-204 | at every point of every run, recovery would restore the version published by the last header write |
| `GroupCommit.CrashShowsPublished` | kernel/log.c:117-124 | after a crash anywhere in any run, readers see exactly the last published version |
| `GroupCommit.OneTransactionPerOp` | kernel/log.c:147-176 | nothing is published while an operation is active, so all its writes land in one transaction |
| `GroupCommit.CommitWrites` | kernel/log.c:178-204 | each write of a commit running over the cache is the write that the log format prescribes for it |
| `GroupCommit.KeepCrash` | kernel/log.c:117-124 | a crash with any series of crashed recoveries re-establishes the invariant and shows the durable contents |
| `BufferCache.BCache.constructor` | kernel/bio.c:36-53 | linking the buffers in one by one gives a circular doubly linked list of all of them |
| `BufferCache.BCache.Bget` | kernel/bio.c:58-89 | the cached buffer if there is one, else the buffer unused for longest of all free ones, else a panic exactly when every buffer is referenced; no block gets a second buffer |
| `BufferCache.BCache.FindBlock` | kernel/bio.c:65-73 | the forward scan finds a cached block exactly when there is one |
| `BufferCache.BCache.FindUnused` | kernel/bio.c:75-87 | the backward scan finds the least recently released free buffer |
| `BufferCache.BCache.Brelse` | kernel/bio.c:116-137 | the last release, and only that, makes the buffer the most recently used one; the list stays a permutation in order of last release |
| `BufferCache.BCache.MoveToFront` | kernel/bio.c:126-134 | the six pointer stores move one buffer to the front and keep the order of all others, in both directions |
| `BufferCache.UnlinkKeeps` | kernel/bio.c:128-129 | two pointer stores remove one element of the circular list |
| `BufferCache.PushFrontKeeps` | kernel/bio.c:130-133 | four pointer stores insert an element after the head |
| `BufferCache.TouchKeepsRecency` | kernel/bio.c:126-134 | the list is ordered by last release before and after |
| `FsModel.AttachPointerKeeps` | kernel/fs.c:420-438 | taking a free block into a direct slot or as indirect block keeps every block in use owned by exactly one slot, and changes one pointer |
| `FsModel.AttachEntryKeeps` | kernel/fs.c:439-449 | the same for an entry of the indirect block |
| `FsModel.WriteDataKeeps` | kernel/fs.c:552-558 | writing a data block changes that block of that file, no pointer and no other file |
| `FsModel.DetachDirectKeeps` | kernel/fs.c:464-469 | a direct block being freed was in use, and ownership stays exact |
| `FsModel.FreeEntryKeeps` | kernel/fs.c:474-477 | an indirect entry being freed was in use, although the entries before it are stale |
| `FsModel.DetachIndirectKeeps` | kernel/fs.c:479-480 | freeing the indirect block last makes ownership exact again |
| `FsModel.TruncatedOwners` | kernel/fs.c:457-485 | what is in use after a truncation is what was, less the blocks of that inode |
| `FsModel.Unshared` | kernel/fs.c:414-453 | no two slots of any inodes point to the same block |
| `FileWrites.PieceCopied` | kernel/fs.c:548-560 | one turn of the write loop, copying all of its piece or as much of it as can be read, extends the written prefix by that, keeps ownership, every pointer and every other file |
| `FileWrites.BytesDone` | kernel/fs.c:562-563 | when the loop ends, the file is the old bytes with the copied prefix written over them, and the bytes that a failing copy left behind, which do not make it longer |
| `FileWrites.WrittenAppend` | kernel/fs.c:537-571 | two adjoining writes are one write |
| `LogBudget.AttachedTakes` | kernel/fs.c:420-449 | filling one pointer logs the block taken, its free-map block, and the indirect block exactly for an entry of it |
| `LogBudget.TakenAdds` | kernel/fs.c:414-453 | what successive mappings log is the union of what each logs |
| `LogBudget.FreshSlot` | kernel/fs.c:414-453 | every block newly in use is the one a slot of this file now points to, in the range asked for, where there was none |
| `LogBudget.SlotFresh` | kernel/fs.c:414-453 | and every slot filled points to a block newly in use |
| `LogBudget.WriteDone` | kernel/fs.c:562-570 | at the end of a write: the contents, the exact set of blocks logged, that nothing else changed but the block of a failing copy, and the bound for mapped files |
| `LogBudget.LogsBound` | kernel/fs.c:537-571 | the set of blocks that any write into a mapped file logs is at most its worst case, whatever was allocated |
| `LogBudget.ChunkFits` | kernel/file.c:149-173 | the worst case of every chunk, at any offset, is at most MAXOPBLOCKS blocks |
| `LogBudget.FullChunkLogs` | kernel/file.c:149-173 | from any file system with an unaligned file that ends in its last direct block and whose next free blocks lie in different free-map blocks, a chunk logs exactly 10 blocks if that block is mapped and 11 if it is not |
| `LogBudget.FullChunkRoom` | kernel/file.c:149-173 | such a chunk cannot run out of blocks |
| `LogBudget.StepLogged` | kernel/file.c:149-173 | everything a chunk changes is in what it logs: data blocks, free-map blocks and the inode block; the block of a failing copy apart |
| `LogBudget.NoSpill` | kernel/fs.c:554-557 | nothing is left behind unlogged when the data can all be read, or a copy fails at its first byte |
| `LogBudget.SpillWhen` | kernel/fs.c:554-557 | a failing copy leaves bytes behind if and only if the data cannot be read from the middle of a block on |
| `LogBudget.SpillRead` | kernel/file.c:149-173 | what a failing copy leaves behind is all that could be read |
| `LogBudget.ChunkDone` | kernel/file.c:149-173 | a write is one more chunk of the whole: contents, log and budget |
| `LogBudget.LoggedAdds` | kernel/file.c:149-173 | and the same for chunks in sequence |
| `FileSystem.FileSystem.constructor` | kernel/fs.h:8-23 | a file system of any layout that fits its disk starts with every file empty, exactly the metadata blocks in use, and the invariant |
| `FileSystem.FileSystem.LogWrite` | kernel/log.c:215-236 | records the block, and panics exactly when LOGBLOCKS blocks are recorded already, whether or not it is one of them |
| `FileSystem.FileSystem.Balloc` | kernel/fs.c:65-89 | the lowest-numbered free block, zeroed and marked; 0 exactly when all are in use; what it logs; a panic only with the log full |
| `FileSystem.FileSystem.Bfree` | kernel/fs.c:91-106 | clears one bit; its precondition, that the block is in use, is met at every call, so the panic is unreachable |
| `FileSystem.FileSystem.EnsurePointer` | kernel/fs.c:420-438 | a direct slot or the indirect pointer ends up filled, or every block is in use; the bytes of all files stay; what it logs is exactly what changed |
| `FileSystem.FileSystem.EnsureEntry` | kernel/fs.c:439-449 | the same for an entry of the indirect block, which is logged exactly when it changes |
| `FileSystem.FileSystem.Bmap` | kernel/fs.c:414-453 | the block of a file block index, 0 only with every block in use; existing mappings, all bytes of all files stay; the lowest free blocks are taken; exactly which blocks are logged, and that nothing else changed |
| `FileSystem.FileSystem.CopyIn` | kernel/fs.c:548-560 | one turn of the write loop copies a piece unless no block is left or the copy from user space fails, which leaves what could be read in the block, unlogged; otherwise it logs exactly what changed |
| `FileSystem.FileSystem.CopyAll` | kernel/fs.c:548-560 | the write loop stops short only on a full disk or a failing copy; the set of blocks logged is exact, and nothing else changed but the block of a failing copy |
| `FileSystem.FileSystem.Writei` | kernel/fs.c:537-571 | the file becomes prefix + data + suffix (of the part of the data that was copied, and what a failing copy left behind), -1 exactly for the three bad ranges and then nothing changed, a short count only for a full disk or a failing copy, no other file changes, ownership is kept, the blocks logged are exactly given, nothing else changed but the block of a failing copy, for mapped files their number is bounded by the worst case, and it panics if and only if the log is full when it comes to the inode |
| `FileSystem.FileSystem.Readi` | kernel/fs.c:503-528 | exactly the slice from off to min(off+n, size), or -1 if and only if that is more than can be copied out; without allocating or changing anything |
| `FileSystem.FileSystem.FreeDirect` | kernel/fs.c:464-469 | all direct blocks are freed, each in use until then |
| `FileSystem.FileSystem.FreeIndirect` | kernel/fs.c:471-481 | all blocks of the indirect block, then the block itself, are freed, each in use until then |
| `FileSystem.FileSystem.Itrunc` | kernel/fs.c:457-485 | exactly the blocks of that inode become free; the inode is empty; no other file changes |
| `FileSystem.FileSystem.Iput` | kernel/fs.c:346-372 | inode and blocks are freed exactly on dropping the last reference to a loaded inode without links |
| `FileSystem.FileSystem.WriteChunk` | kernel/file.c:155-171 | one transaction writes the next chunk; what it logs is exactly given, covers all that changed but the block of a failing copy, and for mapped files is at most MAXOPBLOCKS blocks, without a panic |
| `FileSystem.FileSystem.FullChunk` | kernel/file.c:155-171 | the chunk of `LogBudget.FullChunkLogs` carried out: it writes everything and logs 10 or 11 blocks |
| `FileSystem.FileSystem.TightChunk` | kernel/file.c:149-154 | the budget is attained: from every valid state of that shape the transaction logs exactly MAXOPBLOCKS blocks |
| `FileSystem.FileSystem.UnmappedChunk` | kernel/file.c:149-154 | the invariant that files are mapped up to their size is needed: from every such state without it the transaction logs MAXOPBLOCKS + 1 blocks |
| `FileSystem.FileSystem.Filewrite` | kernel/file.c:149-173 | the file holds the written prefix of the data, the offset advances by it, the result is n exactly when all was written, it stops short only for the stated reasons; there is one transaction per chunk begun, each within MAXOPBLOCKS and without a panic, and together they logged everything that changed but what a failing copy left behind |
| `LogPlan.FreeFirst` | kernel/fs.c:65-89 | the lowest free blocks, in order |
| `LogPlan.FreshIs` | kernel/fs.c:414-453 | the blocks a series of writes takes are those of the slots it fills and the indirect block, as many as were missing |
| `LogPlan.PlanExact` | kernel/fs.c:537-571 | what writing a range of file blocks logs, as far as the disk has room, is the set that can be told from the state before: the blocks there, the lowest free ones, their free-map blocks, and the indirect block if an entry is missing |
| `LogPlan.PlanLarge` | kernel/fs.c:548-560 | that is at least one block for every file block written |
| `LogPlan.PlanMonotone` | kernel/fs.c:548-560 | writing further logs all that, and more |
| `LogPlan.JoinWrites` | kernel/fs.c:537-571 | two writes after each other log what one write of both would |
| `LogPlan.NextWrite` | kernel/fs.c:537-571 | the next write of a series leaves it whole, or stuck at a block that is not there on a full disk |
| `LogPlan.WholeFits` | kernel/log.c:221-222 | a series that was written whole has met a full log if and only if that can be told before |
| `LogPlan.StuckFits` | kernel/log.c:221-222 | the same for one that ran out of blocks |
| `LogPlan.WholeOverruns` | kernel/log.c:221-222 | one that meets a full log part of the way was too big as a whole |
| `LogPlan.LogsMore` | kernel/fs.c:537-571 | writing n file blocks, if there are blocks for them, logs more than n |
| `LogPlan.AlwaysTooBig` | kernel/log.c:221-222 | 29 file blocks in several writes are too big in every state, since with the inode they fill the log |
| `LogPlan.EmptyFile` | kernel/log.c:221-222 | for a file without blocks it is too big if and only if the blocks in the log, its inode and free-map blocks, and the blocks it takes, come to LOGBLOCKS |
| `CrashFiles.InodeReadsBack` | kernel/fs.c:226-242 | an inode stored into its slot of an inode block reads back, and the other inodes of the block stay |
| `CrashFiles.BitReadsBack` | kernel/fs.c:75-83 | a bit stored in the free map reads back, and the other bits of the block stay |
| `CrashFiles.FilesOnDisk` | kernel/fs.c:302-327 | the files read from the bytes of the disk, through its on-disk inodes, are the files of the model, and so is its free map |
| `CrashFiles.RepresentsFrame` | kernel/log.c:66-124 | files depend only on blocks outside the log |
| `CrashFiles.PublishedThen` | kernel/log.c:194-204 | the version published last is what readers saw at that commit |
| `CrashFiles.FilesSurvive` | kernel/log.c:117-124 | after a crash anywhere in any interleaving, every file and the free map are what they were at the last commit |
| `CrashFiles.WriteStepped` | kernel/fs.c:537-571 | what writei promises about the blocks it logs is what an operation has to |
| `CrashFiles.WriteCarried` | kernel/fs.c:537-571 | a disk on which the logged blocks, and no others, have become those of the new state holds the new state |
| `CrashFiles.ElsewhereSame` | kernel/bio.c:96-137 | between two points of a run, readers see changes only in the blocks that were modified |
| `CrashFiles.Represented` | kernel/log.c:127-176 | in a run whose operations are writes, the disk that readers see holds the state after each of them |
| `CrashFiles.CommitBetween` | kernel/log.c:147-176 | a commit comes between two operations, never inside one |
| `CrashFiles.WritesSurvive` | kernel/log.c:117-124 | after a crash in such a run, the files and the free map are those after the first j operations, for one j: all that ended by the last commit, none in part, and none of the others |
| `PageModel.TranslateIsPte` | kernel/vm.c:95-118 | walking the three levels in raw memory gives exactly the finite map from virtual page numbers to entries |
| `PageModel.SetPteMaps` | kernel/vm.c:188-190 | distinct virtual pages use distinct entries: storing one leaves all others, of all page tables, as they were |
| `PageModel.TakeKeeps` | kernel/kalloc.c:75-91 | taking a page off the free list keeps list, tables and user pages a partition |
| `PageModel.GiveKeeps` | kernel/kalloc.c:48-68 | and so does putting one back |
| `PageModel.AddTableKeeps` | kernel/vm.c:110-115 | a new page-table page maps nothing |
| `PageModel.AddLeafKeeps` | kernel/vm.c:186-190 | mapping a page changes the map there and nowhere else |
| `PageModel.RemoveLeafKeeps` | kernel/vm.c:226-238 | unmapping a page changes the map there and nowhere else, and leaves the page to be freed |
| `PageModel.DropTableKeeps` | kernel/vm.c:295-311 | freeing an empty table changes no mapping |
| `PageModel.ClearSlotKeeps` | kernel/vm.c:300-304 | clearing the entry of a freed table makes the tree whole again |
| `PageFrames.GrownUndone` | kernel/vm.c:258-269 | growing and unmapping what was added gives every data page back |
| `PageFrames.SpreadUndone` | kernel/vm.c:357-359 | and so does undoing a partial copy |
| `PageFrames.AllReleased` | kernel/vm.c:316-321 | unmapping user memory and freeing the tables releases every page of the page table, once, and no other |
| `PageFrames.RootUndone` | kernel/proc.c:194-207 | a page table given up half built leaves every page where it was |
| `VirtualMemory.Vm.Freerange` | kernel/kalloc.c:34-42 | exactly the pages wholly inside the range go on the free list |
| `VirtualMemory.Vm.Kalloc` | kernel/kalloc.c:75-91 | a free page, or 0 exactly when none is free |
| `VirtualMemory.Vm.Kfree` | kernel/kalloc.c:48-68 | the page becomes free; no other page is touched |
| `VirtualMemory.Vm.Descend` | kernel/vm.c:101-116 | one level down; a table is created only if asked for and missing |
| `VirtualMemory.Vm.Walk` | kernel/vm.c:95-118 | the table holding the entry for an address; with allocation it may add tables but never changes the map of any page table |
| `VirtualMemory.Vm.MapOne` | kernel/vm.c:186-194 | one more page mapped, or no page left for a table |
| `VirtualMemory.Vm.Mappages` | kernel/vm.c:168-197 | exactly the requested pages are mapped, consecutively; -1 exactly when kalloc was refused, with a prefix mapped |
| `VirtualMemory.Vm.UnmapOne` | kernel/vm.c:225-238 | removes one mapping if it exists |
| `VirtualMemory.Vm.Uvmunmap` | kernel/vm.c:215-239 | exactly the mappings in the range disappear, and exactly their user pages go to the free list (or to the caller) |
| `VirtualMemory.Vm.Uvmdealloc` | kernel/vm.c:278-290 | the pages between the two rounded sizes, and no others, are unmapped and freed |
| `VirtualMemory.Vm.AddPage` | kernel/vm.c:257-269 | one page taken and mapped, or given back |
| `VirtualMemory.Vm.Uvmalloc` | kernel/vm.c:244-272 | fresh pages with the right permissions at exactly the new addresses; 0 exactly when kalloc was refused, and then every data page is back and no mapping differs; so for every size past the trapframe |
| `PageFrames.GrownSizes` | kernel/vm.c:257-269 | an address space grows by no more pages than there are |
| `VirtualMemory.Vm.CopyPage` | kernel/vm.c:338-354 | one page copied with its flags, or skipped where there is none |
| `VirtualMemory.Vm.CopyBelow` | kernel/vm.c:338-360 | every page below the end has the same flags and contents in the copy, absent pages stay absent, the original is untouched; on failure every data page is given back |
| `VirtualMemory.Vm.CopyTrapframe` | kernel/vm.c:338-354 | the turn that comes to the trapframe panics unless memory runs out |
| `VirtualMemory.Vm.Uvmcopy` | kernel/vm.c:329-360 | for every size: a copy if and only if the size is at most TRAPFRAME and kalloc was not refused; a panic if and only if it is larger and kalloc was not refused; otherwise -1 with every data page given back |
| `VirtualMemory.SbrkSums` | kernel/sysproc.c:54-58 | lazy calls add up, with no bound but wrap-around |
| `VirtualMemory.PastTrapframe` | kernel/sysproc.c:54-58 | the largest lazy calls get past the trapframe at the 128th |
| `VirtualMemory.Vm.FreeBranch` | kernel/vm.c:298-309 | frees the tables below one entry; the panic on a leaf is unreachable once nothing is mapped |
| `VirtualMemory.Vm.Freewalk` | kernel/vm.c:294-311 | frees exactly the tables at or below the given one |
| `VirtualMemory.Vm.Uvmfree` | kernel/vm.c:315-321 | every user and table page of the page table is freed once, no other page is |
| `VirtualMemory.Vm.ProcFreepagetable` | kernel/proc.c:214-220 | the same with the trampoline and trapframe mapped, when user mappings lie below the rounded size |
| `VirtualMemory.Vm.Vmfault` | kernel/vm.c:496-518 | a zeroed page exactly when the address is below sz, unmapped, and kalloc was not refused; otherwise every data page is given back |
| `VirtualMemory.Vm.NewPagetable` | kernel/vm.c:199-210 | an empty page table from a free page |
| `VirtualMemory.Vm.ProcPagetable` | kernel/proc.c:180-210 | a page table that maps the trampoline and the trapframe and nothing else; on failure every page is back |
| `Arena.StopsAtPlace` | user/umalloc.c:30-32 | the two stopping tests of the search hold at the block's place in the list and nowhere else |
| `Arena.NoOverlap` | user/umalloc.c:24-90 | no two blocks, live or free, overlap |
| `Arena.JoinUpperKeeps` | user/umalloc.c:33-37 | joining the block above leaves only the block itself to be linked in |
| `Arena.LinkInKeeps` | user/umalloc.c:38-42 | joining the block below, or linking in, restores the full invariant |
| `Arena.FreeKeeps` | user/umalloc.c:24-44 | freeing any live block keeps the list circular, address-ordered, disjoint and fully coalesced, and loses or gains no unit |
| `Arena.UnlinkKeeps` | user/umalloc.c:76-77 | taking a whole block off the list keeps the invariant |
| `Arena.SplitKeeps` | user/umalloc.c:78-82 | taking the tail of a block keeps the invariant; the tail is new and disjoint |
| `Arena.GrantKeeps` | user/umalloc.c:52-58 | units obtained from sbrk become one live block |
| `Umalloc.UnitsEnough` | user/umalloc.c:69 | a request gets room for its bytes and less than a unit to spare |
| `Umalloc.RequestFits` | user/umalloc.c:46-61 | for 32-bit requests, sbrk is asked for the number of bytes morecore goes on to use if and only if the request is at most 2^31 - 32 bytes |
| `Umalloc.GrantCovers` | kernel/proc.c:239-256 | after the system call the units morecore uses are the process's if and only if the request is at most 2^31 - 32 bytes |
| `Umalloc.RealValid` | user/umalloc.c:46-61 | an arena is sound in the memory the process has if and only if every unit of it was obtained |
| `Umalloc.Verdict` | user/umalloc.c:46-61 | so a granted request leaves a sound arena if and only if it did not ask or was at most 2^31 - 32 bytes |
| `Umalloc.RequestTooLarge` | user/umalloc.c:54 | one byte more and sbrk is asked to shrink the heap by 2^31 bytes |
| `Umalloc.SizeFits` | user/umalloc.c:14 | block sizes fit the 32-bit size field |
| `Umalloc.Heap.Free` | user/umalloc.c:24-44 | the block, and no other, stops being live; the invariant is kept and the list has room for a block of its size |
| `Umalloc.Heap.Splice` | user/umalloc.c:33-43 | the coalescing half of free |
| `Umalloc.Heap.Morecore` | user/umalloc.c:46-61 | the units asked for, and no others, are added to the free list, for every size; what sbrk really did to the process's memory is recorded beside it |
| `Umalloc.Heap.TakeWhole` | user/umalloc.c:76-77 | an exact fit is unlinked |
| `Umalloc.Heap.TakeTail` | user/umalloc.c:78-82 | a larger block gives up its tail |
| `Umalloc.Heap.Carve` | user/umalloc.c:75-84 | the result is live, of exactly the size asked for, and every other live block is unchanged |
| `Umalloc.Heap.Malloc` | user/umalloc.c:63-90 | for every 32-bit request: the result is a new live block of the size asked for, no live block changes, sbrk is asked exactly when no free block fits, 0 only when it refuses, the wrap-around search terminates; and the arena is sound in the memory obtained if and only if sbrk refused, the free list had room, or the request was at most 2^31 - 32 bytes |
| `Virtqueue.WrapIndex` | kernel/virtio_disk.c:272-323 | 16-bit ring indices tell apart counts at most NUM apart and find the right slot, across every wrap |
| `Virtqueue.HasRoom` | kernel/virtio_disk.c:271-277 | a request not listed in a ring leaves room in it, so no unread entry is overwritten |
| `Virtqueue.PlaceKeeps` | kernel/virtio_disk.c:235-273 | formatting a request and storing its head in the available ring, not yet visible to the device, keeps the partition of descriptors and both rings exact |
| `Virtqueue.ShowKeeps` | kernel/virtio_disk.c:275-277 | advancing the available index makes exactly that request visible |
| `Virtqueue.Capacity` | kernel/virtio_disk.c:224-232 | with no allocation under way the free descriptors are NUM less three per request, so a third request always waits |
| `Virtqueue.TakeKeeps` | kernel/virtio_disk.c:271-277 | the next available entry is a queued request, in order of submission |
| `Virtqueue.CompleteKeeps` | kernel/virtio_disk.c:312-324 | a completion in any order, with any status, is recorded once |
| `Virtqueue.SeeKeeps` | kernel/virtio_disk.c:312-324 | the next used entry is a completed request whose note names its own buffer; consuming it, when its status is 0, keeps the invariant |
| `Virtqueue.RetireKeeps` | kernel/virtio_disk.c:288-289 | a request seen by the driver gives up exactly its three descriptors |
| `VirtioDisk.Disk.AllocDesc` | kernel/virtio_disk.c:155-166 | the lowest free descriptor, or -1 exactly when none is free |
| `VirtioDisk.Disk.FreeDesc` | kernel/virtio_disk.c:168-182 | a descriptor in use becomes free; the panics are unreachable |
| `VirtioDisk.Disk.Alloc3Desc` | kernel/virtio_disk.c:199-213 | three different free descriptors exactly when there are three, else nothing changes |
| `VirtioDisk.Disk.Submit` | kernel/virtio_disk.c:215-273 | a request is placed exactly when three descriptors are free, which with no allocation under way is when fewer than two requests are; it has descriptors nobody else has, and no other request or descriptor changes |
| `VirtioDisk.Disk.Store` | kernel/virtio_disk.c:235-273 | the stores to descriptors, notes and ring are the placing step of the model |
| `VirtioDisk.Disk.Announce` | kernel/virtio_disk.c:275-277 | the index store makes exactly the placed request visible, next in order |
| `VirtioDisk.Disk.IntrStep` | kernel/virtio_disk.c:312-324 | one used-ring entry is consumed, once, and clears the busy flag of the buffer that submitted it and of no other; the panic exactly for a completion with a bad status |
| `VirtioDisk.Disk.Intr` | kernel/virtio_disk.c:294-327 | with the device running between any two turns, the loop ends with every completed request seen, or on a bad status; requests only move forward |
| `VirtioDisk.Disk.Finish` | kernel/virtio_disk.c:288-291 | exactly the three descriptors of the request become free |
| `VirtioDisk.Disk.FreeChain` | kernel/virtio_disk.c:184-197 | following the next fields frees the chain and terminates |
| `VirtioDisk.Disk.DeviceTake` | kernel/virtio_disk.c:247-277 | what the device reads through the ring and the descriptors is the request as submitted, in order |
| `VirtioDisk.Disk.ReadRequest` | kernel/virtio_disk.c:235-269 | what the device finds behind a head, in any phase, is the request as submitted |
| `VirtioDisk.Disk.PutUsed` | kernel/virtio_disk.c:312-324 | the status byte, the used-ring slot and the index, and nothing else, are stored |
| `VirtioDisk.Disk.DeviceComplete` | kernel/virtio_disk.c:312-324 | the device may complete taken requests in any order, with any status |
| `VirtioDisk.Disk.DeviceRuns` | kernel/virtio_disk.c:312-324 | whatever the device does by itself, the invariant holds, nothing is consumed and every request keeps its descriptors |
| `Pipe.Counters` | kernel/pipe.c:88-123 | 32-bit counters tell empty from full and find the right slot, across every wrap |
| `Pipe.Pipe.PutByte` | kernel/pipe.c:95 | the byte is appended to the bytes put in, none unread is overwritten |
| `Pipe.Pipe.TakeByte` | kernel/pipe.c:123 | the byte is the oldest one not taken |
| `Pipe.Pipe.Write` | kernel/pipe.c:76-103 | the bytes put in are a contiguous part of the source; -1, sleep or a short count exactly for the stated reasons; bytes taken stay a prefix of bytes put in, at most PIPESIZE behind |
| `Pipe.Pipe.Read` | kernel/pipe.c:105-130 | with successful copies it returns the next bytes in order, as many as asked for or all there are, and 0 for a positive length only when the write end is closed and everything has been taken |
| `Pipe.Pipe.Close` | kernel/pipe.c:58-74 | the memory is given back exactly when both ends are closed |
| `Descriptors.Capture` | kernel/proc.c:724-808 | a table is accepted if and only if every open descriptor is an inode, a device or a pipe end and each pipe has exactly two descriptors, one read-only and one write-only; the header then describes every slot |
| `Descriptors.AddRef` | kernel/proc.c:763-784 | the three reference counts of a pipe are the numbers of its ends seen so far |
| `Descriptors.OtherEndIs` | kernel/proc.c:802-808 | in an accepted table every pipe end has exactly one partner, of the opposite direction |
| `Descriptors.MatesOf` | kernel/proc.c:802-808 | the header of an accepted table pairs its pipe entries |
| `Descriptors.FindPartner` | kernel/proc.c:918-927 | the next entry with the same number and no file, -1 exactly when there is none; from a paired header, the partner |
| `Descriptors.Restore` | kernel/proc.c:880-951 | for any header: it succeeds if and only if pipe numbers come in twos and every pipe entry is one-way; from a header with paired pipe entries, every slot is rebuilt with its type, direction, inode, offset or major, and slots share a pipe exactly when their numbers agree |
| `Descriptors.SameGraphOf` | kernel/proc.c:880-951 | the restored table is the same sharing graph as the saved one |
| `Descriptors.MatesPair` | kernel/proc.c:914-947 | paired pipe entries come in twos |
| `Descriptors.RoundTrip` | kernel/proc.c:724-951 | saved if and only if acceptable, and what comes back is the same graph |
| `AddressSpace.RecordReadsBack` | kernel/vm.c:577-595 | a page record reads back as the page, zeros for an absent one, wherever it lies |
| `AddressSpace.StreamReadsBack` | kernel/vm.c:571-597 | so does the whole stream, whatever follows it |
| `AddressSpace.RoundTrip` | kernel/vm.c:542-597 | reading at the offset of writing gives back every page and stops exactly at the end of what was written, however long the file was |
| `AddressSpace.FindPage` | kernel/vm.c:551-553 | whether and where a page is mapped, without changing memory |
| `AddressSpace.LoadPage` | kernel/vm.c:551-561 | the bytes of a page in physical memory, if it is mapped |
| `AddressSpace.LoadedNext` | kernel/vm.c:577-595 | storing the next page read fills that page of that page table and keeps those before it |
| `AddressSpace.StreamSize` | kernel/vm.c:549-564 | the stream has a byte for every page and PGSIZE more for every page present |
| `AddressSpace.Outcome` | kernel/vm.c:555-563 | a write within the transaction leaves the series whole, short of blocks, or at a full log, and the set of blocks logged so far is exactly given |
| `AddressSpace.Append` | kernel/vm.c:555-563 | one write extends the stream, with exactly the blocks logged so far, meets a full log, or fails for a stated reason |
| `AddressSpace.WriteRecord` | kernel/vm.c:550-564 | one turn of the save loop appends one record, with exactly the blocks logged so far, meets a full log, or fails for a stated reason |
| `AddressSpace.CheckpointAddrSpace` | kernel/vm.c:542-567 | the file is the old file with the stream of the page table's pages written over it, and the blocks logged are exactly those of one write of it all; or a panic at a full log, or -1 for an offset past the end, a file too small or a full disk; memory and every other file stay |
| `AddressSpace.ClearFits` | kernel/log.c:221-222 | a series that went through fits the log and the disk, as told from the state before |
| `AddressSpace.ShortFits` | kernel/log.c:221-222 | one that ran out of blocks had no room, and fits the log |
| `AddressSpace.OverrunFits` | kernel/log.c:221-222 | one that met a full log was too big |
| `AddressSpace.ReadBack` | kernel/vm.c:577-595 | one turn of the restore loop reads one record |
| `AddressSpace.RestoreAddrSpace` | kernel/vm.c:570-597 | the pages of the page table hold what the stream describes, no mapping and no other page changes; -1 only for a broken stream or an unmapped page; the file system is unchanged |
| `AddressSpace.SaveAndRestore` | kernel/vm.c:542-597 | for any page table: saved through writei and restored through readi into the pages of another, every page below sz holds what it did, zeros where there was none, and exactly the written stream is consumed; for a stream that fits the file, it panics if and only if it is too big for the log, and succeeds if and only if it is not and there is room |
| `Encoding.NumberReadsBack` | kernel/proc.h:110-137 | a number stored in little-endian bytes reads back |
| `Encoding.SignedReadsBack` | kernel/proc.h:115-123 | so does a signed field, in two's complement |
| `Encoding.WordsReadBack` | kernel/vm.c:577-595 | a page of bytes stored as words of memory reads back as the same bytes |
| `CheckpointHeader.FdReadsBack` | kernel/proc.h:114-123 | a descriptor entry reads back from its bytes |
| `CheckpointHeader.FdsReadBack` | kernel/proc.h:133-136 | so does the table of them |
| `CheckpointHeader.RegistersReadBack` | kernel/proc.h:130 | and the saved registers |
| `CheckpointHeader.HeaderReadsBack` | kernel/proc.h:125-137 | every header whose fields fit their types reads back from its 720 bytes |
| `Checkpoint.SavedReads` | kernel/proc.c:810-834 | in a file that holds a checkpoint, restoring finds the header and the stream that were saved, whatever the file held before |
| `Checkpoint.SizeIs` | kernel/proc.c:814-828 | the size of a checkpoint, from the numbers of pages below sz and of those present |
| `Checkpoint.NotRefused` | kernel/vm.c:555-563 | a checkpoint never comes to the largest size of a file, since the log is full long before |
| `Checkpoint.CheckpointProc` | kernel/proc.c:697-834 | from the state before: it panics if and only if the descriptors can be saved and header and pages are too big for the log; it succeeds if and only if they can be, they are not, and there is room on the disk; then the file holds header and pages over its old contents and exactly the blocks of that were logged; memory and every other file stay |
| `Checkpoint.SevenPages` | kernel/proc.c:709-832 | from every state with 30 free blocks, whatever the log and the file hold, a process with seven pages present is too big |
| `Checkpoint.ThreePages` | kernel/proc.c:709-832 | with three pages present, a checkpoint that succeeds has logged more than the MAXOPBLOCKS blocks set aside for an operation |
| `Checkpoint.NewSpace` | kernel/proc.c:859-874 | a page table with a trapframe and sz bytes of memory, if and only if sz is not 0 and memory did not run out |
| `Checkpoint.RestoreProc` | kernel/proc.c:838-967 | for every file: it succeeds if and only if the header is good, its size is not 0, its pipe entries come in twos and are one-way, the stream is complete, and memory did not run out; the new process has the pages, registers, name, directory (the root for none) and descriptors that the file describes |
| `Checkpoint.RoundTrip` | kernel/proc.c:697-967 | checkpoint then restore: if and only if the descriptors can be saved, sz is not 0, the checkpoint fits the log and the disk, and memory did not run out, every page below sz, every register but a0 (which becomes 1), name, directory and the sharing graph of the descriptors come back; it panics if and only if it does not fit the log |
| `ShellGrammar.ItemsSound` | user/sh.c:421-452 | what a simple command accepts is a sequence of words and redirections, wrapped in order |
| `ShellGrammar.LineSound` | user/sh.c:350-419 | what the mutually recursive parser accepts has a derivation tree that stands for the command returned |
| `ShellGrammar.CommandComplete` | user/sh.c:405-452 | every simple or parenthesized command of the grammar is accepted |
| `ShellGrammar.LineComplete` | user/sh.c:350-378 | every line of the grammar is accepted, with the command of its tree |
| `ShellGrammar.ParseIff` | user/sh.c:333-452 | the parser returns a command if and only if the tokens have a derivation tree standing for that command |
| `ShellGrammar.Accepts` | user/sh.c:333-452 | it succeeds exactly on the grammar, and then uses up the line |
| `ShellGrammar.Unambiguous` | user/sh.c:333-452 | all derivations of a line stand for the same command |
| `Shell.GetToken` | user/sh.c:271-314 | takes exactly the first token off the line, and makes progress |
| `Shell.Peek` | user/sh.c:316-326 | skips white space only, and tells whether one of the characters comes next |
| `Shell.ReadRedirs` | user/sh.c:380-403 | takes exactly a maximal run of redirections |
| `Shell.ReadBlock` | user/sh.c:405-419 | agrees with the parser on tokens, command and remaining input |
| `Shell.ReadItems` | user/sh.c:432-451 | agrees with the parser on tokens, including each way to fail |
| `Shell.ReadExec` | user/sh.c:421-452 | agrees with the parser on tokens |
| `Shell.ReadPipe` | user/sh.c:367-378 | agrees with the parser on tokens |
| `Shell.ReadLine` | user/sh.c:350-365 | agrees with the parser on tokens; terminates |
| `Shell.Nulterminate` | user/sh.c:454-499 | puts a NUL at the end of every word of the tree and changes nothing else |
| `Shell.WordsReadBack` | user/sh.c:454-499 | no word's terminator lies inside another word, so every pointer reads back the token seen while parsing |
| `Shell.Parsecmd` | user/sh.c:333-348 | for every NUL-terminated line: succeeds if and only if the line is in the grammar, returns the command of its tree, and every argument and file name reads back as it stood in the line |
| `ProcessSafety.StepKeeps` | kernel/proc.c:327-588 | each of the 31 kinds of step, by any CPU, with preemption and interrupts wherever no lock is held, keeps the invariant |
| `ProcessSafety.RunInv` | kernel/proc.c:327-588 | the invariant holds at every point of every interleaving from boot |
| `ProcessSafety.OneCpu` | kernel/proc.c:425-464 | a process is current on at most one CPU |
| `ProcessSafety.PickedOffCpu` | kernel/proc.c:442-458 | a CPU picks a process only once the previous one has saved its context, left its stack and released p->lock |
| `ProcessSafety.FreedOffCpu` | kernel/proc.c:383-402 | kwait frees a zombie only after its final switch off its stack |
| `ProcessSafety.ZombiesFreedOnce` | kernel/proc.c:159-176 | every death is freed at most once, and a process that is no longer a zombie has been |
| `ProcessSafety.NoSleeperLeft` | kernel/proc.c:543-588 | no lost wakeup: nobody sleeps, or is about to, on a condition that holds when nobody has its lock, where any number of conditions can share a lock (a sleep lock, the two of a pipe, those of the log and the disk) and be announced by a process or an interrupt handler |
| `ProcessSafety.NoParentLeft` | kernel/proc.c:371-416 | no lost wakeup: no parent sleeps in kwait while it has a zombie child, unless wait_lock is held by someone still waking it |
| `ProcessSafety.WakeupReachesAll` | kernel/proc.c:574-588 | when wakeup has gone through the table, nobody sleeps on its channel or is about to |
| `ProcessSafety.HolderKept` | kernel/sleeplock.c:33-41 | a sleep lock leaves its holder only by that holder's release |
| `ProcessSafety.TakenWhenFree` | kernel/sleeplock.c:21-31 | a sleep lock is taken only when it has no holder, so it has at most one |
| `ProcessFrames.OneHolder` | kernel/proc.c:543-570 | no two threads are between taking and releasing the same condition lock |
| `ProcessFrames.StillWoken` | kernel/proc.c:574-588 | a wakeup under way stays under way until all have heard it |
| `ProcessFrames.FineIsEnough` | kernel/proc.c:327-588 | local conditions on the processes a step touches give the global invariant |

## Left out

- One device only. The free-map blocks are modelled decoded (bits, not bytes), as are inodes except in `CrashFiles`. The boot block, super block and mkfs layout are given.
- GroupCommit: the log's own reads and writes of log blocks go straight to the disk there; `LogDisk` takes them through the cache. bget() running out of buffers blocks a step and is a panic outcome in `BufferCache` (NBUF equals LOGBLOCKS, and a commit needs buffers besides the pinned ones). The waits of begin_op() are guards, a process holds each buffer at most once, and an operation logs at most MAXOPBLOCKS blocks, to which a checkpoint does not keep (`Checkpoint.ThreePages`).
- GroupCommit.AppendFits: speaks of appending writes only; an absorbing log_write on a full log panics before it looks for the block, which `GroupCommit.PanicOnlyWhenAbsorbing` pins down.
- FileSystem.FileSystem.Filewrite: no other process writes the file between its chunks, and the length is not negative.
- FileSystem.FileSystem.Bfree: freeing a free block is a precondition, met at every call in the model.
- FileSystem.FileSystem.constructor: takes the fresh layout as given; building an image byte by byte is the work of mkfs.
- CrashFiles.WritesSurvive: the operations follow each other, and each is a writei() that changes in the cache what it logs; operations that overlap in time, and those that a failing copy leaves partly unlogged, are left out.
- ilock, iget, ialloc, ireclaim, directories, path lookup, link counts and the in-memory inode table: the inode layer is proved for any inodes a caller may have.
- VirtualMemory.Vm.UnmapOne: clears the entry before it frees the page, where the source frees first; the two stores are to different pages and under no other observer.
- VirtualMemory.Vm.MapOne: permissions have at least one bit besides the valid bit, as at every call in the source; without one the entry would read as a pointer to a table.
- VirtualMemory.Vm.Mappages: the same requirement on permissions; page-table entries are unbounded numbers rather than 64-bit words.
- VirtualMemory.Vm.Uvmalloc: says nothing about the contents of the new pages, whose zero-fill is compiled out in this configuration; `VirtualMemory.Vm.Vmfault` states its zero-fill.
- VirtualMemory.Vm.Uvmfree: sz is at most TRAPFRAME, as for uvmdealloc(), proc_freepagetable() and vmfault(); what a process past that size, which `VirtualMemory.PastTrapframe` shows possible, meets on exit or on a fault is left out.
- Kernel page table, copyin, copyout, copyinstr, walkaddr, uvmclear, the trapframe page, TLB flushes and memory barriers.
- Umalloc.Heap.Malloc: where sbrk() grants is a parameter, above all earlier grants and below 2^36 bytes; a heap that a call has left outside its memory is not followed further.
- VirtioDisk.Disk.Submit: device initialisation, notification, interrupt acknowledgement and barriers are not modelled; the sleeps of virtio_disk_rw() are the gaps between `Submit`, `Announce`, `IntrStep` and `Finish`.
- Pipe.Pipe.Write: sleeping and waking inside the pipe are the gaps between calls; pipealloc()'s failure paths and signed lengths below 0 are left out.
- Processes: pids, the killed flag (kwait may stop at the end of any scan), exit status, trapframes and page tables are not part of the state; an interrupt handler runs on top of a process, so those that come while a CPU is in the scheduler are left out; acquiring a free spin lock is one step; liveness and fairness are not claimed.
- Checkpoint.CheckpointProc: nobody else logs during the checkpoint, what create() and others have logged before is given, and buffers enough are free (`GroupCommit` says the same of every operation); padding bytes of the header are zeros; opening the file by path is left out.
- Checkpoint.RestoreProc: physical memory is smaller than an address space, as PHYSTOP makes it; the cleanup on failure, running out of files, pipes or inodes, and the process table are left out; the name is copied as 16 bytes.
- FileSystem.FileSystem.Readi: what a copy to user space that fails has copied of its last piece is not told.
- AddressSpace.RestoreAddrSpace: page permissions are not preserved by the source, and not modelled.
- Descriptors.Restore: allocation failures are left out, as are pipe contents and offset sharing between duplicated descriptors, which the source does not preserve.
- Shell.Parsecmd: allocation of the nodes always succeeds; running commands is left out.
- Console, printf, string helpers, system-call plumbing, ELF loading, the small utilities and test programs: easy members or input and output.
