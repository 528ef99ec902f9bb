# xv6 in Dafny

A model of the hard parts of the x86 teaching kernel xv6 (with `mprotect`/`munprotect`), its
file-system builder, user allocator, shell parser and grep matcher, and proofs about them.
`dafny verify dfyconfig.toml` checks everything.

Code that updates things in place is modelled by classes with `modifies` clauses and loops, proved
against functions or relations on a value of type `State`; concurrent protocols are step machines
with an invariant proved over all runs. Sizes such as NBUF, LOGSIZE, MAXOPBLOCKS, NDIRECT,
NINDIRECT, BSIZE, NPROC and PIPESIZE are parameters.

- Storage: `GroupCommit` (begin_op, end_op, log_write over all interleavings), `Cache` and `Bio`
  (buffer cache), `Writes`, `Recovery` and `Log` (redo log and crashes), `FsBlocks`, `Dinodes`,
  `FsFiles`, `Fs` (bitmap, block maps, packed inodes, files), `Superblock`, `FsDisk` and `FsCrash`
  (files, log and crashes together), `Links`, `DirBytes`, `Dirs` (directories and link counts), `Mkfs`.
- Memory: `PageMem`, `VmSteps`, `Vm` (page tables and the page allocator).
- Processes: `Sleep` and `SleepLock`, `Pipe`, `Proc`, `ProcTable`.
- User level: `Umalloc`, `Shell`, `ShellPrint`, `ShellCode`, `ShellAppend`, `Grep`.
- Shared: `Counting`, `Arith`, `Options`.

How the proofs of storage and memory work: memory and disk are untyped (a page is words, a block is
bytes), and a ghost sequence `use` says what each page or block is for. The invariants state that
`use` and the pointers found in memory agree in both directions, which is the partition and
ownership property; that one operation does not disturb another's data follows from it.

How the layers meet: the methods of `Fs` prove that every block they change is in the set of blocks
they log. `FsDisk` reads bitmap, inodes and files off the blocks of a disk, and `FsCrash` concludes
that whatever the moment of a crash, the disk that recovery leaves holds a file system in order with
either all or nothing of each operation.

Kernel panics that depend on running out of something (no buffer, no free block, no inode) are
outcomes of the modelled operation, and its contract says when they occur. Panics that signal a broken invariant are shown to be
unreachable, or are preconditions where the caller has to exclude them.

Where code and comments differ the code is followed. The length test of `mprotect` fails only when
`len <= 0` and the wrapped end exceeds the limit, and a failing call has already cleared the flag on
the pages before the failing one; where a page table is missing it reads through a null pointer.
`allocuvm` on failure keeps page tables it added. `mkfs` gives the log one block less than the panic
test of `log_write` needs, and that test comes before the search for a block that is logged already,
so that logging a block again on a full log panics too. `mkfs` leaves a hole in the root directory
when the entries fill its last block. `pipewrite` returns without a wakeup when its caller was
killed. `create`, `mkdir` and `link` do not look at the link count of the directory they add a name
to: in a removed directory that is still open, a new file gets a link that is not counted, and a new
directory revives the removed one, whose `..` then counts as a link that its parent does not have.

## Model

| member | source | states |
|---|---|---|
| GroupCommit.GroupCommitSafe | log.c:126-174 | in every reachable state: committing implies no outstanding operation (the end_op panic is unreachable), idle and not committing implies an empty log, nobody sleeps in begin_op who could proceed, and logged blocks plus all unspent reservations fit in LOGSIZE |
| GroupCommit.StepKeepsInv | log.c:126-233 | every step of begin_op, log_write, end_op and commit keeps the protocol invariant |
| GroupCommit.AppendInBounds | log.c:218-230 | although the size test is made before the lock is taken, an append under the lock stays inside the header array |
| GroupCommit.LogGrows | log.c:213-233 | a block given to log_write is in the log, and only a commit, while no operation is open, takes blocks out |
| GroupCommit.OperationStays | log.c:126-174 | over whole runs: what is in the log at some moment of an operation stays there while the operation is open, so the commit gets all of it |
| GroupCommit.NoWritePanic | log.c:218-219 | a log_write with unspent reservation cannot panic when the on-disk log has room for the peak besides its header |
| GroupCommit.WritePanicIff | log.c:218-219 | and that condition is exact: with fewer log blocks a run reaches the panic |
| GroupCommit.PromisePanicIff | log.c:218-230 | over every log_write that keeps the promise, also of a block logged already with the reservation spent: none can panic if and only if the peak is below both LOGSIZE and the on-disk log |
| GroupCommit.ShippedRelogPanics | log.c:218-230 | with the shipped constants logging a block again can panic whatever the size of the on-disk log |
| GroupCommit.ShippedLogTooShort | mkfs.c:25 | with the shipped constants two processes can reach the panic, because mkfs sets nlog to LOGSIZE |
| Cache.InitInv | bio.c:39-56 | the cache after binit satisfies the cache invariant |
| Cache.StepKeepsInv | bio.c:61-141 | every step of bget, bread, bwrite, brelse and log_write by any process keeps it |
| Cache.RunInv | bio.c:61-141 | so it holds in every state of every run |
| Cache.Transparency | bio.c:61-141 | in every reachable state a valid buffer nobody is changing shows the disk overlaid with uncommitted writes, whatever is done to other buffers, a clean one equals its disk block, a dirty one is in the log header, no block of a real device is cached twice, and the list is a permutation of the buffers |
| Cache.ViewIsOverlay | bio.c:96-116 | block by block, what the cache shows is the disk overlaid with the uncommitted writes, unless the block's own buffer is being changed |
| Cache.CleanIsDisk | bio.c:96-116 | a valid clean buffer nobody is changing equals its disk block |
| Cache.PinnedUntilWritten | bio.c:78-91 | a dirty buffer keeps its block, is not recycled, and its home block on disk is untouched until bwrite |
| Cache.HeldIsStable | bio.c:96-141 | what other processes do never changes a buffer between its bread and its brelse |
| Cache.OrderIsRecency | bio.c:131-138 | in every run the list is in the order in which the buffers went out of use, latest first |
| Cache.RecyclesOldest | bio.c:78-91 | in every run the buffer that bget recycles is the one out of use longest among all that could be |
| Bio.Unlink | bio.c:132-133 | the two pointer writes of brelse take the buffer out of the doubly linked ring |
| Bio.LinkFront | bio.c:134-137 | the four pointer writes put it at the front of the ring |
| Bio.BufferCache.constructor | bio.c:39-56 | binit builds a ring of all buffers, most recently linked first |
| Bio.BufferCache.Lookup | bio.c:69-76 | the forward scan finds a buffer for the block, or there is none |
| Bio.BufferCache.FindUnused | bio.c:81-91 | the backward scan finds the least recently used buffer that is unreferenced and clean, or there is none |
| Bio.BufferCache.Bget | bio.c:61-93 | bget takes a hit or a miss step of the machine, and panics exactly when neither is possible |
| Bio.BufferCache.Iderw | memide.c:38-60 | a dirty buffer is written to its block, otherwise the block is read |
| Bio.BufferCache.Bread | bio.c:96-106 | the locked buffer shows the disk overlaid with uncommitted writes, whatever other buffers are being changed; it panics exactly when the block is not cached and every buffer is referenced or dirty |
| Bio.BufferCache.Bwrite | bio.c:109-116 | the block on disk becomes the buffer's data, in one write |
| Bio.BufferCache.Pin | log.c:228-231 | log_write's effect on the cache: the block is in the header and the buffer dirty |
| Bio.BufferCache.ToFront | bio.c:132-137 | relinking moves the buffer to the front and keeps the order of the others |
| Bio.BufferCache.Brelse | bio.c:120-141 | the lock and one reference are given up; an unreferenced buffer becomes most recently used |
| Recovery.HeaderRoundTrip | log.c:86-113 | reading a written log header gives back its block list |
| Recovery.CommitBefore | log.c:192-202 | a crash before the header write leaves every home block and the header as they were |
| Recovery.CommitPoint | log.c:196-197 | once log and header are written the transaction is durable |
| Recovery.CommitAfter | log.c:197-201 | after any later write it is durable still, and wholly installed once the header is erased |
| Recovery.RecoveredErased | log.c:115-122 | recovery of an empty log, crashed any number of times, changes no home block |
| Recovery.RecoveredDurable | log.c:115-122 | recovery of a durable transaction, crashed any number of times, ends wholly new with an empty log |
| Recovery.CrashAtomic | log.c:69-202 | a commit crashed after any block write, then recovered with any number of crashes, is wholly old if the crash came before the header write and wholly new otherwise |
| Recovery.EventIsAtomic | log.c:69-202 | each committed or crashed transaction takes effect entirely or not at all |
| Recovery.HistoryIsSerial | log.c:69-202 | any history of commits and crashes leaves the home blocks as the effective transactions alone would, in order |
| Log.LogLayer.WriteLog | log.c:177-190 | write_log copies the modified (cached) version of each logged block to its log slot, in order; it stops only when no buffer can be recycled, and never when two could be at the start |
| Log.LogLayer.WriteHead | log.c:101-113 | write_head writes the encoded header in one block write |
| Log.LogLayer.ReadHead | log.c:85-96 | read_head reads the block list that is on disk |
| Log.LogLayer.InstallTrans | log.c:69-82 | install_trans copies every log slot to its home block, in order |
| Log.LogLayer.LogAndMark | log.c:196-197 | no home block is written before the header write |
| Log.LogLayer.InstallAndErase | log.c:198-200 | after the last write the log is empty and cache and disk agree |
| Log.LogLayer.Recover | log.c:115-122 | the disk writes are exactly those of the recovery function, also when cut short; it completes whenever two buffers can be recycled |
| Log.LogLayer.Commit | log.c:192-202 | the disk writes are exactly those of the commit function, also when cut short, and from every such state recovery gives all-old or all-new; it completes whenever two buffers can be recycled, and stops only when none can |
| Log.LogLayer.LogWrite | log.c:213-233 | the block is recorded once (absorption) and pinned; it fails exactly when the size test fires |
| FsBlocks.GetPut | fs.c:384-391 | a 32-bit number stored in an indirect block is read back and disturbs no other |
| FsFiles.BitmapExact | fs.c:57-95 | a bitmap bit is set exactly for metadata and for blocks an inode slot, indirect pointer or indirect entry refers to |
| FsFiles.ReferredOnce | fs.c:373-400 | no block is referred to twice |
| FsFiles.WriteDone | fs.c:482-511 | after writei's loop and size update the file is the exact splice, has no hole, and other files are unchanged |
| FsFiles.OtherFileSame | fs.c:482-511 | another inode's contents do not change |
| FsFiles.ChunkBound | file.c:127-134 | one filewrite chunk logs at most MAXOPBLOCKS distinct blocks however many bitmap blocks there are |
| FsFiles.FirstExists | fs.c:498-503 | the block of an unaligned write at or before the end of a file is already allocated |
| FsFiles.EmptiedFile | fs.c:407-435 | a truncated file is empty and no other file changes |
| Fs.FileSystem.FindFree | fs.c:63-76 | the search by bitmap block finds the first clear bit, or there is none |
| Fs.FileSystem.Balloc | fs.c:56-78 | that block is marked and zeroed |
| Fs.FileSystem.Bfree | fs.c:81-95 | exactly the block's bit is cleared |
| Fs.FileSystem.Bmap | fs.c:372-400 | the block of the file's nth block, allocated with its indirect block when missing; every other block of every file stays, ownership is kept, and the blocks logged are bounded |
| Dinodes.GetPutInode | fs.h:29-36 | writing one struct dinode in an inode block makes that record the inode, field by field, and leaves every other record of the block alone |
| Dinodes.StoreInode | fs.c:226-233 | rewriting record inum % IPB of block IBLOCK(inum) changes that inode on disk and no other |
| Fs.FileSystem.Iupdate | fs.c:220-236 | the record in the inode block becomes the cached inode, the other inodes on disk stay, and the changed block is logged |
| Fs.FileSystem.Readi | fs.c:452-476 | the exact slice clipped to the size, -1 beyond the end or on wrap-around; it never allocates or logs, which fileread relies on |
| Fs.FileSystem.Writei | fs.c:481-511 | the exact splice across direct, indirect and unaligned boundaries; other files unchanged; no hole; the inode on disk equals the cached one although iupdate is conditional; every changed block is logged, and a bound on how many; it reports a full disk only when every block is used and the write reaches a byte without a block, and accepts every write within the file's end and the largest size |
| Fs.FileSystem.WriteBlocks | fs.c:498-504 | writei's loop writes the bytes block by block and counts what it logs |
| Fs.FileSystem.Itrunc | fs.c:407-435 | every block of the file is freed once, bfree never finds a clear bit, the empty inode is on disk, and every changed block is logged |
| Fs.FileSystem.FreeIndirect | fs.c:420-430 | the entries of the indirect block and then the block are freed |
| Fs.FileSystem.WriteChunk | file.c:140-145 | one transaction of filewrite: the splice, and every changed block in at most MAXOPBLOCKS logged ones |
| Fs.FileSystem.Filewrite | file.c:118-155 | chunked writing equals one splice of all bytes written, and no transaction logs more than MAXOPBLOCKS blocks; all bytes are written unless a chunk is refused or the disk is full |
| Superblock.LayoutSound | mkfs.c:94-103 | the records of the inodes and the bits of the blocks are all at different places, behind the log and before the data blocks |
| FsDisk.MapBit | fs.c:64-68 | the bit that balloc reads in a bitmap block is the bit of its block |
| FsDisk.MountOk | fs.c:288-308 | bits, inodes and files read off the blocks of a disk are those of the file system it holds, which is in order |
| FsDisk.LoggedTxn | log.c:213-233 | an operation that logs every block it changes makes a transaction that takes the blocks of the old file system to those of the new one |
| FsDisk.OpSafe | log.c:69-202 | committed, or crashed and recovered any number of times, it leaves the disk of the one or of the other |
| FsDisk.CrashSafe | log.c:69-202 | over whole histories of operations, crashes and crashes during recovery: the disk holds exactly the operations that took effect, and mounting it finds a file system in order (ownership, bitmap, no hole) with those files |
| FsCrash.CommitIsAtomic | log.c:192-202 | a crash before the header write shows every file as before the operation, a later one every file as after it |
| FsCrash.OperationIsAtomic | log.c:192-202 | so it is for any operation that logs what it changes and fits in the log |
| FsCrash.WriteTransaction | file.c:140-145 | a filewrite chunk with its commit: after a crash anywhere the file has its old contents or the exact splice, and the others are unchanged |
| FsCrash.TruncateTransaction | fs.c:407-435 | itrunc with its commit: after a crash anywhere the file has its old contents or is empty, and the others are unchanged |
| Mkfs.Image.constructor | mkfs.c:105-113 | the blank image with its metadata blocks in use satisfies the kernel's invariants |
| Mkfs.Image.Ialloc | mkfs.c:223-235 | the next inode, empty, with one link, if one is left; no file changes |
| Mkfs.Image.BlockFor | mkfs.c:271-286 | the block for the next bytes, taken from freeblock on; ownership is kept |
| Mkfs.Image.Iappend | mkfs.c:255-297 | bytes are added at the end of the file; ownership and no-hole hold, and no other file changes; it allocates at most what the larger file needs more, and fails only when that is not there or the file is too large |
| Mkfs.Image.Balloc | mkfs.c:237-251 | the bitmap written agrees with block ownership for every block |
| Mkfs.Image.FixRoot | mkfs.c:158-163 | after rounding the root's size the file-system invariant holds exactly when the entries did not fill their last block; no other file changes |
| Mkfs.RootSizeIff | mkfs.c:158-163 | the rounded root directory has no hole if and only if its size was not a multiple of the block size |
| Mkfs.AllocsNeeded | mkfs.c:271-286 | the next piece of a file without a hole allocates no more than the larger file needs: a data block at a block boundary, and the indirect block once |
| Mkfs.Image.CopyFile | mkfs.c:152-153 | the copy loop leaves the file with exactly the input's bytes |
| Mkfs.Image.Build | mkfs.c:117-163 | main succeeds whenever inodes, largest file and blocks suffice; the root directory then holds the entries and each inode its file's bytes, type and one link, and the file system is in order if and only if the entries do not fill the root's last block |
| Mkfs.ShippedRootHole | mkfs.c:158-163 | with the shipped constants, any 30 empty files make main leave a hole in the root directory |
| Links.LinkFileKept | sysfile.c:140-151 | a new name for a file with its link count raised keeps link counts, unique names and parent links |
| Links.LinkDirKept | sysfile.c:264-278 | so does a new directory with its dots and its parent's raised count |
| Links.UnlinkFileKept | sysfile.c:211-228 | so does removing a file's name; its link count was at least one |
| Links.EmptyDirLink | sysfile.c:213-216 | a directory with only its dots has exactly one link |
| Links.UnlinkDirKept | sysfile.c:213-228 | removing it, with both counts lowered, keeps the invariant and leaves it without a link |
| Links.QuietKept | fs.c:335-345 | freeing an inode without links keeps the invariant |
| DirBytes.EntryRoundTrip | fs.h:53-56 | decoding the bytes of a directory entry gives the entry back |
| DirBytes.ReadsEntry | fs.c:533-534 | the bytes at an entry's offset are that entry's |
| DirBytes.WritesEntry | fs.c:572-575 | splicing an entry's bytes in at its offset, or at the end, is setting that entry of the directory |
| Dirs.NameSpace.constructor | mkfs.c:119-130 | the root directory alone satisfies the link invariant |
| Dirs.NameSpace.Dirlookup | fs.c:524-548 | the first slot in use whose name agrees up to DIRSIZ characters, or there is none |
| Dirs.NameSpace.Dirlink | fs.c:551-578 | refuses a name that is there, else fills the first empty slot or the end; it panics exactly when there is no slot and the directory has its largest size |
| Dirs.NameSpace.IsDirEmpty | sysfile.c:168-181 | true exactly when only the dots are in use |
| Dirs.NameSpace.Ialloc | fs.c:194-215 | the first unallocated inode, or there is none |
| Dirs.NameBound | fs.c:563-575 | filling the slot makes dirlookup find the new name and changes what no other name means |
| Dirs.NameUnbound | sysfile.c:218-221 | clearing an entry makes its name unknown and changes what no other name means |
| Dirs.NameSpace.Link | sysfile.c:118-165 | on success one more link, the name means the file and other names mean what they did, on failure exactly the old state; when it fails; link counts stay right exactly when the directory is itself linked |
| Dirs.NameSpace.Unlink | sysfile.c:184-238 | removes exactly that name and its links, other names mean what they did, fails for dots, missing names and non-empty directories without any change, also in a removed directory |
| Dirs.NameSpace.Create | sysfile.c:241-283 | for a name that is there, the inode exactly when a file was asked for and it is one; otherwise a new inode that the name, and for a directory its dots, mean; the exact panics; link counts stay right exactly when the directory is itself linked |
| Dirs.NameSpace.Iput | fs.c:331-352 | inode and contents are freed exactly when there is no link and this was the last reference, and then no counted entry names it |
| Dirs.LinkFileIff | sysfile.c:140-151 | a new name for a file keeps the link invariant, and its own link count right, exactly when the directory is itself still linked |
| Dirs.LinkDirIff | sysfile.c:264-278 | a new directory keeps every link count right exactly when its parent is itself still linked |
| Dirs.RevivedCount | sysfile.c:264-278 | mkdir in a removed directory adds an entry for the directory that its .. names, whose link count stays |
| Dirs.RemovedParent | sysfile.c:241-283 | a run in which a file made in a removed directory has a wrong link count, and instead a directory made there leaves its grandparent with a wrong one |
| PageMem.PutKept | vm.c:78 | storing one page-table entry keeps the partition and changes that page of that directory only |
| PageMem.AttachKept | vm.c:47-53 | a new page table changes no mapping; its directory entry, like all of them, lets the page-table entries decide |
| PageMem.PushKept | kalloc.c:59-78 | a freed page changes no mapping and no other page's use |
| PageMem.PopKept | kalloc.c:82-96 | nor does an allocated one |
| VmSteps.NoSharing | vm.c:61-85 | a mapped user page is mapped once, is not free and is no directory |
| VmSteps.FreeListSound | kalloc.c:59-96 | no page is on the free list twice, and no page table or directory is on it |
| VmSteps.ProtectUndone | vm.c:395-451 | munprotect after mprotect restores the page map exactly when every page of the range was writable |
| VmSteps.UnmapStep | vm.c:276-283 | freeing a page and clearing its entry frees that page and unmaps it only |
| VmSteps.SameTable | vm.c:273-275 | all pages up to the next directory entry are unmapped when there is no table |
| VmSteps.AllocUndone | vm.c:241-253 | deallocating after a failed allocation restores every mapping |
| VmSteps.CloneFreed | vm.c:349-351 | freeing a half-made copy restores every mapping and the use of every page |
| Vm.Memory.constructor | kalloc.c:31-45 | before freerange every page is taken |
| Vm.Memory.Freerange | kalloc.c:46-53 | exactly the whole pages of the range become free |
| Vm.Memory.Kalloc | kalloc.c:82-96 | the first page of the list, or none when it is empty |
| Vm.Memory.Kfree | kalloc.c:59-78 | the page is filled and put first on the list |
| Vm.Memory.Walk | vm.c:35-56 | the page table for a page; no mapping changes; it fails exactly when there is none and none can be made |
| Vm.Memory.MapPages | vm.c:61-85 | exactly the pages of the range are mapped to consecutive frames, or a prefix when a page table cannot be had; the tables it takes are counted, and it fails exactly when there are fewer free pages |
| Vm.Memory.Setupkvm | vm.c:123-141 | a directory with the kernel's mappings and no user page, or every page as before, exactly when there are fewer free pages than the directory and its tables need |
| Vm.Memory.Allocuvm | vm.c:228-256 | the range is mapped to zeroed pages that were free; on failure every mapping is as before and only page tables of the directory were added; it fails exactly when there are fewer free pages than the new pages and their missing tables; the early returns |
| Vm.Memory.Deallocuvm | vm.c:262-286 | exactly the mapped pages of the range are freed and unmapped, although it skips whole directory entries |
| Vm.Memory.Freevm | vm.c:290-305 | every page of the address space is returned once, no other page changes |
| Vm.Memory.Copyuvm | vm.c:322-352 | copies with equal contents and flags on pages that were free, over [PGSIZE, vlimit), or exactly the old free set; it fails exactly when there are fewer free pages than the directory, its tables and the copies need |
| Vm.Memory.Clearpteu | vm.c:309-318 | the user flag of one page is cleared, nothing else changes |
| Vm.Memory.Protect | vm.c:395-451 | the writable flag changes on exactly the range on success and on the prefix before the first inaccessible page on failure; the error returns; the kernel faults exactly when that page has no page table |
| Sleep.StepKeepsInv | proc.c:419-476 | every lock operation of sleep, wakeup and their callers keeps the waiting invariant |
| Sleep.NoLostWakeup | proc.c:419-476 | whenever lk is free, no process is asleep on the channel, or past its decision to sleep, while the condition holds |
| Sleep.LocksExclude | proc.c:419-476 | at most one process is inside lk and at most one inside ptable.lock |
| SleepLock.Refines | sleeplock.c:22-42 | every step of a sleep-lock is a step of that protocol |
| SleepLock.SleepLockSafe | sleeplock.c:22-53 | at most one owner, the one the pid field names; a sleeping waiter means it is locked |
| Pipe.FullIff | pipe.c:85-109 | the wrapping comparisons mean full and empty |
| Pipe.StepKeepsInv | pipe.c:59-121 | every step of any reader, writer or closer keeps the queue invariant |
| Pipe.BoundedFifo | pipe.c:78-121 | bytes read are a prefix of bytes stored and at most PIPESIZE wait, also when counters wrap |
| Pipe.ReadIsContiguous | pipe.c:113-117 | one piperead returns one contiguous piece of the stream, at most as long as asked |
| Pipe.WritesInOrder | pipe.c:84-97 | in every state of every run the bytes a pipewrite call has stored are, in order and once, the first i bytes it was given, however often it slept and whoever wrote in between; all of them once it has returned n |
| Pipe.ReadReturns | pipe.c:106-120 | piperead returns as many bytes as asked for or empties the pipe, and returns none only at the end of the stream |
| Pipe.StrandedIff | pipe.c:85-93 | a step strands a sleeper exactly when a killed writer that has stored bytes gives up while a reader sleeps |
| Pipe.NoStrandedSleeper | pipe.c:59-121 | in runs without such a step, whenever the lock is free no reader sleeps on a readable pipe and no writer on a writable one |
| Pipe.KilledWriterStrandsReader | pipe.c:86-89 | a run in which a killed writer leaves a reader asleep on a non-empty pipe |
| Pipe.Buffer.constructor | pipe.c:33-41 | a new pipe is empty |
| Pipe.Buffer.Fill | pipe.c:84-95 | the bytes are appended to the queue until done or full |
| Pipe.Buffer.Drain | pipe.c:113-117 | the first n waiting bytes, or all, are taken from its front |
| Proc.StepKeepsInv | proc.c:73-499 | every step of fork, exit, wait, the schedulers, sleep, wakeup, yield and kill keeps the table invariant |
| Proc.Wake1Wakes | proc.c:459-467 | after a wakeup nobody sleeps on the channel, those who did can run and are otherwise as before, and no other slot has changed |
| Proc.LifeCycle | proc.c:73-499 | a step changes the state of a slot only along the life cycle of a process, by the process, parent, scheduler or wakeup entitled to |
| Proc.StepMoves | proc.c:73-499 | every step does what it is for: the child is allocated with a fresh pid, linked and made runnable; the exiting process is a zombie; wait clears the slot; a killed process is awake |
| Proc.NobodyOrphaned | proc.c:229-314 | over whole runs every process but init has a live parent until reaped, and a parent asleep in wait has no zombie child |
| Proc.PidsUnique | proc.c:274-314 | wait returns each pid at most once and no two processes share one |
| Proc.RunningOnOneCpu | proc.c:324-394 | each RUNNING process is current on exactly one CPU, and a CPU not switching runs a RUNNING one |
| Proc.WaitAnswers | proc.c:281-312 | wait reaps the first zombie child if there is one, fails exactly when there is no child or the caller was killed, and otherwise sleeps |
| Proc.ExitAt | proc.c:252-267 | what exit does to every slot: parent woken, children init's, init woken for a zombie child |
| ProcTable.Table.Wakeup1 | proc.c:459-467 | after the scan nobody sleeps on the channel, those who did can run, and nothing else has changed |
| ProcTable.Table.Exit | proc.c:252-267 | exit's scans compute the step machine's table |
| ProcTable.Table.WaitScan | proc.c:284-303 | the first zombie child, or whether there are children |
| ProcTable.Table.Reap | proc.c:291-301 | the slot is cleared and its pid returned |
| ProcTable.Table.FindUnused | proc.c:81-86 | the first unused slot, or there is none |
| ProcTable.Table.Kill | proc.c:481-499 | marks and wakes the first process with that pid, or reports that there is none |
| Umalloc.FreedOk | umalloc.c:24-44 | linking a block in at its place and joining it to its neighbours keeps ring order, no adjacency, disjointness and units |
| Umalloc.StopsAtSlot | umalloc.c:30-32 | the search condition of free is true at exactly the block's place in the ring |
| Umalloc.ScanComplete | umalloc.c:74-89 | a full turn of malloc's search has seen every free block |
| Umalloc.WholeOk | umalloc.c:76-77 | taking a whole block keeps the invariant |
| Umalloc.TailOk | umalloc.c:78-82 | so does splitting one |
| Umalloc.HeapPartition | umalloc.c:24-90 | blocks never overlap, they cover exactly the units from sbrk, and free blocks are address-ordered and never adjacent |
| Umalloc.Allocator.constructor | umalloc.c:21-22 | the allocator before its first call |
| Umalloc.Allocator.UserWrite | umalloc.c:84 | a program writing its own blocks cannot break the allocator |
| Umalloc.Allocator.Find | umalloc.c:30-32 | the search terminates at the block's place |
| Umalloc.Allocator.Free | umalloc.c:24-44 | exactly the block's units become free and other live blocks stay |
| Umalloc.Allocator.MoreCore | umalloc.c:46-61 | the new chunk becomes free memory |
| Umalloc.Allocator.Take | umalloc.c:75-84 | the units taken are live and disjoint from the rest |
| Umalloc.Allocator.Malloc | umalloc.c:63-90 | a live block of the units asked for; morecore is called exactly when no free block is large enough, once, and 0 is returned exactly when that fails |
| ShellPrint.RoundTrip | sh.c:265-446 | parsing the printout of any well-formed command tree returns the tree |
| ShellCode.ParseThenPrint | sh.c:265-446 | parsing yields well-formed trees only, and printing and parsing one again changes nothing |
| ShellCode.SkipSpaces | sh.c:272-273 | skips exactly the whitespace |
| ShellCode.GetTokenAt | sh.c:265-308 | the token at a position, its span and what follows it |
| ShellCode.PeekAt | sh.c:310-320 | whether the next character is one of a set |
| ShellCode.ParseRedirsAt | sh.c:374-397 | the loop computes the redirections of the grammar |
| ShellCode.ParseExecAt | sh.c:415-446 | a simple command or a block, with its redirections in order |
| ShellCode.ParseBlockAt | sh.c:399-413 | a parenthesised command |
| ShellCode.ParsePipeAt | sh.c:361-372 | a pipeline |
| ShellCode.ParseLineAt | sh.c:344-359 | a line with its background marks and sequence |
| ShellCode.LineOkay | sh.c:415-446 | every word of a parsed line is a maximal run of word characters, at most MAXARGS-1 arguments |
| ShellCode.NulTerminate | sh.c:448-493 | exactly the ends of the words become NUL |
| ShellCode.WordsSurvive | sh.c:448-493 | then each argument and file name read as a C string is its word |
| ShellCode.ParseCommand | sh.c:327-342 | parsecmd returns the parse or panics, and the buffer's strings are the words |
| ShellAppend.AppendIsOutput | sh.c:288-294 | wherever >> stands in any input, the parse is the one with > in its place, since parseredirs opens both alike |
| Grep.OccursCons | grep.c:85-106 | an occurrence splits into its first item and the rest |
| Grep.MatchHere | grep.c:84-96 | true exactly when the pattern's language has a prefix of the text (up to its end with a final $) |
| Grep.MatchStar | grep.c:98-106 | the same with a leading starred character |
| Grep.Match | grep.c:72-82 | true exactly when the pattern occurs somewhere, or at the start after ^ |

## Left out

- Boot, assembly, interrupt controllers, keyboard, serial and trap code: machine state.
- ide.c: the disk is the atomic block transfer of memide.c.
- Spin-lock internals: acquire and release are atomic steps.
- exec, system-call argument fetching and path walking: operations get resolved inodes and arguments.
- Device inodes, console and printing.
- The read loop of grep: it drops a partial line that fills its buffer.
- Small user programs, usertests and build scripts.
- inituvm, loaduvm, uva2ka, copyout, growproc and the TLB flush: little beyond the methods modelled.
- Cached inode table (iget, ilock, iunlock): the cached copy of every inode is present in the model; only its agreement with the disk and the reference count at iput matter here.
- Concurrency between file-system calls: each call on inodes, directories and the bitmap is one step, as the inode locks make it; the log and cache protocols are modelled with all interleavings.
- Dirs.NameSpace.Link: the references taken and dropped by link, unlink and create are not modelled; dropping one is Iput.
- Dirs.NameSpace.Create: device nodes are not modelled.
- Fs.FileSystem.Filewrite: pipes and a negative count are not modelled; a MAXOPBLOCKS below 6, with which the loop would not advance, is excluded.
- Mkfs.Image.Ialloc: stops when no inode is left, which mkfs does not check.
- Mkfs.Image.Iappend: stops when the image is full, where mkfs would write beyond it.
- Vm.Memory.Allocuvm: pages of the range that are mapped already are excluded, where the kernel panics.
- Vm.Memory.Copyuvm: a page below vlimit that is not mapped is excluded, where the kernel panics.
- Vm.Memory.Deallocuvm: limits above KERNBASE are excluded; no caller passes one.
- Vm.Memory.MapPages: mapping a page that is mapped already is excluded, where the kernel panics.
- Vm.Memory.Protect: the outcome after the fault is not modelled; sums are taken without signed overflow of the loop bound.
- ProcTable.Table.Reap: kfree of the kernel stack and freevm are not part of it; they are Vm.Memory.Kfree and Vm.Memory.Freevm.
- Log.LogLayer.Commit: other processes may hold locked buffers of blocks outside the log and the transaction; waiting for one that holds a block of the transaction is not modelled.
- FsCrash.WriteTransaction: one operation is one transaction; several operations committed together are covered by FsDisk.CrashSafe, not by a method.
- FsCrash.TruncateTransaction: requires the bitmap blocks and one inode block to fit in the log, which itrunc takes for granted.
- Vm.Memory.Kfree: addresses outside the managed memory are excluded, where the kernel panics.
- Proc.StepKeepsInv: one critical section of ptable.lock is one step; pids are unbounded; kill of an unused slot is excluded.
- Pipe.BoundedFifo: going to sleep and releasing the pipe's lock is one step; an end is closed only when no call on it is in progress.
- Bio.BufferCache.Bread: waiting for another holder of the buffer is not modelled in the method; the step machine of Cache has it.
- Umalloc.Allocator.Malloc: sbrk returns memory above all earlier memory and unit counts do not overflow.
- Liveness and fairness: that a sleeper is eventually scheduled is not stated.
