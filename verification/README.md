# Verified models of two teaching kernels

This project models, in Dafny, the parts of an xv6-style RISC-V kernel and a
Linux-style x86-32 kernel whose correctness is hard to see from the code, and
proves what those parts are for.

- **Crash-safe log over a buffer cache** (`LogProtocol`, `LogSpace`,
  `BufferCache`, `RedoLog`). The disk is a sequence of blocks, one block write is
  one step, and power may be lost between any two. `LogProtocol` proves that every
  run, with crashes inside commits and inside recovery, leaves exactly the
  transactions whose header write reached the disk. `RedoLog` is log.c itself, on
  top of `BufferCache`, which is bio.c; its commit makes exactly the writes the
  protocol is proved about, and pins keep readers' view and the disk apart until
  then, whatever blocks readers hold. `LogSpace` proves the space reservation.
- **Files on blocks** (`InodeBlocks`, `FileContents`, `Truncation`,
  `FileSystem`). Bitmap allocation, direct and indirect block maps, truncation,
  reading, writing and the chunks of filewrite. The set bits are exactly the
  metadata blocks and the blocks inode slots own, each once; a write is a sequence
  splice of one file and leaves the others alone; a chunk fits its log reservation.
  `CrashSafeWrites` puts the two together: everything a write changes is in the
  blocks it logs, so all the writes and truncations of a transaction, to whatever
  files, are on the disk after a crash, or none is.
- **Buddy allocator** (`BuddyTree`, `Buddy`). Free and allocated blocks tile the
  page range, no two buddies are free, and that form is unique, so allocation fails
  only if no aligned run is free and freeing everything restores the initial lists.
- **Copy-on-write memory** as interleaved steps of any number of processes, against a
  kernel that copies at fork: contents (`CowMemory`), and pages, access and progress
  (`CowAccess`); **user pages** of all kinds, anonymous, shared and copy-on-write, with
  exact reference and attachment counts and the access of their areas through every
  call, fork and exit (`PageCounts`, `SharedMemory`); **the address space** of a process
  and what backs each of its pages (`AddressSpace`). `Pages` has the page-table entries
  they share.
- **Scheduler hand-off** (`Scheduler`): sleep, wakeup, yield, kill and the per-CPU
  schedulers as steps of any number of CPUs, and what these steps achieve (`Dispatch`).
  **Parents and children** (`WaitExit`): fork, wait, exit and kill as steps with the
  locks they hold, what these achieve (`WaitProgress`), and what init can miss
  (`MissedChild`).
- **Sv39 page tables** (`Sv39`, `PageTable`): the three-level tree is a flat map,
  and every frame of the pool has exactly one use, whatever allocation fails.
- **The user-level allocator** (`FreeList`, `UserHeap`), the **virtio ring**
  (`VirtioRing`, `VirtioDisk`), **lazy FPU switching** (`LazyFpu`), **pipes** of both
  kernels (`Pipes`), and **grep** (`Matcher`, `Grep`).

Code that updates objects in place is a class with the same fields and loops;
protocols between CPUs, or between driver and device, are steps in any order. A
panic is a precondition that callers are proved to meet, or a result of its own
where it can be reached. Running out of memory may happen at any allocation.

Some promises turned out to hold only under a condition. Each has a lemma that
states the condition exactly:

- Recovery drops references it never took (log.c:75), so counts wrap; the cache is
  in order after boot only if the log was empty (`RedoLog.ReplayUnbalances`). On every
  disk whose log names a block once, a later logged change to that block can be lost
  (`RedoLog.LostUpdate`).
- log_write tests for a full log before it looks whether the block is there already.
  Operations that use all of their reservation can fill a log of any size and then
  panic on a block they have logged (`LogSpace.AbsorbedPanics`), or leave commit no
  buffer (`RedoLog.NoLogLargeEnough`). Readers take buffers too, and need no
  reservation: operations of at most b > 0 new blocks each and readers of r other
  blocks are safe on a log of LOGSIZE blocks, as mkfs makes it, exactly if
  2b + r < 20 (`RedoLog.SafeLogs`), so that with 9 blocks each two readers are too
  many (`RedoLog.TwoReaders`).
- copyout does not look at PTE_W, so a kernel write to a read-only page shared by
  fork shows in the other process (`CowMemory.ReadOnlyWriteLeaks`).
- fork leaves the pages of a writable attached area copy-on-write in the parent
  exactly if the segment is marked for destruction (`SharedMemory.SharedAfterFork`), or
  some of them if it fails half way; the next write ends the sharing
  (`SharedMemory.MarkedRun`).
- shmat lets go of its lock half way; a segment number reused in between by a segment
  of another length gives a wrong area (`SharedMemory.Kernel.ShmatAttach`).
- A shmat that fails half way leaves pages mapped that belong to no area, and brk,
  which looks only at areas, makes them heap (`AddressSpace.Mm.SysBrk`).
- init can sleep on a dead child, among three processes or more, exactly if that child
  had read its parent when it was given away (`MissedChild.MissedIff`).
- malloc of more than an int's worth of bytes, with no free block that large, hands out
  memory it never got (`UserHeap.Heap.Malloc`).
- If a process is queued before its context switch is over, as the x86 yield does,
  another CPU can restore an old FPU image (`LazyFpu.EarlySwitchIff`).
- The x86 pipe's test for room compares sums that wrap (`Pipes.WaitTest`).
- grep stops at a line that fills its buffer (`Grep.AllReadIff`).

## Model

| member | source | states |
|---|---|---|
| `LogProtocol.HeaderRoundTrip` | arch/riscv/kernel/log.c:82-109 | reading back a header block gives the block numbers written into it, whatever the block held before |
| `LogProtocol.Reinstall` | arch/riscv/kernel/log.c:66-79 | installing a transaction again over any prefix of the same install changes nothing |
| `LogProtocol.RecoverIsInstall` | arch/riscv/kernel/log.c:111-117 | recovery amounts, on home blocks, to installing the logged transaction, and leaves a clear header |
| `LogProtocol.BeforeHeader` | arch/riscv/kernel/log.c:171-194 | with only log data written, the log is empty and home blocks are as they were |
| `LogProtocol.HeaderCommits` | arch/riscv/kernel/log.c:98-109 | the header write makes the log hold exactly the transaction |
| `LogProtocol.DuringInstall` | arch/riscv/kernel/log.c:185-194 | stopped during the install, recovery finishes the transaction |
| `LogProtocol.CommitCompletes` | arch/riscv/kernel/log.c:185-194 | a commit run to its end has installed its transaction and cleared the log |
| `LogProtocol.CommitAtomic` | arch/riscv/kernel/log.c:171-194 | stopped after any number of its block writes, a commit is recovered whole if its header write was among them and not at all otherwise |
| `LogProtocol.RecoverRestartable` | arch/riscv/kernel/log.c:111-117 | recovery stopped anywhere and started again leads to the same home blocks |
| `LogProtocol.StepRefines` | arch/riscv/kernel/log.c:66-194 | every event, crashes included, moves the recovered contents by exactly the transaction it made durable, if any |
| `LogProtocol.CrashAtomicity` | arch/riscv/kernel/log.c:66-194 | over every run of commits, crashes and recoveries, the home blocks after recovery are those of the durable transactions in order, each whole |
| `LogSpace.SpaceStepInv` | arch/riscv/kernel/log.c:120-135 | begin, a new block, an absorbed one and end keep logged blocks plus what may still come within MAXOPBLOCKS + 2b, for operations of at most b new blocks each |
| `LogSpace.NeverOverflows` | arch/riscv/kernel/log.c:120-135 | over every interleaving of such operations the log holds at most MAXOPBLOCKS + 2b blocks, and so at most LOGSIZE |
| `LogSpace.RoomFor` | arch/riscv/kernel/log.c:205-225 | an operation with blocks left finds fewer than that logged |
| `LogSpace.PanicFreeIff` | arch/riscv/kernel/log.c:205-225 | no call of log_write, absorbed or not, meets its panic exactly if operations leave at least one reserved block unused each and the log has two blocks more than they can fill |
| `LogSpace.NewPanicFreeIff` | arch/riscv/kernel/log.c:205-225 | leaving absorbed calls aside, exactly if the log has one block more than they can fill |
| `LogSpace.AbsorbedPanics` | arch/riscv/kernel/log.c:209-220 | a run of operations that use all they reserve, after which a call for a block already logged panics on a log of any size |
| `LogSpace.MostCommitted` | arch/riscv/kernel/log.c:139-167 | a run after which as many blocks as the operations can fill are logged when a commit starts |
| `BufferCache.Cache.constructor` | arch/riscv/kernel/bio.c:35-51 | the list holds every buffer once, none is referenced, and readers see the disk |
| `BufferCache.Cache.Bget` | arch/riscv/kernel/bio.c:57-87 | the buffer holding the block, referenced once more, or else the unreferenced buffer released longest ago, recycled; the panic needs every buffer referenced and is excluded by just that condition |
| `BufferCache.Cache.Bread` | arch/riscv/kernel/bio.c:90-100 | the buffer holds what readers of the block are to see and is referenced once more; no reader sees a change, provided changed buffers are referenced |
| `BufferCache.Cache.Bwrite` | arch/riscv/kernel/bio.c:103-108 | one block write of the buffer's contents, after which disk and readers agree on the block |
| `BufferCache.Cache.Brelse` | arch/riscv/kernel/bio.c:112-134 | one reference less, and on the last the buffer becomes the most recently used |
| `BufferCache.Cache.Bpin` | arch/riscv/kernel/bio.c:136-141 | one reference more, for that block only |
| `BufferCache.Cache.Bunpin` | arch/riscv/kernel/bio.c:143-148 | one reference less, wrapping as a 32-bit count, for that block only |
| `BufferCache.UnusedLeft` | arch/riscv/kernel/bio.c:57-87 | fewer referenced blocks than buffers leaves a buffer bget can recycle |
| `RedoLog.Log.constructor` | arch/riscv/kernel/log.c:50-62 | after initlog the disk is the recovered one and each replayed block has lost a reference it never had; the invariant of the log holds exactly if the log was empty; excluded is only the panic for want of a buffer, at NBUF different blocks in the log |
| `RedoLog.ReplayStarves` | arch/riscv/kernel/log.c:66-79 | with NBUF different blocks to replay, the last home block finds no buffer |
| `RedoLog.Log.RecoverFromLog` | arch/riscv/kernel/log.c:111-117 | makes exactly the block writes of the protocol's recovery |
| `RedoLog.Log.ReadHead` | arch/riscv/kernel/log.c:82-92 | the in-memory header is the one on disk |
| `RedoLog.Log.ModifyReplayed` | arch/riscv/kernel/log.c:205-225 | a logged change leaves readers with something that differs from the disk in an unreferenced buffer exactly if the change is one and the count had wrapped to 2^32 - 1, or was zero with the block logged already; the buffer is then the one released last |
| `RedoLog.Log.LoseReplayed` | arch/riscv/kernel/bio.c:57-100 | once the changed buffer is the unreferenced one released longest ago, reading a block not cached and then the changed one again returns the old contents: the change is lost |
| `RedoLog.Log.ReadOthers` | arch/riscv/kernel/bio.c:57-87 | readers of blocks not cached take every other buffer first, so the one released last becomes the only one left to recycle |
| `RedoLog.LostUpdate` | arch/riscv/kernel/log.c:66-79 | for every disk whose log names a block once and every change to that block: initlog, begin_op, the change through log_write, other reads, and a read of the block returns the contents before the change |
| `RedoLog.OneBlockLog` | arch/riscv/kernel/log.c:185-194 | a crash after the header write of a commit of one block leaves such a disk |
| `RedoLog.ReplayUnbalances` | arch/riscv/kernel/log.c:66-79 | reference counts and pins agree after recovery exactly if nothing was replayed |
| `RedoLog.Log.BeginOp` | arch/riscv/kernel/log.c:120-135 | admits an operation exactly if no commit is running and its reservation fits; keeps the space invariant, and every invariant of the log that held |
| `RedoLog.Log.Hold` | arch/riscv/kernel/bio.c:90-100 | a reader gets the block as readers are to see it, and its reference is counted beside the pins of the log |
| `RedoLog.Log.Drop` | arch/riscv/kernel/bio.c:112-134 | it gives one such reference back |
| `RedoLog.Log.LogWrite` | arch/riscv/kernel/log.c:205-225 | absorbs a block already logged without change, else appends it and takes one reference |
| `RedoLog.Log.LogBlock` | arch/riscv/kernel/log.c:205-225 | a change, new within the reservation or absorbed: readers see it, the disk does not, the block is pinned once beside what readers hold; only the panics of log_write and bget are excluded |
| `RedoLog.Log.WriteLog` | arch/riscv/kernel/log.c:171-183 | every logged block as readers see it goes to its slot, in header order |
| `RedoLog.Log.WriteHead` | arch/riscv/kernel/log.c:98-109 | one block write of the in-memory header |
| `RedoLog.Log.InstallTrans` | arch/riscv/kernel/log.c:66-79 | every slot goes home in order and each home block loses one reference |
| `RedoLog.Log.Commit` | arch/riscv/kernel/log.c:185-194 | makes exactly the block writes the protocol is proved about; afterwards disk and view agree, no pin is left, and readers keep the references they hold |
| `RedoLog.Log.EndOp` | arch/riscv/kernel/log.c:139-167 | the last operation out commits everything readers see, an earlier one only gives up its reservation; it fails, with nothing written, exactly if there is something to commit and as many blocks are logged or held by readers as there are buffers |
| `RedoLog.CommitInstallsView` | arch/riscv/kernel/log.c:185-194 | a whole commit makes the home blocks what readers saw |
| `RedoLog.GroupCommitAtomic` | arch/riscv/kernel/log.c:139-194 | power lost after any of end_op's block writes leaves, after recovery, all grouped changes if the header was written and none otherwise |
| `RedoLog.ReleasedPins` | arch/riscv/kernel/log.c:66-79 | on the commit path dropping one reference per logged block leaves exactly those of its readers |
| `RedoLog.CommitNeedsABuffer` | arch/riscv/kernel/log.c:171-183 | commit's first read finds a buffer exactly if fewer blocks are logged or held by readers than there are buffers |
| `RedoLog.SafeLogs` | arch/riscv/mkfs/mkfs.c:25 | operations of at most b new blocks each, with readers of at most r other blocks, meet neither log_write's panic nor a commit without a buffer exactly if b is zero, or the log has MAXOPBLOCKS + 2b + 2 blocks and MAXOPBLOCKS + 2b + r is below NBUF; for a log of LOGSIZE blocks, which mkfs makes, exactly if 2b + r is below 2 MAXOPBLOCKS |
| `RedoLog.CommitsFitIff` | arch/riscv/kernel/log.c:171-194 | every commit with something to write finds its buffers exactly if b is zero or the blocks operations can fill and the r blocks readers hold are fewer than the buffers |
| `RedoLog.TwoReaders` | arch/riscv/kernel/file.c:108-112 | operations one block below their reservation, on a log of LOGSIZE blocks: log_write never panics, and there is a run in which two readers leave the commit no buffer |
| `RedoLog.NoLogLargeEnough` | arch/riscv/kernel/log.c:120-194 | for operations that use all they reserve no log size avoids both panics, even without readers |
| `InodeBlocks.PutGet` | arch/riscv/kernel/fs.c:381-393 | an entry stored in an indirect block is read back and the other entries are kept |
| `InodeBlocks.AddrAllocated` | arch/riscv/kernel/fs.c:374-384 | a fresh block linked into an inode keeps ownership exact and nobody's bytes change |
| `InodeBlocks.EntryAllocated` | arch/riscv/kernel/fs.c:385-391 | the same for an entry of an indirect block |
| `InodeBlocks.GaveBlock` | arch/riscv/kernel/fs.c:86-103 | clearing the bit of an owned block keeps ownership exact for all others |
| `FileSystem.Fs.Balloc` | arch/riscv/kernel/fs.c:61-82 | the lowest free block, zeroed; none exactly if all are in use |
| `FileSystem.Fs.Bfree` | arch/riscv/kernel/fs.c:86-103 | the block's bit and no other is cleared |
| `FileSystem.Fs.Bmap` | arch/riscv/kernel/fs.c:369-396 | the block of a file block, allocated with its indirect block if missing; what existed is untouched, a block that existed is found without any change, and failure means every bit is set |
| `FileSystem.Fs.Readi` | arch/riscv/kernel/fs.c:447-468 | returns as many bytes as asked for, or as the file has from the offset on, each the byte of the file at its place; none past the end or if the 32-bit sum wraps; allocates and logs nothing |
| `FileSystem.Fs.ReadFile` | arch/riscv/user/cat.c:7-16 | reading on in pieces of any size until there is nothing more returns the whole file |
| `FileSystem.Fs.Writei` | arch/riscv/kernel/fs.c:474-505 | splices the bytes into this file, extending it, leaves every other file alone, logs only blocks it names and everything it changes; -1 exactly past the end or the maximum, without a change; otherwise it gives up only on a full disk |
| `FileSystem.Fs.Itrunc` | arch/riscv/kernel/fs.c:401-430 | an empty file; exactly its blocks return to the bitmap, without reaching the panic of bfree; other files unchanged; everything it changes is logged |
| `FileSystem.Fs.FileWrite` | arch/riscv/kernel/file.c:122-167 | all bytes if they fit, else the whole chunks that do and -1; gives up only on a full disk; its transactions lead from the volume before to the one after, each logs what it changes, at most 7 blocks when the bitmap is one block, and between any two the file has a first part of the bytes |
| `FileSystem.ChunkFits` | arch/riscv/kernel/file.c:142-160 | a chunk logs at most four data blocks, bitmap, indirect and inode block |
| `FileContents.BlockOverwritten` | arch/riscv/kernel/fs.c:484-493 | overwriting the block of one file block changes those bytes of that file and nothing else |
| `FileContents.WriteFinished` | arch/riscv/kernel/fs.c:484-502 | after the loop and the size update the contents are the splice, across block boundaries and the indirect switch |
| `FileContents.ReadBack` | arch/riscv/kernel/fs.c:447-505 | a read of any length from where a write went returns what was written and then what the file had behind it; reads before and behind it find what was there |
| `FileContents.ClippedBytes` | arch/riscv/kernel/fs.c:447-468 | what a read returns, byte by byte: those from the offset on, as many as asked for or as there are |
| `FileContents.SplicedBytes` | arch/riscv/kernel/fs.c:474-505 | what a write makes of a file, byte by byte, and its length |
| `FileContents.PiecesRead` | arch/riscv/user/cat.c:7-16 | reads of any lengths, each from where the last stopped, together give the file as far as they reach |
| `FileContents.SplicedTwice` | arch/riscv/kernel/file.c:142-160 | consecutive chunks amount to one write |
| `Truncation.DirectFreed` | arch/riscv/kernel/fs.c:408-413 | freeing a direct block meets bfree's demand and empties exactly that slot |
| `Truncation.IndirectFreed` | arch/riscv/kernel/fs.c:416-426 | after its entries, the indirect block goes, and with it all slots behind it |
| `Truncation.TruncatedOk` | arch/riscv/kernel/fs.c:401-430 | bits after truncation are those before less the file's own blocks, and other contents are the same |
| `CrashSafeWrites.WriteAtomic` | arch/riscv/kernel/log.c:171-194 | any number of grouped writes committed, power lost after any of the block writes: after recovery the disk holds the volume after all of them if the header was written, the one before otherwise |
| `CrashSafeWrites.ChunkAtomic` | arch/riscv/kernel/file.c:142-160 | a chunk of filewrite logs at most seven blocks, and after recovery the disk holds the volume with the chunk or the one without |
| `CrashSafeWrites.ChangedMore` | arch/riscv/kernel/fs.c:474-505 | one more write to any file in the same transaction: still everything that differs is logged |
| `CrashSafeWrites.WriteAll` | arch/riscv/kernel/log.c:139-194 | carries out a list of writes and truncations in one transaction: every file comes to have what they make of it, and wherever in the commit the power goes recovery finds the volume with all of them or with none |
| `CrashSafeWrites.WriteChunk` | arch/riscv/kernel/file.c:142-160 | calls writei for one chunk: the file has the splice and the others what they had, or, for a crash before the header write, everything is as it was; the log always has room |
| `CrashSafeWrites.WriteFile` | arch/riscv/kernel/file.c:122-167 | filewrite with power lost anywhere in the commit of any of its transactions: recovery finds the file with a first part of the bytes, the chunk under way whole or not at all, and the other files as they were |
| `CrashSafeWrites.ViewImage` | arch/riscv/kernel/fs.c:474-505 | the blocks a write logs, over the disk of the volume before, are the disk of the volume after |
| `CrashSafeWrites.ImageUnique` | arch/riscv/kernel/fs.c:61-103 | bitmap, inodes and data of a volume are determined by its disk |
| `BuddyTree.MergeTiling` | arch/x86/kernel/mm/buddy.c:136-151 | two buddies replaced by their parent still tile the range |
| `BuddyTree.SplitTiling` | arch/x86/kernel/mm/buddy.c:161-188 | a block replaced by its halves still tiles the range |
| `BuddyTree.RunInBlock` | arch/x86/kernel/mm/buddy.c:161-188 | in canonical form every aligned run of free pages lies in one free block |
| `BuddyTree.CanonicalUnique` | arch/x86/kernel/mm/buddy.c:136-151 | the free blocks are determined by the free pages |
| `Buddy.BuddyOfHead` | arch/x86/kernel/mm/buddy.c:102-111 | flipping and clearing the order bit of a block head gives the head of its buddy and of their parent |
| `Buddy.BuddyTest` | arch/x86/kernel/mm/buddy.c:136-151 | the test on the page at the buddy's index holds exactly if the buddy is a free block of this order |
| `Buddy.Pmm.constructor` | arch/x86/kernel/mm/buddy.c:200-259 | after initialisation every page is free, in canonical form |
| `Buddy.LargestOrder` | arch/x86/kernel/mm/buddy.c:241-253 | the largest order at which the index is aligned and the block fits |
| `Buddy.Pmm.FreeAreaAdd` | arch/x86/kernel/mm/buddy.c:113-123 | the block joins its list and the free count grows by its size |
| `Buddy.Pmm.FreeAreaDel` | arch/x86/kernel/mm/buddy.c:125-130 | the block leaves its list and the free count shrinks by its size |
| `Buddy.Pmm.FreeOnePage` | arch/x86/kernel/mm/buddy.c:136-151 | merges as far as it goes: canonical form again, free pages grown by exactly the block's |
| `Buddy.Pmm.AllocPages` | arch/x86/kernel/mm/buddy.c:161-188 | succeeds exactly if an aligned run of that size is free, takes the first fit, and gives the rest back |
| `Buddy.Pmm.GetPage` | arch/x86/kernel/mm/buddy.c:318-328 | one reference more to a page in use |
| `Buddy.Pmm.PutPage` | arch/x86/kernel/mm/buddy.c:331-345 | one reference less, the last frees the page |
| `Buddy.Pmm.FreePages` | arch/x86/kernel/mm/buddy.c:285-304 | a single page goes through its count and is freed with the last reference, a larger block is freed whatever its count; merged either way |
| `Buddy.NoRun` | arch/x86/kernel/mm/buddy.c:161-188 | with every list from an order on empty no aligned run of that size is free |
| `Buddy.FreeingAllRestores` | arch/x86/kernel/mm/buddy.c:136-151 | with nothing allocated the free blocks are those after initialisation |
| `CowMemory.StepInv` | arch/x86/kernel/mm/vm.c:290-372 | each step of fork, fault, store, unmap and exit keeps counts exact and writable pages singly mapped; what each step is for is in CowAccess |
| `CowMemory.CowRefinesEager` | arch/x86/kernel/mm/vm.c:290-372 | after every interleaving each process reads what it would had fork copied at once: from every page that is writable or copy-on-write, and from all pages if the kernel wrote to no read-only one |
| `CowMemory.ReachableExact` | arch/x86/kernel/mm/buddy.c:318-345 | in every reachable state counts equal entries and a page mapped writable has one mapping |
| `CowMemory.NeverPanics` | arch/x86/kernel/mm/buddy.c:318-345 | get_page and put_page never meet a free frame or a zero count |
| `CowMemory.ReadOnlyWriteLeaks` | arch/x86/kernel/mm/vm.c:572-599 | after a kernel write to a read-only page the processes that share its frame have the contents they should exactly if there are none or the write changed nothing |
| `CowMemory.ReadOnlySharingReachable` | arch/x86/kernel/mm/vm.c:290-334 | such sharing is reachable by one fork |
| `CowAccess.StepFull` | arch/x86/kernel/mm/vm.c:290-372 | each step keeps every process, and the child of every fork, at the pages and access the eager kernel gives it |
| `CowAccess.SameAccess` | arch/x86/kernel/mm/vm.c:290-372 | after every interleaving a process outside the kernel has exactly the pages it would had fork copied at once, and each is writable or copy-on-write exactly if it could write it; no child is left half built |
| `CowAccess.FaultOver` | arch/x86/kernel/mm/vm.c:340-372 | when a copy-on-write fault is over, taken or copied, whatever others did meanwhile, the page can be written |
| `CowAccess.DemandOver` | arch/x86/kernel/mm/vm.c:409-455 | a page mapped on demand is empty, and can be written exactly if it was to be |
| `CowAccess.TakenIfSole` | arch/x86/kernel/mm/vm.c:350-358 | the fault takes the page over without a copy exactly if no other entry has its frame |
| `CowAccess.FaultServed` | arch/x86/kernel/mm/vm.c:340-372 | from every state the fault handler can run to its end, given a free frame: the page is writable, holds what it held, and no other entry changed |
| `CowAccess.CanFinish` | arch/x86/kernel/mm/vm.c:115-137 | in every state a process in the kernel has a step of its own that brings it nearer to the end of its call |
| `CowAccess.ExitServed` | arch/x86/kernel/mm/vm.c:689-715 | an exit runs to its end by steps of its own: process and pages are gone, all other entries as they were |
| `CowAccess.ForkServed` | arch/x86/kernel/mm/vm.c:290-334 | a fork with memory runs to its end from any point: both run and the child has every page of the parent |
| `Scheduler.StepInv` | arch/riscv/kernel/proc.c:497-594 | every step of every CPU keeps the lock and hand-off invariant; what each step is for is in Dispatch |
| `Scheduler.RunInv` | arch/riscv/kernel/proc.c:497-594 | so does every run |
| `Scheduler.HandOffSafe` | arch/riscv/kernel/proc.c:497-594 | on every interleaving no process is current on two CPUs, and a runnable one with a free lock has its context saved |
| `Scheduler.NoLostWakeup` | arch/riscv/kernel/proc.c:623-667 | a process asleep in sleep with a lock other than its own, on a channel whose condition is true, has a wakeup coming that has not passed it |
| `Dispatch.LocksHeld` | arch/riscv/kernel/proc.c:497-594 | on every run the lock of a process is held only by a CPU that looks at it or by that process on its way off or onto a CPU |
| `Dispatch.LockComesBack` | arch/riscv/kernel/proc.c:497-594 | from every such state the holder gives the lock back by steps of its own |
| `Dispatch.SleepRun` | arch/riscv/kernel/proc.c:623-652 | sleep, step by step: asleep on the channel, off the CPU, both locks given back, nothing else different |
| `Dispatch.YieldRun` | arch/riscv/kernel/proc.c:587-594 | yield: ready to run again and off the CPU, nothing else different |
| `Dispatch.ExitRun` | arch/riscv/kernel/proc.c:420-433 | the end of exit: dead and off the CPU, nothing else different |
| `Dispatch.DispatchRun` | arch/riscv/kernel/proc.c:497-560 | whoever may run and has a free lock can be taken by any CPU in its loop and goes on where it was, out of sleep with the channel cleared |
| `Dispatch.KilledRuns` | arch/riscv/kernel/proc.c:683-703 | after kill a process is not asleep, any CPU in its loop can run it, and no other state changed |
| `Dispatch.BornAndReaped` | arch/riscv/kernel/proc.c:299-345 | a forked process can be run by any CPU in its loop; a reaped slot can be forked again |
| `Dispatch.ConditionLock` | arch/riscv/kernel/proc.c:640-652 | back from sleep a process gets the condition's lock again; taking it, dropping it and using the condition up enable what follows in the code |
| `Dispatch.LookedAt` | arch/riscv/kernel/proc.c:656-667 | where a wakeup looks at a process, one asleep on its channel may run again, and nobody else's state changes |
| `Dispatch.ScanReaches` | arch/riscv/kernel/proc.c:656-667 | a wakeup call looks at every process on its way exactly once, whatever happens beside it |
| `Dispatch.WholeScan` | arch/riscv/kernel/proc.c:656-667 | so a whole call looks at everybody exactly once |
| `WaitExit.StepInv` | arch/riscv/kernel/proc.c:348-488 | every step of fork, wait, exit, reparent and kill keeps locks, parents and what a scan has passed in order; what each step is for is in WaitProgress |
| `WaitExit.NoLostChild` | arch/riscv/kernel/proc.c:374-488 | on every interleaving a process asleep in wait has no dead child that woke it, and unless it is init no dead child at all; one that a sleeping init has had read its parent before it was given away, and woke that one |
| `MissedChild.MissedIff` | arch/riscv/kernel/proc.c:348-425 | for any number of processes and any init: init can sleep on a dead child exactly if there are three or more, and then only on one that had read its parent when it was given away |
| `MissedChild.SleepsLater` | arch/riscv/kernel/proc.c:348-425 | such a run in which init has not slept at all when the child is given away |
| `WaitExit.ReapedIsGone` | arch/riscv/kernel/proc.c:455-475 | a child is reaped only once the scheduler has let go of it |
| `WaitProgress.Woke` | arch/riscv/kernel/proc.c:396-402 | after exit's wakeup of init, init is not asleep; after kill, the killed process is not, and can go on; no other state changes |
| `WaitProgress.Born` | arch/riscv/kernel/proc.c:299-345 | a child starts out running, not killed, and may wait or exit |
| `WaitProgress.AsleepSince` | arch/riscv/kernel/proc.c:396-402 | on every run: if init sleeps, it went to sleep after everybody who exited had woken it |
| `WaitProgress.MissedSlept` | arch/riscv/kernel/proc.c:374-433 | a dead process woke init when it began to exit, and if init sleeps it went to sleep again after that |
| `WaitProgress.GetsOn` | arch/riscv/kernel/proc.c:374-488 | whoever is in wait or exit waits for at most one lock, and with it free makes its next step, nearer to the end of the call |
| `WaitProgress.CopyFails` | arch/riscv/kernel/proc.c:459-466 | a wait that cannot hand out the status is over, and the dead child is there for the next one |
| `WaitProgress.ScansAgain` | arch/riscv/kernel/proc.c:671-680 | woken in wait, a process scans again from the start |
| `Sv39.SlotRoundTrip` | arch/riscv/kernel/vm.c:70-87 | the three indices of a page below MAXVA determine it, so distinct pages use distinct slots |
| `Sv39.SetLeafFlat` | arch/riscv/kernel/vm.c:143-163 | writing a lowest-level entry changes the flat map at one page of one tree |
| `Sv39.LinkOk` | arch/riscv/kernel/vm.c:70-87 | linking a zeroed table changes no tree's flat map, and each frame still has one use |
| `Sv39.GiveOk` | arch/riscv/kernel/vm.c:265-280 | an empty table goes back to the pool and no mapping changes |
| `Sv39.EverythingReturned` | arch/riscv/kernel/kalloc.c:40-77 | with every tree freed and nothing held, the free list is the whole pool, each frame once |
| `PageTable.Memory.constructor` | arch/riscv/kernel/kalloc.c:20-35 | after initialisation the free list holds every frame once |
| `PageTable.Memory.Kalloc` | arch/riscv/kernel/kalloc.c:64-77 | the first free frame, used by nobody, or none exactly if the list is empty |
| `PageTable.Memory.Kfree` | arch/riscv/kernel/kalloc.c:40-58 | a held frame goes to the front of the list |
| `PageTable.Memory.Walk` | arch/riscv/kernel/vm.c:70-87 | finds or builds the path of a page with at most two frames; mappings and contents of every space are unchanged, on failure too, which needs fewer than two free frames |
| `PageTable.Memory.Mappages` | arch/riscv/kernel/vm.c:143-163 | maps consecutive frames at consecutive pages and nothing else; fails only with the pool run empty, leaving exactly a prefix mapped |
| `PageTable.Memory.Uvmunmap` | arch/riscv/kernel/vm.c:168-189 | removes exactly the range; with do_free each page goes back once |
| `PageTable.Memory.Uvmcreate` | arch/riscv/kernel/vm.c:193-201 | an empty space, or none exactly without memory |
| `PageTable.Memory.Uvmalloc` | arch/riscv/kernel/vm.c:221-244 | all new pages, zeroed, or none of them; every page owned before keeps entry and contents; cannot fail with three free frames per new page |
| `PageTable.GrownPage` | arch/riscv/kernel/vm.c:221-244 | a page a process grows by is valid, for the user, readable, writable and executable, and every byte of it is zero |
| `PageTable.Memory.Uvmdealloc` | arch/riscv/kernel/vm.c:250-261 | shrinks to the pages of the new size and returns exactly the others |
| `PageTable.Memory.FreeWalk` | arch/riscv/kernel/vm.c:265-280 | every table of the subtree goes back once; the leaf panic is never reached |
| `PageTable.EntryKind` | arch/riscv/kernel/vm.c:265-280 | a valid entry met by freewalk in a space without mappings is a link, so the leaf panic is out of reach |
| `PageTable.Memory.Uvmfree` | arch/riscv/kernel/vm.c:284-289 | the space is gone, all its frames are back, other spaces are unchanged |
| `PageTable.Memory.Uvmcopy` | arch/riscv/kernel/vm.c:297-329 | the child gets contents and permissions of every page in frames of its own, or nothing; the parent is unchanged; cannot fail with three free frames per page |
| `PageTable.Memory.ProcPagetable` | arch/riscv/kernel/proc.c:163-191 | a space with just trampoline and trapframe, or, failing at any point, no trace; cannot fail with five free frames |
| `PageTable.Memory.ProcFreePagetable` | arch/riscv/kernel/proc.c:195-200 | unmaps the two, then frees the rest |
| `FreeList.SearchTest` | arch/riscv/lib/umalloc.c:66-68 | the search test of free holds at the predecessor in address order and nowhere else |
| `FreeList.SearchProgress` | arch/riscv/lib/umalloc.c:66-68 | from any start each step of the search gets closer, so it ends |
| `FreeList.InsertOk` | arch/riscv/lib/umalloc.c:70-87 | with both merges, one ascending cycle with gaps again, and the block's units free |
| `FreeList.RemoveOk` | arch/riscv/lib/umalloc.c:133-135 | taking out a whole block leaves such a cycle without its units |
| `FreeList.ShrinkOk` | arch/riscv/lib/umalloc.c:137-142 | cutting off a tail leaves such a cycle without the tail's units |
| `UserHeap.Heap.Release` | arch/riscv/lib/umalloc.c:49-88 | the block is no longer live, all invariants hold, and no live block was written to |
| `UserHeap.Heap.Morecore` | arch/riscv/lib/umalloc.c:90-109 | units join the list in a block that is large enough, or sbrk failed and nothing changes; they were obtained exactly if the byte count fits an int |
| `UserHeap.Heap.Malloc` | arch/riscv/lib/umalloc.c:116-152 | a block of enough units disjoint from every live one, no live block written to; more is asked for exactly if no free block is large enough; none exactly if it was asked for and sbrk failed; every unit handed out was obtained exactly if a free block was large enough, the byte count fits the int sbrk takes, or sbrk failed; ends from any freep |
| `UserHeap.Truncated` | arch/riscv/lib/umalloc.c:90-109 | malloc(0xFFFFFFF0) on a new heap returns a block of which nothing was obtained |
| `UserHeap.AllPassed` | arch/riscv/lib/umalloc.c:147-150 | coming round without a find means no block fits, and that does not happen after morecore |
| `UserHeap.GrownOk` | arch/riscv/lib/umalloc.c:90-109 | every unit from sbrk stays in exactly one free or live block |
| `PageCounts.Mapped` | arch/x86/kernel/mm/vm.c:71-109 | an entry set for a frame in hand keeps counts exact |
| `PageCounts.Unmapped` | arch/x86/kernel/mm/vm.c:115-136 | an entry dropped with its reference keeps counts exact, freeing the frame at zero |
| `PageCounts.InUse` | arch/x86/kernel/mm/buddy.c:318-345 | a frame is allocated exactly if it is mapped, owned by a segment or in hand |
| `SharedMemory.Kernel.DoShmget` | arch/x86/kernel/ipc/shm.c:120-199 | the first unmarked segment with the key, or a new one of fresh pages; fails exactly for a listed reason or a failed allocation, and then counts are as they were |
| `SharedMemory.Kernel.AllocPages` | arch/x86/kernel/ipc/shm.c:184-195 | all pages, or the counts as they were |
| `SharedMemory.Kernel.DoShmat` | arch/x86/kernel/ipc/shm.c:202-258 | with nothing in between its halves: the area maps every page of the segment and is counted once, or nothing is attached, exactly if the segment is gone or marked, the range is taken, below the break or user space or above the heap's top, the table is full or an allocation failed |
| `SharedMemory.Kernel.ShmatLookup` | arch/x86/kernel/ipc/shm.c:202-236 | up to where the lock is let go: the length of the segment, unless there is one of those reasons |
| `SharedMemory.Kernel.ShmatAttach` | arch/x86/kernel/ipc/shm.c:236-257 | the rest, whatever others did in between: counts stay exact, and the area fits its segment, so that all invariants hold, exactly if the segment now under that number has the length found before |
| `SharedMemory.ShmatRace` | arch/x86/kernel/ipc/shm.c:202-257 | a number reused by a longer segment in between maps a page past the area; nothing but a failed allocation stops the run |
| `SharedMemory.Kernel.ShmMapRange` | arch/x86/kernel/ipc/shm.c:79-104 | maps the segment's pages over the range; cannot fail where page tables exist and otherwise only for lack of memory |
| `SharedMemory.Kernel.ShmMunmap` | arch/x86/kernel/ipc/shm.c:261-286 | the area and its entries are gone, the count is one less, and with the last attachment a marked segment too |
| `SharedMemory.Kernel.DoShmctl` | arch/x86/kernel/ipc/shm.c:315-334 | marks the segment if it is attached, destroys it if not, and leaves all others alone |
| `SharedMemory.Kernel.TryDestroy` | arch/x86/kernel/ipc/shm.c:69-77 | destroys exactly a marked segment without attachments |
| `SharedMemory.FoundByKey` | arch/x86/kernel/ipc/shm.c:120-199 | a segment is found under its key while it is attached and detached, and no more once it is marked |
| `SharedMemory.Kernel.Destroy` | arch/x86/kernel/ipc/shm.c:55-77 | the segment's references go, the counts of all others stay exact |
| `SharedMemory.Kernel.ShmDetachAll` | arch/x86/kernel/ipc/shm.c:382-399 | the process has no attachment left; other processes, page tables and unmarked segments are as they were |
| `SharedMemory.Kernel.Uvmfree` | arch/x86/kernel/mm/vm.c:689-714 | every entry of the process gives back one reference; others unchanged |
| `SharedMemory.Kernel.Uvmcopy` | arch/x86/kernel/mm/vm.c:290-334 | every present page shared and guarded in parent and child, or, an allocation having failed, part of them; counts exact |
| `SharedMemory.Kernel.VmaCopy` | arch/x86/kernel/mm/mmap.c:149-162 | the child's area table is the parent's |
| `SharedMemory.Kernel.ShmForkFix` | arch/x86/kernel/ipc/shm.c:337-379 | unmarked segments are shared again by both and counted once more, of marked ones the child loses area and pages; nothing else is touched, nothing is allocated, so no mapping fails |
| `SharedMemory.Kernel.Fork` | arch/x86/kernel/proc.c:889-955 | counts and attachments exact on success and on every failure, which only a failed allocation brings and which leaves nothing of the child; in the parent unmarked segments are mapped shared and all other pages guarded, or, if the copy failed, some pages are guarded and the others as before; in the child likewise, without the areas of marked segments; third processes unaffected |
| `SharedMemory.SharedAfterFork` | arch/x86/kernel/ipc/shm.c:337-379 | an area mapped shared before fork is mapped shared by the parent after it exactly if its segment is not marked for destruction or the area is read-only |
| `SharedMemory.MarkedIsGuarded` | arch/x86/kernel/ipc/shm.c:337-379 | a page of a marked segment is left copy-on-write in the parent |
| `SharedMemory.MarkedRun` | arch/x86/kernel/mm/vm.c:340-372 | shmget, shmat, shmctl, fork, a write: the area has a page that is no longer the segment's; nothing but a failed allocation stops the run |
| `SharedMemory.Kernel.Exit` | arch/x86/kernel/proc.c:115-128 | nothing of the process is left, areas, entries, page tables or heap; other processes and unmarked segments are as they were; counts exact |
| `SharedMemory.Kernel.CowFault` | arch/x86/kernel/mm/vm.c:340-372 | the frame is kept exactly if nothing else refers to it, so the page is never a segment's afterwards; fails only for lack of memory, without a change |
| `SharedMemory.Kernel.DemandFault` | arch/x86/kernel/mm/vm.c:409-455 | a missing page of user space, of the heap or of an area that allows the access, gets a frame of its own, given memory, writable exactly if of the heap or of an area that is; any other access fails; counts exact |
| `SharedMemory.AreaAccess` | arch/x86/kernel/mm/vm.c:409-455 | after any calls, what is mapped of an area is writable or copy-on-write exactly if the area is not read-only |
| `SharedMemory.NeverDemanded` | arch/x86/kernel/ipc/shm.c:402-445 | every page of an attached area is present, so the mapping branch of shm_demand_fault is never reached |
| `SharedMemory.Kernel.DoMmap` | arch/x86/kernel/mm/mmap.c:218-265 | an anonymous area exactly if the range is free, in user space, above the break and below the heap's top, and the table not full; nothing is mapped |
| `SharedMemory.Kernel.DoMunmap` | arch/x86/kernel/mm/mmap.c:267-293 | exactly the area with these bounds and its pages go, attached or anonymous, and with it an attachment; counts exact |
| `SharedMemory.Kernel.SysBrk` | arch/x86/kernel/sysproc.c:82-111 | the heap ends at the new page exactly if that is in bounds and no area is in the way; pages above go; counts exact |
| `AddressSpace.Mm.RegionAvailable` | arch/x86/kernel/mm/mmap.c:35-52 | in bounds, above the break, clear of areas and unmapped, and conversely |
| `AddressSpace.Mm.constructor` | arch/x86/kernel/execve.c:344-352 | after exec: image, break and stack, their page tables, no area |
| `AddressSpace.Mm.FindMmapAddr` | arch/x86/kernel/mm/mmap.c:55-74 | the highest page-aligned available start; zero exactly if there is none |
| `AddressSpace.Mm.DoMmap` | arch/x86/kernel/mm/mmap.c:218-265 | one area more at an available place, the fixed address or the highest, exactly if there is such a place, a free entry and an allowed length; the layout holds |
| `AddressSpace.Mm.DoMunmap` | arch/x86/kernel/mm/mmap.c:267-293 | exactly the named area and its pages go; fails exactly if no area has these bounds |
| `AddressSpace.Mm.DoShmat` | arch/x86/kernel/ipc/shm.c:202-258 | at the given address or the highest place; the area is there exactly if the page tables could be had, else exactly the pages before the first missing table stay mapped without an area |
| `AddressSpace.Mm.DoShmdt` | arch/x86/kernel/ipc/shm.c:289-312 | the attached area that begins at the address goes with its pages; fails exactly if there is none |
| `AddressSpace.Mm.DemandFault` | arch/x86/kernel/mm/vm.c:409-455 | maps a page of user space, and its page table, exactly if it is of the heap or of an area, given memory |
| `AddressSpace.Mm.ForkOf` | arch/x86/kernel/proc.c:889-955 | the child has break, areas and pages of the parent, save areas of marked segments and their pages; the layout holds |
| `AddressSpace.Mm.SysBrk` | arch/x86/kernel/sysproc.c:82-111 | the break moves exactly if in bounds and clear of areas, areas stay above it, rounded up, pages above a lowered break go, and the new heap has a page mapped already exactly if a failed shmat left one there |
| `AddressSpace.OneBacking` | arch/x86/kernel/mm/mmap.c:116-133 | every mapped page between image and stack has one backing, the heap or one area, unless a failed shmat left it behind, and then it has no area |
| `AddressSpace.StaleHeap` | arch/x86/kernel/sysproc.c:82-111 | a shmat that runs across the end of the page table the image has, with no memory for another, then brk: a page of the segment is in the heap |
| `VirtioRing.Conservation` | arch/riscv/kernel/virtio_disk.c:112-158 | free descriptors plus three per chain make eight, so at most two requests are under way |
| `VirtioRing.Window` | arch/riscv/kernel/virtio_disk.c:224-249 | neither ring ever holds more than two unseen entries |
| `VirtioRing.NoAlias` | arch/riscv/kernel/virtio_disk.c:224-249 | entries up to seven apart share neither a ring slot nor a wrapped index |
| `VirtioDisk.Disk.Alloc3Desc` | arch/riscv/kernel/virtio_disk.c:147-158 | three distinct free descriptors, or none taken and fewer than three free |
| `VirtioDisk.Disk.Submit` | arch/riscv/kernel/virtio_disk.c:160-232 | posts the request exactly if fewer than two are under way; rings, chains and buffers consistent |
| `VirtioDisk.Disk.DevTake` | arch/riscv/kernel/virtio_disk.c:224-232 | the device gets the posted heads in order, across the wrap of the 16-bit index |
| `VirtioDisk.Disk.DevFinish` | arch/riscv/kernel/virtio_disk.c:245-250 | finishing in any order overwrites no entry the driver has yet to see |
| `VirtioDisk.Disk.IntrOne` | arch/riscv/kernel/virtio_disk.c:249-259 | hands back exactly the buffer of the next finished request; the comparison modulo eight is exact |
| `VirtioDisk.Disk.Intr` | arch/riscv/kernel/virtio_disk.c:245-264 | everything finished is handed back |
| `VirtioDisk.Disk.FreeChain` | arch/riscv/kernel/virtio_disk.c:136-145 | frees exactly the three descriptors of the chain, each of which was in use |
| `VirtioDisk.Disk.Finish` | arch/riscv/kernel/virtio_disk.c:235-243 | a request that is done was finished by the device and seen by the driver; its chain alone is released |
| `VirtioDisk.ExactlyOnce` | arch/riscv/kernel/virtio_disk.c:160-264 | a released request was finished by the device exactly once, after it took it |
| `LazyFpu.UseSeesOwn` | arch/x86/kernel/fpu.c:130-156 | a process using the registers finds its own image |
| `LazyFpu.NoForeignOwner` | arch/x86/kernel/fpu.c:144-147 | on a trap the registers are nobody's, so the branch saving another owner is never taken |
| `LazyFpu.StepInv` | arch/x86/kernel/fpu.c:62-156 | switches, traps, uses, forks and exits keep every image where it belongs |
| `LazyFpu.LazyFromBoot` | arch/x86/kernel/fpu.c:62-156 | over every run from boot each use finds what registers of one's own would hold, the parent's at fork |
| `LazyFpu.SwitchedIn` | arch/x86/kernel/fpu.c:130-156 | a process on no CPU can be switched in on a free one; its first use traps and then finds its image, or the initial one if it had none |
| `LazyFpu.Migrates` | arch/x86/kernel/fpu.c:62-156 | so a process can move from any CPU to any free one and keeps its image |
| `LazyFpu.ForkedRuns` | arch/x86/kernel/fpu.c:99-125 | a child can be run on any free CPU and finds what its parent had |
| `LazyFpu.ExitDrops` | arch/x86/kernel/fpu.c:77-95 | after exit no CPU's registers count as the process' own, and it is not run again |
| `LazyFpu.EarlySwitchIff` | arch/x86/kernel/proc.c:261-271 | run elsewhere before its switch-out, a process finds its image exactly if no CPU holds a newer one |
| `LazyFpu.EarlySwitchLoses` | arch/x86/kernel/proc.c:261-271 | a run from the start in which it does not |
| `Pipes.Pipe.WriteTurn` | arch/riscv/kernel/pipe.c:81-93 | bytes join the stream in order until it is full or all are in, also as the counters wrap |
| `Pipes.FullOrEmpty` | arch/riscv/kernel/pipe.c:81-93 | the wrapped counters tell full and empty rings apart |
| `Pipes.Pipe.ReadTurn` | arch/riscv/kernel/pipe.c:113-119 | delivers the oldest bytes, as many as asked for or there are; all reads together have returned a prefix of what was written |
| `Pipes.Fifo` | arch/riscv/kernel/pipe.c:74-123 | over any turns the bytes delivered are, in order, the first of the bytes accepted |
| `Pipes.Pipe.AtomicTurn` | arch/x86/kernel/fs/pipe.c:166-184 | a short write goes in whole and without a gap or waits; it waits for room exactly while both sums of the test are in the same round, and the ring is intact exactly if it had room or waited |
| `Pipes.WaitTest` | arch/x86/kernel/fs/pipe.c:167 | the test for room is right exactly if both sums lie in the same round of 2^32 |
| `Pipes.WaitTestFails` | arch/x86/kernel/fs/pipe.c:167 | a full pipe near the wrap that takes a write all the same |
| `Matcher.Match` | arch/riscv/user/grep.c:71-80 | true exactly if some position, under a leading ^ only the first, starts a string of the pattern's language |
| `Matcher.MatchHere` | arch/riscv/user/grep.c:83-94 | true exactly if such a string starts the text |
| `Matcher.MatchStar` | arch/riscv/user/grep.c:97-104 | true exactly if some number of fitting characters leads to a match of the rest |
| `Matcher.StarStarts` | arch/riscv/user/grep.c:97-104 | a starred character begins a text exactly by some count of fitting characters before the rest |
| `Matcher.PlainFound` | arch/riscv/user/grep.c:71-94 | a pattern of plain characters is found exactly where the text has it: anywhere, at the front under ^, at the end under $, as the whole under both |
| `Matcher.EndFound` | arch/riscv/user/grep.c:71-80 | $ alone is found in every text, the empty string at its end being looked at |
| `Matcher.StarFound` | arch/riscv/user/grep.c:97-104 | a starred character, or .*, and plain characters: exactly after some count of that character, or of any |
| `Grep.GrepStream` | arch/riscv/user/grep.c:11-36 | prints exactly the matching lines, however the reads cut the input, up to a line that fills the buffer |
| `Grep.AllReadIff` | arch/riscv/user/grep.c:17 | all of the input is searched exactly if no line fills the buffer |
| `Grep.UnreadBegins` | arch/riscv/user/grep.c:11-36 | what is not searched begins with a line that fills the buffer, right after a newline |
| `Grep.LinesJoined` | arch/riscv/user/grep.c:19-28 | the lines of a text with their newlines, and a rest without one, are the text |
| `Grep.LinesWhole` | arch/riscv/user/grep.c:19-28 | none of these lines has a newline in it |
| `Grep.MatchingIsChosen` | arch/riscv/user/grep.c:19-28 | what is printed are the matching lines, in order |
| `Grep.ChosenLines` | arch/riscv/user/grep.c:19-28 | each line is chosen as often as the text has it if it contains a match, and not at all otherwise |
| `Grep.LongLineHidden` | arch/riscv/user/grep.c:17 | a line of 1023 characters that is to be printed and is not |

## Left out

- Locks, interrupts, fences and TLB flushing: a locked section, or the part of one between two sleeps, is one step; log_write is one step although its guard is read before the lock is taken.
- The buffer cache caches one device; block contents are words or bytes that are copied at once, and a commit runs without a reader coming or going in between.
- RedoLog.Log.constructor: a log that names NBUF different blocks, on which replay panics (`RedoLog.ReplayStarves`) and which no commit of this kernel writes.
- FileSystem.Fs.Writei: copies from user memory that succeed; the source returns n even if one fails, and out of blocks is a panic, modelled as no result.
- FileSystem.Fs.Readi: copies to user memory that succeed.
- The inode cache, directories, path lookup and links; the byte order of inodes and of bitmap bits on the disk.
- CowMemory.CowRefinesEager: pages that were read-only at fork are excluded once the kernel wrote to one, as copyout may; shared segments are treated in SharedMemory.
- SharedMemory: addresses count pages, so one that is not aligned is out of the model; calls other than shmat run whole, and page contents are not modelled; exec's image pages are mapped one by one like those of a fault.
- AddressSpace.Mm.DemandFault: protection bits of areas, which SharedMemory.Kernel.DemandFault has.
- AddressSpace: memory that runs out in fork, which leaves no child.
- WaitExit: a process that sleeps on something else counts as running; the scheduler's part is in Scheduler.
- PageTable: uvmclear, copyin, copyout and copyinstr; kernel mappings; a user size that runs into the trapframe is excluded by precondition.
- UserHeap: programs that move the break down themselves, and what writing a header to memory never obtained does.
- VirtioDisk: addresses, lengths and direction in descriptors, and the data transferred.
- VirtioDisk.Disk.IntrOne: the device reports success; a failed status is a panic.
- LazyFpu: exec, whose fpu_clear drops ownership without setting TS; the image of a first use is arbitrary.
- Pipes: closed ends, signals, killed processes and the wakeups around the turns.
- Grep.GrepStream: input without zero bytes; read errors end the input.
- x86 process scheduling, futexes, signals, the x86 file systems, ELF loading, device set-up, assembly and the user programs other than grep.
