# xv6 invariants in Dafny

Machine-checked models of the parts of xv6 for RISC-V whose correctness is hard to see: the crash-safe
storage stack, virtual memory, the process protocol, the disk driver's rings, and three pieces of
user-level code.  `dafny verify dfyconfig.toml` checks all of it.

Code that updates state in place is a class whose methods are proved against values: the log
(`LogCode`), page tables and the page pool (`Vm`), the block allocator and files (`Fs`), the image
builder (`Mkfs`), the buffer ring (`Bio`), the allocator (`Umalloc`), the disk driver (`Virtio`) and
pipes (`Pipes`).  Where threads, harts or crashes interleave the model is a transition system and the
theorems are about every state of every run: `LogProtocol`, `ProcModel` with `ProcInv`, `ProcRuns` and
`ProcFamily`, and `InodeTable`.

## The storage stack

`LogDisk` is the log on disk.  A crash during a block write may leave anything in that block, except
in the log header, which fits one sector.  `LogCode` is the log layer as one thread runs it over a
cache that may drop any unreferenced buffer; it records every block write, and the crash states of
`EndOp` and `Recover` are the crash states of those writes.  `LogProtocol` lets any number of system
calls, buffer recycling, every single write of a commit, crashes and every single write of a recovery
interleave.

`LogReservation` settles how many log entries an operation may add.  The log mkfs makes has room for
29 entries (log_write refuses the thirtieth), while begin_op reserves 10 for each of up to three
operations.  Operations that add up to 9 entries can never reach the panic; three operations that add
10 each do reach it.  filewrite stays at 7, which `Fs.FileSys.FileWrite` shows.

`Fs` works on the newest contents of every block, as the log presents them.  Its invariant is that the
block numbers stored in inodes and indirect blocks and the set bits of the bitmap determine each
other exactly, and that no file has a hole below its size.  `Mkfs` establishes it, except that
rounding up a root directory whose size is a multiple of the block size makes a hole
(`Mkfs.Image.RoundRoot`); sixty-four entries do that (`Mkfs.FullRoot`).  `InodeTable` covers
references, locks and the freeing of inodes; iput's final decrement can leave an inode that was allocated
in the meantime without a link and without a reference (`InodeTable.LateDropForgets`), and
`InodeTable.ForgottenOnlyBy` says exactly when.

## Virtual memory

Physical pages are typed: a page is free, a page table, a user page or in its caller's hands.
`Vm.Machine.view` is the map from address space and page number to entry that the three-level tables
stand for.  uvmdealloc's comment allows sizes beyond what is mapped; the code does not: uvmunmap
panics on the first page that is not mapped, and the contract follows the code (`Vm.ShrinkUnmapped`).

## Processes

Each transition of `ProcModel` is one acquire, release or switch, or instructions whose effect only
holders of the locks involved can see.  A spin lock's holder is a hart, as `lk->cpu` is, so the lock a
scheduler takes and a process releases after swtch is one lock throughout.  Conditions other than a
zombie child are flags protected by a lock, which any number of them may share; a sleep lock is such a
flag, set when it is free.

## User code

Addresses in `Umalloc` count headers.  sbrk is a parameter: the address of fresh memory above all
memory obtained before, or a failure.  `ShellGrammar` says what the shell's parser computes on the
text still to be read; `ShellParser` is the parser with its cursor and loops, and nulterminate.
`ShellSyntax` has the language as a grammar with a meaning for every derivation, and `ShellTokens`
says how text falls into tokens; the parser accepts exactly the derivable texts, with that meaning.

## Model

| member | source | states |
|---|---|---|
| Blocks.PutGetWord | kernel/fs.c:395-400 | storing one 32-bit word of a block through the uint cast changes that word and no other |
| LogDisk.HeadRoundTrip | kernel/log.c:86-114 | the header block write_head builds is read back by read_head as the same list of block numbers, whatever the block held before |
| LogDisk.HeaderProtects | kernel/log.c:193-203 | as long as the header and the slots it refers to are in place, what recovery yields depends on them and on the home blocks the header does not name; the named ones may hold anything |
| LogDisk.HeaderTakesEffect | kernel/log.c:102-114 | the one write of the header switches, at once and for every home block, from the old contents to the logged ones |
| LogDisk.CommitCrashSafe | kernel/log.c:177-203 | every crash state of a commit, with the block in flight arbitrary unless it is the header, recovers to exactly the home blocks from before, or from the header write on to exactly the logged contents |
| LogDisk.RecoverCrashSafe | kernel/log.c:67-83 | every crash state of a recovery still recovers to the same home blocks |
| LogDisk.RecoverResult | kernel/log.c:116-123 | a finished recovery leaves every home block with its recovered contents and the log empty |
| LogDisk.RepeatedRecovery | kernel/log.c:116-123 | any number of recoveries, each interrupted anywhere, yields the same home blocks as one undisturbed recovery |
| LogCode.Log.Bread | kernel/bio.c:58-103 | the buffer holds the newest copy of the block, and no buffer that is referenced or newer than the disk is recycled for it |
| LogCode.Log.LoadEntries | kernel/log.c:90-94 | the loop copies out exactly the list of block numbers the header holds |
| LogCode.Log.ReadHead | kernel/log.c:86-97 | the in-memory header becomes the list on disk |
| LogCode.Log.FillHead | kernel/log.c:106-111 | the loop builds exactly the header block for the list |
| LogCode.Log.WriteHead | kernel/log.c:102-114 | exactly one block is written, the header, and dirty buffers keep their contents |
| LogCode.Log.CopyToSlot | kernel/log.c:182-190 | one round writes the cached contents of block lh[i] to log slot i, whatever the cache recycles on the way, and nothing else |
| LogCode.Log.CopyToHome | kernel/log.c:72-78 | one round writes the contents of slot i to its home block and nothing else |
| LogCode.Log.WriteLog | kernel/log.c:178-191 | the writes are exactly those of the logged blocks to the slots, in order |
| LogCode.Log.InstallTrans | kernel/log.c:68-83 | the writes are exactly those of the slots to the home blocks, in order, and every logged buffer is unpinned |
| LogCode.Log.CommitPoint | kernel/log.c:193-198 | when write_head returns the slots hold the logged contents and the header lists them |
| LogCode.Log.Finish | kernel/log.c:199-201 | home blocks written, header cleared, no buffer newer than the disk is left |
| LogCode.Log.Commit | kernel/log.c:193-203 | the block writes of a commit are, in order, those whose crash states CommitCrashSafe covers |
| LogCode.Log.TryBeginOp | kernel/log.c:126-142 | admitted exactly when no commit runs and the log has room for one more full operation |
| LogCode.Log.LogWrite | kernel/log.c:214-235 | panics exactly when the log is full or no operation is open; otherwise the block is in the log once, pinned once, and no other block changes |
| LogCode.Log.EndOp | kernel/log.c:146-175 | the last operation out leaves the newest contents of every block on its home block and unpins exactly the logged buffers; no call changes the newest contents; wherever the machine stops during the call, recovery yields the home blocks from before it, or from the header write on exactly the newest contents |
| LogCode.Log.Recover | kernel/log.c:116-123 | from any well formed header, home blocks get their recovered contents, the log is empty, and every buffer has as many references as before |
| LogProtocol.NextInv | kernel/log.c:126-235 | every transition of system calls, buffer recycling, commit writes, crash and recovery writes keeps the invariant |
| LogProtocol.CrashRecoversWholeOps | kernel/log.c:126-203 | stop any run in any state with the block in flight garbled: recovery yields the effect of the committed log_writes block for block, and every operation is in there entirely or not at all |
| LogProtocol.CommittedKept | kernel/log.c:193-203 | no transition takes back a committed log_write |
| LogProtocol.Durability | kernel/log.c:193-203 | what is committed at some point of a run is part of every later state, through any number of crashes |
| LogProtocol.QuietMeansCommitted | kernel/log.c:146-175 | with no operation open and no commit or recovery running, everything logged is committed and on its home block |
| LogProtocol.BreadLatest | kernel/bio.c:58-103 | in every run a valid buffer that its holder is not changing has the latest logged contents of its block |
| LogProtocol.LoggedStayPinned | kernel/log.c:214-235 | in every run a logged block is in the cache, valid and referenced until its home write |
| LogProtocol.HomeWritesFollowHeader | kernel/log.c:67-83 | in every run a home block on disk changes only in a commit or recovery whose header, naming that block, is on disk |
| LogReservation.NineFit | kernel/log.c:126-142 | in every interleaving admitted by begin_op in which each operation adds at most 9 entries, log_write never reaches its panic, with the log as small as mkfs makes it |
| LogReservation.TenDoNotFit | kernel/log.c:214-235 | a run in which operations add the 10 entries begin_op reserves reaches the panic, so 9 is exact |
| LogReservation.ProtocolCounts | kernel/log.c:126-235 | every transition of the full protocol is a transition of the counting model, or changes nothing it counts |
| LogReservation.ProtocolFits | kernel/log.c:126-235 | in every run of the full protocol in which each operation adds at most 9 entries, log_write never reaches its panic |
| PageTable.FindNode | kernel/vm.c:80-98 | going down the levels finds the table on the path of a page, if there is one |
| PageTable.FindPath | kernel/vm.c:80-98 | a table on the path of a page is the one going down finds |
| PageTable.SetLeafAt | kernel/vm.c:147-158 | storing a leaf entry changes the translation of that page and no other |
| PageTable.LinkTrees | kernel/vm.c:88-95 | hooking a zeroed page into an empty entry keeps all tables an unshared forest |
| PageTable.LinkLookup | kernel/vm.c:88-95 | hooking a zeroed page into an empty entry changes no translation of any address space |
| PageTable.UniquePlace | kernel/vm.c:80-98 | a table page has one place: one root, one level, one range of addresses |
| PageTable.AllUnderRoot | kernel/vm.c:266-282 | the tables of an address space are exactly those below its root |
| PageTable.FreeingEnd | kernel/vm.c:266-282 | when freewalk has dealt with all entries, what is left is the forest without the subtree |
| VmSpec.PagesAddUp | kernel/kalloc.c:33-82 | free pages, table pages, user pages and pages in callers' hands add up to the pool, counted |
| VmSpec.RemoveUndoesAdd | kernel/vm.c:137-187 | unmapping a range right after mapping it restores every translation |
| Vm.Machine.constructor | kernel/kalloc.c:26-40 | the pool starts with every page of the range free, once |
| Vm.Machine.Kalloc | kernel/kalloc.c:68-82 | fails exactly when no page is free; the page returned is nobody else's |
| Vm.Machine.Kfree | kernel/kalloc.c:46-63 | a page its caller owns goes back to the free list, once |
| Vm.Machine.Walk | kernel/vm.c:80-98 | finds the leaf entry of the address; creating tables changes no translation of any address space, and without alloc nothing changes |
| Vm.Machine.MapPages | kernel/vm.c:137-160 | success maps exactly the pages of the range, all unmapped before; a failure leaves a prefix and means that fewer than two pages were free for each page mapped or tried; the panic means a remap, an empty range or an address out of reach |
| Vm.Machine.UvmUnmap | kernel/vm.c:165-187 | succeeds exactly when every page of the range is a mapped leaf, removes exactly those translations, and with do_free returns exactly their frames |
| Vm.Machine.UvmDealloc | kernel/vm.c:250-262 | removes exactly the pages between the two sizes, or nothing, and panics exactly when one of them is not mapped |
| Vm.ShrinkUnmapped | kernel/vm.c:246-262 | the comment above uvmdealloc allows an old size beyond the actual size; with one page claimed and none mapped the call panics |
| Vm.Machine.UvmAlloc | kernel/vm.c:220-244 | success adds exactly the new pages, each a zeroed page of its own that is readable, writable, executable and open to the user, so that a range accessible up to the old size is accessible up to the new one; failure restores every leaf mapping and user byte, and is impossible with three free pages for each new page |
| Vm.Machine.UvmCopy | kernel/vm.c:300-328 | success gives the child a page of its own for every page of the parent, same flags and bytes; failure restores everything, and is impossible with three free pages for each page of the parent |
| Vm.Machine.UvmCreate | kernel/vm.c:191-200 | a new address space that maps nothing, or no memory |
| Vm.Machine.FreeWalk | kernel/vm.c:266-282 | returns every table page at and below the given one exactly once; panics exactly when a leaf is still mapped |
| Vm.Machine.UvmFree | kernel/vm.c:286-292 | succeeds exactly when the pages below sz and no others are mapped; then tables and user pages of the address space are free and no other address space changed |
| Vm.Machine.WalkAddr | kernel/vm.c:103-121 | the frame of a page that is mapped, valid and user accessible, else none |
| Vm.Machine.CopyOut | kernel/vm.c:346-366 | succeeds exactly when every byte of the range is user accessible; stores the bytes in order up to the first byte that is not, across page boundaries |
| Vm.Machine.CopyIn | kernel/vm.c:371-391 | succeeds exactly when every byte of the range is user accessible, and returns those bytes |
| Vm.Machine.CopyInStr | kernel/vm.c:397-434 | succeeds exactly when a string with its NUL lies within max bytes and is user accessible, and returns it |
| UserBytes.ReadBack | kernel/vm.c:346-391 | over an injectively mapped range, every byte stored is the byte read at its address |
| UserBytes.StoredElsewhere | kernel/vm.c:346-366 | every byte that is not the byte of an address in the stored range keeps its value, also in the first and last page |
| UserBytes.GrownBlank | kernel/vm.c:220-244 | the pages uvmalloc adds are zeroed, have PTE_R, PTE_W, PTE_X and PTE_U, and can be reached by copyout and copyin |
| UserBytes.ForkImage | kernel/vm.c:300-328 | after uvmcopy the child can access exactly what the parent can, finds the same bytes there, in frames that were nobody's, and the parent has what it had |
| Vm.GrowAndStore | kernel/vm.c:220-391 | copyout into memory just gained by uvmalloc cannot fail, and copyin returns what was stored |
| UserBytes.CopyRoundTrip | kernel/vm.c:346-391 | what copyout stored, copyin returns, for any length across any page boundaries, on every injectively mapped accessible range |
| Bitmap.BitSet | kernel/fs.c:74-76 | setting a clear bit changes that bit only |
| Bitmap.BitClear | kernel/fs.c:97-100 | clearing a set bit changes that bit only |
| Bitmap.InodePlaces | kernel/fs.h:42-45 | the inode blocks have a place for every inode, and no two inodes have the same |
| Bitmap.MarkBlock | kernel/fs.c:74-76 | after balloc's store the set bits are the old ones and the new block's |
| Bitmap.UnmarkBlock | kernel/fs.c:95-100 | after bfree's store the set bits are the old ones without the freed block's |
| FsSpec.OneOwner | kernel/fs.c:377-437 | no block number is stored in two places |
| FsSpec.BitmapExact | kernel/fs.c:64-103 | a data block is marked in use exactly when some inode or indirect block names it |
| FsSpec.DataWrite | kernel/fs.c:486-517 | a write to a block that is not an indirect block changes no block list |
| FsSpec.LinkDirect | kernel/fs.c:382-386 | a new block in addrs changes that slot only and keeps ownership exact |
| FsSpec.LinkIndirect | kernel/fs.c:390-402 | a new number in the indirect block changes that slot only and keeps ownership exact |
| FsSpec.Unlink | kernel/fs.c:409-437 | emptying a slot gives up exactly the blocks it leads to |
| FsSpec.GrownContents | kernel/fs.c:377-405 | growing a block map changes the contents of no file |
| FsSpec.ChunkWritten | kernel/fs.c:497-507 | a chunk stored in a data block changes exactly its bytes of exactly its file |
| FsSpec.ChunkSpliced | kernel/fs.c:497-507 | a chunk stored at or before the end of a file splices it in and extends the file over it |
| Fs.FileSys.Balloc | kernel/fs.c:64-86 | the lowest block not in use, marked and zeroed; panics exactly when every block is in use |
| Fs.FileSys.Bfree | kernel/fs.c:89-103 | panics exactly on a block that is free already |
| Fs.FileSys.Bmap | kernel/fs.c:377-405 | the block of a file block, allocated zeroed if missing, the indirect block too; nothing else changes hands, every block changed is logged, and an existing block is found without any change |
| Fs.FileSys.FreeUsed | kernel/fs.c:89-103 | freeing an owned block cannot panic |
| Fs.FileSys.Itrunc | kernel/fs.c:409-437 | exactly the blocks of the file are freed, each once; other files keep block lists and contents; every block changed and the inode are logged; the panic in bfree is unreachable |
| Fs.FileSys.Readi | kernel/fs.c:455-477 | returns the requested slice clipped to the size, across direct and indirect blocks, allocates nothing, and fails exactly when a copy faults |
| Fs.FileSys.Writei | kernel/fs.c:486-517 | refuses exactly the ranges the guards exclude; otherwise replaces exactly the bytes before the first fault, sets the size to the maximum, leaves other files alone, and logs every block it changes and the inode, and only bitmap, inode, indirect and touched data blocks |
| Fs.SevenBlocks | kernel/file.c:155-174 | with one bitmap block, a transaction over at most four file blocks logs at most 7 distinct blocks |
| Fs.FileSys.WriteOp | kernel/file.c:155-174 | one transaction of filewrite logs everything it changes, in at most 7 distinct blocks, and splices in what was written |
| Fs.FileSys.FileWrite | kernel/file.c:134-181 | every transaction logs at most 7 distinct blocks, and everything changed is in one of them; the file receives exactly the prefix of the buffer that the offset advanced over; the result is n exactly when all of it was written; it stops short only at a fault or at a transaction writei refuses |
| Mkfs.LayoutFits | mkfs/mkfs.c:23-27 | the regions follow one another and are big enough, on every disk with room for them |
| Mkfs.Image.constructor | mkfs/mkfs.c:92-115 | a zeroed image with empty inodes and the first data block next |
| Mkfs.Image.MapBlock | mkfs/mkfs.c:266-283 | blocks are taken in order, only the file block asked for and the indirect block it needs gain one, and it fails exactly when the blocks lacking do not fit in the image |
| Mkfs.Image.Iappend | mkfs/mkfs.c:252-294 | the file gains exactly the bytes appended and exactly the blocks the longer file takes, indirect block included; every other file is as it was; it fails exactly when the file would be too long or those blocks do not fit |
| Mkfs.Image.RoundRoot | mkfs/mkfs.c:163-168 | rounding up the root directory's size leaves no hole in it exactly when the size was not on a block boundary; no other file gets one |
| Mkfs.FullRoot | mkfs/mkfs.c:150-168 | a root directory of sixty-four entries, appended one by one to an image of the size mkfs makes, ends up with a hole |
| Mkfs.Image.WriteBitmap | mkfs/mkfs.c:234-248 | the image then satisfies the file system's invariant: set bits equal metadata and owned blocks, and no file has a hole |
| InodeTable.NextInv | kernel/fs.c:195-358 | every step of iget, idup, ilock, iupdate, iunlock, iput and ialloc, in any interleaving, keeps the invariant |
| InodeTable.OneFaithfulCopy | kernel/fs.c:242-273 | in every run at most one table entry in use per inode, and an unlocked valid one equals the inode on disk |
| InodeTable.LockSeesDisk | kernel/fs.c:288-313 | in every run ilock finds an allocated inode and its caller sees the inode as it is on disk, also one freed and allocated anew during another thread's iput |
| InodeTable.LastReferenceUnlocked | kernel/fs.c:332-358 | in every run, when iput has the last reference to a valid entry nobody holds its lock, and iput frees the inode exactly when it has no link on disk |
| InodeTable.FreesUnlinked | kernel/fs.c:332-358 | in every run, the write that frees an inode finds it allocated, without a link and with no other reference, and leaves it free and empty on disk |
| InodeTable.FreedBeforeDrop | kernel/fs.c:332-358 | in every run, an iput that went to free the inode has done so on disk before its final decrement |
| InodeTable.AllocatesUnused | kernel/fs.c:195-215 | in every run, ialloc takes a free number no reference stands for any more, and its inode is empty |
| InodeTable.UpdateReaches | kernel/fs.c:217-238 | in every run, after iupdate the inode on disk is the locked copy |
| InodeTable.ForgottenOnlyBy | kernel/fs.c:332-358 | in every run, the last reference to an allocated inode without links goes away exactly by the final decrement of an iput that had freed the number's previous inode, or by the iput of an entry never read |
| InodeTable.LateDropForgets | kernel/fs.c:354-357 | a run in which that final decrement, made without testing again, leaves a valid inode allocated with no link and no reference |
| Bio.PushFront | kernel/bio.c:46-52 | linking a buffer behind the head keeps next and prev inverse and puts it first |
| Bio.Unlink | kernel/bio.c:126-129 | unlinking a buffer keeps next and prev inverse and the order of the others |
| Bio.Cache.constructor | kernel/bio.c:36-53 | the ring holds every buffer once, the last one first |
| Bio.Cache.Bget | kernel/bio.c:58-89 | the one buffer with the block, or the least recently released unreferenced one; panics exactly when there is neither; no block of a device is ever in two buffers |
| Bio.Cache.Brelse | kernel/bio.c:116-137 | the last release moves the buffer to the front, the others keep their order; the ring stays a permutation of all buffers |
| Bio.Cache.Bpin | kernel/bio.c:139-144 | one reference more, nothing else |
| Bio.Cache.Bunpin | kernel/bio.c:146-151 | one reference less, nothing else; the order stays |
| ProcInv.NextInv | kernel/proc.c:349-638 | every transition of scheduler, sleep, wakeup, exit, wait, fork, kill and yield on any hart keeps the invariant |
| ProcInv.OneHolder | kernel/spinlock.c:21-72 | two harts never hold the same spin lock |
| ProcInv.ZombieGone | kernel/proc.c:441-456 | a child that wait finds ZOMBIE under its lock is off its stack |
| ProcRuns.NoneLost | kernel/proc.c:569-614 | a process that sleeps although what it waits for has happened is about to be woken by a thread holding the lock |
| ProcRuns.NoSleeperWithZombie | kernel/proc.c:349-469 | in every run, whenever wait_lock is free, no process sleeps in wait while it has a ZOMBIE child, children given to init included |
| ProcRuns.NoSleeperAfterEvent | kernel/sleeplock.c:21-41 | in every run, whenever the lock of a condition is free and the condition holds, nobody sleeps on it |
| ProcRuns.WakeupFindsSleeper | kernel/proc.c:569-614 | in every run, from the decision to sleep under lk on, wakeup holding p->lock finds the process SLEEPING on its channel |
| ProcRuns.RunningOnOneHart | kernel/proc.c:478-544 | in every run, whenever p->lock is free, p is RUNNING exactly when one hart has c->proc == p, and otherwise no hart is on its stack |
| ProcRuns.NoffCountsLocks | kernel/spinlock.c:88-110 | in every run noff is the number of locks held by the hart plus outstanding push_offs |
| ProcRuns.SchedChecksPass | kernel/proc.c:515-533 | in every run whoever is about to switch away holds its own lock and no other, with noff 1 |
| ProcRuns.AcquireNeverPanics | kernel/spinlock.c:21-43 | in every run no thread asks for a lock its hart holds |
| ProcRuns.LockHandedOver | kernel/proc.c:478-565 | in every state of every run in which a process has been switched to and not moved since, its hart holds its lock, and the only move it can make releases that lock and brings noff back to its count |
| ProcRuns.LockHandedBack | kernel/proc.c:478-511 | the same towards the scheduler: it holds the lock of the process it ran, and its only move releases it |
| ProcRuns.SwitchLands | kernel/proc.c:478-511 | when the scheduler switches to a process, the process is at a place where that is its next move |
| ProcRuns.SwitchReturns | kernel/proc.c:515-544 | when a process switches away, its hart is at the place in the scheduler where the release comes next |
| ProcRuns.HandoverUndisturbed | kernel/proc.c:478-565 | moves of other harts leave such a handover as it is |
| ProcFamily.NoOrphans | kernel/proc.c:280-420 | in every run every process but init has a parent once it can run, and a parent is always alive: children are given away before exit makes their parent a ZOMBIE |
| ProcFamily.ForkedByParent | kernel/proc.c:334-342 | in every run, when fork is about to make its child runnable, the child's parent is the caller |
| ProcFamily.NoneHalfMade | kernel/proc.c:280-345 | in every run, a USED slot is being set up by some fork |
| ProcFamily.WaitKnows | kernel/proc.c:422-469 | in every run, after wait's scan havekids is true exactly when the caller has children |
| ProcFamily.ZombieUntilWaited | kernel/proc.c:362-469 | in every run, an exited process remains a ZOMBIE until its parent waits for it |
| ProcFamily.WaitReaps | kernel/proc.c:434-458 | in every run, a successful wait frees the slot of its own ZOMBIE child, which has no children left |
| ProcFamily.KillWakes | kernel/proc.c:620-638 | in every run, a victim that kill finds SLEEPING is RUNNABLE when its lock is released |
| FreeList.InsertOrdered | user/umalloc.c:24-44 | merging a freed block with the neighbours it touches keeps address order and leaves no two blocks abutting |
| FreeList.InsertCovers | user/umalloc.c:24-44 | the free units afterwards are the free units before and the freed block's |
| FreeList.CarveInsert | user/umalloc.c:24-90 | freeing a block right after carving it out gives the list back |
| FreeList.Unique | user/umalloc.c:24-90 | two ordered, gapped lists over the same units are the same list |
| Umalloc.Heap.Search | user/umalloc.c:30-32 | the search ends, at the one place in the circle where the block belongs |
| Umalloc.Heap.Release | user/umalloc.c:24-44 | the pointers again make one circle in address order with the block merged in |
| Umalloc.Heap.Free | user/umalloc.c:24-44 | exactly that block stops being live, exactly its units become free, and free and live blocks still tile the memory obtained |
| Umalloc.Heap.Morecore | user/umalloc.c:46-61 | at least 4096 fresh units join the memory obtained, in a free block big enough |
| Umalloc.Heap.GoAround | user/umalloc.c:74-89 | the loop ends with a block big enough and its predecessor, or after looking at every block |
| Umalloc.Heap.CarveOut | user/umalloc.c:75-86 | the block taken is apart from every live block, and tiling, order and circle are kept |
| Umalloc.Heap.Malloc | user/umalloc.c:63-90 | a block of the right size that was not live, with at most one extension of memory, made exactly when no free block is big enough; failure changes nothing |
| Umalloc.ListDetermined | user/umalloc.c:24-90 | the memory obtained and the live blocks determine the free list, whatever calls led there |
| VirtioSpec.RingPush | kernel/virtio_disk.c:257-265 | a new ring entry overwrites none still to be consumed, also when the 16-bit index wraps |
| VirtioSpec.RingPop | kernel/virtio_disk.c:300-312 | the consumer's index test sees an entry exactly when there is one, and takes the oldest |
| Virtio.Disk.constructor | kernel/virtio_disk.c:76-141 | all descriptors free, nothing in flight |
| Virtio.Disk.AllocDesc | kernel/virtio_disk.c:144-154 | a free descriptor, now taken, or none if none is free |
| Virtio.Disk.FreeDesc | kernel/virtio_disk.c:157-170 | panics exactly on an index out of range or a free descriptor |
| Virtio.Disk.Alloc3 | kernel/virtio_disk.c:189-200 | three different free descriptors; it fails exactly when fewer than three are free, and then every descriptor is free that was free before |
| Virtio.Disk.FreeChain | kernel/virtio_disk.c:173-185 | exactly the three descriptors of the chain become free, and free_desc does not panic |
| Virtio.Disk.Submit | kernel/virtio_disk.c:203-269 | the request is announced with its own chain; with two requests in flight, and only then, nothing changes and the caller sleeps; free descriptors and chains still partition the table |
| VirtioSpec.FreeCount | kernel/virtio_disk.c:144-200 | every request in flight takes three descriptors and all others are free, counted |
| Virtio.Disk.Reap | kernel/virtio_disk.c:282-315 | the oldest unseen completion is taken and its buffer released; the status panic is unreachable |
| Virtio.Disk.Finish | kernel/virtio_disk.c:271-279 | returns only after the device completed that very request, and frees exactly its chain |
| Virtio.Disk.Fetch | kernel/virtio_disk.c:257-269 | the device takes announced requests in order, none twice and none lost |
| Virtio.Disk.Complete | kernel/virtio_disk.c:296-312 | the device may complete requests it has taken in any order without overwriting an unseen report |
| Pipes.Pipe.constructor | kernel/pipe.c:22-56 | both ends open, nothing buffered |
| Pipes.Pipe.Counters | kernel/pipe.c:76-130 | the wrapped 32-bit counters tell full and empty exactly, and index the buffer as the true counts would |
| Pipes.Pipe.Write | kernel/pipe.c:76-103 | each stretch puts in, in order, exactly the bytes it advances over; it sleeps exactly when the buffer is full with a reader left and the process not killed; it returns -1 exactly when the readers are gone or the process is killed, also after bytes went in |
| Pipes.Pipe.Read | kernel/pipe.c:105-130 | bytes come out in the order they went in; a read of at least one byte whose copy works returns 0 only with the write end closed and nothing left |
| Pipes.Pipe.Close | kernel/pipe.c:58-74 | the page is freed when the second end closes and only then |
| ShellGrammar.ParsePrint | user/sh.c:327-446 | parsing the fully parenthesised print of any tree with nonempty words and at most nine arguments gives back the same tree |
| ShellGrammar.LineRoundTrip | user/sh.c:344-446 | the same inside any surrounding text that closes the line |
| ShellSyntax.DerivedIsParsed | user/sh.c:327-446 | whatever derivation in the grammar a text has, the parser returns its meaning: redirections nested in the order written, pipelines and lists nested to the right |
| ShellSyntax.ParsedExactly | user/sh.c:327-446 | the parser accepts exactly the texts that have a derivation and panics on all others |
| ShellSyntax.SameTokens | user/sh.c:262-446 | only the tokens of a text matter |
| ShellTokens.Lexed | user/sh.c:262-308 | words, symbols and >> written with blanks, tabs, carriage returns, newlines or vertical tabs where needed are read as just these tokens |
| ShellTokens.Spelled | user/sh.c:262-308 | every text is its tokens with such white space between them |
| ShellTokens.TypedLine | user/sh.c:327-446 | every way of typing a line of the grammar parses to its meaning |
| ShellTokens.TrailingIgnored | user/sh.c:133-142 | white space at the end of the line, such as the newline getcmd leaves, changes nothing |
| ShellTokens.AnyBlank | user/sh.c:262-320 | any nonempty white space between two parts of a line can be replaced by any other |
| ShellParser.GetToken | user/sh.c:265-308 | kind, place and end of the next token as the grammar has it |
| ShellParser.Peek | user/sh.c:310-320 | white space skipped, and the test of the next character |
| ShellParser.ParseRedirs | user/sh.c:374-397 | the loop collects exactly the redirections the grammar reads, or panics with it |
| ShellParser.ParseArgs | user/sh.c:429-445 | the loop collects exactly the arguments and redirections the grammar reads, or panics with it |
| ShellParser.ParseExecAt | user/sh.c:399-446 | the tree, the place where reading stops, and the panics of the grammar; it terminates on every input |
| ShellParser.ParsePipeAt | user/sh.c:361-372 | the same for pipelines |
| ShellParser.ParseLineAt | user/sh.c:344-359 | the same for lines |
| ShellParser.Nulterminate | user/sh.c:449-493 | a NUL behind every word and no other change to the line |
| ShellParser.TreeReads | user/sh.c:449-493 | after that every argument and file name reads, as a C string, as exactly its token |
| ShellParser.ParseCmd | user/sh.c:327-342 | the tree runcmd reads from the changed line is the grammar's tree of the original line; a panic leaves the line alone |
| Grep.MatchHere | user/grep.c:83-94 | true exactly when some beginning of the text splits into pieces for the items of the pattern |
| Grep.MatchStar | user/grep.c:97-104 | true exactly when some run of matching characters is followed by a match of the rest |
| Grep.Match | user/grep.c:70-80 | true exactly when the text has a match, at its start for an anchored pattern, anywhere otherwise |

## Left out

- mmap, munmap and page faults: sizes grow over pages that are not mapped, where uvmunmap and uvmcopy panic, so the invariants here do not hold of them.
- Directories, path names and link counts: nlink is a number that callers change.
- The bytes of an on-disk inode and of the superblock: inodes are values, and iupdate is the inode table's step or an entry in the set of logged blocks.
- Fs.FileSys.Writei: a user copy that faults is all or nothing per chunk; a copy failing halfway through a chunk leaves bytes in the cached buffer that are not logged.
- LogCode.Log.Bread: which unreferenced buffer is recycled is left open; Bio has the order.
- Bio.Cache.Bget: device 0 is excluded; buffers that were never used carry it, and the kernel uses device 1.
- LogProtocol.BreadLatest: buffers of the log region itself are written through and not part of the cache model.
- Vm.Machine.UvmDealloc: sizes above MAXVA are excluded, because the page count goes through an int.
- InodeTable.LockSeesDisk: assumes that iget is called only with a number ialloc just returned or one whose on-disk link count is positive.
- Fs.FileSys.FileWrite: the call has the file to itself, although filewrite unlocks the inode between transactions; a negative byte count is not modelled.
- Umalloc.Heap.Malloc: assumes requests whose size in bytes fits a positive int.
- InodeTable.OneFaithfulCopy: assumes that whoever changed the copy of an inode called iupdate before iunlock.
- ProcRuns.NoSleeperAfterEvent: whoever makes a condition true is a process; an interrupt on a hart that runs none is not modelled.
- ProcRuns.AcquireNeverPanics: a thread holds at most one condition's lock at a time; nested ones are not modelled.
- ProcRuns.NoffCountsLocks: saving and restoring intena across a switch is not modelled.
- Virtio.Disk.Submit: the addresses, lengths and directions in the descriptors are not modelled, only how they are chained.
- Virtio.Disk.Complete: a device that reports an error, or never completes, is not modelled.
- Memory ordering: every model assumes sequential consistency.
- Liveness: nothing here says that a lock is eventually granted or a process eventually scheduled.
- exec, traps, the console, the UART, the PLIC, assembly and system-call argument fetching.
- File descriptors, devices and the reference counts of open files.
