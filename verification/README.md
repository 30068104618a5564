# Verified models of the xv6-cv1800b kernel and user programs

Each file models one component of the system and proves what its callers rely on. A class has
the fields the C code updates in place, its methods follow the C functions, and a specification
says what a whole run of calls amounts to. Concurrent protocols are state machines whose steps
are what runs under one lock. A panic is an outcome, not a precondition.

| file | component | specification it refines or invariant it keeps |
|---|---|---|
| PhysicalPages.dfy, CopyOnWrite.dfy | page reference counts, copy-on-write fork, page faults, copyout, copyin | a system in which fork copies every page at once |
| Sv39.dfy | three-level page tables | a finite map from page numbers to entries |
| RedoLog.dfy | the redo log on disk, commit through a cache of 30 buffers, crash, recovery | atomic transactions |
| LogAdmission.dfy | begin_op, log_write, end_op among processes | room for every admitted operation |
| Umalloc.dfy | the user-level allocator | a set of live blocks; units are conserved |
| Ext2Dir.dfy | directory records inside blocks | a finite map from names to inodes |
| Ext2Blocks.dfy | bitmaps, group counts, truncation, allocation | the set of blocks in use |
| S5File.dfy | s5 block map, read, write, truncate, recycled buffers | an independent byte string for each inode |
| WaitExit.dfy, WaitOutcome.dfy | fork, exit, wait, sleep, wakeup, kill | no exit is missed, every process is reaped once, each call comes to the end it is for |
| BufferCache.dfy | the LRU buffer cache | a table of held blocks, the blocks as last changed and as last written |
| Pipe.dfy | the pipe ring | one stream of bytes |
| ShellParser.dfy | the shell's lexer and parser | a grammar over tokens, inverse to a printer |
| Grep.dfy | the pattern matcher | the language of the pattern |
| Calendar.dfy | mktime and localtime_r | the Gregorian calendar |

Properties that hold only in part are stated with their exact condition and a failing case:

- A log write within its operation's allowance can still panic when the log area has LOGSIZE
  blocks, as mkfs makes it (`LogAdmission.MkfsLogPanics`, `LogAdmission.NewBlockAccepted`).
- A commit goes through exactly when fewer blocks are pinned than there are buffers; a log with room
  for LOGSIZE blocks lets an operation fill the cache, and the commit then panics with nothing
  written (`RedoLog.FullLog`, `RedoLog.Log.Commit`). With an area of at most NBUF blocks, the one
  mkfs makes among them, this never happens (`RedoLog.RoomyCache`).
- A bread gives the block as last changed while the block is held and, if everybody saves a block
  before its last release, always (`BufferCache.ForgottenChange`, `BufferCache.Invisible`).
- A store to a copy-on-write page does what an eager system does exactly when a page is free.
  Otherwise the handler unmaps every page of the process below the fault, does not kill the
  process, and usertrap ignores its result (`CopyOnWrite.StarvedStore`, `CopyOnWrite.Machine.UserStore`).
- copyout panics exactly when it comes to a shared page and the shared pages before it have used
  up the free ones (`CopyOnWrite.Machine.Copyout`).
- malloc breaks its accounts exactly when no free block fits a request of 2^27 units or more and
  sbrk grants memory, because sbrk takes an int (`Umalloc.HugeRequestBreaks`, `Umalloc.Heap.Malloc`).
- find_next_zero_bit counts 64-bit words as if they had 32 bits and can return a set bit, and it
  reads past the bitmap; the retry in ext2_try_to_allocate makes up for it
  (`Ext2Blocks.HintAtSetBit`, `Ext2Blocks.FindZeroBit`, `Ext2Blocks.ChooseBit`).
- An ext2 allocation may mark fewer blocks than asked for, down to one
  (`Ext2Blocks.ShortAllocation`, `Ext2Blocks.TryToAllocate`).
- An ext2 free does not notice an inode table that lies inside the run
  (`Ext2Blocks.TableSlipsThrough`, `Ext2Blocks.Volume.FreeBlocks`).
- The bytes of an s5 write that faults inside a block are read back only until the buffer is
  recycled, because that block is not logged; without such a write nothing depends on the cache
  (`S5File.TornReads`, `S5File.NoTears`).
- A process in wait() sleeps exactly if it has a child, none of them a zombie, and was not killed
  when it looked; a kill between the look and the sleep does not keep it awake
  (`WaitOutcome.KilledAsleep`, `WaitOutcome.WaitEnds`).
- A pipe reader can be left asleep with bytes in the ring when a writer is killed between two
  bytes, and then only (`Pipe.StuckReader`, `Pipe.Ring.Write`).
- A pipe read whose buffer cannot be written loses exactly one byte (`Pipe.LostByte`,
  `Pipe.Ring.Read`).
- mktime undoes localtime_r exactly for day counts from -24855 to 2^31 - 1
  (`Calendar.RoundTripFails`, `Calendar.RoundTrip`).

The environment enters through parameters: whether sbrk grants memory, which pages of a user
buffer can be accessed, how many page-table pages a mapping needs, when a buffer is recycled,
what lies in memory behind a bitmap or the table of days, whether the disk has a block left,
whether a fork finds memory, and when a process is killed.

## Model

| member | source | states |
|---|---|---|
| PhysicalPages.TakeKeeps | kernel/kalloc.c:83-107 | kalloc hands out a free page with count one; the accounting and everything any process sees stay |
| PhysicalPages.DropKeeps | kernel/kalloc.c:52-78 | kfree lowers the count and frees the page exactly at zero, never a page still mapped |
| PhysicalPages.UnmapKeeps | kernel/vm.c:250-273 | removing one mapping gives up its reference and keeps the accounting and every other view |
| PhysicalPages.DowngradeKeeps | kernel/vm.c:405-421 | taking write permission from a parent page and marking it copy-on-write changes no view |
| PhysicalPages.ShareKeeps | kernel/vm.c:405-421 | a second mapping of a read-only page with one more count keeps the accounting |
| PhysicalPages.PrivatizeKeeps | kernel/trap.c:162-176 | replacing a shared page by a private copy keeps counts and exclusivity |
| PhysicalPages.WriteKeeps | kernel/trap.c:115-182 | a store through a writable entry changes that page in that process only |
| PhysicalPages.WritableIsAlone | kernel/vm.c:405-421 | two mappings never share a page one of them may write |
| PhysicalPages.FreeAndOwned | kernel/kalloc.c:31-107 | the free pages and the table pages together are the pages no entry names |
| PhysicalPages.FreeCount | kernel/kalloc.c:31-107 | as long as the same entries name the same pages, a page leaves the free list exactly when it becomes a table page |
| CopyOnWrite.SizeBound | kernel/vm.c:308-332 | a process has fewer pages than there are frames, so its pages never reach the trapframe |
| CopyOnWrite.ForkedWorld | kernel/vm.c:390-442 | sharing every page is, for all processes, an eager copy of the parent |
| CopyOnWrite.UnforkedWorld | kernel/vm.c:439-441 | a fork that runs out of memory leaves what every process sees unchanged |
| CopyOnWrite.GrownWorld | kernel/vm.c:308-332 | growth adds zero pages at the end and nothing else |
| CopyOnWrite.ShrunkWorld | kernel/vm.c:338-350 | shrinking drops exactly the pages above the new size |
| CopyOnWrite.ReapedWorld | kernel/proc.c:163-180 | freeing a process removes it and touches no other |
| CopyOnWrite.BreakSharingWorld | kernel/trap.c:162-176 | resolving a copy-on-write fault is invisible to every process |
| CopyOnWrite.WriteWorld | kernel/trap.c:115-182 | a store reaches one page of one process |
| CopyOnWrite.FirstWorld | kernel/proc.c:241-267 | the mapped initial code is a world with one process of one page |
| CopyOnWrite.UnmappedLost | kernel/trap.c:177-181 | unmapping the pages below an address takes them from that process and leaves every other view |
| CopyOnWrite.LostIsNotLaidOut | kernel/trap.c:177-181 | a process that lost a page no longer has the pages its size says |
| EagerCopy.StoreLaw | kernel/trap.c:115-182 | a store changes one byte of one process and nothing else, exactly if the page is there, writable and the user's; else the process is killed |
| EagerCopy.CopyoutLaw | kernel/vm.c:460-511 | each byte of the process is the copied one or the old one; permissions, sizes and other processes stay |
| EagerCopy.StorableLaw | kernel/vm.c:460-511 | the bytes that can be stored end before the first page that is missing or may not be written |
| EagerCopy.ForkLaw | kernel/proc.c:291-309 | fork adds one process with the pages and size of its parent, not killed |
| EagerCopy.GrowLaw | kernel/proc.c:271-287 | growth leaves the old pages and adds zero pages up to the one that holds the last byte |
| EagerCopy.ShrinkLaw | kernel/proc.c:271-287 | shrinking leaves the pages up to the one that holds the last byte; by more than the size it does nothing |
| EagerCopy.FirstPageLaw | kernel/vm.c:291-304 | the first page holds the code and zeros behind it |
| CopyOnWrite.Machine.constructor | kernel/kalloc.c:31-46 | after kinit all frames are free and there is no process yet |
| CopyOnWrite.Machine.Userinit | kernel/proc.c:241-267 | exactly with enough memory and code shorter than a page there is one process, with that code in its one page |
| CopyOnWrite.Machine.Uvmfirst | kernel/vm.c:291-304 | maps one writable page that holds the code followed by zeros, exactly with enough memory |
| CopyOnWrite.Machine.Kalloc | kernel/kalloc.c:83-107 | a free page, or failure exactly when none is left |
| CopyOnWrite.Machine.Kfree | kernel/kalloc.c:52-78 | one reference less; the page is free again at zero |
| CopyOnWrite.Machine.Uvmunmap | kernel/vm.c:250-273 | the loop removes exactly the given range of mappings |
| CopyOnWrite.Machine.Uvmcopy | kernel/vm.c:390-442 | the child sees the parent's pages, or the child's are undone exactly when memory is short |
| CopyOnWrite.Machine.Fork | kernel/proc.c:291-309 | the new process equals its parent, as in an eager fork, and the free pages fall by what the child needs; fails exactly for lack of memory, with no view changed and every page given back |
| CopyOnWrite.Machine.Uvmalloc | kernel/vm.c:308-332 | zero pages from the old to the new size, undone exactly when memory is short |
| CopyOnWrite.Machine.Grow | kernel/proc.c:271-287 | growproc upwards refines eager growth, takes exactly the pages it needs and fails exactly for lack of memory, when at most table pages stay taken |
| CopyOnWrite.Machine.Shrink | kernel/proc.c:271-287 | growproc downwards refines eager shrinking |
| CopyOnWrite.Machine.Reap | kernel/proc.c:163-180 | freeproc gives up every page and table page of the process |
| CopyOnWrite.Machine.HandlePagefault | kernel/trap.c:115-182 | a write fault on a shared page makes it writable unseen; without memory the pages below are lost; any other fault kills the process |
| CopyOnWrite.Machine.UserStore | kernel/trap.c:115-182 | a store with its faults leaves its byte at its address and every other byte, permission and process as they were, exactly if the page may be written; it stops short exactly when the page is shared and no page is free |
| CopyOnWrite.Machine.Copyout | kernel/vm.c:460-511 | leaves the bytes at their addresses up to the first page that may not be stored to, everything else as it was, and succeeds exactly when there is none; panics exactly when it comes to a shared page that the free pages before the call do not reach |
| CopyOnWrite.Machine.Copyin | kernel/vm.c:516-536 | delivers byte by byte what the process sees, exactly when all are readable |
| CopyOnWrite.Machine.Step | kernel/vm.c:390-511 | each operation does to all processes what the eager system does, with the outcome and the change of the free pages that the operation and the free pages before it determine |
| CopyOnWrite.Machine.Run | kernel/vm.c:390-511 | every run is a run of the eager system in which each world and each number of free pages follows from the one before; it ends early only at a store or copyout that finds no free page, with the loss stated |
| CopyOnWrite.EnoughMemory | kernel/vm.c:390-511 | in every run whose operations so far need no more pages than were free at the start, each has the outcome it has with unlimited memory |
| CopyOnWrite.Completes | kernel/vm.c:390-511 | a run whose operations fit in memory together completes |
| CopyOnWrite.RunMeans | kernel/vm.c:390-536 | in every run each operation does to single bytes, sizes, permissions and the set of processes what it is for, and nothing else |
| CopyOnWrite.Untouched | kernel/vm.c:390-536 | in every run what a process finds at an address changes only by its own stores, copyouts and shrinking, whatever pages are shared |
| CopyOnWrite.StoreThenRead | kernel/trap.c:115-182 | in every run a copyin gives the byte last stored there |
| CopyOnWrite.CopyoutThenRead | kernel/vm.c:460-536 | in every run a copyin gives the byte last copied out there |
| CopyOnWrite.ForkThenRead | kernel/vm.c:390-442 | in every run a child finds what its parent had at the fork, whatever the parent stores after it |
| CopyOnWrite.StarvedStore | kernel/trap.c:177-181 | a machine of fourteen pages on which a store leaves its process alive without its first page |
| Sv39.PathUnique | kernel/vm.c:164-182 | two page numbers whose paths share a level-0 page agree in their upper digits |
| Sv39.PteRoundTrip | kernel/riscv.h:404-429 | an entry gives back the physical address and the flags it was made from |
| Sv39.PteBits | kernel/riscv.h:404-418 | the page number of an entry starts at bit 10; the flags are the ten low and the five high bits |
| Sv39.EntryRoundTrip | kernel/riscv.h:404-418 | the 64-bit word of an empty, table or leaf entry with a 49-bit page number decodes to that entry |
| Sv39.PageTable.constructor | kernel/vm.c:277-286 | a new table maps nothing |
| Sv39.PageTable.Walk | kernel/vm.c:164-182 | finds the leaf page of an address; allocating, it takes one free page for each missing level, succeeds exactly when there are that many and changes no lookup; otherwise it succeeds exactly when no level is missing |
| Sv39.PageTable.Mappages | kernel/vm.c:221-245 | adds exactly the range, stopping at the first mapped page or at lack of memory |
| Sv39.PageTable.Uvmunmap | kernel/vm.c:250-273 | removes exactly the range and returns its frames in order |
| Sv39.PageTable.Freewalk | kernel/vm.c:354-372 | frees the pages below a table page and the page itself, each once, and no other |
| Sv39.PageTable.FreeAll | kernel/vm.c:376-382 | the whole tree goes back to the allocator, every page exactly once |
| LogFormat.BeforeCommitPoint | kernel/log.c:191-216 | after any beginning of the writes short of the header, recovery yields the old home blocks |
| LogFormat.AfterCommitPoint | kernel/log.c:206-216 | after the header write every further prefix is a committed disk |
| LogFormat.CommitFinishes | kernel/log.c:206-216 | a commit that is not interrupted installs the transaction and empties the log |
| LogFormat.RecoverCommitted | kernel/log.c:128-136 | recovery of a committed disk installs the transaction |
| LogFormat.RecoverIdempotent | kernel/log.c:128-136 | recovering again changes nothing |
| LogFormat.HeadOfSetHead | kernel/log.c:98-126 | the header holds the count and the block numbers behind it, keeps its other words, and is read back |
| LogFormat.CrashAtomicity | kernel/log.c:79-136 | a crash after any write, with crashes during recovery, leaves all of a transaction or none of it |
| LogFormat.CrashSafety | kernel/log.c:79-216 | over every run of commits and crashes the disk is that of atomic transactions |
| RedoLog.Log.constructor | kernel/log.c:56-77 | mounting recovers the log, wherever the superblock puts it |
| RedoLog.Log.Bread | kernel/bio.c:62-115 | the cached or disk bytes; panics exactly when the block is not cached and NBUF blocks are pinned or held; recycling never drops a pinned buffer |
| RedoLog.Log.LogWrite | kernel/log.c:227-248 | the block joins the transaction once and stays pinned; the panics are outcomes |
| RedoLog.Log.WriteLog | kernel/log.c:191-204 | goes through exactly with fewer than NBUF blocks logged; then the writes to the log area, in order, hold the cached bytes; else nothing is written |
| RedoLog.Log.WriteHead | kernel/log.c:114-126 | one write of the header block, exactly with fewer than NBUF blocks pinned |
| RedoLog.Log.InstallTrans | kernel/log.c:80-95 | the logged blocks reach their home blocks; in recovery it cannot fail, in a commit exactly with NBUF blocks pinned |
| RedoLog.Log.Commit | kernel/log.c:206-216 | goes through exactly with fewer than NBUF blocks logged and then performs exactly the write sequence whose crashes are analysed; else it panics with the disk as it was |
| RedoLog.Log.RecoverFromLog | kernel/log.c:128-136 | performs exactly the recovery writes |
| RedoLog.CommitPromises | kernel/log.c:206-216 | wherever a commit stops, the disk promises the old blocks before the header write and the new ones after it |
| RedoLog.PromiseKept | kernel/log.c:128-136 | a recovery that stops anywhere keeps the promise |
| RedoLog.Reboot | kernel/log.c:56-77 | any number of interrupted boots and a completed one meet the promise |
| RedoLog.CutAct | kernel/log.c:206-216 | a power cut after any write of a commit, a commit that panics among them, leaves all of its operations or none |
| RedoLog.Run | kernel/log.c:79-248 | over every run of reads, writes, commits and power cuts each mount finds the committed operations and each read those and the pending ones; it ends early exactly at a panic of bget or log_write, with the committed operations on the disk, and only of log_write if the area has at most NBUF blocks |
| RedoLog.FetchAct | kernel/bio.c:62-115 | a read gives the last write of the block, committed or pending; panics exactly when NBUF blocks are pinned and this one is not |
| RedoLog.PutAct | kernel/log.c:227-248 | a write is then seen in its block and changes no other, also when the block was pending already; panics exactly when thirty blocks are logged or the area is full |
| RedoLog.FinishAct | kernel/log.c:206-216 | a commit makes the pending writes the committed ones and changes nothing that is seen; panics exactly when thirty blocks are pinned |
| RedoLog.PutSeen | kernel/log.c:227-248 | after a write its block is seen with the new bytes and every other one as before |
| RedoLog.FinishSeen | kernel/log.c:206-216 | a commit changes no block that anybody sees |
| RedoLog.CutSeen | kernel/log.c:206-216 | after a power cut every block is seen as written or every one as committed, the former exactly behind the header write |
| RedoLog.LastWrite | kernel/log.c:191-248 | in every run a read gives the last write of its block since the last power cut |
| RedoLog.Durable | kernel/log.c:79-248 | in every run what was written and then committed survives all power cuts until the block is written again |
| RedoLog.RoomyCache | kernel/param.h:10-11 | with an area of at most NBUF blocks only log_write can panic |
| RedoLog.FullLog | kernel/log.c:190-216 | writing LOGSIZE new blocks never commits: the area is too small for them or the commit panics, and the disk is as it was |
| LogAdmission.NextKeeps | kernel/log.c:139-188 | every step of every process keeps the reservation invariant |
| LogAdmission.Admission | kernel/log.c:139-188 | in every interleaving the log has room for all that admitted operations may add, and a commit runs with no operation outstanding |
| LogAdmission.SleeperWillBeWoken | kernel/log.c:139-188 | whoever sleeps in begin_op waits for an operation or commit, and each end that frees room wakes it |
| LogAdmission.WokenAndAdmitted | kernel/log.c:139-188 | a sleeper always has another process whose end_op or commit, followed to its last step, wakes it, and lets it enter when at most one operation was outstanding |
| LogAdmission.NewBlockAccepted | kernel/log.c:227-248 | a new block is accepted exactly when the log area has room, always if it exceeds LOGSIZE, and is then the last one logged; what a full log does to the commit is in RedoLog.FullLog |
| LogAdmission.AbsorbedBlockAccepted | kernel/log.c:227-248 | a block already logged is accepted exactly when the log is not full, and changes nothing |
| LogAdmission.EntersExactly | kernel/log.c:139-157 | in every interleaving begin_op lets an operation in exactly when no commit runs and ten blocks for each operation and those logged are at most thirty |
| LogAdmission.EndsExactly | kernel/log.c:161-188 | in every interleaving the last end_op starts the commit with the log as it is, and any other wakes all who wait |
| LogAdmission.StaysLogged | kernel/log.c:139-248 | in every interleaving a logged block stays logged until a commit with no operation outstanding clears the log |
| LogAdmission.MkfsLogPanics | mkfs/mkfs.c:29 | with the log area mkfs makes, three operations within their allowance reach the panic |
| FreeList.InsertListOk | user/umalloc.c:24-44 | the list stays ordered, disjoint and fully coalesced after an insertion |
| FreeList.InsertUnits | user/umalloc.c:24-44 | the free units are the old ones and those of the block |
| FreeList.TakeListOk | user/umalloc.c:63-90 | carving from the end of a block or unlinking it keeps the list |
| FreeList.TakeUnits | user/umalloc.c:63-90 | exactly the units handed out leave the list |
| FreeList.StopsAt | user/umalloc.c:24-44 | the search of free stops exactly where the block fits |
| FreeList.PassedAll | user/umalloc.c:63-90 | the search of malloc is back at its start exactly when every block was too small |
| FreeList.LinkHolds | user/umalloc.c:24-44 | the header updates of free store the new cyclic list in memory |
| FreeList.CarveHolds | user/umalloc.c:63-90 | the header updates of malloc store the new cyclic list in memory |
| Umalloc.Heap.Free | user/umalloc.c:24-44 | the block leaves the live ones and its units join the list |
| Umalloc.Heap.Morecore | user/umalloc.c:46-61 | at least 4096 units from sbrk join the list; exactly when the int truncates, the header records more units than memory has |
| Umalloc.Heap.Malloc | user/umalloc.c:63-90 | a new live block disjoint from all others, none exactly when nothing fits and sbrk refuses; exactly for truncated requests a header overstates its block |
| Umalloc.Conservation | user/umalloc.c:24-90 | every unit obtained is in exactly one free or live block |
| Umalloc.AskedIsRecorded | user/user.h:36 | sbrk is asked for what the header records exactly below 2^27 units |
| Umalloc.HugeRequestBreaks | user/umalloc.c:46-90 | a first request after which a header records 2^28 units where memory has none |
| Umalloc.SafeRequests | user/umalloc.c:63-90 | requests up to 2^31 - 32 bytes never break the accounts |
| DirRecords.SplitRecord | kernel/ext2.c:2166-2249 | a record is cut in two; the block stays tiled and the other records keep their bytes |
| DirRecords.ReuseRecord | kernel/ext2.c:2166-2249 | an unused record takes the entry in place |
| DirRecords.FreshRecord | kernel/ext2.c:2166-2249 | one record fills a new block |
| DirRecords.RemoveRecord | kernel/ext2.c:2299-2343 | a record is merged into its predecessor, or marked unused when it is the first |
| DirRecords.SplitTiled | kernel/ext2.c:2166-2249 | splitting keeps the tiling |
| DirRecords.RemovedTiled | kernel/ext2.c:2299-2343 | merging keeps the tiling |
| DirRecords.Layout | kernel/include/ext2.h:307-313 | a record is four bytes of inode number, two of length, one of name length, one of type and the name, little-endian |
| DirRecords.SplitLaw | kernel/ext2.c:2166-2249 | the new entry gets the end of the record it is split from, and all else stays |
| DirRecords.RemovedLaw | kernel/ext2.c:2299-2343 | a removed record gives its bytes to the one before it, the first one only loses its inode number |
| Ext2Dir.InsertNames | kernel/ext2.c:2166-2249 | the records then name the old entries and the new one |
| Ext2Dir.DeleteNames | kernel/ext2.c:2299-2343 | the records then name all entries but the removed one |
| Ext2Dir.Directory.Dirlookup | kernel/ext2.c:704-738 | finds a name exactly when the map has it, with its inode and offset |
| Ext2Dir.Directory.Dirlink | kernel/ext2.c:2166-2249 | an existing name is not linked; a new one takes the first place with room in block order, or a new block, and its bytes there hold the inode number, the name and type 2 for a directory, 1 for a file; panics exactly for another type or when the disk has no block for it, with nothing changed |
| Ext2Dir.Directory.FindPlace | kernel/ext2.c:2166-2249 | the first record in block order that has room for the name, or none exactly when no record has |
| Ext2Dir.FollowsOne | kernel/ext2.c:2166-2343 | an operation and its reply determine the records it leaves |
| Ext2Dir.LinkMakes | kernel/ext2.c:2166-2249 | a link makes the entry with its inode number and type |
| Ext2Dir.LinkThenLookup | kernel/ext2.c:704-738 | in every run what was linked is found with its inode number, and keeps its type in the blocks, until it is removed |
| Ext2Dir.RemoveThenLookup | kernel/ext2.c:2299-2343 | in every run what was removed is not found until it is linked again |
| Ext2Dir.Directory.Unlink | kernel/ext2.c:2299-2343 | removes exactly the given name |
| Ext2Dir.Directory.Run | kernel/ext2.c:704-738 | any run of links, unlinks and lookups behaves as a finite map, the records at each point tile their blocks and follow from those before, and every reply is the one answer for them; it ends early only at a panic |
| BlockBits.NumberOf | kernel/include/ext2.h:382-386 | a block number and its group and bit determine each other |
| BlockBits.PaintedTied | kernel/ext2.c:772-879 | changing bits of a group changes exactly the blocks with those numbers |
| Ext2Blocks.BlocksFrame | kernel/ext2.c:930-966 | the blocks a tree reaches depend only on the pointer blocks among them |
| Ext2Blocks.FileReach | kernel/ext2.c:1064-1129 | the blocks of a file are exactly those its pointers lead to, over none, one, two or three blocks of pointers |
| Ext2Blocks.ReservedKept | kernel/ext2.c:772-879 | freeing data blocks leaves metadata and padding marked |
| Ext2Blocks.FindZeroBit | kernel/find_bits.c:29-63 | with its 32-bit stride over 64-bit words, from offset 0 the result is the image of the lowest clear bit and never above it |
| Ext2Blocks.FindNextUsable | kernel/ext2.c:1481-1517 | from start 0 no result means a full bitmap, and a result at a set bit has only set bits below |
| Ext2Blocks.ChooseBit | kernel/ext2.c:1559-1604 | with the hint, the steps back and the retry on busy bits, a clear bit is found exactly when there is one from the goal on |
| Ext2Blocks.TryToAllocate | kernel/ext2.c:1541-1623 | one maximal run of clear bits up to the count is set; fails exactly when no bit from the goal on is clear |
| Ext2Blocks.HintAtSetBit | kernel/find_bits.c:29-63 | with bit 100 alone clear the search returns 68 |
| Ext2Blocks.ShortAllocation | kernel/ext2.c:1541-1623 | two blocks asked for, one marked |
| Ext2Blocks.CanFreeMay | kernel/ext2.c:772-879 | data blocks in use can always be freed |
| Ext2Blocks.TableSlipsThrough | kernel/ext2.c:829-838 | a run with an inode table inside passes the test for metadata |
| Ext2Blocks.FreshRun | kernel/ext2.c:1784-1801 | a run of clear bits is never metadata and never past the end, so the retry and the panic are not reached |
| Ext2Blocks.Volume.FreeInGroup | kernel/ext2.c:843-862 | clears a range of one bitmap and raises the count by its length; panics exactly at a clear bit |
| Ext2Blocks.Volume.FreeBlocks | kernel/ext2.c:772-879 | panics exactly when out of range, when a part looks like metadata or when a block is free; else exactly its blocks become free |
| Ext2Blocks.Volume.FreeData | kernel/ext2.c:891-921 | with runs coalesced, frees exactly the blocks named and zeroes the pointers |
| Ext2Blocks.Volume.FreeBranches | kernel/ext2.c:930-966 | frees exactly the blocks of the trees below an array of pointers |
| Ext2Blocks.Volume.Itrunc | kernel/ext2.c:1064-1129 | on an unshared tree clears every reachable block once, no other, zeroes the fifteen pointers and leaves every other pointer block |
| Ext2Blocks.Volume.TryGroup | kernel/ext2.c:1784-1809 | marks the run of a group and lowers its count |
| Ext2Blocks.Volume.NewBlocks | kernel/ext2.c:1656-1840 | a run of previously free blocks in one group, the first free one from the goal on if the goal's group has one; fails exactly when no bit anywhere is clear, with nothing changed |
| Ext2Blocks.Volume.Run | kernel/ext2.c:772-1840 | in any run of allocations, frees, pointer writes and truncations each reply is right for the blocks in use and the pointers then there, which follow from those before; each group count is the number of clear bits; it ends early only at a panic or before a free of metadata or the truncation of a tree that is not made of distinct data blocks |
| Ext2Blocks.GoalTaken | kernel/ext2.c:1656-1840 | a free block at the goal is the one that is taken |
| Ext2Blocks.NotTwice | kernel/ext2.c:772-1840 | in every run a block is handed out twice only if it was freed, or a file that leads to it truncated, between |
| S5Image.BitmapExact | kernel/s5.c:247-301 | the bitmap marks exactly the metadata and the blocks some inode reaches |
| S5Image.NoSharing | kernel/s5.c:391-427 | no block has two owners |
| S5Image.AttachTree | kernel/s5.c:391-427 | a fresh block for an empty pointer keeps ownership |
| S5Image.AttachByte | kernel/s5.c:273-282 | a zeroed block changes no byte of any file |
| S5Image.PatchByte | kernel/s5.c:537-577 | bytes written into a block of a file change that file at those places only |
| S5Image.ByteLayout | kernel/s5.c:391-427 | where each byte of a file lies: twelve direct blocks, then those of the little-endian words of the indirect block |
| S5File.ReadBack | kernel/s5.c:503-577 | what was written is read back |
| S5File.RefusedLaw | kernel/s5.c:548-551 | with its sum in 32 bits the test refuses exactly a start behind the end and an end behind 268 blocks |
| S5File.CountedLaw | kernel/s5.c:537-577 | a faulting write counts up to the last block boundary its readable bytes reach |
| S5File.WriteLaw | kernel/s5.c:537-577 | each byte of the file is the written one or the old one, and the size is the old one or the end of what was counted |
| S5File.Append | kernel/s5.c:537-577 | a write at the end of a file appends |
| S5File.SliceLaw | kernel/s5.c:503-535 | a read gives the bytes from the offset, up to the end of the file |
| S5File.FileSystem.constructor | kernel/s5.c:247-301 | a formatted image has empty files and no torn block |
| S5File.FileSystem.Balloc | kernel/s5.c:247-271 | the lowest free block, zeroed; panics exactly when the bitmap is full |
| S5File.FileSystem.Bfree | kernel/s5.c:284-301 | clears one bit; panics exactly on a free block |
| S5File.FileSystem.Bmap | kernel/s5.c:391-427 | the block of a file, allocated if missing; no byte changes and existing blocks stay |
| S5File.FileSystem.Writei | kernel/s5.c:537-577 | refused exactly when it starts behind the end or ends behind 268 blocks; else overwrites the file from the offset and at its end appends, counting whole blocks only when the source faults, and notes the bytes of the block it then does not log; at the panic of balloc the bytes so far are in place |
| S5File.FileSystem.Readi | kernel/s5.c:503-535 | delivers the bytes of the file from the offset, as many as asked for or there are, and allocates nothing |
| S5File.FileSystem.Itrunc | kernel/s5.c:352-383 | empties one file, frees all its blocks, touches no other; its panic is not reached |
| S5File.FileSystem.Run | kernel/s5.c:247-577 | any run of calls and recycled buffers gives the replies of independent byte strings and does to the files what it does to those; ends early only at a write with the bitmap full |
| S5File.FileSystem.Drop | kernel/s5.c:537-577 | when the buffer of a block is recycled, the bytes of a faulting write that were not logged become the old ones, and nothing else changes |
| S5File.NoTears | kernel/s5.c:537-577 | in a run whose writes do not fault no block is torn and recycling changes nothing |
| S5File.TornReads | kernel/s5.c:537-577 | a write that faults after its first byte, whose block reads back as written and, once recycled, as before |
| S5File.LastWritten | kernel/s5.c:503-577 | in every run a read gives the byte last written there by a write that did not fault, whatever is done to other bytes and files and whichever buffers are recycled |
| S5File.OtherFiles | kernel/s5.c:503-577 | a call on one file leaves the others |
| S5File.DropUndoes | kernel/s5.c:537-577 | recycling the block a faulting write tore leaves the file as if only the counted bytes had been written |
| WaitExit.BootInv | kernel/proc.c:240-267 | the state with init alone satisfies the invariant |
| WaitExit.ForkAllocKeeps | kernel/proc.c:111-158 | taking a slot for a child keeps the invariant |
| WaitExit.ForkFailKeeps | kernel/proc.c:127-142 | a fork that fails after taking a slot and a pid keeps the invariant |
| WaitExit.ForkParentKeeps | kernel/proc.c:353-355 | storing the parent pointer under wait_lock keeps it |
| WaitExit.AdoptKeeps | kernel/proc.c:366-377 | giving a child to init, with its wakeup pending, keeps it |
| WaitExit.RouseKeeps | kernel/proc.c:628-642 | each slot wakeup(initproc) visits keeps it |
| WaitExit.BecomeZombieKeeps | kernel/proc.c:382-434 | turning into a zombie after waking the parent keeps it |
| WaitExit.ReapKeeps | kernel/proc.c:438-483 | freeing a zombie child keeps it |
| WaitExit.SwitchKeeps | kernel/proc.c:597-624 | going to sleep with only p->lock held keeps it |
| WaitExit.KillSlotKeeps | kernel/proc.c:647-666 | kill keeps it |
| WaitExit.NextKeeps | kernel/proc.c:291-483 | every step of every process keeps the invariant |
| WaitExit.NextPids | kernel/proc.c:94-158 | every step keeps pids distinct and accounted for, those of failed forks among them |
| WaitExit.NoLostExit | kernel/proc.c:382-483 | in every interleaving a zombie has a living parent, which does not sleep in wait once wait_lock is free |
| WaitExit.WaitIsRight | kernel/proc.c:438-483 | wait finds no children only when there are none and comes to its sleep only when no child is a zombie; what it then does is in WaitOutcome |
| WaitExit.ReapedExactlyOnce | kernel/proc.c:438-483 | every pid given out is held by one slot, was returned by wait once, or was given up once by a failed fork, and only one of these |
| WaitOutcome.SleeperHasChild | kernel/proc.c:438-483 | in every interleaving whoever sleeps in wait has a child |
| WaitOutcome.LifeCycle | kernel/proc.c:291-666 | in every interleaving state, parent, pid and killed flag of a slot change only as fork, exit, wait, wakeup and kill say |
| WaitOutcome.WaitReturns | kernel/proc.c:438-483 | in every interleaving a process leaves wait by its own step, with the pid of a zombie child that is freed, or with -1 only if it was killed, has no child, or a status could not be copied out |
| WaitOutcome.WaitEnds | kernel/proc.c:438-483 | in every interleaving a process in wait that runs on returns its first zombie child; else it sleeps exactly if it has a child and was not killed or was past the test; else it has -1 |
| WaitOutcome.WaitCalled | kernel/proc.c:438-483 | the same for a whole call of wait |
| WaitOutcome.KilledAsleep | kernel/proc.c:475-481 | a kill after the test leaves init asleep |
| WaitOutcome.ForkEnds | kernel/proc.c:291-362 | in every interleaving a fork that finds a slot makes a runnable child with the next pid and changes nothing else |
| WaitOutcome.ExitEnds | kernel/proc.c:382-434 | in every interleaving an exit that runs on leaves a zombie, hands all its children to init, and leaves neither its parent nor an init with new children asleep in wait |
| BufferCache.UnlinkKeeps | kernel/bio.c:143-164 | taking a buffer out keeps the circular list |
| BufferCache.InsertKeeps | kernel/bio.c:40-57 | putting a buffer behind the head keeps it |
| BufferCache.OneCopy | kernel/bio.c:62-96 | a block has at most one valid buffer |
| BufferCache.RecycleKeeps | kernel/bio.c:62-96 | recycling keeps that of buffers with equal keys only the first was ever used |
| BufferCache.Cache.constructor | kernel/bio.c:40-57 | all buffers are linked and blank; nothing is held and every block is the one on the disk |
| BufferCache.Cache.Bget | kernel/bio.c:62-96 | the cached buffer, else the least recently used unreferenced one; panics exactly when there is neither |
| BufferCache.Cache.Bread | kernel/bio.c:99-115 | the buffer holds what readers of the block see; only the recycled block's view can change |
| BufferCache.Cache.Bwrite | kernel/bio.c:118-139 | the disk gets the data and no view changes |
| BufferCache.Cache.Brelse | kernel/bio.c:143-164 | one reference less, the last moves the buffer to the front; no view changes |
| BufferCache.Cache.Bpin | kernel/bio.c:166-171 | one reference more; no view changes |
| BufferCache.Cache.Bunpin | kernel/bio.c:173-178 | one reference less, the list as it was; no view changes |
| BufferCache.Cache.Run | kernel/bio.c:62-178 | in any run of bread, changes, bwrite, brelse, bpin and bunpin each reply is right for the table of held buffers, the blocks as last changed and as last written, and these follow from those before; ends early exactly at the panic of bget, when all buffers are held and none for the block |
| BufferCache.Invisible | kernel/bio.c:62-178 | in a run in which a block is saved before its last release every bread gives the block as last changed |
| BufferCache.LastChange | kernel/bio.c:62-178 | in such a run a bread gives, and a bwrite writes, the data of the last change of the block |
| BufferCache.HeldChange | kernel/bio.c:62-178 | in every run a bread of a block that stayed held gives its last change |
| BufferCache.RefsCounted | kernel/bio.c:62-178 | in every run the references to a buffer are those taken less those given up |
| BufferCache.LeastRecentlyUsed | kernel/bio.c:62-164 | the buffer bget recycles is the one whose last release is the oldest |
| BufferCache.ForgottenChange | kernel/bio.c:62-164 | a cache of one buffer in which a change that was not saved is gone after another block was read |
| Pipe.Wrapped | kernel/pipe.c:76-103 | wrapped 32-bit counters still tell full from empty |
| Pipe.Ring.constructor | kernel/pipe.c:22-56 | a new pipe is empty and open |
| Pipe.Ring.Write | kernel/pipe.c:76-103 | appends exactly the bytes that fit before the end, a kill, a full ring or a fault; a sleeping reader is left asleep exactly when the kill comes after a byte and before the end |
| Pipe.Ring.Read | kernel/pipe.c:105-130 | delivers the oldest bytes, waits exactly when empty with a writer left, and loses one byte exactly on a fault |
| Pipe.Ring.Close | kernel/pipe.c:58-74 | closes one end, wakes the other, and gives the page back exactly when both are closed |
| Pipe.Ring.Run | kernel/pipe.c:76-130 | in every interleaving each reply and each stream is the one the operation and the stream before give; nobody sleeps for a condition that holds already if no writer is killed between two bytes |
| Pipe.CallMeans | kernel/pipe.c:58-130 | a write puts in the next bytes and stops exactly at its end, a kill or closed end, a full pipe or an unreadable byte; a read gives the oldest bytes, all it can, and waits exactly when there are none and a writer is left |
| Pipe.InOrder | kernel/pipe.c:76-130 | in every such run the stream is the slices the writers had accepted, one behind the other, and what the readers got is that stream in order without exactly one byte for each read that faulted at one |
| Pipe.StuckReader | kernel/pipe.c:76-103 | a writer killed after its first byte leaves a reader asleep |
| Pipe.LostByte | kernel/pipe.c:105-130 | a read that cannot copy out takes a byte and delivers none |
| ShellGrammar.RoundTrip | user/sh.c:345-447 | parsing the printed tokens of a tree gives the tree |
| ShellGrammar.Parsable | user/sh.c:416-447 | a tree is the parse of some tokens exactly when no command has ten arguments |
| ShellParser.GetToken | user/sh.c:266-309 | returns the first token and leaves the rest |
| ShellParser.Peek | user/sh.c:311-321 | says whether the next token starts with one of the characters |
| ShellParser.ParseRedirs | user/sh.c:375-398 | agrees with the grammar of redirections |
| ShellParser.ParseExec | user/sh.c:416-447 | agrees with the grammar of simple commands and blocks |
| ShellParser.ParseBlock | user/sh.c:400-414 | agrees with the grammar of blocks |
| ShellParser.ParsePipe | user/sh.c:362-373 | agrees with the grammar of pipelines |
| ShellParser.ParseLine | user/sh.c:345-360 | agrees with the grammar of lines |
| ShellParser.ParseCmd | user/sh.c:328-343 | terminates on every string with the tree of its tokens or a panic |
| ShellParser.TextTrip | user/sh.c:263-447 | the text of every tree of clean words with at most nine arguments a command parses back to it |
| Grep.HereStar | user/grep.c:98-105 | a starred item matches as some number of fitting characters and the rest behind |
| Grep.HereOne | user/grep.c:84-95 | a single item matches as one fitting character and the rest behind |
| Grep.MatchHere | user/grep.c:84-95 | true exactly when some beginning of the text is in the language |
| Grep.MatchStar | user/grep.c:98-105 | true exactly when some split after fitting characters matches |
| Grep.Match | user/grep.c:71-81 | true exactly when some part of the text is in the language, anchored as asked |
| Grep.PlainSearch | user/grep.c:71-95 | a pattern without special characters matches exactly the texts it occurs in |
| Grep.OnlyStar | user/grep.c:71-105 | the pattern ^c*$ matches exactly the texts of nothing but c |
| Grep.AnyChar | user/grep.c:84-95 | the pattern . matches exactly the texts that are not empty |
| Calendar.Gregorian | kernel/time.c:31-48 | the days summed over years have the closed form of the Gregorian calendar |
| Calendar.WholeYear | kernel/time.c:37-48 | the months of a year add up to its length, so the month loop ends inside the year |
| Calendar.MonthDays | kernel/time.c:31-48 | the length of each month, with the leap years of the Gregorian calendar |
| Calendar.LocaltimeR | kernel/time.c:70-110 | the fields name the day and clock time of a time in the zone |
| Calendar.Epoch | kernel/time.c:70-110 | time 0 is 07:00 on Thursday, 1 January 1970 |
| Calendar.LeapDay | kernel/time.c:70-110 | time 951782400 is 07:00 on Tuesday, 29 February 2000 |
| Calendar.Mktime | kernel/time.c:50-68 | the seconds the fields stand for, whatever they are; a month above 12 adds what lies behind the table of days |
| Calendar.InsideTable | kernel/time.c:37-68 | up to month 12 the seconds of the months are those of the calendar |
| Calendar.RoundTrip | kernel/time.c:50-110 | mktime undoes localtime_r exactly in the stated range of days |
| Calendar.RoundTripFails | kernel/time.c:50-110 | the first day below the range and the first above it do not come back |
| Calendar.ValidDate | kernel/time.c:70-110 | all fields, the weekday among them, are in their ranges exactly for the stated times |
| Calendar.Weekday | kernel/time.c:83 | the weekday is in its range exactly when adding 4 does not wrap, and on one more day |
| Calendar.RightDay | kernel/time.c:70-110 | date and weekday are right while the day count fits |
| Calendar.DateUnique | kernel/time.c:70-110 | a day count has one date |

## Left out

- CopyOnWrite.Machine.Run: does not follow a process that has lost pages; its further faults and its exit find pages missing.
- CopyOnWrite.Machine.Fork: open files, mapped files and registers are not part of this model.
- CopyOnWrite.Machine.Userinit: its failures are one outcome; the kernel panics, uses a null pointer or goes on without the page mapped.
- CopyOnWrite.Machine.Run: how many table pages each mapping needs is a parameter; Sv39.PageTable.Walk states it for one mapping.
- mmap and its faults, exec, uvmclear and the kernel's own page table are not part of this model.
- Sv39.PageTable.Uvmunmap: a missing mapping is the kernel's panic, so the range must be mapped.
- RedoLog.Log.constructor: the header block lists distinct blocks outside the log area, no more than LOGSIZE and fewer than the area has; a corrupt header is not part of this model.
- RedoLog.Log.RecoverFromLog: the same holds of the header it reads.
- RedoLog.Log.LogWrite: no caller logs a block of the log area itself; a write with no operation outstanding is the panic modelled in LogAdmission.
- RedoLog.Run: reads and writes name blocks outside the log area, a commit runs without interleaving, and no other process holds a buffer while it runs; the processes inside operations are modelled in LogAdmission.
- Umalloc.Heap.Free: giving back a block that is not live is not defined by the source.
- Ext2Dir.Directory.Dirlink: names have at most 255 bytes, inode number 0 is not linked, and the file size limit of ext2_bmap is not modelled.
- Ext2Blocks.Volume.Itrunc: the kernel zeroes pointer blocks in the buffer cache without writing them; the model keeps the zeroed words.
- Ext2Blocks.Volume.FreeData: the array of pointers is a value that comes back zeroed, not an array changed in place.
- Ext2Blocks.Volume.NewBlocks: the caller's count is not updated by the source, so a short allocation is not reported; what callers do with it is not part of this model.
- Ext2Blocks.Volume.FreeBlocks: a free names at least one block.
- Ext2Blocks.Volume.Run: stops before a free that names metadata, after which the allocator's retry would mark blocks without counting them, and before the truncation of a tree that names a block twice, a free block or metadata.
- Ext2 inode allocation, ext2_bmap and group descriptors in buffers are not part of this model.
- DirRecords and S5Image hold bytes as natural numbers; inode and block numbers of 2^32 and more are not part of this model.
- S5 inode allocation, directories and the copy of the inode on disk are not part of this model.
- The bits of a bitmap are a sequence of truth values; the masks inside bytes are not modelled.
- WaitExit models one sleep channel, that of wait; sleeping elsewhere counts as running, and xstate is not kept.
- BufferCache and Pipe run each critical section as one step; the order in which waiting processes get a lock is not modelled.
- ShellParser: nulterminate and runcmd are not part of this model.
- Grep: reading lines from files is not part of this model.
- Calendar.LocaltimeR: 64-bit overflow of the time itself is not modelled.
- Calendar.Mktime: tm_year + 1900 is not wrapped to 32 bits.
- The scheduler, trap entry, device drivers, the FAT file system and the vfs layer are not part of this model.
