# Verified models of two xv6 kernels' core and an airport simulation

The repository holds two modified xv6 kernels (Offline 3 and 4) and a pthread simulation of an airport
(Offline 2). This project models the parts of Offline 3 and Offline 2 whose correctness spans several
functions, and proves what they promise.

- `Bio`, `BufUsers`, `LogDisk`, `Log`: a redo log over a write-back buffer cache over a block disk. `LogDisk`
  is the meaning of the disk after any prefix of a commit or a recovery; `Log` and `Bio` are the code, proved to
  write exactly those sequences of disks, with the readers of `BufUsers` taking and giving back buffers between
  any two of its steps, in the order of an arbitrary schedule. `LogRun` drives them into the panics they allow;
  `Lru` says which blocks the cache keeps.
- `Bitmap`, `FsTree`, `Inodes`, `FsSteps`, `Fs`: block ownership and files as byte sequences, down to bytes of
  bitmap, indirect and inode blocks; filewrite's chunks and their log budgets. `Crash` joins them to the log:
  what is decoded from the disk after a crash is again a sound file system.
- `Links`, `LinkDirs`, `Sysfile`: directories, link counts, and when an inode may be freed.
- `Umalloc`: the K&R allocator over its circular free list.
- `PageTable`, `Kalloc`, `VmState`, `Vm`: two-level page tables inside the very frames that the frame
  allocator hands out, as partial maps of page numbers.
- `SleepLock`, `ProcTree`, `Proc`, `Lottery`, `Twister`, `Scheduler`: sleep and wakeup, the process tree and its
  tickets, the lottery draw and its random numbers.
- `ShellGrammar`, `ShellTokens`, `Shell`, `Regex`, `Pipe`: the shell's parser and what it makes of the tokens,
  grep's matcher, the pipe.
- `VipChannel`, `Kiosk`: the two-direction VIP channel and the check-in kiosks for any number of passengers.
- `Wrappers`, `Sums`, `Counting`, `Blocks`: shared datatypes, cardinalities, and bytes as little-endian words.

Code that changes state is a class whose methods assign its fields, proved against functions and
predicates on their values; lemmas state what those mean. Interleaved code (sleep-locks, the channel, the
kiosks) is a step function on states, with theorems about every schedule of steps. The kernel's panics are
outcomes with their exact condition, or proved unreachable.

Findings, each with its exact condition:

- `log_write` can refuse a write that its operation may make. While some outstanding operation has budget left
  that happens exactly when `log.size <= LOGSIZE`, and mkfs makes the log LOGSIZE blocks long
  (`Log.NeverRefusedIff`, `LogRun.ShortLogPanics`). When all budgets are spent, so that only blocks already in the
  log are written, it happens exactly when `lh.n >= min(LOGSIZE, log.size - 1)` (`Log.RefusedIff`); a longer log
  does not avoid it (`Log.FullLogRefuses`, `LogRun.FullLogPanics`).
- A commit can run out of buffers beside processes that read, which need no transaction. No interleaving panics
  while logged blocks and readers are fewer than buffers (`Log.Log.Commit`), and some run does whenever they are as
  many (`LogRun.CommitPanics`); with 30 buffers and the 29 blocks that mkfs's log can hold, one reader is enough.
  With the readers at rest a commit of at least one block panics exactly if every buffer is pinned or held.
- create and link keep the link counts exactly when the directory is still linked; they do not check it
  (`Sysfile.Tree.Create`, `Sysfile.Tree.LinkFinish`, `Sysfile.CreateInRemoved`).
- A pipewrite leaves a reader asleep beside bytes exactly when one sleeps, the bytes do not fit, and the read end
  is closed or the writer was killed (`Pipe.Pipe.Write`, `Pipe.KilledWriter`).
- `copyout` reads a page-table entry through a null pointer exactly when the first page of the range that is not a
  user page has no page table (`Vm.Vm.Copyout`, `Vm.NullReadRun`).
- `malloc` returns a block that holds the bytes asked for in memory the process has exactly for requests of at
  most 2^31 - 16 bytes: from there on sbrk's argument wraps to a number that does not grow the process, and from
  2^32 - 7 on the rounding wraps (`Umalloc.Heap.Malloc`, `Umalloc.JoinedIff`). A request past the bound traps at the
  new header exactly if the last page of the process does not reach it (`Umalloc.Overcommit`).
- `wait` clears the tickets of a slot it has freed only after it has released the lock. A process in that slot then
  loses the tickets it is due exactly if fork has stored them already, whether or not the fork is finished; one whose
  fork stores them later gets them (`Proc.Ptable.ClearTickets`, `Proc.ReapRace`).
- `kill(0)` succeeds and marks a free slot: no process has pid 0, but slots never used or freed by wait do. The mark
  stays, and the process that gets the slot starts out killed (`Proc.MarkedFree`, `Proc.KillNobody`).
- `rand` is negative exactly for the word 0x80000000 (`Twister.Generator.Rand`).

## Model

| member | source | states |
|---|---|---|
| Umalloc.LargeEnoughIff | Offline 3/xv6/umalloc.c:69 | a block of the computed units holds nbytes exactly when the 32-bit rounding did not wrap (nbytes <= 2^32 - 8) |
| Umalloc.SbrkArgumentExactIff | Offline 3/xv6/umalloc.c:52-54 | sbrk is asked for the bytes morecore means exactly when the request is below 2^28 units |
| Umalloc.SbrkObtainsIff | Offline 3/xv6/proc.c:156-173 | growproc with morecore's wrapped argument grows the process by the units meant exactly below 2^28 units; from there on it succeeds without growing it, and a store at the old size then traps unless the last page reaches it |
| Umalloc.JoinedIff | Offline 3/xv6/umalloc.c:52-69 | neither of malloc's two 32-bit sums goes wrong, the rounding and sbrk's argument, exactly for nbytes <= 2^31 - 16 |
| Umalloc.Overcommit | Offline 3/xv6/umalloc.c:46-61 | a run to the first request past that bound, for every process size: the process does not grow; it traps at the header store exactly if its size is a whole number of pages, and otherwise malloc returns 2^28 units, so that the next sbrk would return an address inside the block |
| Umalloc.FreeLoopStep | Offline 3/xv6/umalloc.c:30-32 | on a sorted ring both exit tests of free's loop together hold at just one node, the one the block belongs behind, also at the wrap point |
| Umalloc.Slot | Offline 3/xv6/umalloc.c:30-32 | such a node always exists, so free's loop ends |
| Umalloc.Conservation | Offline 3/xv6/umalloc.c:24-90 | sizes on the free list plus sizes of live blocks are the units obtained from sbrk |
| Umalloc.RunStart | Offline 3/xv6/umalloc.c:33-42 | a free block starts exactly where a maximal run of free units starts (full coalescing) |
| Umalloc.RunEnd | Offline 3/xv6/umalloc.c:33-42 | a free block covers free units only and ends where its run ends |
| Umalloc.Canonical | Offline 3/xv6/umalloc.c:24-44 | two free lists over the same free units have the same nodes with the same sizes, whatever the order of calls |
| Umalloc.Disjoint | Offline 3/xv6/umalloc.c:63-90 | two blocks, live or free, share no unit |
| Umalloc.MergeShape | Offline 3/xv6/umalloc.c:33-42 | merging two adjacent ring nodes keeps the ring circular, sorted, disjoint and in step with the blocks |
| Umalloc.SplitShape | Offline 3/xv6/umalloc.c:78-82 | cutting the tail off a free block keeps the ring and partitions its units between the two blocks |
| Umalloc.Heap.Free | Offline 3/xv6/umalloc.c:24-44 | exactly the freed block's units become free, no other live block changes, the block lies inside one ring node afterwards, and freep is the node that was last before it; the loop terminates from any freep |
| Umalloc.Heap.Link | Offline 3/xv6/umalloc.c:33-43 | relinking at the right node frees exactly the block's units and merges with both neighbours |
| Umalloc.Heap.Morecore | Offline 3/xv6/umalloc.c:46-61 | the units from sbrk are free afterwards, merged with their neighbour if adjacent, and some ring node is large enough; the process has grown as sbrk's wrapped argument says, and all units are its memory exactly if fewer than 2^28 were asked for; no memory and the trap at the header store each with its exact condition |
| Umalloc.Heap.Search | Offline 3/xv6/umalloc.c:74-89 | finds the first node large enough behind freep, in ring order, and its predecessor, calling sbrk exactly when no free block is large enough, also after morecore moved freep |
| Umalloc.Heap.Regrow | Offline 3/xv6/umalloc.c:86-88 | morecore inside the loop: the search goes on from freep with a node that fits somewhere ahead |
| Umalloc.Heap.Allocate | Offline 3/xv6/umalloc.c:74-89 | search and take together: the new live block, the units that stop being free, and how far the process has grown |
| Umalloc.Heap.Take | Offline 3/xv6/umalloc.c:75-84 | takes a whole node or the tail of one: the new live block has the requested size and exactly its units stop being free; freep is the node before it |
| Umalloc.Heap.Malloc | Offline 3/xv6/umalloc.c:63-90 | next fit: without a call of sbrk the end of the first large enough node behind the old freep, in ring order, with freep its predecessor afterwards; a new live block disjoint from all live ones; fails, changing nothing, exactly when no block fits and sbrk fails; traps exactly when none fits and the grown process does not reach the new header, never below 2^28 units; on a heap of memory the process has, the block is large enough and backed exactly for nbytes <= 2^31 - 16, and the heap stays backed exactly unless 2^28 units or more had to be asked for |
| Bio.Bcache.constructor | Offline 3/xv6/bio.c:39-56 | binit threads all buffers into a well-formed ring, as if it had released them in turn; the cache agrees with the disk |
| Bio.RelinkThreaded | Offline 3/xv6/bio.c:132-137 | the six pointer writes of brelse turn the doubly linked ring into the ring with that buffer in front |
| Bio.MoveByRelease | Offline 3/xv6/bio.c:130-138 | moving a buffer to the front keeps the list in the order of the last releases, latest first, with this release added to the history |
| Bio.UnreadIsClean | Offline 3/xv6/bio.c:62-92 | a buffer about to be recycled holds no write that the disk lacks |
| Bio.RecycleOk | Offline 3/xv6/bio.c:81-91 | recycling an idle buffer keeps at most one buffer per real block and loses no logged write |
| Bio.OldestIdle | Offline 3/xv6/bio.c:81-91 | the backward scan meets the idle buffer released longest ago first |
| Bio.Bcache.FindCached | Offline 3/xv6/bio.c:68-76 | finds the buffer of a block exactly if one has it |
| Bio.Bcache.FindIdle | Offline 3/xv6/bio.c:81-91 | finds the idle buffer released longest ago in the history of releases, exactly if there is an idle one |
| Bio.Bcache.Bget | Offline 3/xv6/bio.c:62-92 | a reference to the block's buffer; on a miss the idle buffer released longest ago in the whole history of releases is recycled; the panic happens exactly when no buffer has the block and none is idle |
| Bio.Bcache.Bread | Offline 3/xv6/bio.c:97-107 | a locked buffer with the block's latest logical contents; asleep, with its reference taken, exactly if another process has the block's buffer locked; the exact panic condition; cache, disk and pinned blocks otherwise unchanged |
| Bio.Bcache.Resume | Offline 3/xv6/bio.c:97-107 | bread from acquiresleep on, and again after each wakeup: the lock and the logical contents, or sleep exactly while the buffer is locked |
| Bio.Bcache.Iderw | Offline 3/xv6/memide.c:38-60 | one atomic block transfer: a dirty buffer reaches the disk, an invalid one is read, anything else is refused |
| Bio.Bcache.Bwrite | Offline 3/xv6/bio.c:110-116 | the locked buffer's data is on the disk in one step, and the block is no longer pinned |
| Bio.Bcache.Pin | Offline 3/xv6/log.c:231 | B_DIRTY makes the buffer's data the logical contents of its block without touching the disk |
| Bio.Bcache.AcquireSleep | Offline 3/xv6/bio.c:73 | takes the lock of a referenced buffer exactly if nobody has it, and sleeps otherwise |
| Bio.Bcache.ReleaseSleep | Offline 3/xv6/bio.c:126 | unlocks a buffer whose data was written or logged |
| Bio.Bcache.Put | Offline 3/xv6/bio.c:128-140 | drops a reference; exactly the last one is a release, and moves the buffer to the front |
| Bio.Bcache.Relink | Offline 3/xv6/bio.c:132-137 | the six pointer writes |
| Bio.Bcache.MoveToFront | Offline 3/xv6/bio.c:132-137 | the ring afterwards is the old one with this buffer moved to the front, and the release is the latest of the history |
| Bio.Bcache.Brelse | Offline 3/xv6/bio.c:121-140 | drops lock and reference; the last reference adds a release to the history and moves the buffer to the front of the ring, any other leaves both as they were |
| Bio.PicksOne | Offline 3/xv6/bio.c:62-92 | there is just one buffer that bget's rule allows it to choose |
| Bio.PicksSome | Offline 3/xv6/bio.c:62-92 | there is one unless no buffer has the block and none is idle |
| Lru.ReadAll | Offline 3/xv6/bio.c:62-140 | after bread and brelse of any blocks one after the other, a cache of N buffers holds just the last N different blocks read, and its list has them in that order |
| Lru.RecentHas | Offline 3/xv6/bio.c:62-140 | the list of recent blocks has each block read, once |
| Lru.RecentOrder | Offline 3/xv6/bio.c:62-140 | and has it before those last read earlier |
| Lru.ShowsNext | Offline 3/xv6/bio.c:62-140 | one such read puts its block first; it takes the place of its own buffer or of the last one |
| BufUsers.GetRefs | Offline 3/xv6/bio.c:62-92 | bget by any process keeps every reference count equal to the number of its users and every lock with one holder |
| BufUsers.LockRefs | Offline 3/xv6/bio.c:73 | so does acquiresleep |
| BufUsers.DropRefs | Offline 3/xv6/bio.c:121-140 | so does brelse |
| BufUsers.BusyCount | Offline 3/xv6/bio.c:81-91 | when no buffer is idle there are at most as many buffers as pinned blocks and users of clean buffers |
| BufUsers.ReaderFinds | Offline 3/xv6/bio.c:62-92 | a reader finds a buffer while pinned blocks, clean buffers of the committing process and readers are at most the buffers |
| BufUsers.CommitFinds | Offline 3/xv6/bio.c:62-92 | the committing process finds one while they are fewer |
| BufUsers.BusyNoLog | Offline 3/xv6/bio.c:62-92 | when no buffer is idle none holds a log block, so bget panics for one exactly then; no reader has one locked |
| BufUsers.LocksIs | Offline 3/xv6/bio.c:62-107 | a block is locked in the cache exactly if some reader has its lock |
| BufUsers.BufUsers.Get | Offline 3/xv6/bio.c:62-92 | bget for any user: the buffer that the cache's rule chooses; panics exactly with no buffer; another user keeps its buffer and, if it has the lock, its data |
| BufUsers.BufUsers.Resume | Offline 3/xv6/bio.c:97-107 | the lock and the contents exactly if nobody has it; another user keeps its buffer |
| BufUsers.BufUsers.Release | Offline 3/xv6/bio.c:121-140 | brelse for any user, with what becomes of the ring and the history of releases; another keeps its buffer |
| BufUsers.BufUsers.TakeTurn | Offline 3/xv6/file.c:97-113 | the exact next step of a reader on buffers, users and releases: without a buffer it gets one for a block of a file or panics exactly if there is none; with a reference it gets lock and contents exactly if nobody has the lock; with the lock it gives the buffer back. Disk, contents and pinned blocks are unchanged and so is what the committing process has locked; never a panic within the load |
| BufUsers.BufUsers.Begin | Offline 3/xv6/file.c:97-113 | such a step of a reader without a buffer |
| BufUsers.GettingIs | Offline 3/xv6/bio.c:62-92 | whatever buffer bget's rule allows, the state after bget is one and the same |
| BufUsers.BufUsers.RunOthers | Offline 3/xv6/file.c:97-113 | the state, the rest of the schedule and the panic are those of the steps of readers, one after the other, up to the next turn of the committing process |
| BufUsers.BufUsers.Fetch | Offline 3/xv6/bio.c:62-92 | bget of the committing process: exactly the turns of readers before it, the buffer it chooses then, and the turns after it |
| BufUsers.BufUsers.Await | Offline 3/xv6/bio.c:97-107 | its acquiresleep: it gets the lock and the contents at the first of its turns at which nobody has the lock, or the schedule ends, or a reader panics; exactly the readers' turns in between have been taken |
| BufUsers.BufUsers.Read | Offline 3/xv6/bio.c:97-107 | its whole bread: the exact outcome, state and rest for every schedule; it panics only when no buffer is idle, and with the readers at rest exactly then |
| BufUsers.BufUsers.ReadTwo | Offline 3/xv6/log.c:183-185 | two such breads, one after the other, with the exact outcome for every schedule |
| BufUsers.BufUsers.CopyInto | Offline 3/xv6/log.c:185-186 | memmove and bwrite: the written block gets the other buffer's contents, on disk and in meaning, in one write |
| BufUsers.BufUsers.Write | Offline 3/xv6/bio.c:110-116 | bwrite beside readers |
| BufUsers.BufUsers.ReleaseNext | Offline 3/xv6/bio.c:121-140 | a brelse after exactly the readers' turns up to it; a log block's buffer is idle again |
| BufUsers.BufUsers.ReleaseBoth | Offline 3/xv6/log.c:187-188 | both brelses, with the exact outcome for every schedule |
| LogDisk.HeaderRoundTrip | Offline 3/xv6/log.c:86-111 | the header written by write_head is read back by read_head as the same block list |
| LogDisk.LoggedAt | Offline 3/xv6/log.c:178-190 | after k turns of write_log exactly log slots 1 .. k hold the cached contents |
| LogDisk.InstallAt | Offline 3/xv6/log.c:70-82 | after k turns of install_trans exactly the home blocks of the first k entries hold their log slots |
| LogDisk.RecoveredAt | Offline 3/xv6/log.c:116-122 | recovery leaves each home block with its last logged contents, or untouched |
| LogDisk.RecoveryRestartable | Offline 3/xv6/log.c:70-122 | cutting recovery after any prefix of its writes and recovering again gives the same disk |
| LogDisk.RecoverableAfterCrashes | Offline 3/xv6/log.c:70-122 | so does any number of cut recoveries |
| LogDisk.CommitHeader | Offline 3/xv6/log.c:193-202 | the on-disk header reads as the transaction exactly between write_head and the final erase |
| LogDisk.CommitAtomic | Offline 3/xv6/log.c:68-122 | crash after any prefix of commit's block writes, then recovery: every home block is old, or every one is new, decided by one write for all blocks; the header is empty |
| LogDisk.AfterClean | Offline 3/xv6/log.c:193-202 | one transaction, cut anywhere, then recovered, leaves a clean log |
| LogDisk.HistoryAtomic | Offline 3/xv6/log.c:176-202 | a whole history of transactions with crashes equals the home blocks after just the committed ones |
| LogDisk.CommitInstallTrace | Offline 3/xv6/log.c:193-202 | commit's sequence of disks is log writes, header, installs, erase, in this order |
| LogDisk.CommitTraceAt | Offline 3/xv6/log.c:193-202 | the disks a commit leaves behind one after the other are its cuts after 1, 2, ... writes, which CommitAtomic is about |
| Log.BeginReserves | Offline 3/xv6/log.c:126-141 | begin_op's test leaves room for a whole new budget beside all unused ones |
| Log.SpendReserves | Offline 3/xv6/log.c:214-233 | a new block paid from a budget keeps lh.n plus unused budgets within LOGSIZE |
| Log.EndReserves | Offline 3/xv6/log.c:146-174 | end_op returns the budget, and committing starts only with no operation outstanding |
| Log.NeverRefusedIff | Offline 3/xv6/log.c:218-219 | while some outstanding operation has budget left, no write of a block outside the log within budget is refused, new or absorbed, whatever the log holds: exactly when log.size > LOGSIZE (mkfs makes LOGSIZE) |
| Log.RefusedIff | Offline 3/xv6/log.c:218-219 | which writes within budget are refused: with all budgets spent the absorbed ones exactly when lh.n >= min(LOGSIZE, log.size - 1); with log.size > LOGSIZE exactly when lh.n == LOGSIZE, and then all budgets are spent and the block is in the log already |
| Log.FullLogRefuses | Offline 3/xv6/log.c:218-219 | for every log of more than LOGSIZE blocks: once three operations have filled it, logging any of its blocks again is within budget and refused |
| LogRun.FullLogPanics | Offline 3/xv6/log.c:126-233 | a run from boot, for every longer log: three begin_ops, LOGSIZE blocks read and logged within their budgets, then the refusal of the first of them logged again |
| LogRun.ShortLogPanics | Offline 3/xv6/log.c:126-233 | a run from boot, for every log of at most LOGSIZE blocks, mkfs's among them: a new block is refused although its operation has budget left |
| LogRun.CommitPanics | Offline 3/xv6/log.c:146-202 | a run from boot to the panic of bget inside commit, for every number of logged blocks and readers that together reach the number of buffers: all readers are without a buffer when the last operation ends, and the schedule lets each begin a bread; at the sizes of param.h and mkfs, 30 buffers and 29 logged blocks, one reader does |
| LogRun.CrowdedNext | Offline 3/xv6/file.c:97-113 | one more reader's turn: it takes an idle buffer, and there is one less |
| LogRun.CrowdedOut | Offline 3/xv6/file.c:97-113 | after all their turns no buffer is left for a log block |
| LogRun.LogNext | Offline 3/xv6/log.c:214-233 | one turn of those runs: a block is read, logged for its operation and released |
| Log.BusyIff | Offline 3/xv6/bio.c:62-92 | no buffer is idle exactly if each one has a pinned block or a user |
| Log.AllPinned | Offline 3/xv6/bio.c:62-92 | as many pinned blocks as buffers leave none idle |
| Log.InstallTurn | Offline 3/xv6/log.c:75-80 | one turn of install_trans on the values: slot and home block differ, the slot is not pinned, and the disk is the next one of the trace |
| Log.Log.BeginOp | Offline 3/xv6/log.c:126-141 | admits an operation exactly when not committing and the log has room for MAXOPBLOCKS more per operation |
| Log.Log.LogWrite | Offline 3/xv6/log.c:214-233 | appends the block once, pins its buffer and makes its data the logical contents; refused exactly by the panics' tests, and never while budget is left in a log of more than LOGSIZE blocks |
| Log.Log.EndOp | Offline 3/xv6/log.c:146-174 | commit follows exactly when no operation is left |
| Log.Log.WriteLog | Offline 3/xv6/log.c:178-190 | the disk sequence of the log writes, from the cached contents, in any interleaving with readers; panic and sleep as for Commit |
| Log.Log.WriteHead | Offline 3/xv6/log.c:102-112 | one write that makes the on-disk header list the transaction; never asleep, since no reader reads a log block |
| Log.Log.InstallTrans | Offline 3/xv6/log.c:70-82 | the disk sequence of the installs, unpinning exactly the installed blocks, in any interleaving with readers; panic and sleep as for Commit |
| Log.Log.Commit | Offline 3/xv6/log.c:193-202 | in any interleaving with readers: the sequence of disks it writes is the one CommitAtomic is about, and when it is done home blocks equal the logical contents; it panics only at a moment when every buffer is dirty or in use, and never while logged blocks and readers are fewer than buffers; always if the readers' turns before its first bget panic or leave no buffer for the first log block; it is left asleep only on a logged block that a reader has locked; with the readers at rest it panics exactly if there is a block to commit and every buffer is pinned or held, and otherwise sleeps exactly if a reader holds the lock of a logged block |
| Log.Log.CommitInstalls | Offline 3/xv6/log.c:195-199 | log writes, header write and installs in this order, in any interleaving with readers, with the conditions of Commit |
| Log.Log.LogBlock | Offline 3/xv6/log.c:183-188 | one turn of write_log beside readers: the cached contents go to the log slot in one write; panic and sleep as for Commit |
| Log.Log.InstallBlock | Offline 3/xv6/log.c:75-80 | one turn of install_trans beside readers: the log slot goes to its home block in one write |
| Log.Log.FillHeader | Offline 3/xv6/log.c:105-109 | the locked header buffer gets the count and the list |
| Log.Log.Erase | Offline 3/xv6/log.c:200-201 | the transaction is forgotten and the header cleared by one write, beside readers |
| Log.Log.CommitDone | Offline 3/xv6/log.c:169-172 | operations are let in again |
| Log.Log.ReadHead | Offline 3/xv6/log.c:86-98 | reads the on-disk block list |
| Log.Log.Recover | Offline 3/xv6/log.c:116-122 | its sequence of disks is the one RecoveryRestartable is about; it ends with a clean log and an agreeing cache, and needs one buffer more than there are readers |
| Bitmap.OrBitIs | Offline 3/xv6/fs.c:68-69 | x | 1 << k sets bit k and no other, and stays a byte |
| Bitmap.AndNotBitIs | Offline 3/xv6/fs.c:92 | x & ~(1 << k) clears bit k and no other |
| Bitmap.SetInUse | Offline 3/xv6/fs.c:66-70 | the bitmap write changes the bit of its block and of no other |
| FsTree.AllocOk | Offline 3/xv6/fs.c:56-78 | marking a free block keeps ownership, with the block in transit |
| FsTree.FreeOk | Offline 3/xv6/fs.c:81-95 | a block in transit has its bit set, so bfree never frees a free block |
| FsTree.StoreDirect | Offline 3/xv6/fs.c:379-388 | storing a fresh block in an inode slot makes that slot its only owner |
| FsTree.StoreIndirect | Offline 3/xv6/fs.c:390-396 | storing a fresh block in an indirect entry makes that entry its only owner |
| FsTree.DetachIndirect | Offline 3/xv6/fs.c:418-431 | clearing the indirect address releases exactly the indirect block and what it lists |
| FsTree.WriteBytes | Offline 3/xv6/fs.c:499-504 | overwriting part of a block changes exactly those bytes of that file and no byte of another |
| FsTree.WriteReads | Offline 3/xv6/fs.c:499-504 | one turn of writei's loop extends the splice by its bytes |
| FsSteps.UsedByOneSlot | Offline 3/xv6/fs.c:56-95 | a data block's bit is set exactly when a slot names it, and no two slots name one block |
| FsSteps.BlocksConserved | Offline 3/xv6/fs.c:56-95 | free + owned + in transit + metadata = size |
| FsSteps.TruncFrees | Offline 3/xv6/fs.c:408-435 | truncation frees exactly as many blocks as the inode owned |
| Fs.Fs.FindFree | Offline 3/xv6/fs.c:62-67 | balloc's two loops find the first free block, or none exactly if all are used |
| Fs.Fs.Balloc | Offline 3/xv6/fs.c:57-78 | the first free block, zeroed and marked; fails exactly when every block is used; no file byte changes |
| Fs.Fs.Bfree | Offline 3/xv6/fs.c:82-95 | clears the bit of a block no longer owned; its panic is unreachable |
| Fs.Fs.Bmap | Offline 3/xv6/fs.c:373-402 | the address of the file block, allocated only where there was none; mapped blocks are never moved, no other slot changes, every changed block is logged; panics only past MAXFILE (always there) or when all blocks are used |
| Fs.Fs.Writei | Offline 3/xv6/fs.c:482-511 | on success the contents are the old ones with the source spliced in, the size is max(size, off + n), other files and inodes are unchanged, the on-disk inode is current, no slot outside the written range was filled, every changed block is logged, and only the file's blocks, its inode's and bitmap blocks are; the exact failure condition; a device goes to the driver of its major number exactly if that is in range and registered |
| Fs.Fs.Readi | Offline 3/xv6/fs.c:453-476 | exactly the requested slice, clipped at the size; nothing is allocated or changed; a device goes to the driver of its major number exactly if that is in range and registered |
| Fs.Fs.Itrunc | Offline 3/xv6/fs.c:408-435 | the inode owns nothing afterwards and exactly its blocks have become free; other files are unchanged; every changed block is logged |
| Fs.Fs.Iput | Offline 3/xv6/fs.c:332-352 | truncates and frees the inode exactly when it is valid, has no links and this is its last reference; every changed block is logged, and only the inode's block and bitmap blocks are |
| Crash.OperationAtomic | Offline 3/xv6/log.c:68-122 | an operation that logs every block it changes is wholly on the disk or not at all, whatever is cut |
| Crash.CrashConsistent | Offline 3/xv6/log.c:68-122 | after any cut of a commit and of the recoveries after it, the inodes decoded from the disk own each block at most once, the bitmap marks exactly the owned blocks, no file has holes, and inodes and file contents are all those after the operation or all those before it |
| Crash.RunConsistent | Offline 3/xv6/log.c:68-122 | the same after any run of operations and crashes |
| Crash.ConsistentBehind | Offline 3/xv6/mkfs.c:21 | soundness, inodes and addresses depend on the blocks behind the log only |
| Crash.WriteSurvives | Offline 3/xv6/file.c:139-144 | one transaction of filewrite, however its commit is cut: the disk holds the spliced file or the old one, with size, addresses and bitmap to match; the hypotheses of CrashConsistent are discharged |
| Crash.IputSurvives | Offline 3/xv6/fs.c:332-352 | the iput that frees an inode, within a budget of its inode block and the bitmap blocks, however its commit is cut: the disk holds the file with all its blocks, or a free inode and its blocks free |
| Crash.RunAtomic | Offline 3/xv6/log.c:68-122 | over a run of such operations with crashes the disk holds the outcome of the committed ones |
| FsSteps.CoversTrans | Offline 3/xv6/fs.c:56-95 | logging every changed block composes over the steps of an operation |
| Fs.Fs.BmapSlot | Offline 3/xv6/fs.c:378-382 | the address in an inode slot, filled by balloc exactly if empty; no other slot changes |
| Fs.Fs.BmapEntry | Offline 3/xv6/fs.c:388-398 | the address in an indirect entry, filled by balloc exactly if empty and then logged; no other slot changes |
| Fs.Fs.WriteChunk | Offline 3/xv6/fs.c:498-505 | one turn of writei's loop extends the splice by its bytes and logs what it changes |
| Fs.Fs.FreeDirect | Offline 3/xv6/fs.c:413-418 | a direct slot is emptied and its block, if any, is free again |
| Fs.Fs.FreeIndirect | Offline 3/xv6/fs.c:420-430 | the indirect slot is emptied; exactly its block and the blocks it lists are free again |
| Inodes.InodeRoundTrip | Offline 3/xv6/fs.c:221-234 | storing an inode in its place of a block changes that one of the block's eight inodes, to the one stored, and no other |
| FsSteps.CanStore | Offline 3/xv6/fs.c:221-234 | every inode of a sound tree fits its struct dinode |
| FsSteps.UpdateStep | Offline 3/xv6/fs.c:221-234 | the block write of iupdate keeps ownership, all addresses and all file bytes, and changes one inode of the disk |
| Fs.Fs.Iupdate | Offline 3/xv6/fs.c:221-234 | the inode decoded from the disk equals the one in core, every other inode of the disk is unchanged, no address or file byte is, and the inode's block is logged |
| Fs.Fs.GrowFile | Offline 3/xv6/fs.c:506-509 | the end of writei: the size grows, the inode goes to the disk, and the spliced contents are the file's |
| FsSteps.WriteBudget | Offline 3/xv6/fs.c:482-511 | a write logs at most its data blocks, one indirect block, one inode block and the bitmap blocks |
| FsSteps.ChunkBudget | Offline 3/xv6/file.c:133-152 | a filewrite chunk logs at most 6 blocks plus the bitmap blocks: 7, below MAXOPBLOCKS, with one bitmap block |
| FsSteps.FreeBudget | Offline 3/xv6/fs.c:332-352 | freeing a file logs its inode block and bitmap blocks only: two blocks with one bitmap block |
| FsSteps.SpliceNext | Offline 3/xv6/file.c:133-152 | writing consecutive chunks is one splice |
| Fs.Fs.WriteOp | Offline 3/xv6/file.c:139-144 | one transaction of filewrite keeps its budget and splices its chunk |
| Fs.Fs.FileChunk | Offline 3/xv6/file.c:139-150 | one turn of filewrite's loop extends the splice by its chunk in a transaction within budget |
| Fs.Fs.Filewrite | Offline 3/xv6/file.c:118-155 | all chunks together are one splice of the whole source; it fails exactly when a chunk does not fit, with just the chunks before it written; a device goes to its driver exactly if there is one; every transaction is within budget |
| Kalloc.PopFrame | Offline 3/xv6/kalloc.c:83-95 | taking the head keeps the linked list of exactly the free frames |
| Kalloc.PushFrame | Offline 3/xv6/kalloc.c:60-78 | pushing a frame in use keeps the list and the partition |
| Kalloc.FramesConserved | Offline 3/xv6/kalloc.c:60-95 | free frames plus frames in use is constant |
| PageTable.AttachTable | Offline 3/xv6/vm.c:46-52 | hanging a zeroed table under a directory changes no translation of any directory |
| PageTable.PutPte | Offline 3/xv6/vm.c:71-73 | writing one entry changes that one translation of that one directory |
| PageTable.DataWrite | Offline 3/xv6/vm.c:60-80 | writing a user page, a loose frame or a free frame changes no translation |
| PageTable.Dismantle | Offline 3/xv6/vm.c:284-298 | without user pages a directory and its tables can be freed without any other directory noticing |
| VmState.FreePageOk | Offline 3/xv6/vm.c:267-275 | freeing the page first and clearing its entry afterwards keeps every table sound |
| VmState.KernelNoRemap | Offline 3/xv6/vm.c:119-136 | the panic remap cannot happen in setupkvm: the four kernel ranges do not meet |
| VmState.KernelNext | Offline 3/xv6/vm.c:128-133 | each kmap entry adds its range and nothing else |
| VmState.KernelMapped | Offline 3/xv6/vm.c:108-115 | the four kmap entries together make that address space |
| VmState.KmapCovers | Offline 3/xv6/vm.c:108-115 | which entry of kmap covers a page |
| VmState.PokeStep | Offline 3/xv6/vm.c:380-381 | a store through a user mapping changes those bytes of that page in that address space only |
| Vm.Vm.Kalloc | Offline 3/xv6/kalloc.c:83-95 | the first free frame; null exactly when none is free |
| Vm.Vm.Kfree | Offline 3/xv6/kalloc.c:60-78 | the frame, filled with junk, is first on the list; its panics are unreachable |
| Vm.Vm.Freerange | Offline 3/xv6/kalloc.c:47-53 | frees each whole frame of the range exactly once |
| Vm.Vm.Walkpgdir | Offline 3/xv6/vm.c:36-54 | the table of the page, created only if asked for and missing; no translation changes, and no other slot of the directory; fails exactly when no frame is free or creation was not asked for |
| Vm.Vm.Mappages | Offline 3/xv6/vm.c:61-80 | adds exactly its range, or a prefix of it when memory runs out or a page is already mapped; everything else translates as before; the directory has page tables in exactly the slots it had and those of the pages mapped |
| Vm.Vm.Setupkvm | Offline 3/xv6/vm.c:119-136 | a new directory in which physical memory is mapped from KERNBASE on, read-only exactly from the kernel's text up to its data, the devices are mapped to themselves, writable, and no other page is, none of them for the user and no page table below KERNBASE; or nothing, all frames given back, with at most 513 frames free before |
| Vm.Vm.Deallocuvm | Offline 3/xv6/vm.c:256-279 | unmaps exactly the range although it skips whole directory slots, and takes exactly the frames of its pages out of use, each once |
| Vm.Vm.Freevm | Offline 3/xv6/vm.c:284-298 | takes exactly the directory, its tables and its pages out of use, each once; other address spaces and their data are unchanged |
| Vm.Vm.Allocuvm | Offline 3/xv6/vm.c:222-249 | success: new zeroed user pages in frames of their own; failure: the range is unmapped again and only page tables were added |
| VmState.FailedRestores | Offline 3/xv6/vm.c:222-249 | a failed allocuvm of unmapped pages has restored every translation |
| Vm.Vm.FreePage | Offline 3/xv6/vm.c:267-275 | the page's frame is freed once and its entry cleared; no other translation changes |
| Vm.Vm.CopyBad | Offline 3/xv6/vm.c:342-344 | the child's frames all go back |
| Vm.Vm.CopyOne | Offline 3/xv6/vm.c:331-339 | one page copied into a fresh frame with the same flags, or the frame given back |
| Vm.Vm.Copyuvm | Offline 3/xv6/vm.c:316-345 | equal pages in disjoint frames, and above them just the kernel's address space as setupkvm makes it, or every frame given back; panics only if a page of the parent is missing |
| Vm.Vm.Copyout | Offline 3/xv6/vm.c:351-389 | the bytes land at exactly the user addresses asked for, in no other page of any address space, up to the first page that is no user page; all of them exactly if there is none in the range; a null read in uva2ka exactly if that page has no page table |
| VmState.StopIff | Offline 3/xv6/vm.c:351-358 | the first page that is no user page is unique, so whether it has a page table decides the null read |
| VmState.FreshFaults | Offline 3/xv6/vm.c:351-358 | in a directory without tables below KERNBASE every copy of at least a byte to a user address is a null read |
| VmState.FewTables | Offline 3/xv6/vm.c:36-54 | a directory without tables below KERNBASE has at most 512 page tables |
| VmState.EnoughFrames | Offline 3/xv6/vm.c:119-136 | setupkvm runs out of memory only with at most 513 free frames |
| Vm.NullReadRun | Offline 3/xv6/vm.c:119-379 | a run to that null read: kinit, setupkvm, and copyout of any bytes to any user address |
| ProcTree.WakingKeeps | Offline 3/xv6/proc.c:521-539 | waking sleepers keeps the tree, the pids, the forks and the waits |
| ProcTree.ExitKeeps | Offline 3/xv6/proc.c:229-273 | exit keeps every process but init under a live parent with a smaller pid, and leaves no parent asleep in wait beside a zombie child |
| ProcTree.AllocKeeps | Offline 3/xv6/proc.c:71-92 | the embryo's pid was never used before |
| ProcTree.LaunchKeeps | Offline 3/xv6/proc.c:216-220 | a launched child is a child of a live parent |
| ProcTree.ReapKeeps | Offline 3/xv6/proc.c:288-303 | the reaped pid was never reaped before, and the slot is free without a parent |
| ProcTree.MoveKeeps | Offline 3/xv6/proc.c:320 | wait goes to sleep only when it has no zombie child |
| Proc.LeadsToInit | Offline 3/xv6/proc.c:177-322 | following parents from any process leads to init |
| Proc.ExitLoopNext | Offline 3/xv6/proc.c:261-267 | the reparenting loop, waking init for each zombie, amounts to adopting all children and waking init once |
| Proc.Ptable.Allocproc | Offline 3/xv6/proc.c:71-92 | the first free slot becomes an embryo; fails exactly when none is free |
| Proc.Ptable.Fork | Offline 3/xv6/proc.c:178-223 | one new runnable child with its parent's tickets, or the table as it was; the exact failure condition |
| Proc.Ptable.ForkFails | Offline 3/xv6/proc.c:188-191 | the embryo's slot is free again |
| Proc.Ptable.ForkLinks | Offline 3/xv6/proc.c:195-202 | the embryo gets its parent and its parent's tickets, and is due what its parent is due |
| Proc.Ptable.ForkLaunches | Offline 3/xv6/proc.c:214-220 | the embryo becomes runnable; whatever other processes did since allocproc, it is still this fork's, with this process as parent and a larger pid |
| Proc.Ptable.Sleep | Offline 3/xv6/proc.c:482-517 | the process sleeps on the channel |
| Proc.Ptable.Resume | Offline 3/xv6/proc.c:377-379 | a runnable process runs, its channel cleared |
| Proc.Ptable.Yield | Offline 3/xv6/proc.c:451-456 | the running process is runnable again |
| Proc.Ptable.Wakeup | Offline 3/xv6/proc.c:534-539 | wakes exactly the sleepers on the channel |
| Proc.Ptable.Wakeup1 | Offline 3/xv6/proc.c:521-530 | exactly the sleepers on the channel become runnable |
| Proc.Ptable.Kill | Offline 3/xv6/proc.c:545-565 | the first slot with the pid, for a pid other than 0 the only one, is marked as killed and, if asleep, runnable, and nothing else changes; fails exactly when no slot has the pid |
| Proc.KilledWaiter | Offline 3/xv6/proc.c:278-565 | kill ends a wait: the process wakes up, and without a zombie child it returns -1 |
| Proc.MarkedFree | Offline 3/xv6/proc.c:545-565 | kill marks a free slot exactly if the first slot with the pid is one |
| Proc.KillNobody | Offline 3/xv6/proc.c:71-565 | kill(0) succeeds while a free slot has pid 0; if that is the first free one, the next process starts out killed |
| Proc.Ptable.Exit | Offline 3/xv6/proc.c:229-273 | the whole table after exit, tickets included; refused exactly for init |
| Proc.Ptable.ExitStart | Offline 3/xv6/proc.c:251-252 | the process has no tickets and is due none |
| Proc.Ptable.ExitLocked | Offline 3/xv6/proc.c:255-270 | exit under the lock: parent woken, children handed to init, zombie |
| Proc.Ptable.SetTickets | Offline 3/xv6/proc.c:601-608 | the tickets of one process change and the invariant stays |
| Proc.Ptable.Settickets | Offline 3/xv6/sysproc.c:90-107 | a process sets its own tickets, refused exactly for numbers below 1 |
| Proc.Ptable.Wait | Offline 3/xv6/proc.c:278-322 | reaps the first zombie child exactly once; without one it returns -1 if it has no children or was killed, and otherwise sleeps |
| Proc.Ptable.ClearTickets | Offline 3/xv6/proc.c:306-309 | the store behind the unlock: after it some process has other tickets than it is due exactly if the slot has a process whose tickets fork has stored already, in a finished fork or not, and it is due some |
| Proc.StoreIff | Offline 3/xv6/proc.c:601-608 | storing tickets in a slot keeps everybody's tickets as due exactly if no process in the slot has been given others |
| Proc.FairLink | Offline 3/xv6/proc.c:195-202 | fork's ticket store gives the child what its parent is due, whatever the slot held before |
| Proc.FairStep | Offline 3/xv6/proc.c:71-322 | steps that neither store tickets nor make a process out of a slot without keep everybody's tickets as due |
| Proc.ReapRace | Offline 3/xv6/proc.c:178-309 | a run in which that slot is taken by a fork in between: the child runs without tickets if fork had stored them, and with its parent's if it stores them afterwards |
| Lottery.WinsIff | Offline 3/xv6/proc.c:352-387 | a runnable process wins exactly the draws in its interval of tickets; the first in the table also all lower ones |
| Lottery.Shares | Offline 3/xv6/proc.c:352-387 | of the draws 0 .. total each runnable process wins as many as it has tickets, the first one more |
| Lottery.CModIs | Offline 3/xv6/pseudorandom.h:87 | C's remainder is the one number a multiple of the limit away from rand's value, nearer to 0 than the limit, with the value's sign |
| Lottery.PerDraw | Offline 3/xv6/pseudorandom.h:87 | of limit * m consecutive values of rand each draw comes from just m |
| Lottery.WinsValues | Offline 3/xv6/proc.c:352-387 | of the values 0 .. m * (total + 1) - 1 of rand a runnable process wins just m for each of its tickets, and the first one m more |
| Lottery.OneWinner | Offline 3/xv6/proc.c:367-387 | a draw has at most one winner |
| Lottery.SomeoneWins | Offline 3/xv6/proc.c:352-387 | every draw up to the total has a winner if a process is runnable |
| Lottery.ZeroTickets | Offline 3/xv6/proc.c:367-387 | a process without tickets can win only if it is the first runnable one |
| Lottery.TotalTickets | Offline 3/xv6/proc.c:352-360 | the first loop adds the tickets of the runnable processes |
| Lottery.FindWinner | Offline 3/xv6/proc.c:364-387 | the second loop stops at the winner of any draw up to the total; no winner exactly when nobody is runnable |
| Lottery.LowDraw | Offline 3/xv6/proc.c:367-387 | a draw below 1, a negative one included, picks the first runnable process |
| Scheduler.PickNext | Offline 3/xv6/proc.c:349-387 | the k-th turn of the scheduler: the draw is rand's value less a multiple of the total and one, and picks a process whenever one is runnable, and the first one for the word whose absolute value is negative |
| SleepLock.StepInv | Offline 3/xv6/sleeplock.c:22-42 | every atomic step of any process keeps the invariant |
| SleepLock.NoLostWakeup | Offline 3/xv6/proc.c:482-539 | in every interleaving: when the lock is free and no releaser is on its way to wakeup, nobody sleeps on it |
| SleepLock.AtMostOne | Offline 3/xv6/sleeplock.c:22-42 | in every interleaving at most one process has the sleep-lock |
| SleepLock.AcquireHolds | Offline 3/xv6/sleeplock.c:22-33 | a process comes out of acquiresleep only with the lock, whatever wakes it in between |
| SleepLock.ReleaseWakes | Offline 3/xv6/sleeplock.c:35-42 | releasesleep is not done before it has woken those that wait for the lock |
| SleepLock.KillWakes | Offline 3/xv6/proc.c:545-565 | kill is not done before it has woken its victim |
| SleepLock.SleepersAre | Offline 3/xv6/proc.c:482-539 | who is asleep after a step: the process that went to sleep, and the sleepers the step did not wake |
| SleepLock.NoDeadlock | Offline 3/xv6/proc.c:482-539 | while some process is not idle, some process can step |
| Links.AddKeeps | Offline 3/xv6/fs.c:552-578 | a new entry in a linked directory takes the place of a pending link in the count |
| Links.AddBreaks | Offline 3/xv6/sysfile.c:145-148 | an entry added to a directory that is no longer linked always breaks the tree |
| Links.ClearKeeps | Offline 3/xv6/sysfile.c:218-232 | clearing a file's entry and lowering nlink keep the count |
| Links.NlinkFits | Offline 3/xv6/file.h:23 | nlink fits its 16-bit short while the directory entries fit the 1000 blocks of FSSIZE and each of NPROC processes has at most one link to finish |
| LinkDirs.MadeKeeps | Offline 3/xv6/sysfile.c:265-278 | mkdir in a linked directory keeps the count, unique names and the first two entries |
| LinkDirs.MadeBreaks | Offline 3/xv6/sysfile.c:265-278 | mkdir in a removed directory never keeps the tree |
| LinkDirs.OnlyName | Offline 3/xv6/sysfile.c:206-226 | an empty directory has no entry but the one being removed, so its nlink is 1 |
| LinkDirs.ParentStays | Offline 3/xv6/sysfile.c:221-224 | the parent of a removed directory is still linked after its nlink has fallen |
| LinkDirs.RemovedKeeps | Offline 3/xv6/sysfile.c:218-232 | unlink of an empty directory keeps the count and the tree |
| LinkDirs.FreedKeeps | Offline 3/xv6/fs.c:332-352 | an inode freed by iput is named by no entry and names none |
| Sysfile.MadeFileKeeps | Offline 3/xv6/sysfile.c:256-278 | creating a file keeps the count exactly when the directory is still linked |
| Sysfile.MadeDirKeeps | Offline 3/xv6/sysfile.c:256-278 | creating a directory keeps the tree exactly when the parent is still linked |
| Sysfile.UncountedFile | Offline 3/xv6/sysfile.c:242-283 | a file created in any directory that is no longer linked has nlink 1 and no entry that counts |
| Sysfile.CreateInRemoved | Offline 3/xv6/sysfile.c:242-283 | a run to it: mkdir, chdir, unlink of the directory, create |
| Sysfile.CreateUnlink | Offline 3/xv6/sysfile.c:185-283 | unlink right behind create: the inode stays, without a link, until the creator's iput frees it |
| Sysfile.Tree.DirLookup | Offline 3/xv6/fs.c:525-548 | the first entry with the name, or none exactly if there is none |
| Sysfile.Tree.DirLink | Offline 3/xv6/fs.c:552-578 | the name in the first empty slot, refused exactly if it is there already |
| Sysfile.Tree.Create | Offline 3/xv6/sysfile.c:242-283 | the whole tree after create in each outcome: the first free inode, with its kind, one link and the creator's reference, and its name in the first empty slot; the invariant is kept exactly when the directory is still linked |
| Sysfile.Tree.LinkStart | Offline 3/xv6/sysfile.c:131-140 | directories are refused; otherwise nlink is raised ahead of the entry |
| Sysfile.Tree.LinkFinish | Offline 3/xv6/sysfile.c:142-164 | the entry, or nlink lowered again exactly if there is no parent, it is on another device, or the name is taken; sound exactly when the directory is still linked |
| Sysfile.Tree.EnterLink | Offline 3/xv6/sysfile.c:147 | the dirlink of sys_link: the entry is sound exactly when the directory is still linked |
| Sysfile.Tree.CreateDir | Offline 3/xv6/sysfile.c:265-278 | the stores of create for a directory |
| Sysfile.Tree.CreateFile | Offline 3/xv6/sysfile.c:256-278 | the stores of create for a file or device |
| Sysfile.Tree.UnlinkAt | Offline 3/xv6/sysfile.c:206-232 | the rest of unlink once the entry is found; refused exactly for a directory that is not empty |
| Sysfile.Tree.UnlinkDir | Offline 3/xv6/sysfile.c:218-232 | the stores of unlink for a directory |
| Sysfile.Tree.UnlinkFile | Offline 3/xv6/sysfile.c:218-232 | the stores of unlink for a file |
| Sysfile.Tree.IsDirEmpty | Offline 3/xv6/sysfile.c:169-181 | true exactly if all entries but the first two are empty |
| Sysfile.Tree.FreeInode | Offline 3/xv6/fs.c:201-212 | the first free inode number, if any |
| Sysfile.Tree.Iget | Offline 3/xv6/fs.c:242-272 | one reference more |
| Sysfile.Tree.Unlink | Offline 3/xv6/sysfile.c:185-239 | removes exactly the named entry and one link, and one of the parent for a directory; refused, changing nothing, exactly for dots, missing names and directories that are not empty; the panic is unreachable |
| Sysfile.Tree.Iput | Offline 3/xv6/fs.c:332-352 | frees an inode exactly with its last reference and no links, and then no entry of the tree names it |
| ShellGrammar.WordToken | Offline 3/xv6/sh.c:265-308 | a word before a blank, a symbol or the end is one token with exactly its text |
| ShellGrammar.ArgsRun | Offline 3/xv6/sh.c:431-445 | parseexec's loop reads a list of fewer than MAXARGS words back |
| ShellGrammar.WordsParseIff | Offline 3/xv6/sh.c:431-445 | a list of words is accepted as a command exactly when there are fewer than MAXARGS |
| ShellGrammar.BlockRun | Offline 3/xv6/sh.c:399-413 | parseblock reads a parenthesised command back |
| ShellGrammar.LineRun | Offline 3/xv6/sh.c:344-359 | a rendering before a closing parenthesis or the end parses to its tree and stops there |
| ShellGrammar.RoundTrip | Offline 3/xv6/sh.c:327-446 | every command tree within the argument limit is parsed back from its fully parenthesised rendering |
| ShellTokens.NothingLost | Offline 3/xv6/sh.c:265-446 | for every text the parser accepts: each word token is in the tree once, as an argument or as the file of a redirection of its kind; there is a node for each pipe, semicolon, ampersand and redirection symbol; and the parentheses match |
| ShellTokens.LineAccount | Offline 3/xv6/sh.c:344-359 | parseline moves just the tokens it has read into its tree |
| ShellTokens.AddArgItems | Offline 3/xv6/sh.c:432-443 | a word is added to the command inside its redirections |
| ShellTokens.OrderKept | Offline 3/xv6/sh.c:327-446 | the arguments of a command, its redirections, and the two sides of a pipe or list are in the order of the text |
| Shell.Parser.Gettoken | Offline 3/xv6/sh.c:265-308 | the loops compute the token function and every word token is a maximal word of the text |
| Shell.Parser.SkipWord | Offline 3/xv6/sh.c:295-299 | gettoken's loop ends where the word does |
| Shell.Parser.Parseline | Offline 3/xv6/sh.c:344-359 | agrees with the grammar function on every input, terminates, and every word of the tree is a proper word |
| Shell.Parser.PeekFor | Offline 3/xv6/sh.c:310-320 | skips blanks and tells whether one of the characters follows |
| Shell.Parser.ParseBacks | Offline 3/xv6/sh.c:350-353 | parseline's loop |
| Shell.Parser.ParseWords | Offline 3/xv6/sh.c:429-445 | parseexec's loop, refusing MAXARGS words; words behind a redirection go to the command inside it |
| Shell.Parser.Parsepipe | Offline 3/xv6/sh.c:361-372 | as for Parseline |
| Shell.Parser.Parseredirs | Offline 3/xv6/sh.c:374-397 | as for Parseline |
| Shell.Parser.Parseblock | Offline 3/xv6/sh.c:399-413 | as for Parseline |
| Shell.Parser.Parseexec | Offline 3/xv6/sh.c:415-446 | as for Parseline |
| Shell.Nulterminate | Offline 3/xv6/sh.c:449-493 | writes a NUL at the end of every word of the tree and nowhere else |
| Shell.WordsReadBack | Offline 3/xv6/sh.c:449-493 | every word then reads back as exactly its token: no terminator falls inside another word |
| Shell.Parsecmd | Offline 3/xv6/sh.c:327-342 | the tree of the grammar, which holds each word and symbol of the text once and in order, with all words reading back as their tokens, or a panic exactly where the grammar has none |
| Regex.HereIsLanguage | Offline 3/xv6/grep.c:84-96 | matchhere holds exactly when some prefix of the text is a concatenation of words of the pattern's items |
| Regex.StarIsLanguage | Offline 3/xv6/grep.c:98-106 | matchstar holds exactly when the rest matches after some number of the character |
| Regex.MatchHere | Offline 3/xv6/grep.c:84-96 | the code decides the language; the recursion with matchstar terminates |
| Regex.MatchStar | Offline 3/xv6/grep.c:98-106 | the loop computes the star function |
| Regex.Match | Offline 3/xv6/grep.c:72-82 | true exactly if the pattern matches at some position, or only at the start after ^ |
| Twister.Unroll | Offline 3/xv6/pseudorandom.h:21-40 | in either segment the array cell read is the element PERIOD further on, although the array is half overwritten |
| Twister.UnrollLast | Offline 3/xv6/pseudorandom.h:42-46 | the last element is glued from the last old and the first new word |
| Twister.Generator.UnrollAt | Offline 3/xv6/pseudorandom.h:21-24 | the UNROLL macro advances the half-new array by one element |
| Twister.Generator.UnrollEnd | Offline 3/xv6/pseudorandom.h:42-46 | the block after the loops completes the batch |
| Twister.Generator.TemperAll | Offline 3/xv6/pseudorandom.h:49-55 | the second array holds the temperings of the first |
| Twister.Generator.Srand | Offline 3/xv6/pseudorandom.h:60-68 | the array holds the first 624 elements of the recurrence of the seed |
| Twister.Generator.GenerateNumbers | Offline 3/xv6/pseudorandom.h:27-58 | the array holds the next 624 elements, and the other array their temperings |
| Twister.Generator.Rand | Offline 3/xv6/pseudorandom.h:70-82 | the k-th call returns the absolute value, but for 0x80000000, of the tempered element 624 + k |
| Twister.Generator.RandUpTo | Offline 3/xv6/pseudorandom.h:84-88 | rand's value less a multiple of the limit, nearer to 0 than the limit, negative only for that one word |
| Twister.ShiftedIs | Offline 3/xv6/pseudorandom.h:21-24 | the code's shifts of a signed word spread the low bit, so UNROLL is the step of the recurrence |
| Twister.GlueIs | Offline 3/xv6/pseudorandom.h:8-9 | the glued word has its top bit from the first word and the others from the second |
| Twister.TemperBack | Offline 3/xv6/pseudorandom.h:49-55 | every word is the tempering of just one word |
| Twister.SeededBack | Offline 3/xv6/pseudorandom.h:60-68 | srand's recurrence takes different words to different words |
| Twister.SameBefore | Offline 3/xv6/pseudorandom.h:21-46 | batches that agree come from elements that agree |
| Twister.SeedsApart | Offline 3/xv6/pseudorandom.h:27-82 | 624 tempered outputs in a row, wherever they are, come from one seed alone |
| Pipe.Counters | Offline 3/xv6/pipe.c:84-94 | the wrapped 32-bit counters tell full and empty and index the ring correctly |
| Pipe.Pipe.Write | Offline 3/xv6/pipe.c:78-98 | bytes are appended in order, never more than PIPESIZE in the pipe; done exactly if the rest fits, otherwise the pipe is filled and the call fails exactly if nobody can read or the writer was killed; no reader stays asleep beside bytes but exactly in that failure, and any other outcome wakes all |
| Pipe.Pipe.Kill | Offline 3/xv6/proc.c:545-565 | a killed sleeper wakes; nobody else does |
| Pipe.KilledWriter | Offline 3/xv6/pipe.c:78-98 | a run to that failure: a reader left asleep beside a full pipe |
| Pipe.Pipe.Read | Offline 3/xv6/pipe.c:100-121 | the oldest bytes, as many as asked for and available; it sleeps or fails exactly on an empty pipe that may still be written, by whether the reader was killed; no byte for a positive length only at the end of the stream |
| Pipe.Pipe.Close | Offline 3/xv6/pipe.c:59-75 | closes one end, wakes the other side, frees the pipe when both are closed |
| VipChannel.StepInv | Offline 2/1705058.cpp:143-202 | every atomic step of any passenger keeps the invariant |
| VipChannel.NeverBoth | Offline 2/1705058.cpp:143-202 | in every interleaving no two passengers of opposite directions are in the channel |
| VipChannel.NoDeadlockEver | Offline 2/1705058.cpp:143-202 | in every reachable state some passenger on its way can step |
| VipChannel.LeftFirst | Offline 2/1705058.cpp:151-152 | while a left-to-right passenger waits for the channel, only passengers past the gate before can still enter ahead of it |
| VipChannel.WaitShrinks | Offline 2/1705058.cpp:177-202 | every step of one of those shortens the wait, and no step lengthens it |
| VipChannel.WaitEnds | Offline 2/1705058.cpp:151-201 | a passenger that has to wait for the channel waits for one past the gate that can step |
| VipChannel.TripPasses | Offline 2/1705058.cpp:143-202 | a passenger that has set out does not come back, in any interleaving, without having been in the channel in the direction it chose |
| Kiosk.GetEmptyKiosk | Offline 2/1705058.cpp:77-84 | the loop returns the first empty kiosk, or -1 |
| Kiosk.FirstEmptyIs | Offline 2/1705058.cpp:77-84 | -1 exactly when no kiosk is empty |
| Kiosk.StepInv | Offline 2/1705058.cpp:102-122 | every atomic step of any passenger keeps the invariant |
| Kiosk.NeverMinusOne | Offline 2/1705058.cpp:77-107 | after sem_wait GetEmptyKiosk never returns -1 and the kiosk it returns is still empty when it is marked, in any interleaving of its scan with the unlocked releases of others |
| Kiosk.StepLooks | Offline 2/1705058.cpp:77-118 | a scan that holds kiosk_check_mutex always has an empty kiosk ahead, whatever the others do |
| Kiosk.ScanReturns | Offline 2/1705058.cpp:77-84 | undisturbed, the scan steps return what the loop returns |
| Kiosk.OwnKiosk | Offline 2/1705058.cpp:112-120 | no two passengers check in at the same kiosk |
| Kiosk.NoDeadlock | Offline 2/1705058.cpp:102-122 | with at least one kiosk some passenger on its way can always step |
| Kiosk.TripChecksIn | Offline 2/1705058.cpp:102-122 | a passenger that has set out does not come back without having checked in at a kiosk that is marked and locked for it |

## Left out

- Readers in `BufUsers` have one buffer at a time, as readi and bmap do, and read blocks outside the log; what becomes of the bytes they read is Fs's.
- ialloc's own store into an inode block, a zeroed dinode with its type: in Fs inodes change through iupdate, and Sysfile allocates them as values.
- Fs calls the log through its effect only: a ghost set of the blocks given to log_write; the cache under it is the logical contents that Bio proves bread to return.
- Locks on inodes and buffers inside Fs and Sysfile: each call runs alone, except that sys_link is split where it gives up its lock, and iput after a system call is a call of its own.
- Path lookup (namei, namex), system-call arguments, file descriptors, fstat, chdir, exec, and device drivers, which are an outcome of readi and writei.
- Links.NlinkFits: the bound on the directory entries is a hypothesis, since Links does not place entries in blocks; with it the unbounded link counts of Links are the source's shorts.
- Names are strings already cut to DIRSIZ by path lookup, and directories are sequences of entries rather than bytes of a file.
- The icache: inodes are never evicted, and reference counts are not tied to file tables.
- sbrk's answers in Umalloc are parameters: failure, or an old size behind all units obtained, with the growth that growproc then makes; on a heap that is not backed the source's next answer may lie inside a block, which is where the model stops. Addresses are counted in header units and do not wrap around; of the stores behind the end of the process only the first, at the new header, traps.
- growproc to size 0: deallocuvm's 0 is taken for a failure after everything has been unmapped; Umalloc treats it as a failure that changes nothing.
- Umalloc.Heap.Free: does not model freeing a pointer that is not live, which the source does not detect.
- TLB, segments, context switches, traps, loaduvm, inituvm and clearpteu; accesses by user programs to their own pages.
- Vm.Vm.Copyout: requires that no page above KERNBASE is a user page, which Vm.Vm.Setupkvm establishes; the operations on user memory change translations below KERNBASE only.
- The spinlock of kalloc: kalloc and kfree run alone.
- Spinlock internals, interrupts, multiple CPUs beyond interleaving; running and runnable are not told apart in SleepLock.
- Sleep channels other than the lock itself in SleepLock; fairness of the scheduler.
- pid overflow: pids are unbounded integers.
- The ticks of a process, which only getpinfo shows; Lottery takes any non-negative tickets.
- Proc.Ptable.Wait: one critical section under the lock; the ticket store after it is Proc.Ptable.ClearTickets, and the kernel stack and page directory of the child are not modelled.
- Proc.Ptable.Exit: runs the ticket store and the locked part without other processes in between; each is a method of its own that may interleave.
- Proc.Ptable.Fork: runs the steps of fork without other processes in between; each step alone is a method that may interleave.
- kstack and page directory of a process: their allocation is a parameter of Fork.
- grep's line buffering, which depends on read sizes, and its output.
- runcmd and the builtin commands of the shell; the tree nodes are values, so the node that parseexec fills through a pointer is updated through AddArg.
- ShellGrammar.RoundTrip: is about trees with fewer than MAXARGS arguments in each command; the parser refuses the others (`ShellGrammar.WordsParseIff`).
- A process asleep on a pipe is a count; a killed sleeper leaves the count and calls again.
- Printing, sleeping, random arrivals, boarding, security belts and the special kiosk in Offline 2: one semaphore or mutex each.
- Offline 4: the swapping code is unfinished, and its other files are copies of these.
- Hardware, boot, drivers, assembly, printf and the small user programs.
