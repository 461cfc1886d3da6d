# A verified model of the xv6 kernel with the BFS scheduler

This project models the parts of the system that carry its guarantees, and proves them for all inputs,
all runs and all reachable states. The system is xv6 with a virtual-deadline scheduler (BFS) whose run
queue is a skip list over fixed node arrays.

* **Run queue and scheduler** (`RunQueue`, `SkipLevel`, `ProcTable`, `SkipList`, `SchedModel`,
  `SchedEffects`, `Scheduler`, `Bypass`). The run queue is specified as a plain sorted list. The four-level skip list is
  an imperative class over node arrays and is proved to implement that list, whatever the coin flips.
  The scheduler is a state machine over the critical sections of `ptable.lock`; every C function is a
  method proved equal to a transition, and `SchedEffects` says of each transition what becomes of every
  record and of the queue. On top of it stand the queue/state invariant over whole runs, that no wakeup is
  lost, and the bound on how often a waiting process is overtaken.
* **Redo log** (`LogModel`, `GroupCommit`, `Log`). The disk is a sequence of blocks and a crash may fall
  between any two disk writes, also inside recovery and any number of times. `Log` is the imperative
  code; its disk writes are recorded, each recorded disk is one the crash theorems speak about, and its
  calls are steps of the state machine of `GroupCommit`.
* **Files and blocks** (`FsModel`, `Fs`). Bitmap bits, inodes in their blocks, inode block lists and
  indirect blocks down to bytes and 32-bit words, with an ownership invariant that ties them together.
  Files are byte strings. Every block that changes is one the operation has logged.
* **Both together** (`CrashSafe`). `filewrite` through file system and log: a crash after any disk write
  leaves, once recovered, a sound file system in which a front part of the write is done.
* **Page allocator and address spaces** (`VmModel`, `TableCount`, `Vm`). Page directories, tables and the
  free list in one memory of words. Views of user pages are isolated, pages are conserved, and an operation
  succeeds exactly if there are as many free pages as it needs, counted to the page.
* **Shell parser** (`ShellSyntax`, `ShellPrint`, `ShellLexing`, `ShellGrammar`, `ShellLanguage`, `Shell`).
  A grammar of command lines with their meaning, defined without the parser; the parser accepts exactly
  the texts of the grammar and yields their meaning.
* **Buffer cache** (`BufRing`, `BufferCache`), **user heap** (`FreeList`, `Umalloc`), **sleep locks**
  (`SleepLock`), **pipes** (`Pipe`), **regular expressions** (`Grep`).
* `Params` holds constants that several modules share.

A kernel panic is either proved unreachable (an `assert` in the method), or reported in the result
together with the exact condition under which it happens. Integer widths are written out where they
matter: `computevd` and ticks, pipe counters, `malloc` sizes, file offsets, page table entries.

## What turned out false, and when it holds

* `log_write` can panic on an operation that keeps to its share of `MAXOPBLOCKS` blocks, whatever the size
  of the log (`GroupCommit.PanicReachable` gives a run). It tests the number of logged blocks before it
  looks whether the block is among them. So a write within the share is refused exactly if the header
  lists `min(LOGSIZE, size - 1)` blocks; with more than `LOGSIZE` log blocks the block is then one that
  the operation has logged before (`GroupCommit.RefusedWhen`). A block new to the operation can be refused
  exactly if the log has at most `LOGSIZE` blocks, header included (`GroupCommit.FreshPanicExactly`);
  `mkfs` makes it that small (`GroupCommit.MkfsLogTooSmall`).
* A process published by `nicefork` can get in front of a waiting process: exactly if the deadline, which
  is computed before the lock is taken, is not later (`Bypass.PublishOvertakes`; `Bypass.OvertakingRun` is
  a run of three events in which that happens). A new deadline lies at least a quantum ahead exactly as
  long as the sum fits an `int` (`Bypass.DeadlineAhead`).
* `malloc` asks `sbrk` for the right number of bytes, and its block is large enough, exactly up to
  0x7ffffff0 bytes (`Umalloc.RequestExact`, `Umalloc.RequestTooLarge`).
* A reader may stay asleep although the pipe holds data (`Pipe.MissingRun` gives a run). That begins exactly
  with a killed writer who has filled the pipe and gives up without a wakeup (`Pipe.ReadersMiss`), and it
  ends exactly with a write that does not fail, a read that empties the pipe while its write end is open,
  the close of the write end, or the waking of the last sleeper (`Pipe.ReadersFind`).

## Model

| member | source | states |
|---|---|---|
| RunQueue.InsertSortedMeaning | proc.c:121-181 | inserting puts a process behind all earlier deadlines and before all equal or later ones; the others keep their order, and the list stays sorted and free of repetitions |
| RunQueue.RemoveMeaning | proc.c:47-112 | deleting cuts out exactly the position of the process, also within a run of equal deadlines; sortedness and distinctness survive |
| RunQueue.RemoveInserted | proc.c:47-181 | deleting a process just inserted gives back the old queue |
| RunQueue.FilterKeeps | proc.c:144-177 | a level, which holds the taller towers, is a sorted subsequence of the queue |
| RunQueue.FilterNested | proc.c:144-177 | each level is a subsequence of the level below |
| RunQueue.FilterInsert | proc.c:144-177 | inserting into the queue and looking at a level is inserting into that level |
| RunQueue.FilterRemove | proc.c:90-108 | deleting from the queue and looking at a level is deleting from that level |
| RunQueue.DistinctBound | proc.c:152-162 | at most NPROC distinct processes can be queued, and fewer if one is missing |
| SkipLevel.LinkedOk | proc.c:163-173 | linking a free node behind a list node keeps the level an acyclic doubly linked list and inserts the process at that index |
| SkipLevel.UnlinkedOk | proc.c:90-108 | unlinking a node keeps the level an acyclic doubly linked list without that process |
| SkipLevel.FreeNodeExists | proc.c:152-162 | the search for an unallocated node succeeds while fewer processes are linked than there are nodes |
| SkipLevel.BeforeNext | proc.c:128-130 | one step of the descent either moves on or has found the last node with an earlier deadline |
| SkipLevel.BeforeDown | proc.c:135-142 | following `lower` leads to the same process one level down, so the panic above level 0 is not reached |
| SkipLevel.ScanMisses | proc.c:77-88 | a scan through the equal deadlines that does not meet the process shows that the level does not carry it |
| SkipList.LinkNode | proc.c:152-173 | takes the first unallocated node and links it in; the out-of-nodes panic is not reached |
| SkipList.UnlinkNode | proc.c:90-108 | unlinks and clears a node and returns the node below |
| SkipList.PTable.Pinit | proc.c:185-200 | every level is an empty list, whatever the memory held |
| SkipList.PTable.Search | proc.c:53-72 | finds on every level the last node with an earlier deadline |
| SkipList.PTable.InsertTower | proc.c:144-177 | links the process into exactly the levels that the coins give it, each node standing on the one below |
| SkipList.PTable.Insert | proc.c:121-181 | for every sequence of coins the queue becomes the sorted list with the process before all equal deadlines, all levels, links and towers are in order, and the height is recorded |
| SkipList.PTable.ScanLevel | proc.c:81-87 | ends on the node of the process exactly if the level carries it |
| SkipList.PTable.FindTower | proc.c:74-88 | finds the highest node of a queued process |
| SkipList.PTable.DeleteTower | proc.c:90-108 | removes the process from every level it stands on |
| SkipList.PTable.Delete | proc.c:47-112 | exactly the process leaves the queue, the others keep their order, all levels, links and towers stay in order, and the height it had is returned |
| SkipList.PTable.Session | proc.c:47-181 | every sequence of inserts of absent processes, each with a deadline of its own, and deletes of present ones acts like the plain sorted list, whatever the coins |
| SkipList.PTable.HeadOfQueue | proc.c:547-550 | the node behind the head of level 0 carries the first process of the queue, and there is none exactly if the queue is empty |
| SchedModel.WakeFromOk | proc.c:711-721 | exactly the processes asleep on the channel become runnable and enter the queue, in deadline order |
| SchedModel.WakeupOk | proc.c:724-730 | wakeup keeps the queue in step with the states and wakes exactly the sleepers of the channel |
| SchedModel.ReparentOk | proc.c:458-465 | children move to init, which is woken exactly if one of them is a zombie |
| SchedModel.ExitOk | proc.c:450-471 | exit of the running process: new parents and states of all processes, and nothing else changes |
| SchedModel.YieldOk | proc.c:631-644 | yield gives the running process a new deadline, makes it runnable, changes no other process and leaves nobody running, with the invariant kept |
| SchedModel.SleepOk | proc.c:686-696 | going to sleep keeps the invariant, so the sleeper is out of the queue; its whole effect is SchedEffects.SleepEffect |
| SchedModel.DispatchOk | proc.c:546-558 | the process dispatched has a minimum deadline among all that can run |
| SchedModel.ChargeOk | trap.c:97-114 | a tick leaves 1 to 50 ticks or makes the process yield or exit |
| SchedModel.TimerOk | trap.c:50-58 | the timer interrupt keeps the invariant |
| SchedModel.KillOk | proc.c:735-755 | kill keeps the invariant, also when it wakes the victim; its whole effect is SchedEffects.KillEffect |
| SchedModel.WaitOk | proc.c:477-519 | one pass of wait keeps the invariant, whether it reaps, fails or sleeps; its whole effect is SchedEffects.WaitEffect |
| SchedModel.ForkOk | proc.c:401-412 | publishing a new process, or giving its slot back, keeps the invariant |
| SchedModel.AllocOk | proc.c:246-291 | claiming a slot keeps the invariant; its whole effect is SchedEffects.AllocEffect |
| SchedModel.StepOk | proc.c:407-755 | every critical section keeps the invariant: the queue is sorted and holds exactly the RUNNABLE and RUNNING processes, at most one is RUNNING, with 1 to 50 ticks left |
| SchedModel.RunOk | proc.c:407-755 | the invariant holds in every state of every run |
| SchedEffects.SleepEffect | proc.c:669-696 | sleep sets the channel and the state of the running process, takes exactly it from the queue, frees the processor and changes nothing else |
| SchedEffects.WaitEffect | proc.c:477-519 | with a zombie child the one with the lowest slot is cleared and nothing else changes; with none, nothing changes if there are no children or the caller is killed, and otherwise the caller sleeps on its own record |
| SchedEffects.KillEffect | proc.c:735-755 | the first slot with the pid is marked and, if it was asleep, becomes runnable and joins the queue at its deadline; nothing else changes, and nothing at all if no slot has the pid |
| SchedEffects.AllocEffect | proc.c:246-291 | the first unused slot becomes an embryo with the next pid; nothing changes if there is none |
| SchedEffects.ForkEffect | proc.c:400-412 | what the two halves of fork and giving up do to the embryo: niceness, deadline and parent before the lock, runnable and queued under it, or unused again; nothing else changes |
| SchedEffects.DispatchEffect | proc.c:541-602 | the front of the queue runs with a full quantum and no channel; nothing else changes |
| SchedEffects.YieldEffect | proc.c:631-644 | the running process leaves its place in the queue, joins it again with a deadline computed from the clock, and frees the processor; nothing else changes |
| SchedEffects.WakeupEffect | proc.c:711-721 | exactly the sleepers on the channel become runnable and queued; those queued before keep their order, and a woken one stands before them at equal deadlines |
| SchedEffects.ChargeEffect | trap.c:97-114 | what a tick does to every record: one tick less, with the last one a yield, and killed in user mode an exit |
| SchedEffects.TimerEffect | trap.c:50-114 | the clock advances, exactly the sleepers on it become runnable, and then the running process, if there is one, is charged |
| SchedEffects.SleeperStep | proc.c:407-755 | an event wakes a sleeper exactly if it is a wakeup of its channel, a kill that finds it, an exit that wakes its channel, or the tick it sleeps for; any other leaves it asleep on its channel |
| SchedEffects.SleepsOn | proc.c:669-721 | over any run in which no event wakes it a sleeper stays asleep on its channel |
| SchedEffects.SleepThenWakeup | proc.c:669-730 | no wakeup is lost: after sleep on a channel and any run in which no event wakes the process, a wakeup makes it runnable and queued exactly if it is of that channel |
| Scheduler.Kernel.Wakeup1 | proc.c:711-721 | the loop over the skip list is the model's wakeup |
| Scheduler.Kernel.WakeupAll | proc.c:724-730 | wakeup is the model's transition and keeps the invariant |
| Scheduler.Kernel.Scan | proc.c:254-256 | the table scan finds the first slot that is looked for |
| Scheduler.Kernel.AllocProcess | proc.c:246-291 | claims the first unused slot with the next pid, or changes nothing if there is none |
| Scheduler.Kernel.PrepareFork | proc.c:400-405 | before the lock is taken: niceness and deadline of the new process, as in the model |
| Scheduler.Kernel.PublishFork | proc.c:407-412 | under the lock: the new process becomes runnable and enters the queue with the deadline computed before |
| Scheduler.Kernel.Userinit | proc.c:295-333 | the first process becomes init and is runnable |
| Scheduler.Kernel.Schedule | proc.c:541-602 | dispatches the front of the queue, or nothing if it is empty; the panic on an empty node is not reached |
| Scheduler.Kernel.YieldProcessor | proc.c:631-644 | delete, new deadline and insert are the model's yield |
| Scheduler.Kernel.SleepOn | proc.c:669-696 | sleep is the model's transition: the process sleeps on the given channel, is out of the queue and gives up the processor, and no other record and nothing else of the queue changes |
| Scheduler.Kernel.KillProcess | proc.c:735-755 | kill is the model's transition: the first slot with the pid is marked and, if asleep, made runnable and queued, and no other record changes; it succeeds exactly if some slot has the pid |
| Scheduler.Kernel.ReparentChildren | proc.c:458-465 | the loop over the children is the model's |
| Scheduler.Kernel.ExitProcess | proc.c:450-468 | exit is the model's transition |
| Scheduler.Kernel.ScanChildren | proc.c:486-508 | finds the first zombie child, and tells whether there are children |
| Scheduler.Kernel.WaitPass | proc.c:484-518 | a pass of wait is the model's transition: the first zombie child is cleared and its pid returned; with none it fails exactly if there are no children or the caller is killed, and otherwise sleeps on its own record |
| Scheduler.Kernel.ChargeCurrent | trap.c:97-114 | counts down the quantum and yields or exits as the model does |
| Scheduler.Kernel.TimerInterrupt | trap.c:50-114 | the timer branch is the model's transition |
| Bypass.DeadlineAhead | proc.c:43-45 | for every value of the unsigned clock: a new deadline is at least a quantum ahead exactly if the sum fits an int, and is then 50 to 2000 ticks ahead |
| Bypass.PublishOvertakes | proc.c:405-412 | a fork gets in front of a waiting process exactly if its deadline is not later |
| Bypass.OvertakingRun | proc.c:405-412 | a run in which the clock ticks between the two halves of fork and the new process gets in front of one that waits |
| Bypass.StepBounded | proc.c:405-755 | what each event can do to the number of processes ahead and to the ticks they can use |
| Bypass.BoundedBypass | proc.c:405-755 | in every run, before a waiting process is dispatched, the others are dispatched at most once for each process then ahead of it, and use at most a quantum for each plus what the running one had left |
| LogModel.Reinstall | log.c:69-82 | installing again after any number of installs ends in the same home blocks |
| LogModel.InRecoverySame | log.c:115-122 | every disk recovery passes through recovers to the same home blocks |
| LogModel.CrashChainSame | log.c:115-122 | however often recovery itself crashes, finishing it gives the blocks that the first disk promised |
| LogModel.CommitAtomic | log.c:177-202 | after any number of the disk writes of a commit, recovery gives exactly the old home blocks or exactly the old ones overlaid with all logged blocks; the switch is the header write |
| LogModel.CommitThenCrashes | log.c:69-202 | the same when any number of recoveries crash as well |
| LogModel.CommitFinal | log.c:177-202 | a finished commit has installed every block and left an empty header |
| LogModel.OverlayAt | log.c:69-82 | distinct logged blocks each end up in their own home block and no other block changes |
| LogModel.CommitTraceAt | log.c:177-202 | each disk in the trace of a commit is one CommitAtomic speaks about |
| LogModel.RecoverTraceAt | log.c:115-122 | each disk in the trace of a recovery is one InRecoverySame speaks about |
| Log.RedoLog.WriteLog | log.c:177-189 | copies the cached blocks to the log, one disk write each |
| Log.RedoLog.PutHeader | log.c:101-113 | writes count and block numbers to the header in one disk write |
| Log.RedoLog.InstallTrans | log.c:69-82 | copies the logged blocks home, one disk write each, and unpins them |
| Log.RedoLog.Commit | log.c:192-202 | the sequence of disks is the commit trace and the last of them stays, nothing stays pinned, and the home blocks are the old ones overlaid with the logged contents |
| Log.RedoLog.ReadHead | log.c:85-96 | the in-memory header becomes the one on disk |
| Log.RedoLog.RecoverFromLog | log.c:115-122 | the sequence of disks is the recovery trace and the result the recovered disk |
| Log.RedoLog.BeginOp | log.c:125-141 | an operation gets in exactly if no commit is under way and the log can hold the shares of all |
| Log.RedoLog.EndOp | log.c:145-174 | the last operation out commits for the whole group, and the disks on the way are the commit trace; the others change nothing |
| Log.RedoLog.LogWrite | log.c:213-233 | absorbs repeated blocks and pins the buffer; the exact condition of its two panics |
| Log.RedoLog.constructor | log.c:53-66 | from any disk with a readable header: it is recovered, the disks on the way are the recovery trace, and the log is in the first state of the state machine |
| Log.RedoLog.BeginRefines | log.c:125-141 | begin_op gets in exactly if the state machine can take Begin, and that is the step it takes |
| Log.RedoLog.LogWriteRefines | log.c:213-233 | log_write panics exactly if the state machine refuses the write, and takes its step otherwise |
| Log.RedoLog.EndRefines | log.c:145-202 | end_op, with all disk writes of its commit, is a run of the state machine |
| GroupCommit.Durable | log.c:115-233 | in every good state the disk recovers to the effect of exactly the committed groups |
| GroupCommit.StepOk | log.c:115-233 | every step, crashes included, keeps the invariant |
| GroupCommit.Progress | log.c:125-233 | every enabled event can be taken |
| GroupCommit.EndIsRun | log.c:145-202 | the last end_op is a run: one step for each disk write of the commit, and one to finish |
| GroupCommit.GroupCommitSafe | log.c:115-233 | in every state of every run: recovery gives exactly the committed groups in order, groups hold whole operations, a commit has no operation outstanding, logged numbers are distinct, logged blocks plus unused shares fit the log |
| GroupCommit.FreshBlockFits | log.c:217-218 | a block new to an operation within its share finds fewer than LOGSIZE blocks logged, so it is not refused if the log has more than LOGSIZE blocks |
| GroupCommit.RefusedWhen | log.c:217-227 | a write within the share is refused exactly if the header lists min(LOGSIZE, size - 1) blocks; with a larger log all shares are then used up and the block has been logged by the operation before |
| GroupCommit.PanicReachable | log.c:217-227 | for every log size there is a run in which a write within the share is refused |
| GroupCommit.FreshPanicExactly | log.c:217-218 | a block new to an operation within its share can be refused exactly if the log has at most LOGSIZE blocks |
| GroupCommit.MkfsLogTooSmall | mkfs.c:25 | with the log mkfs makes there is a run in which a block new to the operation is refused |
| FsModel.BitAfter | fs.c:65-92 | setting or clearing a bit changes that bit and no other |
| FsModel.MarkUsed | fs.c:65-92 | marking a block changes its bitmap bit and no other |
| FsModel.PutWordAt | fs.c:390-394 | writing a word of an indirect block changes that word and no other |
| FsModel.WithInodeAt | fs.c:220-236 | writing an inode to its block changes the size and addresses of that inode and of no other; what ilock decodes is what iupdate wrote |
| FsModel.OwnedOnce | fs.c:372-400 | no block is owned by two places among all inodes and indirect blocks, and owned blocks are data blocks marked in use |
| FsModel.AllocKeeps | fs.c:56-78 | the block allocated was neither owned nor metadata, ownership stays in order and no byte of a file changes |
| FsModel.AddrKeeps | fs.c:378-388 | putting a new block into an entry of the inode keeps the invariant and every byte |
| FsModel.WordKeeps | fs.c:389-394 | putting a new block into the indirect block keeps the invariant and every byte |
| FsModel.WriteStep | fs.c:499-502 | storing bytes in a data block changes exactly those bytes of that file |
| FsModel.MetaKeeps | fs.c:220-236 | a change before the bitmap keeps the invariant and every byte |
| FsModel.SizeKeeps | fs.c:506-508 | growing a file over blocks it has keeps the invariant and every byte |
| FsModel.TruncateKeeps | fs.c:407-435 | taking away all blocks of an inode keeps the invariant and every byte of the other files |
| FsModel.WrittenFiles | fs.c:482-511 | bytes and sizes together: the file is patched, the others are what they were |
| FsModel.PutTwice | file.c:135-152 | two writes one behind the other are one write |
| FsModel.NewDiskOk | mkfs.c:245-259 | on a disk of zeroes with its metadata marked all inodes are empty, and the invariant holds |
| Fs.ChunkFits | file.c:127-133 | a chunk of filewrite, at any offset, needs at most MAXOPBLOCKS log blocks |
| Fs.FileSystem.ScanBitmapBlock | fs.c:64-74 | finds the first clear bit of a bitmap block |
| Fs.FileSystem.Balloc | fs.c:56-78 | returns the lowest free block, marked and zeroed, never an owned or a metadata block; fails exactly if every block is in use |
| Fs.FileSystem.Bfree | fs.c:81-95 | clears exactly the bit of the block; fails exactly if it is clear |
| Fs.FileSystem.constructor | fs.c:286-312 | mounting a disk: the inodes in memory are those on disk |
| Fs.FileSystem.Iupdate | fs.c:220-236 | the inode on disk becomes the one in memory, the others stay, and the one block that changes is logged |
| Fs.FileSystem.Bmap | fs.c:372-400 | returns the block of the file, allocated if missing, without changing a byte of any file, or anything if it was there; which blocks it logs, and that it changes no others |
| Fs.FileSystem.Itrunc | fs.c:407-435 | frees exactly the blocks of the inode, each once, never a free one; the inode on disk is empty too; other files keep their bytes; every block that changes is logged |
| Fs.FileSystem.Readi | fs.c:453-476 | returns exactly the bytes in range up to the end of the file, changes nothing, and never allocates; the exact error condition |
| Fs.FileSystem.Writei | fs.c:482-511 | patches the file and no other, size max(old size, off + n), inodes on disk in step, no missing block below the size; the exact error condition; every block that changes is logged, and a bound on the distinct blocks logged |
| Fs.FileSystem.WriteThenRead | fs.c:453-511 | reading the range just written returns the bytes written |
| Fs.FileSystem.Session | fs.c:372-511 | after any sequence of reads, writes and truncations the files are what the operations make of byte strings, and the inodes on disk are in step |
| Fs.FileSystem.Fileread | file.c:96-113 | reads at the offset and moves it by what was read |
| Fs.FileSystem.WriteChunk | file.c:140-145 | each operation of filewrite logs at most MAXOPBLOCKS distinct blocks, among them every block it changes |
| Fs.FileSystem.Filewrite | file.c:117-156 | the chunks together are one write at the offset; it succeeds exactly if the count is not negative and the whole fits; every operation keeps to its share; "short filewrite" is not reached |
| CrashSafe.Remount | log.c:115-122 | whoever mounts a recovered device finds the inodes and files that its image has, in a file system that satisfies the invariant |
| CrashSafe.CommitHolds | log.c:177-202 | after any number of the writes of a commit, the recovered device holds the file system before the operation or, from the header write on, the one after it |
| CrashSafe.QuietImage | log.c:115-122 | between two operations the device recovers to the file system as it is in memory |
| CrashSafe.CrashedRecoveries | log.c:115-122 | recoveries that crash, however many, do not change which file system there is to recover |
| CrashSafe.WriteOp | file.c:140-145 | one operation of filewrite through the log: every disk on the way recovers to the file system before it or after it, switching once; a panic for want of blocks leaves the device alone |
| CrashSafe.Filewrite | file.c:117-156 | whichever disk write is the last before a crash, the recovered file system is sound, a front part of the data is in the file where it belongs and nothing else has changed; that part grows |
| CrashSafe.Boot | log.c:53-66 | recovery and mount after a crash give a running file system with the files of the image |
| BufRing.UnlinkRing | bio.c:132-133 | unlinking leaves a cycle of the other buffers |
| BufRing.LinkRing | bio.c:134-137 | linking behind the head leaves a cycle that begins with the buffer |
| BufferCache.RecycleOk | bio.c:81-91 | recycling an unreferenced clean buffer loses nothing |
| BufferCache.ReadOk | bio.c:97-106 | reading into a buffer keeps the cache in agreement with the block map |
| BufferCache.ChangeOk | bio.c:109-116 | changing a pinned or written-through buffer changes exactly its block of the map |
| BufferCache.BCache.constructor | bio.c:38-56 | the ring is a cycle of all buffers and the map is the disk |
| BufferCache.BCache.FindCached | bio.c:68-76 | finds the buffer of the block, or shows that there is none |
| BufferCache.BCache.FindUnused | bio.c:78-91 | finds the least recently used recyclable buffer, or shows that there is none |
| BufferCache.BCache.Bget | bio.c:61-93 | returns the buffer of the block, at most one; recycles the least recently used one that is neither referenced nor dirty; fails exactly if there is none |
| BufferCache.BCache.Bread | bio.c:96-106 | yields the latest logged or written contents of the block |
| BufferCache.BCache.ModifyAndLog | log.c:231 | a change pinned by log_write changes the block map and not the disk |
| BufferCache.BCache.ModifyAndWrite | bio.c:109-116 | a change written through changes block map and disk |
| BufferCache.BCache.Brelse | bio.c:120-141 | the last reference moves the buffer to the front and leaves the order of the others |
| VmModel.MappedOnce | vm.c:36-80 | no page is in two slots of all page directories, and a page in a slot is neither free nor a directory |
| VmModel.ListFrame | kalloc.c:61-96 | storing to a page that is not free leaves the free list alone |
| VmModel.LeafKeeps | vm.c:234-241 | isolation: a store to a user page changes the view of that page of that directory and of no other, and no translation |
| VmModel.TableKeeps | vm.c:45-52 | a zeroed page as page table translates nothing, so no translation changes |
| VmModel.MapKeeps | vm.c:68-73 | mapping a page changes the view of that one page |
| VmModel.UnmapFrees | vm.c:269-276 | freeing the page before its entry is cleared ends in a good state without that page |
| VmModel.UntableFrees | vm.c:291-296 | giving back a page table of a directory without user pages changes no view |
| VmModel.CutSkip | vm.c:266-268 | an absent directory entry covers no mapped page, so skipping it misses none |
| VmModel.SameFree | kalloc.c:61-96 | conservation: with the same pages in use the same pages are free |
| TableCount.TurnCost | vm.c:45-52 | one more page needs one more page table exactly if its table is not there |
| TableCount.EmptyStart | vm.c:315-345 | from a directory without user tables n pages need (n + 1023) / 1024 tables |
| Vm.Machine.constructor | kalloc.c:31-54 | after kinit exactly the pages behind the kernel are free |
| Vm.Machine.Freerange | kalloc.c:46-54 | exactly the whole pages in the range join the free list |
| Vm.Machine.Kalloc | kalloc.c:83-96 | takes the first page off the list; fails exactly if the list is empty |
| Vm.Machine.Kfree | kalloc.c:60-78 | puts the page on the list filled with junk; the exact condition of its panic |
| Vm.Machine.Walkpgdir | vm.c:35-55 | returns the page table of the address, made from one free page if asked for; fails exactly if there is none and it may not or cannot be made; no translation changes |
| Vm.Machine.MapUser | vm.c:60-80 | maps one page; fails, without a change, exactly for want of a page for its table; panics "remap" exactly if the page is mapped |
| Vm.Machine.Mappages | vm.c:60-80 | maps exactly the pages of a kernel range and takes a page for each missing table; user views stay; fails only if there are fewer free pages than that, panics only at a page mapped before, and succeeds only if none was |
| Vm.Machine.Setupkvm | vm.c:118-136 | a new address space with exactly the kernel's mappings, exactly if 65 pages are free; otherwise nothing is taken |
| Vm.Machine.Deallocuvm | vm.c:255-279 | unmaps and frees every mapped page in the range, although directory entries are skipped, and no other; kfree never panics |
| Vm.Machine.Freevm | vm.c:283-298 | gives back exactly the pages of the address space; all other address spaces look the same |
| Vm.Machine.Allocuvm | vm.c:221-249 | success adds zeroed pages in exactly the range, which had none; failure unmaps the range and leaves every other view, so nothing changes if it had none. With no page mapped in the range it succeeds exactly if the pages and the missing tables are free; with one it panics exactly if memory lasts until the first of them |
| Vm.Machine.Copyuvm | vm.c:315-345 | success gives equal contents and flags in pages of its own; failure returns every page it took. With all n pages mapped it succeeds exactly if 65 + n + (n + 1023) / 1024 pages are free; with the first hole at page u it panics exactly if memory lasts until there |
| FreeList.MergeUnits | umalloc.c:33-42 | merging frees exactly the units of the block |
| FreeList.MergeOrdered | umalloc.c:33-42 | the list stays address-ordered and no two blocks touch |
| FreeList.Canonical | umalloc.c:24-44 | the list is determined by which units are free, so the order of frees makes no difference |
| FreeList.MergeTaken | umalloc.c:24-90 | freeing right away what was taken gives back the same list |
| FreeList.FreeLinks | umalloc.c:33-42 | the pointer updates of free leave a ring of exactly the merged list |
| FreeList.TakeLinks | umalloc.c:75-84 | the pointer updates of malloc leave a ring of exactly the list without the taken units |
| FreeList.TakeUnits | umalloc.c:75-84 | the units taken were free and no longer are; no other unit changes hands |
| Umalloc.RequestExact | umalloc.c:46-70 | the size arithmetic is right exactly up to 0x7ffffff0 bytes |
| Umalloc.RequestTooLarge | umalloc.c:46-70 | the first request beyond makes sbrk shrink the process; the largest ones wrap to a block without payload |
| Umalloc.ExitAtPredecessor | umalloc.c:30-32 | the exit test of the search holds exactly at the block below |
| Umalloc.Heap.FindPredecessor | umalloc.c:30-32 | the search round the ring ends, at the block below |
| Umalloc.Heap.Free | umalloc.c:24-44 | exactly the units of the block become free; live blocks stay disjoint and no unit is lost |
| Umalloc.Heap.Morecore | umalloc.c:46-61 | new memory joins the free list, possibly merged with its predecessor, or nothing changes |
| Umalloc.Heap.FirstFit | umalloc.c:74-89 | the search ends, after at most one call of morecore, made exactly if no block is large enough; the block cut is the first large enough from behind freep; fails exactly if there is none and sbrk fails |
| Umalloc.Heap.Malloc | umalloc.c:63-90 | the block is new, disjoint from all live and free ones and accounted for, cut from the end of the first free block that fits; fails exactly if none fits and sbrk fails; the block is large enough exactly if the unit count did not wrap |
| SleepLock.StepOk | proc.c:669-730 | every step of every process keeps the invariant of the two spin locks, the sleep lock and the sleepers |
| SleepLock.KillOk | proc.c:735-755 | being killed while asleep keeps the invariant |
| SleepLock.NoLostWakeup | sleeplock.c:22-42 | for any number of processes and in every run: when the inner lock is free, a sleeper means that an awake process holds the sleep lock |
| SleepLock.MutualExclusion | sleeplock.c:22-42 | at most one process holds the sleep lock |
| SleepLock.NoDeadlock | sleeplock.c:22-42 | in every state of every run some process can take a step |
| Pipe.RingPipe.CountersExact | pipe.c:85-116 | the counter comparisons and slots are right although the 32-bit counters wrap |
| Pipe.WrapExact | pipe.c:85-112 | full and empty are told apart by wrapped counters |
| Pipe.SlotsDiffer | pipe.c:93-116 | bytes in the pipe have slots of their own |
| Pipe.RingPipe.Put | pipe.c:93 | a byte is appended to what was written |
| Pipe.RingPipe.Get | pipe.c:116 | the next byte in order is taken |
| Pipe.AfterKeeps | pipe.c:59-121 | every call, and a kill that wakes a sleeper, keeps first-in first-out, the 512 byte bound and that no writer sleeps on a pipe with room |
| Pipe.ReadersMiss | pipe.c:78-98 | if sleeping readers have nothing to read, they still have not after a call, exactly unless it is a write of a killed process that fills the pipe |
| Pipe.ReadersFind | pipe.c:59-121 | exactly which calls put that right again |
| Pipe.NoReaderMisses | pipe.c:59-121 | in every run without such a write no sleeping reader ever misses data |
| Pipe.MissingRun | pipe.c:78-121 | a run of a sleeping reader and a killed writer of 513 bytes after which the reader sleeps on a full pipe |
| Pipe.WriteMeans | pipe.c:78-98 | which bytes a segment of pipewrite puts in, how it ends, whom it wakes, and that nothing else changes |
| Pipe.ReadMeans | pipe.c:100-121 | which bytes a segment of piperead takes out, how it ends, whom it wakes, and that nothing else changes |
| Pipe.WholeCall | pipe.c:78-98 | however other calls come in between, a call of pipewrite puts in a front part of its bytes, each once and in order, and all of them if it returns |
| Pipe.RingPipe.WriteSegment | pipe.c:78-98 | from any state: appends exactly the bytes from i to j, where j is the end or the pipe is then full; returns, fails or sleeps exactly when pipewrite does, and wakes the readers unless it fails |
| Pipe.RingPipe.ReadSegment | pipe.c:100-121 | from any state: takes exactly the next bytes, as many as are asked for and there; fails or sleeps exactly on an empty pipe with the write end open; wakes the writers when it returns |
| Pipe.RingPipe.Close | pipe.c:59-75 | from any state: closing an end wakes the other side; the pipe is freed exactly when both ends are closed |
| Pipe.RingPipe.WakeKilled | proc.c:735-755 | a kill takes the process from the sleepers and changes nothing else |
| Pipe.RingPipe.Session | pipe.c:59-121 | any sequence of calls on the ring buffer acts like the byte queue, and what was read is what was written, in order |
| ShellSyntax.GetToken | sh.c:265-308 | token bounds lie in the text, and a token consumes input |
| ShellSyntax.ParseLine | sh.c:345-360 | the parser, by recursion that consumes input, never runs past the text |
| ShellPrint.RoundTripAt | sh.c:328-446 | every command tree is read back from its canonical text, wherever the text stands |
| ShellPrint.RoundTrip | sh.c:328-446 | parsing the canonical text of a tree gives the tree |
| ShellPrint.LineValid | sh.c:345-446 | whatever is parsed has real words and at most 19 arguments per command |
| ShellPrint.ParseIsStable | sh.c:328-446 | for every accepted line, printing the tree and parsing again gives the same tree |
| ShellLexing.ReadsNext | sh.c:265-320 | gettoken and peek find the next token of a text of tokens with any white space between them |
| ShellLexing.Lexes | sh.c:265-308 | every C string is such a text, for some list of tokens |
| ShellGrammar.WrapAttached | sh.c:374-396 | redirections are attached one after the other, the last one outermost |
| ShellGrammar.Accepts | sh.c:328-446 | every text of a line of the grammar, in any spacing and with words and redirections in any order, is accepted and yields what the line means |
| ShellLanguage.LineSound | sh.c:345-446 | whatever the parser takes for a line is one of the grammar, and the tree is its meaning |
| ShellLanguage.Language | sh.c:328-446 | the parser yields a tree on a text if and only if the text spells a line of the grammar, with fewer than 20 words in each command, whose meaning is that tree |
| Shell.RunGetToken | sh.c:265-308 | the scanner's loops compute the token |
| Shell.RunPeek | sh.c:310-320 | skips white space and tells whether one of the symbols comes next |
| Shell.RunParseRedirs | sh.c:374-396 | the loop attaches the redirections that come next, in order |
| Shell.RunParseExec | sh.c:415-446 | the loop yields the meaning of the simple command or block that the text spells at the cursor, and accepts nothing else |
| Shell.RunParseBlock | sh.c:399-412 | a parenthesised line with its redirections, or one of the two panics |
| Shell.RunParsePipe | sh.c:361-372 | the recursion over pipes |
| Shell.RunParseLine | sh.c:344-359 | the loop over background marks and the recursion over lists |
| Shell.RunParseCmd | sh.c:327-342 | yields the meaning of the line that the text spells, or a panic if it spells none |
| Grep.DenotesCons | grep.c:84-106 | the first item of a pattern takes some prefix, the others the rest |
| Grep.StarHere | grep.c:98-106 | what a star means at the beginning of a text |
| Grep.MatchHere | grep.c:84-96 | true exactly if the pattern's meaning holds at the beginning of the text |
| Grep.MatchStar | grep.c:98-106 | true exactly if some number of repetitions followed by the rest matches |
| Grep.Match | grep.c:72-82 | true exactly if the declarative meaning of the pattern holds of the text |

## Left out

- Device drivers, interrupts other than the timer, boot code, assembly and context switching: the disk is a block map and `swtch` an atomic change of the current process.
- Several processors: the scheduler does not support them; `SleepLock` interleaves processes at the level of single steps.
- The quality of `random`: each coin flip is an arbitrary input.
- `schedlog`, `cprintf`, `procdump`.
- Unconditional freedom from starvation: processes that sleep keep old deadlines, so the code does not provide it.
- Bypass.BoundedBypass: speaks of runs in which sleepers that could wake have later deadlines, forks publish at the tick at which they computed the deadline, and the clock stays in the range of an int; the exact effect of the other forks and of overflow is in PublishOvertakes and DeadlineAhead.
- SkipList.PTable.FindTower: before its first look at a placement, the search loop of `delete` (proc.c:77) reads through a pointer that the descent has left null or in front of the level array; the model starts with that look, as if the stray read did not find the process.
- Umalloc.Heap.Malloc: what sbrk does when it is asked for a wrong, negative number of bytes is not modelled; RequestExact says when that happens.
- Type, device and link count of an inode: `iupdate` leaves their two words alone. `iget`, `ialloc`, `iput` and the inode cache are not part of the model.
- Device files in `readi` and `writei`, and pipes behind `fileread` and `filewrite`.
- Directories and paths (`dirlookup`, `dirlink`, `skipelem`, `namex`) and the system calls on top of them.
- FsModel.NewDiskOk: the root directory and the files that `mkfs` copies are not part of the disk.
- Fs.FileSystem.Bmap: after a panic for want of blocks nothing is promised about the state except that every block is in use.
- `iput` and `itrunc` as log operations: only `filewrite` has a bound on the blocks it logs, and only `filewrite` is followed through crashes.
- CrashSafe.WriteOp: one operation runs at a time, with a log large enough for it, and its calls of log_write come after its changes, once for each block; a commit copies the blocks as they are in the cache, so their order makes no difference. Several operations in one commit are GroupCommit.GroupCommitSafe.
- The sleep locks of buffers and inodes as used by the cache: a method of `BCache` or `FileSystem` runs alone.
- Vm.Machine.Kfree: requires that the page is not free already, which the code does not detect; a double free makes the free list a cycle.
- Vm.Machine.Deallocuvm: requires an old size of at most KERNBASE, as every caller has; beyond, it would free pages of the kernel.
- Vm.Machine.Mappages: models the kernel part of an address space; mappings of user pages, which the callers make one page at a time, are MapUser.
- `inituvm`, `loaduvm`, `clearpteu`, `copyout`, `uva2ka`: single-page stores; isolation of such stores is VmModel.LeafKeeps.
- TLB and segment registers; a page table entry is what its word says.
- `nulterminate`, `runcmd` and the rest of the shell; the line buffering of grep.
- exec, the system call layer, mkfs and the user programs.
