# A Dafny model of xv6 with kernel threads

The repository is xv6 extended with kernel threads, user mutexes and condition variables
(directory `mutex-lock`). This project models its storage stack, its user-space heap, its thread
and monitor protocols, pipes, page tables, the shell parser and the grep matcher, and proves what
they are for.

| file | models | main results |
|---|---|---|
| `Machine`, `Blocks`, `Counting` | machine words, 512-byte blocks as words and bits, counting | helpers |
| `RedoLog` | `log.c` as sector writes | a commit cut off anywhere, and recoveries cut off anywhere, leave all old or all new |
| `LogRuns` | interleaved `begin_op`, `log_write`, `end_op`, commits and crashes | every operation is in exactly one group or lost to a crash, with the records and groups that the events say; exactly when a step panics, for a log of any size |
| `BufferCache` | `bio.c` over `memide.c` | one buffer per sector, the LRU ring, cache and disk agree, recycling loses nothing |
| `TransactionLog` | `log.c` over that cache | the methods perform exactly the writes of `RedoLog`; exactly which groups of operations are committed |
| `Ownership`, `FileSystem`, `FreeBlocks`, `Files` | `fs.c`: bitmap, `bmap`, `readi`, `writei`, `itrunc` | files are byte sequences; blocks have one owner; nothing leaks; exactly when a write gets through and between which bounds it logs blocks |
| `CrashConsistency` | `log.c` under `fs.c` | after crashes at any time the disk is sound and every file is as before or as after the transaction, for the blocks `writei` really logs |
| `Inodes`, `InodeCalls` | `fs.c`: the inode cache | `ilock` never returns stale contents; counts are exact; exactly what changes an inode on disk and which inodes `iput` frees |
| `FreeList`, `Heap` | `umalloc.c` | one sorted ring, no touching free blocks, arena tiled, free list canonical, at most one `morecore` |
| `Monitor`, `MonitorCalls` | mutexes and condition variables of `proc.c` | mutual exclusion, exact delivery of signal and broadcast, what each call has done when it returns |
| `Threads` | fork, exit, wait and thread counts of `proc.c` | the count is exact; `wait` never frees a shared page table |
| `Pipe`, `PipeRuns`, `PipeCalls` | `pipe.c` | FIFO through wrapping counters; exactly when a wakeup is lost; what each call has moved and returns |
| `PageTables`, `AddressSpaces`, `VirtualMemory` | `kalloc.c`, `vm.c` | `copyuvm` copies, `freevm` frees each page once, exactly what the 4 MB step misses, and exactly when `allocuvm` and `copyuvm` succeed and lose a page |
| `ShellGrammar`, `Shell` | `sh.c` | the parser accepts exactly the grammar, and its strings are the words as written |
| `Grep` | `grep.c` | `match` is the declared meaning of the pattern |

Code that updates state in place is a class whose methods are proved against functions of the old
state. Protocols are step systems over any number of processes, in which every acquire, exchange,
sleep, wakeup and release is a step of its own where the source can be interrupted there. Theorems
about runs hold for every sequence of enabled steps from the initial state. What a call has done is stated
for callers that are back from it, from the events of the run and from what changed, not from what the
steps record.

## What the code does not do

- `mkfs` gives the log `LOGSIZE` sectors (mkfs.c:17), of which one is the header, while `begin_op` admits
  operations up to `LOGSIZE` sectors. So three operations that log no more than was reserved for them can
  use up the log, and the next `log_write` panics with "too big a transaction", also for a sector already
  logged, since the test comes first (`LogRuns.LogTooSmall` is such a run,
  `TransactionLog.RepeatIsTooMuch` such a group). In a larger log that panic is out of reach for them
  (`LargeNeverCrammed`), but they can log 30 sectors, as many as there are buffers, and commit panics in
  `bget` when it reads the first log sector (`LogCanFill`). `LogRuns.PanicsIff` says that nothing else
  panics. In the code `TransactionLog.RunGroup` commits if and only if every write finds room in the log
  and fewer than `NBUF` sectors were written. The disk is not harmed.
- `filewrite` cuts its data into chunks that are meant to fit a transaction (file.c:132-138), but a
  chunk of that size logs at least 13 blocks, more than the `MAXOPBLOCKS` that `begin_op` reserves
  (`CrashConsistency.FilewriteChunk`), and then "too big a transaction" can be met in any log
  (`LogRuns.OverBudget`). On its own a chunk still fits the log that `mkfs` makes.
- A reader can be left asleep with a full ring: when the read end is closed under it, a write that
  fills the ring and finds the read end closed returns without a wakeup (`PipeRuns.ReaderLeftAsleep`
  is such a run). A reader is left so if and only if a write gives up while it waits
  (`PipeRuns.ServesIff`, `NoLostWakeup`, `StrandedReader`); callers that do not close the read end
  under a reader and do not read once it is being closed rule it out (`OrderlyNeverStrands`). Threads
  share open files without `filedup` (proc.c:209-213), so one can close what another is reading.
- `malloc` computes units in 32 bits: a block holds its payload if and only if the request is at
  most 2^32 - 8 bytes, and the `int` argument of `sbrk` is right if and only if the request is at
  most 2^31 - 16 bytes or above 2^32 - 8 (`Heap.UnitsExact`; `UnitsWrong` gives inputs). `malloc`
  hands out a block of the units it computed unless no free block fits and that argument is wrong;
  above 2^32 - 8 bytes that block is too small for the request (`Heap.Allocator.Malloc`).
- `deallocuvm` steps over 4 MB from where it stands, not to the next directory boundary. It misses
  a mapped page if and only if that page is skipped in the sense of `AddressSpaces.Skipped`
  (`DeallocCompleteIff`; `SkipMisses` gives an input). `freevm` starts at page 0 and misses none.
- `allocuvm` ignores the result of `mappages`. It succeeds without a hole if and only if there are as many
  free pages as the new pages and their missing tables need. It succeeds with a hole, the last page, if
  and only if that page needs a table and exactly one free page is left for it. It loses a page if and
  only if that happens at any of the new pages (`VirtualMemory.Kernel.AllocUvm`; `HoleHappens` is an
  input).
- `copyuvm` loses the page it has just allocated if and only if it gets to a page for which one free page
  is left and no table; otherwise it gives everything back. It succeeds if and only if every page is
  mapped and there are as many free pages as it needs (`VirtualMemory.Kernel.CopyUvm`; `CopyLosesPage`
  is an input).
- `setupkvm` runs out if and only if there are fewer free pages than a directory and the tables of its
  ranges, and then every page that was free is part of a space that nobody has
  (`VirtualMemory.Kernel.SetupKvm`; `SetupLosesPage` is an input).
- `iput` decides to free an inode when it holds the only reference to it, but lets go of the lock of the cache
  before it does: a reference got in between is to an inode that is then truncated
  (`InodeCalls.GotWhileFreeing`). The reference put is the only one for as long as nobody does
  (`InodeCalls.OnlyUntilGot`).
- A thread that creates a thread adds to its own count, not to that of the process that owns the
  new thread: the count stays exact if and only if the caller is a process (`Threads.CloneCountsIff`).
- `mkfs` leaves the bits of the log blocks clear, and `balloc` does not know about the log: once every data
  block is taken it hands out the first block of the log (`Files.Volume.Balloc`; `Files.FirstUnmarked` on
  a disk as `mkfs` leaves it). A write meets that, or the panic of `balloc`, if and only if it needs more
  blocks than there are free data blocks (`Files.Volume.Writei`).
- `>>` opens its file exactly as `>` does: a line with `>>` is the same command with `>`
  (`ShellGrammar.AppendIsCreate`). `a & b` on one line is a syntax error
  (`ShellGrammar.WordBehindBack`, `Shell.BackThenWord`).

## Assumptions

- `log_write` takes no lock; it is one atomic step.
- Logged home sectors lie outside the log. When `balloc` has handed out a block of the log the model of
  the call ends there, with an outcome of its own.
- Memory from `sbrk` lies above the static header `base`, is aligned to headers, and is not part of
  an existing block; nothing is assumed of an `sbrk` that is asked for the wrong amount.
- Only holders unlock, wait and signal; mutexes and conditions in use are not destroyed; nobody is
  killed. Threads are created by processes, return values are fetched after the thread has ended,
  and exec is called without threads. fork is one atomic step.
- A reference to an inode is put only when no call is using it, and an inode is written back before
  it is unlocked.

## Model

| member | source | states |
|---|---|---|
| `RedoLog.HeadRoundTrip` | mutex-lock/log.c:83-112 | the header that write_head stores over any block gives read_head the same count and sectors |
| `RedoLog.AbsorbFind` | mutex-lock/log.c:210-228 | after log_write a sector is in the log exactly when it was before or is the one written |
| `RedoLog.AbsorbLoggable` | mutex-lock/log.c:210-228 | absorption keeps the logged sectors distinct, within the log's size and outside the log |
| `RedoLog.RecoveryKeepsTruth` | mutex-lock/log.c:67-121 | a recovery cut off after any number of writes leaves the meaning of every home sector; completed, it empties the log |
| `RedoLog.CrashyRecoveryKeepsTruth` | mutex-lock/log.c:114-121 | any number of cut-off recoveries and a completed one put the committed contents in every home sector |
| `RedoLog.CommitAtomic` | mutex-lock/log.c:189-199 | after k writes of a commit the disk means the old contents up to the header write and the new contents from it on |
| `RedoLog.CommitCrashSafe` | mutex-lock/log.c:173-199 | a crash after any write of commit and any crashes in recovery leave the home sectors all old or all new, and the log empty |
| `LogRuns.BudgetKept` | mutex-lock/log.c:123-171 | every step in which operations log no more than begin_op reserved keeps logged sectors plus unused reservations within LOGSIZE |
| `LogRuns.RoomToLog` | mutex-lock/log.c:210-217 | then an operation with reservation left finds fewer than LOGSIZE sectors logged, and room in any log larger than LOGSIZE |
| `LogRuns.RunKept` | mutex-lock/log.c:123-228 | every run, crashes included, keeps the invariants of disk and operations, whatever the size of the log and however much an operation logs |
| `LogRuns.HistoryIsEvents` | mutex-lock/log.c:123-228 | after every run the records, the uncommitted ones, the groups and the operations lost are those that a reader of the events alone notes down: a record for every log_write that finds room, with its operation, sector and block |
| `LogRuns.EveryRunIsAtomic` | mutex-lock/log.c:114-228 | after every run, for a log of any size and operations of any length, recovery gives the committed groups in order, as the events say; the records of every operation are all waiting, or all in exactly one group, or lost to a crash and in none; nothing logged is uncommitted when idle; a panic is only that of a commit of NBUF sectors or of a log_write into a used-up log |
| `LogRuns.EndedIsDurable` | mutex-lock/log.c:142-171 | an operation begun with no crash since is, once the log is idle, wholly in exactly one group |
| `LogRuns.PanicsIff` | mutex-lock/log.c:142-228 | in every run a step panics if and only if it is the first write of a commit of NBUF sectors or a log_write with the log used up; it changes no sector; the committing panic is out of reach |
| `LogRuns.SmallNeverOverfull` | mutex-lock/log.c:210-217 | with a log of at most LOGSIZE sectors no run meets the panic of a cache full of pinned buffers |
| `LogRuns.LargeNeverCrammed` | mutex-lock/log.c:123-140 | with a larger log no run whose operations keep within their reservations meets the too-big-a-transaction panic |
| `LogRuns.OverBudget` | mutex-lock/log.c:210-217 | for every larger log a run in which one operation logs more than that ends in it |
| `LogRuns.LogTooSmall` | mutex-lock/mkfs.c:16-17 | for every log of at most LOGSIZE sectors a run of three operations within their reservations ends in it too |
| `LogRuns.ReadsSeeEverything` | mutex-lock/log.c:173-228 | a running kernel, also in the middle of a commit, reads the committed groups with the uncommitted records on top, as the events say |
| `LogRuns.LogWriteReads` | mutex-lock/log.c:201-228 | right after a log_write that finds room its sector reads as written, also one logged before, and every other sector as before |
| `LogRuns.GroupsGrow` | mutex-lock/log.c:142-171 | committed groups are never lost or changed by what follows |
| `LogRuns.LogCanFill` | mutex-lock/param.h:10-12 | for every larger log a run of three operations within their reservations whose commit finds every buffer pinned and panics |
| `BufferCache.Cache.constructor` | mutex-lock/bio.c:38-56 | binit builds a ring of all buffers, none of them valid, busy or dirty |
| `BufferCache.Cache.Scan` | mutex-lock/bio.c:61-95 | the two scans: a cached sector is found; otherwise the least recently released clean buffer; a panic exactly when there is none |
| `BufferCache.Cache.Bget` | mutex-lock/bio.c:61-95 | the buffer found or recycled is taken, everything else stays, and no sector's contents change |
| `BufferCache.Cache.Bread` | mutex-lock/bio.c:98-107 | the buffer returned is locked, valid and holds the sector's current contents; when it sleeps and when it panics |
| `BufferCache.Cache.Bwrite` | mutex-lock/bio.c:110-117 | a held buffer goes to the disk, exactly once, and contents do not change; otherwise it panics |
| `BufferCache.Cache.Brelse` | mutex-lock/bio.c:121-140 | the buffer becomes the most recently released, all others keep their order and contents |
| `BufferCache.Cache.Iderw` | mutex-lock/memide.c:33-58 | a dirty buffer is written, a clean one read, flags are set, and it panics exactly on the source's four conditions |
| `BufferCache.Cache.Pin` | mutex-lock/log.c:227-227 | pinning a buffer protects its change and alters no contents |
| `BufferCache.OneBuffer` | mutex-lock/bio.c:61-95 | two valid buffers of one sector are the same buffer |
| `BufferCache.RecycleLosesNothing` | mutex-lock/bio.c:82-92 | the contents of a recycled buffer are on the disk |
| `BufferCache.MoveKeeps` | mutex-lock/bio.c:129-134 | unlinking and relinking a buffer keeps one ring of all buffers, with that buffer first |
| `TransactionLog.Log.WriteLog` | mutex-lock/log.c:173-187 | the log copies are exactly the first writes of the transaction; it panics exactly when no buffer is clean |
| `TransactionLog.Log.InstallTrans` | mutex-lock/log.c:67-81 | every logged block reaches its home sector, one write each in order, and no buffer stays pinned |
| `TransactionLog.Log.WriteHead` | mutex-lock/log.c:97-112 | one sector write puts the in-memory header on disk |
| `TransactionLog.Log.ReadHead` | mutex-lock/log.c:83-95 | the in-memory header becomes what the disk says is logged |
| `TransactionLog.Log.Commit` | mutex-lock/log.c:189-199 | it completes exactly when fewer than NBUF sectors are logged, leaving after each write the disks of RedoLog.Committing; otherwise no sector is written |
| `TransactionLog.Log.RecoverFromLog` | mutex-lock/log.c:114-121 | the disk after each write is that of RedoLog.Recovering, and the log ends empty |
| `TransactionLog.Log.LogWrite` | mutex-lock/log.c:201-228 | it panics exactly on a full log or outside an operation; otherwise the sector is absorbed and its buffer pinned, so that the pinned sectors stay exactly the logged ones |
| `TransactionLog.Log.BeginOp` | mutex-lock/log.c:123-140 | an operation starts exactly when no commit runs and its reservation fits |
| `TransactionLog.Log.EndOp` | mutex-lock/log.c:142-171 | the last operation commits the whole group, the others change nothing, whatever buffers are held |
| `TransactionLog.UpdateSector` | mutex-lock/log.c:201-228 | bread, store, log_write and brelse: it succeeds exactly while the log has room; then the sector means the new bytes, no other sector changes, and the pinned sectors are the logged ones |
| `TransactionLog.LastDecides` | mutex-lock/log.c:215-217 | a group of writes finds room if and only if a sector is left when its last write begins |
| `TransactionLog.RepeatIsTooMuch` | mutex-lock/log.c:215-226 | with as many different sectors written as the log has room for, any further write panics, also one to a sector already logged |
| `TransactionLog.CommitGroup` | mutex-lock/log.c:123-228 | three operations begin, write and end: the disk is that of the finished commit if and only if every write finds room in the log and fewer than NBUF sectors were written, else it is unchanged |
| `TransactionLog.LoggedByDistinct` | mutex-lock/log.c:219-226 | writes to different sectors are all logged, so thirty of them are NBUF sectors |
| `TransactionLog.RunGroup` | mutex-lock/log.c:50-228 | from boot on any sane disk, every home sector ends with its last write if and only if every write finds room in the log and fewer than NBUF sectors were written, else with what it meant before |
| `TransactionLog.CleanIffRoom` | mutex-lock/param.h:11-12 | with exactly the logged sectors pinned, a clean buffer is left exactly when fewer than NBUF are logged |
| `TransactionLog.NoBufferIff` | mutex-lock/bio.c:82-94 | whatever buffers other processes hold, bget has none to recycle if and only if the sectors logged and the clean buffers held are NBUF together |
| `TransactionLog.EveryCommitDiskRecovers` | mutex-lock/log.c:173-199 | every disk that Commit leaves recovers to all old or all new |
| `Ownership.OneOwner` | mutex-lock/fs.c:51-95 | no two slots name the same block, and a named block is a data block with its bit set |
| `Ownership.BeyondWhole` | mutex-lock/fs.c:51-76 | marking a block of the log leaves ownership as it is |
| `Ownership.FillWhole` | mutex-lock/fs.c:358-386 | giving a free block to an empty slot keeps one owner per block |
| `Ownership.ClearWhole` | mutex-lock/fs.c:79-95 | freeing a slot's block keeps one owner per block, and its bit was set |
| `Ownership.WipedFrees` | mutex-lock/fs.c:393-421 | emptying an inode's slots frees exactly the blocks it owned |
| `FileSystem.LoadSave` | mutex-lock/fs.c:200-217 | an inode stored in its block is read back, and the other inodes of that block are unchanged |
| `FileSystem.MarkUsed` | mutex-lock/fs.c:51-95 | setting or clearing a bit changes that block's bit and nothing else that matters |
| `FileSystem.ReadBack` | mutex-lock/fs.c:436-494 | reading the range of a finished write gives the bytes written, and the file around it is as before |
| `FileSystem.EmptySound` | mutex-lock/fs.c:51-95 | a disk with free inodes only satisfies the whole invariant if and only if its metadata blocks are marked and its data blocks are not, whatever its log blocks are |
| `FileSystem.PrefixSound` | mutex-lock/mkfs.c:233-247 | a disk whose marked blocks are a prefix, as mkfs makes it, satisfies the invariant if and only if its files own exactly the data blocks of the prefix, each once, and have no holes |
| `FreeBlocks.FirstClearIsLog` | mutex-lock/fs.c:51-76 | the first clear bit is that of a log block if and only if every block below the log is marked |
| `FreeBlocks.DataFullIff` | mutex-lock/fs.c:51-76 | on a whole disk that is so if and only if no data block is free |
| `FreeBlocks.LogTaken` | mutex-lock/fs.c:51-76 | a log block handed out changes no file and no ownership yet |
| `FreeBlocks.FillFills` | mutex-lock/fs.c:364-374 | balloc for a slot of the inode fills exactly that slot and takes exactly one free data block |
| `FreeBlocks.EntryFills` | mutex-lock/fs.c:375-382 | the same for an entry of the indirect block |
| `FreeBlocks.EnoughRoom` | mutex-lock/fs.c:464-494 | a write that got through had a free data block for every empty slot it needs, also for the indirect block |
| `FreeBlocks.TooLittleRoom` | mutex-lock/fs.c:464-494 | a write that met an empty slot with no data block free had too few from the start |
| `FreeBlocks.WriteLogsBounds` | mutex-lock/fs.c:464-494 | a write logs at least the blocks of the file it touches, and at most those, the bitmap, the indirect block and the inode |
| `Files.FirstClear` | mutex-lock/fs.c:61-72 | the first clear bit of a bitmap block |
| `Files.Volume.Balloc` | mutex-lock/fs.c:51-76 | the first block with a clear bit is marked and zeroed; it is a block of the log if and only if every block below the log is marked; it panics exactly when no bit is clear |
| `Files.Volume.Bfree` | mutex-lock/fs.c:79-95 | the bit is cleared; it panics exactly when it was clear |
| `Files.Volume.Bmap` | mutex-lock/fs.c:358-386 | the block of a file, allocated if missing; mapped blocks stay, other files are untouched, also when it fails; it fails exactly beyond MAXFILE, or when a block is needed and no data block is free, with a panic if the log is marked and a log block if not; exactly the missing slots are filled, one free data block each; every block changed has been logged, and only bitmap blocks and blocks of the slots needed |
| `Files.Volume.BmapIndirect` | mutex-lock/fs.c:369-386 | the same through the indirect block |
| `Files.Volume.FillSlot` | mutex-lock/fs.c:364-374 | the same for one empty slot of the inode |
| `Files.Volume.MapEntry` | mutex-lock/fs.c:375-382 | the same for one entry of the indirect block |
| `Files.FirstUnmarked` | mutex-lock/fs.c:51-76 | on a disk whose first m blocks are the ones marked balloc hands out block m, the first of the log when every data block is taken |
| `Files.MkfsBitmap` | mutex-lock/mkfs.c:233-247 | the block mkfs writes has exactly its first bits set |
| `Files.MkfsMarks` | mutex-lock/mkfs.c:233-247 | written right behind the inode blocks, it marks for the kernel exactly the first blocks of the disk |
| `Files.MkfsLayout` | mutex-lock/mkfs.c:91-93 | the data blocks begin where mkfs counts them to, if and only if the size is not a multiple of the bits in a block |
| `Files.Volume.Iupdate` | mutex-lock/fs.c:200-217 | the inode in memory reaches its place in its block |
| `Files.Volume.Readi` | mutex-lock/fs.c:436-460 | exactly the slice of the file that exists in the range; refused exactly past the end or when the offset wraps; nothing changes |
| `Files.Volume.Writei` | mutex-lock/fs.c:464-494 | exactly bytes off to off + n are replaced and the size is the maximum; other files read as before; a refused write changes nothing; it gets through if and only if there are free data blocks for the empty slots it needs; if not, a prefix of the bytes is in place, the invariant holds, no data block is free, and balloc has panicked on a full bitmap or handed out a free log block; every block changed has been logged, and what is logged is bounded |
| `Files.Volume.Itrunc` | mutex-lock/fs.c:393-421 | the file is empty, exactly its blocks are freed, other files read as before, freeing a free block never happens, and every block changed has been logged |
| `Files.Volume.FreeIndirect` | mutex-lock/fs.c:407-417 | the indirect entries, then the indirect block, are freed |
| `CrashConsistency.HomeDecides` | mutex-lock/log.c:50-65 | the file system does not look into the log: disks alike outside it are sound alike and hold the same files |
| `CrashConsistency.CommitKeepsFiles` | mutex-lock/log.c:67-199 | a transaction between two sound disks, cut off anywhere in commit and recovery, leaves a sound disk with all files of the one or all files of the other |
| `CrashConsistency.RunKeepsFiles` | mutex-lock/log.c:114-228 | after any run, with a log of any size, whose committed groups are writei and itrunc calls one after the other, crashes and recovery leave a sound disk with the files as those calls left them |
| `CrashConsistency.WriteSurvivesCrashes` | mutex-lock/fs.c:464-494 | a finished writei, committed as one transaction of the blocks it changed, leaves, whenever the crashes come, a sound disk with the old bytes or the new bytes spliced in |
| `CrashConsistency.LoggedReady` | mutex-lock/fs.c:464-494 | what an operation has passed to log_write can be committed and is all that it has changed |
| `CrashConsistency.ListsIff` | mutex-lock/log.c:210-228 | a set of logged blocks fits a transaction if and only if there are at most LOGSIZE of them and fewer than the log has sectors |
| `CrashConsistency.WriteCommitted` | mutex-lock/fs.c:464-494 | calling writei on a sound disk and committing exactly the blocks it logged survives a crash after any write and any crashes in recovery, with the old or the new file; the blocks fit the log whenever the blocks touched, the bitmap and two more do |
| `CrashConsistency.FilewriteChunk` | mutex-lock/file.c:132-150 | a chunk of filewrite's size logs more than MAXOPBLOCKS blocks, and fits a log of LOGSIZE sectors on a disk with one bitmap block |
| `Inodes.SeekFinds` | mutex-lock/fs.c:222-253 | iget finds the slot with the inode, else a free slot, else there is none |
| `Inodes.Icache.Iget` | mutex-lock/fs.c:222-253 | the slot found gains a reference, or is set up for the inode; all others stay |
| `Inodes.LockIsFresh` | mutex-lock/fs.c:266-338 | in every run, whoever holds an inode unedited has the inode on disk in memory, and it is not free, also when iput frees a number that ialloc reuses |
| `Inodes.LockIsExclusive` | mutex-lock/fs.c:266-310 | two calls never have the same slot busy |
| `Inodes.ReferencesExact` | mutex-lock/fs.c:222-264 | ref is the number of references handed out and not put, and slots in use hold different inodes |
| `Inodes.PutNeverBusy` | mutex-lock/fs.c:319-338 | the iput-busy panic is out of reach |
| `InodeCalls.PutDecides` | mutex-lock/fs.c:319-338 | in every run iput leaves the disk as it is and drops the reference at once, unless it is the only one to an inode in memory that has no link left on disk |
| `InodeCalls.PutFrees` | mutex-lock/fs.c:319-338 | in that case its steps leave the inode free on disk, without size and blocks, every other inode as it was, and no reference to it |
| `InodeCalls.DiskChanges` | mutex-lock/fs.c:175-338 | in every run an inode on disk changes only by the iupdate of the call that has it locked, to what that call last wrote into it; by ialloc, if it was free; or by an iput, if it has no link left and was, when that iput began, in memory with one reference |
| `InodeCalls.OnlyUntilGot` | mutex-lock/fs.c:319-338 | while iput frees an inode its reference is the only one for as long as nobody gets the inode |
| `InodeCalls.GotWhileFreeing` | mutex-lock/fs.c:319-338 | an instance: the inode is got in between and truncated with two references out |
| `InodeCalls.NewReference` | mutex-lock/fs.c:175-264 | in every run a reference from iget, idup or ialloc is to the inode asked for |
| `Inodes.ReferenceStays` | mutex-lock/fs.c:222-338 | a reference means the same inode for as long as it is held |
| `Inodes.AllocFresh` | mutex-lock/fs.c:175-198 | in every run, whenever ialloc takes a number nobody has that inode in memory, except an iput that has freed it and has only its flags left to clear |
| `FreeList.InsertKeeps` | mutex-lock/umalloc.c:24-44 | linking a block between its neighbours keeps one sorted ring and the tiling |
| `FreeList.MergeKeeps` | mutex-lock/umalloc.c:32-41 | joining two touching free blocks keeps the ring and the tiling, conserves the arena and leaves live blocks alone |
| `FreeList.ReleaseKeeps` | mutex-lock/umalloc.c:24-44 | freeing restores the whole invariant: afterwards no two free blocks touch |
| `FreeList.StopsAtPlace` | mutex-lock/umalloc.c:30-32 | the search loop of free stops exactly at the block below the one freed |
| `FreeList.ReleaseMem` | mutex-lock/umalloc.c:33-43 | the two pointer updates of free write exactly the headers of the joined list |
| `FreeList.TakeAllKeeps` | mutex-lock/umalloc.c:75-77 | unlinking an exact fit keeps the invariant |
| `FreeList.TakeTailKeeps` | mutex-lock/umalloc.c:78-82 | cutting off the tail keeps the invariant and conserves the arena |
| `FreeList.GrowKeeps` | mutex-lock/umalloc.c:46-61 | new memory extends the arena by exactly that memory |
| `FreeList.Canonical` | mutex-lock/umalloc.c:24-90 | arena and live blocks determine the free list, whatever calls led there |
| `Heap.UnitsExact` | mutex-lock/umalloc.c:46-68 | exactly which requests survive the 32-bit arithmetic of malloc and the int argument of sbrk |
| `Heap.UnitsWrong` | mutex-lock/umalloc.c:46-68 | requests that do not: one gets no payload, one makes sbrk shrink the process |
| `Heap.SearchFails` | mutex-lock/umalloc.c:73-89 | back at freep with nothing found, no free block is large enough |
| `Heap.SearchFinds` | mutex-lock/umalloc.c:73-85 | a block found is free, not base, and the first fit behind freep |
| `Heap.Allocator.Walk` | mutex-lock/umalloc.c:29-32 | the loop of free terminates at the right place from any freep |
| `Heap.Allocator.Free` | mutex-lock/umalloc.c:24-44 | the invariant holds again, exactly that block is no longer live, other blocks keep their sizes, the arena is conserved |
| `Heap.Allocator.Morecore` | mutex-lock/umalloc.c:46-61 | a failing sbrk changes nothing; otherwise the arena grows by the request and a large enough block is free |
| `Heap.Allocator.Take` | mutex-lock/umalloc.c:74-85 | a new live block of exactly the size asked for, disjoint from all others, at the end of the block chosen |
| `Heap.Allocator.Search` | mutex-lock/umalloc.c:73-89 | first fit; morecore is called once if no free block fits and not at all otherwise; null exactly when it is called and fails; it stops short exactly when morecore would ask for the wrong amount |
| `Heap.Allocator.Malloc` | mutex-lock/umalloc.c:63-90 | the same from the first call on, for any request below 2^32 bytes: it stops short exactly when no free block fits and the request is above 2^31 - 16 and at most 2^32 - 8 bytes; the block handed out has room for the request if and only if that is at most 2^32 - 8 bytes |
| `Heap.MallocThenFree` | mutex-lock/umalloc.c:24-90 | malloc followed by free restores the blocks and the free list; if morecore was called the arena has grown by its memory and live blocks are as before |
| `Monitor.WakeFindsSleeper` | mutex-lock/proc.c:557-594 | a signaller about to call wakeup finds the thread it read asleep on its own channel |
| `Monitor.StepKeeps` | mutex-lock/proc.c:749-900 | every step of lock, unlock, wait, signal and broadcast keeps the invariants of locks, holders and waiting lists |
| `Monitor.RunKeeps` | mutex-lock/proc.c:557-900 | every interleaving keeps them |
| `Monitor.MutualExclusion` | mutex-lock/proc.c:749-779 | in every run at most one thread holds a mutex, and the lock word says whether one does, also across condvar_wait |
| `MonitorCalls.HeldIsCalls` | mutex-lock/proc.c:749-838 | in every run a thread in user code holds exactly the mutexes that its calls so far have locked and not unlocked |
| `MonitorCalls.LockReturns` | mutex-lock/proc.c:749-763 | mutex_lock that has returned: the lock word is 1, the caller has the mutex and no other thread has |
| `MonitorCalls.UnlockReturns` | mutex-lock/proc.c:765-779 | mutex_unlock that has returned: the caller does not have the mutex |
| `MonitorCalls.WaitReturns` | mutex-lock/proc.c:819-838 | condvar_wait that has returned, woken or with the list full: the caller has the mutex again, alone |
| `MonitorCalls.WaitHasWaited` | mutex-lock/proc.c:819-838 | condvar_wait returns only to a thread that has slept meanwhile or has met a full list |
| `MonitorCalls.NotifyReturns` | mutex-lock/proc.c:840-900 | condvar_signal and condvar_broadcast that have returned: of the threads registered when the call began exactly the first, or all, have been roused from their sleep by it and are off the list |
| `MonitorCalls.CallEnds` | mutex-lock/proc.c:749-900 | every call in whose way no other thread is comes to its end by its own steps: it returns, or sleeps in a wait |
| `Monitor.WakesExactlyOne` | mutex-lock/proc.c:840-900 | in every run a wakeup of a signaller wakes the registered thread and no other |
| `Monitor.BroadcastWakesAll` | mutex-lock/proc.c:872-900 | in every run a broadcast that returns has woken all threads registered when it began, in slot order, and the list is empty |
| `Monitor.SignalWakesOne` | mutex-lock/proc.c:840-870 | in every run a signal that returns has woken and removed the first registered thread and nothing else; with none registered it did nothing |
| `Monitor.SleeperIsRegistered` | mutex-lock/proc.c:819-838 | in every run a thread asleep in condvar_wait is on its list |
| `Monitor.WaitFailsOnlyWhenFull` | mutex-lock/proc.c:823-837 | in every run condvar_wait gives up only when every slot of its list is taken |
| `Threads.CloneKeeps` | mutex-lock/proc.c:133-232 | a thread created by a process keeps counts, owners and page tables |
| `Threads.CloneCountsIff` | mutex-lock/proc.c:180-202 | creating a thread keeps the invariant if and only if the caller is a process |
| `Threads.ForkKeeps` | mutex-lock/proc.c:133-232 | a new process keeps it, with its own page table |
| `Threads.ExitBeginKeeps` | mutex-lock/proc.c:312-330 | abandoning children and dropping a detached thread's page table keeps it |
| `Threads.ExitFinishKeeps` | mutex-lock/proc.c:332-345 | becoming a zombie with count 0 keeps it |
| `Threads.ReapKeeps` | mutex-lock/proc.c:682-705 | reaping a thread slot keeps it |
| `Threads.WaitKeeps` | mutex-lock/proc.c:361-407 | freeing a zombie process keeps it |
| `Threads.ExecKeeps` | mutex-lock/exec.c:91-99 | replacing the page table without threads keeps it |
| `Threads.CountIsExact` | mutex-lock/proc.c:133-424 | in every run tcount is the number of thread slots not yet reaped |
| `Threads.WaitFreesUnshared` | mutex-lock/proc.c:353-424 | in every run the page table that wait frees exists and no other slot in use has it |
| `Threads.NoTableLeaks` | mutex-lock/proc.c:133-424 | in every run the page tables in existence are exactly those of the processes |
| `Threads.CleanupReaps` | mutex-lock/proc.c:234-280 | a round of cleanupzombiethreads frees exactly one zombie thread of the caller, if there is one, and lowers the caller's count by one; with none it changes nothing |
| `Threads.CleanupsEnd` | mutex-lock/proc.c:332-340 | once all threads of a process have ended, as many rounds as it counts threads bring its count to 0, so the loop of exit ends |
| `Threads.ThreadWaitsForProcess` | mutex-lock/proc.c:353-424 | a thread waits for the children of its process |
| `Threads.ExecReplaces` | mutex-lock/exec.c:91-99 | exec gives the caller its new page table and frees exactly the old one |
| `Threads.DetachedReaped` | mutex-lock/proc.c:133-349 | creating a detached thread, its exit with a value, the fetch and a round of cleanup: the thread shared the page table and has dropped it, the value is its own, and the table is as before but for its slot |
| `Threads.ForkExitWait` | mutex-lock/proc.c:133-424 | fork, exit and the parent's wait for that pid give back the slot and the page table and leave everybody else, but for children of an earlier occupant of the slot |
| `Threads.CloneExitFetch` | mutex-lock/proc.c:133-349 | creating a thread, its exit with a value and the fetch give that value to the joiner and leave the table as it was but for its own slot |
| `Threads.RunNumbered` | mutex-lock/proc.c:47-50 | in every run no slot has the pid that is handed out next |
| `Threads.ProcessTable.constructor` | mutex-lock/proc.c:76-103 | userinit leaves init alone in the table |
| `Threads.ProcessTable.Search` | mutex-lock/proc.c:35-47 | the table loops find the first matching slot |
| `Threads.ProcessTable.ForkProcess` | mutex-lock/proc.c:133-232 | the table changes as Threads.Fork, also when copyuvm fails and the pid is used up, and the pid or -1 is returned |
| `Threads.ProcessTable.CloneThread` | mutex-lock/proc.c:133-232 | the table changes as Threads.Clone, and the pid or -1 is returned |
| `Threads.ProcessTable.AbandonChildren` | mutex-lock/proc.c:317-326 | exactly the child processes go to init |
| `Threads.ProcessTable.BeginExit` | mutex-lock/proc.c:312-330 | the table changes as Threads.ExitBegin |
| `Threads.ProcessTable.CleanupZombieThreads` | mutex-lock/proc.c:234-280 | the table changes as Threads.Cleanup: at most one zombie thread is reaped |
| `Threads.ProcessTable.FinishExit` | mutex-lock/proc.c:341-345 | the table changes as Threads.ExitFinish |
| `Threads.ProcessTable.WaitPass` | mutex-lock/proc.c:353-424 | the table changes as Threads.Wait; a pid exactly when a zombie child was found, and whether there is anybody to wait for |
| `Threads.ProcessTable.GetThreadRetval` | mutex-lock/proc.c:666-711 | the table changes as Threads.Fetch: a detached thread loses its mark, another is reaped; the value is the one the thread left, -1 when there is no such thread |
| `Pipe.Ring.Full` | mutex-lock/pipe.c:84-84 | the counters tell a full ring, also after they wrap |
| `Pipe.Ring.Empty` | mutex-lock/pipe.c:105-105 | the counters tell an empty ring, also after they wrap |
| `Pipe.Ring.Store` | mutex-lock/pipe.c:77-97 | as many bytes as fit are appended, in order |
| `Pipe.Ring.Take` | mutex-lock/pipe.c:112-116 | the first bytes, as many as wanted or there, are removed in order |
| `PipeRuns.NextKeeps` | mutex-lock/pipe.c:58-120 | every step of readers, writers and closers keeps the locks and the reasons for sleeping |
| `PipeRuns.NoLostWakeup` | mutex-lock/pipe.c:77-120 | in every run, with the pipe lock free, a sleeping writer has no room and an open read end, and a sleeping reader has nothing to read and an open write end unless a write has given up on a waiting reader |
| `PipeRuns.ServesIff` | mutex-lock/pipe.c:77-120 | a step keeps waiting readers served if and only if it is not a write that gives up while one waits |
| `PipeRuns.StrandedReader` | mutex-lock/pipe.c:84-88 | every run in which a write gives up on a waiting reader passes through a state with the lock free, the ring full and a reader waiting |
| `PipeRuns.OrderlyNeverStrands` | mutex-lock/pipe.c:58-120 | when callers neither close the read end under a reader nor read once it is being closed, no write ever gives up on a waiting reader |
| `PipeRuns.ReaderLeftAsleep` | mutex-lock/pipe.c:77-88 | a run that ends with a reader asleep, the lock free and 512 bytes in the ring |
| `PipeRuns.NeverBothAsleep` | mutex-lock/pipe.c:77-120 | in every run, at every moment, readers and writers never sleep at the same time |
| `PipeRuns.FirstInFirstOut` | mutex-lock/pipe.c:77-120 | in every run the bytes read and then the at most 512 bytes in the ring are the bytes written |
| `PipeCalls.LedgerIsRing` | mutex-lock/pipe.c:77-120 | in every run what a step writes it puts behind the bytes in the ring, and what it reads it takes from their front |
| `PipeCalls.WriteReturns` | mutex-lock/pipe.c:77-98 | pipewrite that has returned has put all its bytes into the ring, in order, and gives their number; or it gives -1, the read end is closed, and it has put in a proper prefix |
| `PipeCalls.ReadReturns` | mutex-lock/pipe.c:100-120 | piperead that has returned has taken the first bytes that it found in the ring, as many as it wanted or as there were, and gives their number, which is 0 only if it wanted none or the ring was empty with the write end closed |
| `PipeCalls.CloseReturns` | mutex-lock/pipe.c:58-74 | pipeclose that has returned has closed its end |
| `PipeCalls.ClosedByClose` | mutex-lock/pipe.c:58-74 | an end is closed only after a call to close it |
| `PipeCalls.CallEnds` | mutex-lock/pipe.c:58-120 | every call that finds the locks free comes to its end by its own steps: it returns, or sleeps |
| `PageTables.AllocKeeps` | mutex-lock/kalloc.c:82-95 | taking a page off the list keeps list and page tables |
| `PageTables.ReleaseKeeps` | mutex-lock/kalloc.c:59-77 | putting a page on the list keeps list and page tables |
| `PageTables.AddPageKeeps` | mutex-lock/vm.c:71-91 | mapping a page into an empty slot keeps every page in exactly one use |
| `PageTables.RemovePageKeeps` | mutex-lock/vm.c:262-271 | unmapping a page keeps it |
| `VirtualMemory.Kernel.constructor` | mutex-lock/kalloc.c:30-43 | before kinit no page is free and the invariant holds |
| `VirtualMemory.Kernel.Kalloc` | mutex-lock/kalloc.c:82-95 | the first free page, or 0 exactly when there is none |
| `VirtualMemory.Kernel.Kfree` | mutex-lock/kalloc.c:59-77 | the page is first on the list, which stays a list of distinct pages |
| `VirtualMemory.Kernel.Freerange` | mutex-lock/kalloc.c:45-52 | exactly the pages of the range become free |
| `VirtualMemory.Kernel.WalkPgdir` | mutex-lock/vm.c:46-66 | the table of a page; 0 exactly when it is missing and is not to be or cannot be made; no mapping changes |
| `VirtualMemory.Kernel.MapPages` | mutex-lock/vm.c:71-91 | a prefix of the pages asked for is mapped as asked, all of them or up to the one for which there is no table page or which is mapped already; nothing else is mapped differently, and exactly the missing tables are taken |
| `VirtualMemory.Kernel.SetupKvm` | mutex-lock/vm.c:129-145 | a new space that maps exactly the kernel ranges, made of free pages only; it fails exactly when there are too few free pages for directory and tables, and then all free pages are lost; a remap panic means overlapping ranges |
| `VirtualMemory.SetupLosesPage` | mutex-lock/vm.c:129-145 | an instance: with one free page it becomes a directory that nobody gets |
| `AddressSpaces.LossDecides` | mutex-lock/vm.c:221-244 | a page is taken for nothing at one page at most, before which every page could be had and after which none |
| `AddressSpaces.PagesHold` | mutex-lock/mmu.h:129-129 | the pages of a size are exactly those that hold a byte below it |
| `VirtualMemory.Kernel.AllocUvm` | mutex-lock/vm.c:221-244 | every page with a byte from oldsz to newsz and none before is mapped to a zeroed page that was free, and exactly the pages and tables needed are taken, if and only if there are enough free pages; it succeeds with the last page unmapped if and only if that page needs a table and one page is left; otherwise every mapping is as before; one page is lost if and only if one of the new pages needs a table with one page left for it |
| `VirtualMemory.HoleHappens` | mutex-lock/vm.c:234-243 | an instance: with one free page left a process grows by one page that is not mapped |
| `VirtualMemory.Kernel.DeallocUvm` | mutex-lock/vm.c:250-274 | exactly the pages its loop reaches are unmapped and freed; no page with a byte below newsz is, and of the pages from newsz to oldsz only one that the 4 MB step skips stays |
| `VirtualMemory.Kernel.FreeVm` | mutex-lock/vm.c:278-293 | every user page, table and the directory of the space become free, each once, and nothing else changes |
| `VirtualMemory.Kernel.CopyUvm` | mutex-lock/vm.c:310-338 | every page that holds a byte below sz has the same bytes and flags on a page that was free, no other user page is mapped, the kernel half is, and the source is untouched; exactly when it succeeds, when it meets a page that is not mapped, and when it runs out of memory, in the number of free pages; running out it loses every free page if setupkvm failed, exactly one page if a table was missing for the last one, and none otherwise |
| `VirtualMemory.CopyLosesPage` | mutex-lock/vm.c:310-338 | an instance: with five pages in all, the fork of a process of one page fails and loses a page |
| `AddressSpaces.StoppedOutcome` | mutex-lock/vm.c:317-332 | the loop of copyuvm stops at one page only, which decides how it ends |
| `VirtualMemory.CopyThenFree` | mutex-lock/vm.c:278-338 | freeing a copy leaves every page used as it was before the copy |
| `AddressSpaces.ReachesAll` | mutex-lock/vm.c:258-262 | from a directory boundary the loop misses no page that has a table |
| `AddressSpaces.ReachesIff` | mutex-lock/vm.c:258-262 | exactly which pages the loop reaches from any start |
| `AddressSpaces.DeallocCompleteIff` | mutex-lock/vm.c:250-274 | deallocuvm unmaps everything asked for if and only if no mapped page is skipped |
| `AddressSpaces.SkipMisses` | mutex-lock/vm.c:258-262 | an instance: from page 1 under an empty first slot page 1024 is missed |
| `ShellGrammar.SoundLine` | mutex-lock/sh.c:345-447 | what the parser takes off the front of the tokens is derived by the grammar with the tree it returns |
| `ShellGrammar.CompleteLine` | mutex-lock/sh.c:345-447 | a line that the grammar derives is parsed to the same tree, up to the right place |
| `ShellGrammar.ParsesIff` | mutex-lock/sh.c:328-343 | a line is accepted with a tree if and only if the grammar derives the whole line with that tree |
| `ShellGrammar.Unambiguous` | mutex-lock/sh.c:345-447 | a line has at most one tree |
| `ShellGrammar.WordBehindBack` | mutex-lock/sh.c:345-360 | a word, an & and a word: the line is refused and has no tree |
| `ShellGrammar.AppendIsCreate` | mutex-lock/sh.c:388-394 | tokens that differ only in > and >> are parsed to the same tree, so nothing is appended to |
| `ShellGrammar.TwoRedirections` | mutex-lock/sh.c:375-398 | < opens its file for reading as descriptor 0, > and >> create theirs for writing as descriptor 1, and a later redirection is around an earlier one |
| `ShellGrammar.WordsOnly` | mutex-lock/sh.c:416-447 | a line of words is a command with these arguments if there are at most nine, and refused otherwise |
| `Shell.BackThenWord` | mutex-lock/sh.c:328-360 | the line a & b is refused with leftovers |
| `Shell.TokensSpelled` | mutex-lock/sh.c:262-309 | the tokens of a line stand one behind the other and leave out white space only; a word has no white space and no symbol and is as long as it can be, a symbol stands for itself, and two > are one token |
| `Shell.Parser.GetToken` | mutex-lock/sh.c:266-309 | the next token and its ends, leaving exactly the tokens behind it |
| `Shell.Parser.Peek` | mutex-lock/sh.c:311-321 | whether the next token begins with one of the symbols, leaving all tokens |
| `Shell.Parser.ParseRedirections` | mutex-lock/sh.c:375-398 | the redirections of the token parser, or its failure |
| `Shell.Parser.ParseBlockAt` | mutex-lock/sh.c:400-414 | the tree, place or error of the token parser |
| `Shell.Parser.ParseExecAt` | mutex-lock/sh.c:416-447 | the tree, place or error of the token parser, with termination of the loop |
| `Shell.Parser.ParsePipeAt` | mutex-lock/sh.c:362-373 | the tree, place or error of the token parser |
| `Shell.Parser.ParseLineAt` | mutex-lock/sh.c:345-360 | the tree, place or error of the token parser |
| `Shell.Parser.ParseCommand` | mutex-lock/sh.c:328-343 | an accepted line is used up; otherwise the error |
| `Shell.NulTerminate` | mutex-lock/sh.c:449-494 | a zero is written at the end of every word and file name of the tree, and nowhere else |
| `Shell.StringsAreTokens` | mutex-lock/sh.c:449-494 | afterwards every argument and file string is the token as it was written |
| `Shell.ParseAndCut` | mutex-lock/sh.c:328-343 | on any line: it fails exactly when the grammar derives no tree, and otherwise its tree is derived and its strings are the line's words |
| `Grep.MatchHere` | mutex-lock/grep.c:84-95 | true exactly when a prefix of the text is in the pattern's language, up to the end if it ends in $ |
| `Grep.MatchStar` | mutex-lock/grep.c:98-105 | true exactly when the text is characters that fit and then a match of the rest |
| `Grep.Match` | mutex-lock/grep.c:71-81 | true exactly when some position of the text, the first one for ^, satisfies the declared meaning |
| `Grep.DenotesCons` | mutex-lock/grep.c:84-105 | a string is in a sequence of items exactly when a piece for the first can be taken off its front |

## Left out

- TransactionLog.Log.Commit: assumes that no other buffer is held meanwhile; `NoBufferIff` says when buffers
  held by others leave `bget` nothing, but the interleaving with them is not modelled.
- LogRuns.PanicsIff: the same: buffers held by others during a commit are not modelled.
- TransactionLog.RunGroup: one group of three operations with their writes in any order.
- Files.Volume.Writei: once a block of the log is handed out nothing more is stated; the source goes on and
  uses the block for the file.
- TransactionLog.Log.RecoverFromLog: runs at boot, with no buffer held or pinned.
- CrashConsistency.RunKeepsFiles: the calls of a group are taken one after the other, as inode locks and
  block ownership let them be, and its records as those calls' records.
- CrashConsistency.WriteCommitted: for a write too long for the log nothing is stated about crashes.
- Heap.Allocator.Malloc: once sbrk is asked for the wrong amount nothing more is stated.
- Threads.ProcessTable.ForkProcess: the kernel stack is always there.
- Shell.Parser.ParseExecAt: the argument array is built as a list and wrapped at the end, while the
  source fills it behind the redirections already made.
- Hardware and boot code, assembly, the IDE driver, interrupts and traps; the disk is `memide.c`.
- Context switching: sleeping and being scheduled are steps under `ptable.lock`.
- Liveness: `mutex_lock` can spin while it holds `ptable.lock`, so only safety is claimed.
- Condition variables signalled without the mutex: a signal can fall between registration and sleep.
- Killed processes in pipes and waits, and the freeing of a pipe whose ends are both closed.
- growproc, loaduvm and exec's loading: more of the same mapping steps.
- Directories, path names, open files and system call plumbing above `readi` and `writei`.
- `runcmd`, line buffering in grep, printf, the other user programs and `mkfs` I/O.
- The 32-bit wrap of pids and reference counts.
