# Verified models of xv6

This project models the parts of the xv6 kernel and its user library whose correctness spans many functions or whole
runs, and proves what those parts promise. `dafny verify dfyconfig.toml` checks all of it.

## What is modelled

**Storage.** `Blocks`, `LogDisk`, `Recency`, `Bcache`, `Log`, `LogRuns`, `LogBudget` and `LogAdmit` follow log.c over
bio.c over memide.c. The disk is a sequence of blocks and a synchronous sector write is one step. `Log` contains the
code: every method states the exact sequence of disk images it produces. `LogDisk` proves that each of those images
recovers to the whole transaction or to none of it, however often recovery itself is interrupted. `LogRuns` lets any
number of processes interleave `begin_op`, `log_write` and `end_op` with the sector writes of commits and recoveries,
and with crashes anywhere; `LogBudget` says how many log_writes per operation, and how large a log area, keep such
runs from the panic of `log_write`, and `LogAdmit` whom `begin_op` lets in, told by what could happen otherwise. `Ide`
shows that the interrupt-driven queue of ide.c refines the synchronous memide.c.

**Files.** `Bitmap`, `FsState`, `FsFiles`, `FsAccount`, `FsWrites` and `Fs` follow the block allocator, block maps,
`readi`, `writei`, `itrunc` and `filewrite`. A file is a byte sequence; a ghost map records the one owner of every
data block; what a write adds and logs is counted exactly. `Mkfs` builds the image on which these invariants hold
first. `FsDisk` puts the inodes into their blocks and states what a sound disk is. `FsCrash` carries it through the
log: after a crash at any moment of any run, recovery leaves a sound disk with the files of one moment of rest.
`FsSerial` runs the code's own operations through the log one after another, with crashes anywhere. `Links`,
`LinkRuns` and `Dirs` follow directories and link counts, `DirLaws` what they promise through several operations.

**Processes.** `Proc` holds the table scans of proc.c, `ProcRuns` all runs of fork, exit, wait, sleep, wakeup and
kill, `Sleep` the sleep/wakeup protocol at the grain of single lock operations and single slots of `wakeup1`'s scan,
`SleepScan` that this scan does what `wakeup1` of `Proc` does, `Pipe` and `PipeRuns` the pipe with its wrapping
counters.

**Memory.** `FreeList` and `Umalloc` follow the allocator of section 8.7 of Kernighan and Ritchie, The C Programming
Language, 2nd ed. `PageTables`, `Vm` and `VmGrow` follow page tables, `copyuvm`, `allocuvm`, `deallocuvm` and
`freevm`.

**Text.** `Grep` follows the regular-expression matcher, `Shell` and `ShellParser` the shell's parser. `ShellText`
defines what a line is and what it means, with any white space, and proves that the parser accepts exactly the texts
of lines and reads them as what they mean; `ShellTrip` prints lines and trees and parses them again.

Code that updates things in place is a class whose methods are proved against functions or relations on values; the
whole-run results are lemmas about those same functions and relations.

## Where the code does not do what one would expect

Each of these is kept as the code has it. The members named state exactly when the code does what one would expect and
when it does not.

- mkfs makes a log area of LOGSIZE sectors, but `log_write` needs one more (`LogBudget.PanicExactly`,
  `AdmissionsSafeExactly`).
- param.h:10 calls MAXOPBLOCKS the most that an operation writes, and `begin_op` reserves that much; every full chunk
  of `filewrite` logs more (`WriteChunk`, `BudgetExactly`, `FullChunkOverBudget`), so runs of such operations reach
  the panic of `log_write` whatever the size of the log area (`LogBudget.PanicExactly`).
- There are only NBUF = LOGSIZE buffers, so a transaction of LOGSIZE sectors, which `log_write` allows, leaves no
  buffer to commit it with (`FillLog`, `FullLogPinsAll`, `LogBread`, `RoomExactly`).
- When the data blocks are used up, `balloc` hands out sectors of the log (`BallocBelowLog`, `FullDisk`).
- A killed writer that fills the pipe returns without waking sleeping readers (`StrandedReader`, `ReadersKept`).
- `create` and `link` do not ask whether the directory has been unlinked meanwhile (`KeptExactly`, `UsedAfterUnlink`).
- `kill` also finds unused slots, and a fork that fails leaves the mark of its killed child; the next process inherits
  it (`CleanExactly`, `BornKilled`, `BornKilledAgain`).
- `deallocuvm` jumps 4 MB from an address that may lie inside the region (`MissedExample`, `FreesAllExactly`).
- `copyuvm` loses the frame of the page it was mapping when `mappages` fails, and everything that `setupkvm` took when
  that fails (`Copyuvm`, `CopyLoses`).
- `malloc` computes the size in 32 bits and passes it to `sbrk` as an `int`, which then gives nothing and answers all
  the same (`EnoughExactly`, `GivenExactly`, `Process.Malloc`, `HugeRequest`).
- `allocuvm` ignores the result of `mappages`, and can report success with the last page missing (`Allocuvm`,
  `GrowHole`).
- Rounding up the root directory's size can leave its last block unallocated (`RoundedBacked`, `FullRoot`).

## Assumptions

- Sector writes are atomic and ordered; `xchg` is sequentially consistent; `log_write`, which takes no lock, is one
  step.
- Home sectors lie outside the log area. A write has the data blocks that the file's new length needs, and in
  `LogRuns` commits find the buffers they need.
- Before a write exactly the blocks below a file's size exist. mkfs, `writei` and `itrunc` leave files so, except for
  the root directory where `RoundedBacked` says.
- `RecoveredSound` supposes that memory is sound whenever a commit starts. `SoundChunk`, `SoundTrunc`, `OneOperation`,
  `CrashAndRecover` and `AnyPlan` show it for operations one after another, with crashes; for operations at the same
  time it rests on the locks. An operation of `FsSerial` logs each of its sectors once, with the final contents.
- An address that `sbrk` answers lies at or above the end of every block of the heap. `Process` shows that this holds
  by itself exactly while no request of 2^28 units or more has grown the heap, if only malloc calls `sbrk`. Pointers
  are addresses in units of one header.
- User memory is contiguous where `copyuvm` and `allocuvm` are called, as their panics demand; kernel mappings are
  distinct pages.
- A process in `pipewrite` or `piperead` keeps its end of the pipe open. A busy buffer is changed by its holder only,
  and the cache holds no sector twice (which `Bcache` proves).
- pids, link counts and table sizes are unbounded numbers. Directory names are strings, compared whole.
## Model

| member | source | states |
|---|---|---|
| LogDisk.HeaderRoundTrip | log.c:84-112 | what write_head stores in the header block, read_head loads, whatever the block held before |
| LogDisk.RecoverCrash | log.c:114-121 | a crash after any number of sector writes of a recovery leaves a well-formed log, and the next recovery leaves the same home sectors |
| LogDisk.RepeatedCrashes | log.c:114-121 | any number of crashes, each after any number of sector writes of a recovery, do not change what a completed recovery leaves in the home sectors |
| LogDisk.CommitCrash | log.c:189-199 | after any k sector writes of commit, recovery leaves the home sectors all old if k is at most the number of logged sectors (first write_head not on disk), all new otherwise |
| LogDisk.CommitDone | log.c:189-199 | a completed commit leaves exactly the new contents in the home sectors and an empty log |
| LogCode.Log.constructor | log.c:52-65 | initlog takes the last nlog sectors as the log, leaves the disk that a recovery of the image leaves, and establishes the log's invariant with no operation outstanding |
| LogCode.Log.WriteLog | log.c:174-187 | write_log puts the cached contents of every logged sector into the log area, one sector write each, and writes no home sector |
| LogCode.Log.InstallTrans | log.c:68-81 | install_trans copies every logged sector home, one sector write each, and unpins exactly those sectors |
| LogCode.Log.WriteHead | log.c:100-112 | write_head makes the header describe the in-memory log, in one sector write, other sectors untouched |
| LogCode.Log.ReadHead | log.c:84-95 | read_head loads the sector list that the header on disk describes |
| LogCode.Log.Commit | log.c:189-199 | the sector writes of commit are the images for which crash atomicity is proved, in that order; at the end the home sectors equal the cache and the log is empty |
| LogCode.Log.RecoverFromLog | log.c:114-121 | every disk image on the way is one from which recovery gives the same home sectors as recovery of the first image |
| LogCode.Log.BeginOp | log.c:124-140 | begin_op admits an operation exactly when no commit runs and the logged sectors and MAXOPBLOCKS more for it and for each outstanding operation fit LOGSIZE, and then counts it |
| LogCode.Log.LogWrite | log.c:210-228 | log_write absorbs repeated sectors, keeps the sector list duplicate-free and pins the buffer; nothing is written to disk |
| LogCode.Log.EndOp | log.c:144-171 | the last end_op commits everything, any other only decrements; after the commit cache and disk agree on the home sectors |
| LogCode.RoomExactly | log.c:174-199 | with no buffer locked, commit has the buffers it needs exactly when fewer than NBUF sectors are logged |
| LogCode.Log.FullLogPinsAll | log.c:174-187 | in every state of the log with NBUF or more sectors logged, every buffer is pinned and no sector of the log area has one |
| LogCode.Log.LogBread | log.c:174-187 | then bread of any sector of the log, which is how write_log begins, finds no buffer |
| LogCode.Log.FillLog | log.c:210-228 | an operation that logs NBUF home sectors reaches such a state without a panic of log_write |
| LogRuns.StepKeeps | log.c:124-228 | every event of any number of processes (begin, log_write, end, one sector write of a commit or recovery, crash) keeps the invariant |
| LogRuns.CrashSafety | log.c:124-228 | in every reachable state, for a log area of any size and operations of any number of log_writes up to the panic, recovery of the present disk leaves exactly the effect of the committed groups |
| LogRuns.WholeOperations | log.c:124-199 | a committed group that holds any write of an operation holds all of them, the operation has ended, and no other group holds any |
| LogRuns.Durability | log.c:144-199 | once an operation has ended and, without a crash since, the log has come to rest, some committed group holds all its writes, and still does after everything that follows, crashes included |
| LogRuns.GroupsGrow | log.c:114-199 | what has been committed is never taken back by any later event |
| LogRuns.CommitsAlone | log.c:144-199 | a commit or recovery runs with no operation outstanding, so end_op's panic is unreachable; the logged sectors are distinct and fit the log area |
| LogRuns.SleepersHaveACause | log.c:124-171 | whoever sleeps in begin_op is held up by a running commit or an outstanding operation |
| LogBudget.StepReserves | log.c:124-171 | if every operation calls log_write at most b times, every event keeps the logged sectors plus the calls left within what begin_op has reserved |
| LogBudget.NoPanic | log.c:213-218 | with b at most MAXOPBLOCKS and a log area larger than LOGSIZE - 2 * (MAXOPBLOCKS - b), no run reaches log_write's panic |
| LogBudget.Panic | log.c:213-218 | otherwise a run in which no operation calls log_write more than b times reaches it; mkfs makes a log area of LOGSIZE sectors, so b == MAXOPBLOCKS suffices |
| LogBudget.PanicExactly | log.c:124-218 | for every b the panic is reachable exactly when the log area is that small or b exceeds MAXOPBLOCKS |
| LogAdmit.MostAtOnce | log.c:124-140 | in no run are more than LOGSIZE / MAXOPBLOCKS operations outstanding |
| LogAdmit.ManyAtOnce | log.c:124-140 | a run has that many |
| LogAdmit.AdmitsExactly | log.c:124-140 | in every reachable state begin_op puts an operation to sleep only while a commit runs or where it and the outstanding ones, each calling log_write MAXOPBLOCKS more times, could run into its panic; with a log area of more than LOGSIZE sectors exactly then |
| LogAdmit.SleepersOverrun | log.c:124-171 | whoever is asleep in begin_op while no commit runs still has that reason |
| LogAdmit.AdmissionsSafeExactly | log.c:124-140 | every admission of every run leaves room for MAXOPBLOCKS calls of each outstanding operation exactly when the log area has more than LOGSIZE sectors |
| BufferCache.CleanMeansSynced | bio.c:61-107 | a valid buffer that is neither busy nor dirty equals its disk sector |
| BufferCache.PinnedExactly | bio.c:84-94 | every buffer is busy or dirty exactly when NBUF sectors are pinned, so bget's panic strikes exactly then, for sectors not held |
| BufferCache.Relink | bio.c:128-133 | the six pointer assignments of brelse move the buffer to the front of a well-formed ring and keep it one |
| BufferCache.Bcache.constructor | bio.c:38-56 | binit links exactly NBUF buffers into a ring and no sector is held |
| BufferCache.Bcache.Bget | bio.c:61-95 | a held sector is found and locked or must be waited for; otherwise the recycled buffer is the least recently released one that is neither busy nor dirty; the panic happens exactly when none exists; no sector is ever held twice |
| BufferCache.Bcache.Recycle | bio.c:84-94 | the scan from the tail finds the least recently released idle clean buffer, or none exists |
| BufferCache.Bcache.Bread | bio.c:98-107 | bread returns the flat map's value of the sector, whatever was evicted meanwhile, and succeeds whenever fewer than NBUF sectors are pinned |
| BufferCache.Bcache.Bwrite | bio.c:110-117 | bwrite performs one sector write that stores the flat map's value; nothing else on disk changes |
| BufferCache.Bcache.Brelse | bio.c:121-140 | brelse unlocks exactly that sector and makes its buffer the most recently used |
| BufferCache.Bcache.Iderw | memide.c:36-58 | a dirty buffer is written, any other is filled from its sector; afterwards it is valid and clean |
| BufferCache.Bcache.Synced | bio.c:61-140 | a sector that is neither locked nor dirty is the same in the flat map and on disk |
| Recency.NearerIsMoreRecent | bio.c:121-140 | after any history of releases a buffer nearer the head was released more recently than one farther away |
| IdeQueue.InterruptIsMemide | ide.c:91-119 | an interrupt does to disk and buffers exactly what memide.c's iderw does in one step for the request at the head of the queue |
| IdeQueue.StopIsMemide | ide.c:69-88 | if the machine stops, the disk is what memide.c leaves before or after the request at the head |
| IdeQueue.QueueRefinesMemide | ide.c:91-155 | in every run each step is an atomic memide.c iderw or nothing (owners' own changes apart), requests complete in order, and at return buffer and sector agree |
| IdeQueue.CallDoes | ide.c:125-155 | in every run, when iderw returns, the sector holds what the buffer held at the call if that was dirty and otherwise what it held itself, and the buffer holds the same |
| IdeQueue.Ide.Append | ide.c:139-143 | the walk along qnext appends the buffer to the end of the linked queue |
| IdeQueue.Ide.Iderw | ide.c:125-155 | the request is queued last and the disk started if it was idle, as the step system prescribes |
| IdeQueue.Ide.Ideintr | ide.c:91-119 | the head is completed, unlinked, and the next request started, as the step system prescribes; a spurious interrupt changes nothing |
| Bitmap.SetBit | fs.c:64-68 | or-ing in a clear bit sets that bit only and stays within the byte |
| Bitmap.ClearBit | fs.c:88-92 | and-ing out a set bit clears that bit only |
| FsState.MarkUsedBits | fs.c:64-68 | marking a block used sets its bit and no other block's |
| FsState.MarkFreeBits | fs.c:85-93 | marking a block free clears its bit and no other block's |
| FsState.OwnersDisjoint | fs.c:358-421 | two places of two inodes never refer to the same block |
| FsState.FirstFreeIsData | fs.c:52-76 | the first free block that balloc finds is a data block that nobody owns, and lies below the log exactly when a data block is free |
| FsState.AttachDirect | fs.c:358-371 | storing a freshly zeroed block in an empty address keeps ownership exact; a fresh indirect block counts as 128 empty entries because balloc zeroes it |
| FsState.AttachIndirect | fs.c:373-383 | storing a fresh block in an empty indirect entry keeps ownership exact |
| FsFiles.OthersKeptContent | fs.c:464-494 | a change confined to one inode leaves contents and blocks of every other file alone |
| FsFiles.SpliceAt | fs.c:464-494 | a written byte is where it was written and every other byte of the file is as it was |
| FsAccount.TookIs | fs.c:52-76 | whatever blocks a sequence of ballocs has taken, they are the first that were free, so the bitmap as it was determines them |
| FsAccount.RoundAdds | fs.c:358-386 | where exactly the blocks below the end of a file exist, bmap finds a block missing only at the end, and the file gains the blocks that its new length needs more, the indirect block included |
| FsAccount.FileBlocksCount | fs.c:358-386 | different blocks of a file have different addresses, so logging them takes as many sectors |
| FsCode.BallocBelowLog | fs.c:52-76 | the log area's bits are clear too: balloc returns a block below it exactly as long as fewer data blocks are owned than exist |
| MkfsCode.FullDisk | mkfs.c:251-298 | on a disk whose only data block mkfs has filled, the kernel's balloc returns a sector of the log |
| FsCode.Fs.Balloc | fs.c:52-76 | balloc returns the first block whose bit is clear, marks and zeroes it, and changes nothing else |
| FsCode.Fs.Bfree | fs.c:79-95 | bfree clears exactly the block's bit; its requirement is the negation of the panic |
| FsCode.Fs.Bmap | fs.c:358-386 | bmap returns the block of a file position, allocating it and the indirect block only when missing; existing addresses and blocks stay, ownership stays exact; the blocks it gains are the first free ones, and the sectors it logs are exactly those and the bitmap and indirect blocks it changed |
| FsCode.Fs.FreeAddr | fs.c:79-95 | the panic on freeing a free block is unreachable for an address of an inode |
| FsCode.Fs.Itrunc | fs.c:393-421 | itrunc frees exactly the blocks of one inode and leaves every other file's blocks and contents alone; it changes and logs exactly the bitmap blocks of the freed blocks and the inode block |
| FsCode.Fs.Writei | fs.c:464-494 | writei splices src into the file's bytes at off or returns -1 and changes nothing; exactly the blocks below size stay allocated; the on-disk inode equals the in-memory one afterwards although iupdate runs only when the file grows; what it adds and logs is stated exactly |
| FsCode.Fs.Readi | fs.c:436-460 | readi returns the slice of the file cut at its size, or -1, and allocates nothing |
| FsCode.Fs.WriteThenRead | fs.c:436-494 | after a writei, readi anywhere in the file gives the bytes stored where they were stored and the former ones everywhere else, cut at the new size |
| FsCode.Fs.WriteChunk | file.c:132-151 | one chunk of filewrite logs exactly the blocks it touches, the indirect block if it gets an entry, the bitmap blocks of the first free blocks it takes, and the inode block if the file grows; the number is at most LOGSIZE, and on a disk with one bitmap block within MAXOPBLOCKS exactly when the blocks touched are at most 10, 9, 8 or 7 (overwrite, growth within the last block, new direct blocks, new indirect entries) |
| FsCode.Fs.Filewrite | file.c:116-155 | the chunk loop writes the longest prefix, in whole chunks, that the file can hold, advances the offset by it and returns n exactly when that is everything; it takes the blocks that the new length needs more and no others; every transaction fits LOGSIZE, and every one but the last exceeds MAXOPBLOCKS |
| FsWrites.TransactionSize | file.c:126-133 | data, indirect, bitmap and inode blocks are different sectors, so the size of a write's transaction is the sum of their numbers |
| FsWrites.ChunkPaid | file.c:132-151 | the exact size of a chunk's transaction from the size of the file, the offset, the length and the bitmap before the write |
| FsWrites.BudgetExactly | param.h:10 | exactly when a write stays within the MAXOPBLOCKS sectors that begin_op reserves, on a disk with one bitmap block |
| FsWrites.FullChunkOverBudget | file.c:132 | a full chunk, wherever it starts, logs more sectors than begin_op reserves for an operation |
| FsWrites.TransactionFits | file.c:126-133 | the sectors of a chunk (data, bitmap, indirect and inode blocks) number at most LOGSIZE because an unaligned first block already exists |
| FsWrites.WritableLongest | file.c:132-151 | what filewrite stores is everything, or the longest part of whole chunks that ends within the largest file |
| FsDisk.DinodeRoundTrip | fs.c:202-217 | a dinode stored in its block by iupdate is read back and its neighbours are left alone |
| FsDisk.DecodedOnDisk | fs.h:27-40 | the inodes stored in the inode blocks of a disk are the inodes decoded from it |
| FsDisk.OnDiskSame | fs.c:202-217 | storing the inodes of a disk back into it changes no byte, major and minor numbers included |
| FsSerial.SoundChunk | file.c:132-151 | between operations, a chunk takes a sound disk (the blocks marked used are the metadata and, disjointly, what the inodes on it refer to, and every file has exactly the blocks below its size) to a sound disk, splices one file and leaves all others, changes no sector that it does not log, logs none of the log area, and leaves everything ready for the next operation |
| FsSerial.SoundTrunc | fs.c:393-421 | so does a truncation, which empties one file; on a disk with one bitmap block it logs two sectors at most |
| FsSerial.OneOperation | log.c:124-228 | from any state at rest, an operation that takes one sound disk to another and logs the sectors in which they differ runs through exactly the events of begin_op, log_write, end_op and commit to a state at rest with memory the new disk, and commits one group, or none if it logs nothing |
| FsSerial.CrashAndRecover | log.c:114-121 | after a crash at any moment of such a run the recovery writes the sectors that the header on the disk describes, and the header, and leads to a state at rest with memory sound and equal to what had been committed |
| FsSerial.CrashedOperation | log.c:124-228 | with a crash after exactly n events of an operation and its commit, the disk is after recovery as after the operation if the first write_head is among them, that is if n is at least 2 * m + 3 for m sectors logged, and otherwise as before it |
| FsSerial.AnyPlan | log.c:114-228 | any sequence of operations, each with or without a crash after a given number of events, what follows depending on whether it survived, can be carried out from any state at rest; the run consists of exactly the events of each operation up to its crash, the crash and the recovery, and ends with memory the disk that the crash points determine |
| FsSerial.ChunkRun | file.c:139-144 | a chunk of filewrite, executed by the code and run through the log by exactly its events, up to the given crash if there is one: afterwards memory is sound, and the file is spliced exactly if the crash does not precede the first write_head, whose position follows from the number of sectors the chunk logs; otherwise every file is as before |
| FsSerial.TruncRun | fs.c:393-421 | likewise for a truncation, which empties the file or leaves every file as before |
| FsSerial.Restart | log.c:52-65 | a file system started on any sound disk is ready for the next operation and holds the files of that disk |
| FsSerial.FirstDisk | mkfs.c:104-155 | the image that mkfs writes is sound and its log is empty, if every block below every size exists |
| FsCrash.CommittedSound | log.c:189-199 | in every run from a sound disk in which memory is sound whenever the last operation's end_op starts a commit, what has been committed is sound, and its files are those of memory at one such moment, or the first ones |
| FsCrash.RecoveredSound | log.c:114-121 | in every such run, with any number of crashes and recoveries before, a crash at any moment leaves a disk that recovery makes sound (no block lost, shared or free while in use), every file holding what it held in memory at one and the same moment of rest |
| FsCrash.IdleSound | log.c:114-199 | in every such run memory is sound whenever no operation is under way, after recoveries too |
| MkfsCode.Mkfs.constructor | mkfs.c:83-102 | on the zeroed image exactly the metadata blocks are accounted for and nothing is owned |
| MkfsCode.Mkfs.Ialloc | mkfs.c:219-231 | ialloc hands out the next inode, empty and with one link, and changes no block |
| MkfsCode.Mkfs.Iappend | mkfs.c:251-298 | iappend appends exactly the given bytes to one file, other files unchanged; it takes exactly the blocks that the new length needs more, no inode has blocks behind its size, and the blocks below freeblock stay exactly metadata plus one owner each |
| MkfsCode.Mkfs.FixRoot | mkfs.c:148-153 | rounding the root's size changes no ownership; afterwards every block below its size exists exactly when its size was no multiple of 512 |
| MkfsCode.Mkfs.Balloc | mkfs.c:233-247 | once the bitmap is written the image satisfies the ownership invariant that the kernel's file system starts from |
| MkfsCode.RoundedBacked | mkfs.c:148-153 | a directory with exactly the blocks below its size has those below the rounded size exactly when its size is no multiple of 512 |
| MkfsCode.FullRoot | mkfs.c:112-153 | a root directory of 32 entries ends up with a size of two blocks and one block |
| Umalloc.EnoughExactly | umalloc.c:69 | nunits is enough for the request exactly when the 32-bit sum does not wrap around |
| Umalloc.LeastUnits | umalloc.c:69 | and then no smaller number of units is enough |
| Umalloc.SbrkAskedExactly | umalloc.c:54-60 | sbrk is asked for the units that morecore then uses exactly when they are fewer than 2^28 |
| Umalloc.GivenExactly | sysproc.c:45-57 | sbrk gives the units that morecore asks for exactly when they are fewer than 2^28; otherwise it reads its argument as zero, negative or cut |
| Umalloc.SizeExactly | proc.c:111-127 | after a successful sbrk the process has the units that morecore believes in exactly when they are fewer than 2^28 |
| Umalloc.HugeRequest | umalloc.c:46-90 | a request of 2^31 bytes is served, from units that sbrk never gave, and the next address that sbrk answers lies below the end of that block |
| FreeList.InsertSorted | umalloc.c:32-42 | returning a block keeps the free list in address order with no two blocks overlapping or adjacent |
| FreeList.CoalescedLinked | umalloc.c:32-42 | the assignments of free make the headers in memory the circular list with the block inserted and joined to its neighbours |
| FreeList.InsertFrees | umalloc.c:32-42 | returning a block makes exactly its units free, whatever it joins |
| FreeList.TakeFrees | umalloc.c:75-84 | serving a request takes exactly the last units of the chosen block from the free ones |
| Umalloc.FreeUndoesMalloc | umalloc.c:24-44 | freeing a block right after it was cut gives back the very same free list |
| Umalloc.ServedIs | umalloc.c:74-84 | the block handed out is the upper end of a free block, whose rest stays where it is, and every free block passed on the way from freep is too small |
| Umalloc.Heap.FindPlace | umalloc.c:30-32 | the search of free ends, wherever freep is, at the one place of the circular list where the block belongs |
| Umalloc.Heap.Free | umalloc.c:24-44 | free keeps the whole heap invariant, removes exactly that block from the allocated ones and conserves units |
| Umalloc.Heap.Morecore | umalloc.c:46-61 | whatever sbrk really gave, the address it answers is added to the list as a block of the units asked for, but at least 4096, and nothing else changes; a refusal changes nothing |
| Umalloc.Heap.Malloc | umalloc.c:63-90 | for every request and every answer of sbrk malloc terminates after at most one successful sbrk, made only when no free block fits; it returns a block new among the allocated ones, cut from the first fitting block behind freep; free and allocated units together still equal what sbrk gave exactly when sbrk was not called with success or was asked for fewer than 2^28 units |
| Umalloc.Process.Malloc | umalloc.c:63-90 | in a process whose sbrk only malloc calls, the address that sbrk answers lies behind every block, and free and allocated units equal what it gave, exactly while every request that made malloc call sbrk was below 2^28 units; every malloc keeps this equivalence |
| Umalloc.Process.Free | umalloc.c:24-44 | every free keeps it too |
| ProcTable.Ptable.Wakeup1 | proc.c:392-400 | afterwards no slot sleeps on the channel; the slots that did are runnable, and every other slot is unchanged |
| ProcTable.Ptable.Exit | proc.c:192-212 | children go to init, the parent is awake, init is awake if it inherited a zombie, the process is a zombie, nothing else changes; init's exit is refused |
| ProcTable.ExitedSlot | proc.c:192-212 | what exit does to each slot: the children of the caller get init as parent, sleepers on the parent wake, and on init if a child was a zombie, the caller is a zombie; pid, channel and mark of every slot stay |
| ProcTable.Ptable.WaitPass | proc.c:225-257 | the first zombie child is reaped, and its slot is unused, with pid, parent and mark cleared; without one the caller sleeps exactly when it has children and is not killed |
| ProcTable.Ptable.Allocproc | proc.c:40-53 | the first unused slot becomes an embryo with the next pid, or there is none |
| ProcTable.Ptable.Kill | proc.c:414-432 | the first slot with the pid, whatever its state, is marked, and runnable if it slept, or no slot has the pid |
| ProcRuns.NextKeeps | proc.c:132-259 | every event of fork, exit, wait, sleep, wakeup, kill and scheduling keeps the invariant |
| ProcRuns.ParentsAlive | proc.c:132-259 | in every reachable state a non-null parent is neither unused nor a zombie |
| ProcRuns.NoLostExit | proc.c:176-259 | in every reachable state a process asleep in wait has no zombie child and has a child that has yet to exit |
| ProcRuns.ZombiesReapable | proc.c:195-212 | the parent of a zombie is alive and not asleep in wait, also after reparenting to init |
| ProcRuns.LeadsToInit | proc.c:149-204 | parent pointers never form a cycle: from every process they lead to init |
| ProcRuns.ReapedOnce | proc.c:233-244 | no pid is returned by wait twice in a run |
| ProcRuns.ReapedPidGone | proc.c:233-244 | once wait has returned a pid, no slot, used or unused, has it at any later point of the run |
| ProcRuns.KillSticks | proc.c:414-432 | kill of a pid finds the one slot that has it, the process does not sleep after it, and it stays marked for as long as any slot has the pid |
| ProcRuns.ForkedChild | proc.c:132-172 | when fork makes its child runnable, the parent of the child is the caller and no other slot has its pid |
| ProcRuns.LinkCommutesWithExit | proc.c:150-204 | fork's unlocked store to the parent field gives the same table before and after exit's critical section |
| ProcRuns.CleanExactly | proc.c:44-51 | allocproc does not clear the mark of kill; every step keeps unused slots unmarked exactly when it is neither a kill that finds an unused slot nor the failure of a fork whose child has been killed |
| ProcRuns.BornUnmarked | proc.c:40-53 | in every run without such steps every process is allocated unmarked |
| ProcRuns.BornKilled | proc.c:414-432 | a run in which kill(0) marks an unused slot and the next process forked there is born killed |
| ProcRuns.BornKilledAgain | proc.c:132-148 | a run in which a child is killed before its fork fails, and the next process forked there is born killed although kill only ever found a slot in use |
| SleepWakeup.NextKeeps | proc.c:354-409 | every lock operation, every slot of wakeup1's scan, every switch and every kill keeps the invariant |
| SleepWakeup.NoLostWakeup | proc.c:354-409 | in every run of any number of processes, whenever the lock is free nobody sleeps on a channel whose condition holds |
| SleepWakeup.ReleaseExactly | proc.c:354-409 | giving the lock up with wakeups owed loses one exactly when somebody is committed to sleep on an owed channel |
| SleepScan.WakeupIsWakeup1 | proc.c:392-409 | a whole wakeup of any run, slot by slot and however interleaved, does to the table what wakeup1 does: a table that shows the processes before and goes through wakeup1 shows them afterwards, and nobody is asleep on the channel |
| PipeCode.Tests | pipe.c:84-106 | the counter comparisons tell a full ring from an empty one, also after the 32-bit counters wrapped |
| PipeCode.PutWhileHolds | pipe.c:83-93 | the write loop appends the longest prefix that fits to what the ring holds |
| PipeCode.GetWhileHolds | pipe.c:112-116 | the read loop returns the oldest bytes the ring holds, at most n, and leaves the rest |
| PipeCode.Pipe.WriteTurn | pipe.c:77-97 | between two sleeps pipewrite appends to what the pipe holds as much as fits; it returns the full count exactly when that was everything left, otherwise fails if the read end is closed or the process killed, and sleeps if not; readers are woken unless it fails |
| PipeCode.Pipe.ReadTurn | pipe.c:99-120 | between two sleeps piperead on an empty pipe whose write end is open fails or sleeps; otherwise it takes the smaller of n and what the pipe holds, oldest first, returns that number and wakes writers |
| PipeRuns.ReadsArePrefix | pipe.c:77-120 | in every run the bytes read are a prefix of the bytes written and at most 512 are missing |
| PipeRuns.ReadReturns | pipe.c:99-120 | in every run a read that returns m has added exactly the next m bytes written to what has been read; m is the smaller of n and the bytes unread, so for n above 0 it is 0 exactly when the pipe is empty and its write end closed; a read that fails or sleeps has added nothing |
| PipeRuns.WriteReturns | pipe.c:77-97 | in every run a turn of pipewrite adds as many of its bytes as fit, and returns a count exactly when all fit, the whole length of the call |
| PipeRuns.WholeWrite | pipe.c:77-97 | in every run a pipewrite that returns a count has stored exactly its bytes since it was called, through however many sleeps |
| PipeRuns.SleepingWriter | pipe.c:77-97 | in every run a sleeping writer faces a full pipe whose read end is open |
| PipeRuns.SleepingReader | pipe.c:99-120 | in every run without kill a sleeping reader faces an empty pipe whose write end is open |
| PipeRuns.ReadersKept | pipe.c:83-93 | a step keeps every sleeping reader rightly asleep exactly when it is not a killed writer with more than 512 bytes left writing past a sleeping reader |
| PipeRuns.StrandedReader | pipe.c:84-88 | a run of five steps with one kill that leaves a reader asleep beside a full pipe |
| Grep.Match | grep.c:71-81 | match terminates and returns true exactly when some suffix of the text (the whole text after '^') has a prefix in the declarative language of the pattern |
| Grep.MatchHere | grep.c:84-95 | matchhere decides whether a prefix of the text is in the language of the pattern |
| Grep.MatchStar | grep.c:98-105 | matchstar decides whether some run of c is followed by a match of the rest |
| Grep.LanguageCons | grep.c:84-105 | a word is in the language of a pattern exactly when it splits into a word of the first element and one of the rest |
| Grep.LiteralMatches | grep.c:71-95 | a pattern without special characters matches exactly the texts in which it occurs |
| Grep.LiteralAnchored | grep.c:71-95 | after ^ it matches the texts that start with it, between ^ and $ only itself |
| Grep.DotsMatch | grep.c:84-95 | between ^ and $, n dots match exactly the texts of n characters |
| Grep.StarMatches | grep.c:98-105 | between ^ and $, c* matches exactly the runs of c, the empty one included, and .* everything |
| ShellGrammar.ParseCmd | sh.c:328-447 | for every input, each word and file name of the parsed command is a whole token of the input, and the panic of parseblock is never reached; which inputs are accepted and what they are read as is stated by AcceptsExactly and ReadsLine |
| ShellParser.Parser.NextToken | sh.c:266-309 | gettoken moves the cursor past one token and the spaces around it and reports its kind and place |
| ShellParser.Parser.Command | sh.c:328-343 | the cursor-driven recursive descent computes the grammar's result for every input, panics included, and so reads the texts of lines, and only those, as AcceptsExactly and ReadsLine say |
| ShellParser.Parser.Nulterminate | sh.c:450-494 | nulterminate writes a terminator at the end of every stored token and nowhere else |
| ShellParser.Parser.ParseAndTerminate | sh.c:328-343 | after a successful parsecmd of any input every stored word and file name reads, up to its terminator, as exactly the token it was |
| ShellParser.ReadsBack | sh.c:450-494 | no token's end falls inside another token, so the terminators cut each token exactly at its end |
| ShellText.ReadsLine | sh.c:266-447 | every text of a line, with any white space between tokens, is read as what the line means: words wrapped in exactly the redirections (<, > and >>) that stand before, between and behind them, in that order and with their modes; pipelines and lists to the right; & once for each; parentheses; or gives the panic for too many arguments exactly when a command has 10 words or more |
| ShellText.AcceptsExactly | sh.c:266-447 | the parser accepts a text exactly when it consists of the tokens of such a line whose commands have at most 9 words |
| ShellText.OneMeaning | sh.c:328-447 | two lines that one text spells mean the same |
| ShellText.Tokenized | sh.c:266-309 | every text consists of tokens with white space between them |
| ShellRoundTrip.LineRoundTrip | sh.c:328-447 | a line printed flat, with spaces only where two tokens would run together, is parsed back to what it means |
| ShellRoundTrip.RoundTrip | sh.c:328-447 | a command tree printed with full parentheses is parsed back to itself exactly when every command has at most 9 words, and gives the panic for too many arguments otherwise |
| LinkRuns.LinkCounts | sysfile.c:115-281 | in every run an inode's link count is the number of entries other than "." naming it in directories not unlinked, plus links in progress |
| LinkRuns.OneParent | sysfile.c:181-281 | in every run a directory that is neither unlinked nor the root has exactly one entry besides its children's "..", in the directory its own ".." names |
| LinkRuns.LeadsToRoot | sysfile.c:238-281 | from every live directory ".." leads to the root |
| LinkRuns.KeptExactly | sysfile.c:115-281 | an operation keeps every link count and every parent right exactly when it enters no name into a directory that has been unlinked |
| LinkRuns.AddToDeadBreaks | sysfile.c:238-281 | a name entered into an unlinked directory always makes a link count or a parent wrong |
| LinkRuns.UsedAfterUnlink | sysfile.c:238-281 | a run from a fresh file system: create a directory, unlink it, create a file in it, which then has a link count of one and no name |
| LinkRuns.UnlinkFacts | sysfile.c:199-221 | unlink's panic on a link count below one is unreachable, and an empty directory has exactly one link |
| LinkRuns.StartInv | mkfs.c:104-146 | the root directory that mkfs writes satisfies the invariant |
| DirCode.Directories.Dirlookup | fs.c:507-531 | dirlookup finds the first used slot with the name, or no used slot has it |
| DirCode.Directories.Dirlink | fs.c:534-561 | dirlink refuses a present name, else fills the first free slot, or appends if there is none |
| DirCode.Directories.Isdirempty | sysfile.c:165-178 | isdirempty decides whether every slot from the third on is free |
| DirCode.Directories.Create | sysfile.c:238-281 | create of a new name makes the inode, its dots and its entry with the right counts; of an existing name it changes nothing and returns the inode of the entry found if a file was asked for and that is one |
| DirCode.Directories.LinkBegin | sysfile.c:128-137 | the count is raised before the name exists, for files only |
| DirCode.Directories.LinkFinish | sysfile.c:139-161 | the name is entered, or the count is lowered again |
| DirCode.Directories.Unlink | sysfile.c:181-236 | unlink succeeds exactly when the name is plain and found, and is not that of a directory in which a slot from the third on names anything; then it removes exactly that entry and lowers the counts as the step system prescribes, otherwise it changes nothing |
| DirLaws.UnlinkSucceeds | sysfile.c:165-221 | in every reachable state unlink of a plain name succeeds exactly when it names no directory, or one in which no slot from the third on names anything |
| DirLaws.EmptyAgain | sysfile.c:181-281 | an empty directory can be unlinked; after a name has been created in it it cannot, and after that name has been unlinked it can again |
| DirLaws.CreateResolves | sysfile.c:238-281 | after create lookup of the new name gives the new inode, a new directory has its two names, and every other name in every directory leads where it led |
| DirLaws.LinkResolves | sysfile.c:139-147 | after link lookup of the new name gives the inode, and every other name leads where it led |
| DirLaws.UnlinkResolves | sysfile.c:208-221 | after unlink the name leads nowhere and every other name leads where it led |
| VmCode.Vm.Walkpgdir | vm.c:45-65 | an existing page table is found; a missing one is taken from the free list, cleared and linked in, if asked and possible |
| VmCode.Vm.Setupkvm | vm.c:128-144 | every kernel mapping is made on frames taken from the free list alone; it succeeds exactly when there are frames for the page directory and for each page table needed, and otherwise uses up every free frame |
| VmCode.Vm.CopyPage | vm.c:317-330 | one page is copied with its bytes and flags onto a fresh frame; failure for want of a page table leaves one frame in nobody's hands |
| VmCode.Vm.Copyuvm | vm.c:309-337 | copyuvm succeeds exactly when enough frames are free; then the child has every page with the parent's bytes and flags on frames taken from the free list, all of them its own; a failure in setupkvm loses every free frame, a later one loses a frame exactly when the number left after setupkvm is 1 modulo 1025; no other frame changes |
| VmCode.Vm.Deallocuvm | vm.c:249-273 | exactly the mapped pages of the range that are not jumped over are freed and unmapped; frames are conserved |
| VmCode.Vm.Freevm | vm.c:277-292 | freevm returns exactly the frames of the address space to the free list, each once, and touches no other frame |
| VmCode.FreesAllExactly | vm.c:257-271 | no page of the range is left exactly when none lies in the part of a page table that the 4 MB jumps land behind |
| VmCode.ContiguousMissesNone | vm.c:257-271 | in contiguous user memory the jumps miss nothing |
| VmCode.MissedExample | vm.c:257-271 | with a gap a mapped page can be missed |
| VmCode.Vm.CopyThenFree | vm.c:277-337 | after copyuvm, and freevm of the copy if there is one, the free frames are exactly those that were free before without the lost ones, and no other frame has changed |
| VmCode.Vm.CopyLoses | vm.c:328-336 | with one frame left behind setupkvm, copying a program of a page or more fails and that frame is gone |
| VmGrow.Allocuvm | vm.c:220-243 | memory is contiguous up to newsz afterwards exactly when there are frames for the pages and the missing page tables; then the new pages are cleared and everything else is as it was; otherwise it returns 0 and frees what it had added, except that it returns newsz with the last page missing if only that page's table finds no frame; at most one frame is lost, and it is counted |
| VmGrow.GrowPage | vm.c:232-240 | one page is added on a fresh cleared frame, with its page table if that is missing; failure for want of a page table leaves one frame in nobody's hands |
| VmGrow.GrowHole | vm.c:220-243 | an empty address space and one free frame: growing it to a page returns the new size, and no page is there |
| VmGrow.GrownUsable | vm.c:45-65 | both levels of the table let a process read and write every page it grew by, which holds zeroes, and what it may do with every other page is as before |
| VmGrow.CopiedUsable | vm.c:317-330 | through both levels of its table a child may do with every user page what its parent may do with it |
| PageTables.SpaceKept | vm.c:45-90 | an address space none of whose frames changes is unchanged, page by page |

## Left out

- Port I/O, interrupt controllers, timers, the console, boot code, assembly and context switching.
- The signal additions, ELF loading, argument fetching, printf and the small user programs.
- The inode cache (iget, iput, ilock) and path walking (skipelem, namex): operations take the inode they resolve to.
- Device inodes and `mknod`; a file and a device are not told apart in `Dirs`.
- Disk errors, and the second IDE disk.
- `inituvm`, `loaduvm` and `clearpteu`: each is one call or one loop over pages that `Allocuvm` has made.
- `pushcli` and `popcli`; a lock operation is one step in `Sleep`.
- Running shell commands; only parsing is modelled.
- The bytes between the end of the root directory and its rounded size.
- `parseexec` fills its node after redirections have been wrapped around it; the model collects the redirections and
  wraps them at the end, so that sharing of the node is not captured.
- Which of its panics the shell's parser ends with on a text that is not a line, beyond what `ParseCmd` states.
- FsCode.Fs.Bmap: requires a free data block where it allocates; what follows once `balloc` leaves the data area
  (`BallocBelowLog` says when, `FullDisk` shows it) is not modelled.
- FsCode.Fs.Writei: requires room for the blocks that the file's new length needs, if it is not refused, for that
  reason.
- FsCode.Fs.WriteThenRead: requires the same room as `Writei`.
- FsCode.Fs.WriteChunk: requires the same room as `Writei`.
- FsCode.Fs.Filewrite: requires room for the blocks that the bytes it will store need.
- MkfsCode.Mkfs.Iappend: requires room below the log for the blocks it takes; mkfs.c itself does not check.
- LinkRuns.LinkCounts: link counts are not cut to 16 bits.
- Umalloc.Heap.Morecore: requires that sbrk's answer lies behind every block; `Process` says exactly when it does.
  After an answer without memory the process may also fault when it writes there, which is not modelled.
- Umalloc.Heap.Malloc: requires the same of sbrk's answer.
- Umalloc.Process.Malloc: requires that sbrk does not succeed once a request of 2^28 units or more has grown the heap;
  what a block below earlier ones then does to the list is not modelled.
- FsSerial.SoundChunk: requires the same room as `Writei`.
- FsSerial.ChunkRun: requires the same room as `Writei`, and a log area large enough for the chunk.
- FsCrash.RecoveredSound: link counts and the structure of directories are not part of the invariant carried through a
  crash; directories are files like others there.
- VmCode.Vm.Freevm: kfree's own panics on frames outside physical memory are not modelled.