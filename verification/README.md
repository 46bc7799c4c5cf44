# A verified model of the modified xv6 kernel

This project models, in Dafny, the parts of the `xv6-riscv-modificado` system
whose correctness is hardest to see from the code, and proves what they are for.

* **Crash-safe storage.** `Blocks`, `LogSpec`, `Bio`, `Storage`, `Admission`,
  `Log`, `CommitRun`, `FullLog`: the disk is a sequence of blocks written one at
  a time, every write a possible crash point. The buffer cache is an array of
  records threaded by a doubly linked LRU ring; the redo log runs on top of it,
  and the methods' write traces are exactly the traces about which crash
  atomicity is proved, for blocks in `LogSpec` and for whole files in `FsCrash`.
  A block that is logged and not yet installed is *current* in its pinned
  buffer; `view` names the current contents of every block. Processes that wait
  for a buffer are listed with the block they asked for, and `CommitRun` lets
  readers run between any two lock sections of a commit.
* **Files.** `FsSpec`, `FsContent`, `Dinode`, `Fs`, `File`, `FsCrash`: bitmap,
  inodes and block maps over that view. `Own` says that a bitmap bit is set
  exactly for metadata and for blocks named by exactly one slot of one inode;
  `FileBytes` is the byte sequence a file stands for. The on-disk format of
  inodes, bitmap, block maps and log header is stated byte by byte.
* **Memory.** `Pages`, `Kalloc`, `VmSpec`, `VmNeed`, `Vm`, `VmSpace`, `Uvm`,
  `Sbrk`, `Freewalk`, `Fork`, `VmAccess`: three-level page tables in physical
  pages, the finite map they stand for (`Leaf`), the owner of every page,
  rollback, how many free pages each operation takes (each fails exactly when
  there are fewer), and what the hardware and `walkaddr` then reach.
* **The user heap.** `Umalloc`: the circular, address-ordered free list of
  section 8.7 of The C Programming Language.
* **Processes.** `ProcState`, `SleepLock`, `ExitWait`, `Fcfs`: sleep locks, fork,
  exit and wait as interleaved steps under explicit locks, and the first come,
  first served scheduler of one hart with the runs it produces.
* **The shell's parser.** `ShellGrammar`, `Shell` follow the code;
  `ShellSyntax`, `ShellText` say what a command line means without it: the
  phrases of the language, how they are written, and the trees they stand for.
* **Smaller cores.** `Pipe`, `Grep`.

Methods follow the C functions, with the loop bodies of the longer ones as
methods of their own. They are proved against functions of the state; the
properties that span functions are lemmas about those functions.

What the code does beyond, or against, what one may expect:

* A full log pins every buffer (`NBUF` equals `LOGBLOCKS`), so a commit of 30
  blocks finds no buffer for its log block and panics in `bget`: with no buffer
  held or awaited, `Commit` succeeds exactly when fewer than `NBUF` are logged.
  `FullLogCommitFails` is a run into it from boot, with operations that log ten
  distinct blocks each. It takes such an operation: the last one to end must
  have spent its whole budget (`FullOnlyIfSpent`), while a chunk of `filewrite`
  logs at most six blocks besides bitmap blocks (`WriteChunk`), so at most seven
  on an image with one bitmap block.
* `begin_op` reserves a whole budget for every active operation, also for what
  it has logged already; with only the two numbers it looks at, that is the
  weakest safe guard (`GuardIsWeakest`).
* `log_write` tests for a full log before it looks for absorption, so a caller
  must be below its budget even for a block already logged.
* A writer killed after at least one byte leaves `pipewrite` without waking the
  reader: `Write` gives the exact condition, `ReaderLeftAsleep` a run.
* `malloc` of more than 0x7FFFFFE0 bytes hands `sbrk` a truncated count, mostly
  negative, which succeeds, and then uses memory that was never granted:
  `OversizedRequest`, with an input in `TwoGigabytes`.
* The rollback in `proc_pagetable` after a failed second `mappages` is never
  run: `ProcPagetable`.
* `sbrk` with a negative count beyond the size succeeds and changes nothing.
* `grep` prints nothing from the first line on that does not fit its buffer:
  `PrintsAllIff`, with an input in `LongLineHidesMatch`.

Check the project with `dafny verify dfyconfig.toml`.

## Model

| member | source | states |
|---|---|---|
| `LogSpec.HeaderRoundTrip` | xv6-riscv-modificado/kernel/log.c:87-116 | the header block that write_head stores is read back by read_head as the same block list, whatever the block held before |
| `LogSpec.HeaderLayout` | xv6-riscv-modificado/kernel/log.c:34-39 | read_head reads the block list that the header's bytes spell: the count in the first four, block number i in the four at 4 + 4 * i, least significant first |
| `LogSpec.EncodeHeaderLayout` | xv6-riscv-modificado/kernel/log.c:103-116 | write_head leaves exactly these bytes and keeps the rest of the block |
| `LogSpec.RecoveredIsDurable` | xv6-riscv-modificado/kernel/log.c:67-125 | after recovery every home block holds its log copy if the header lists it, else what it held, and the log is empty |
| `LogSpec.RecoveryPrefix` | xv6-riscv-modificado/kernel/log.c:67-125 | a crash after any number of recovery's block writes leaves a disk with the same durable contents, so recovery can start over |
| `LogSpec.CommitPrefix` | xv6-riscv-modificado/kernel/log.c:180-206 | after any prefix of commit's block writes, crashed into recovery any number of times, the durable home blocks are all old or all new, new exactly from the header write on |
| `LogSpec.CrashAtomicity` | xv6-riscv-modificado/kernel/log.c:67-206 | crash atomicity: for every number of commit writes done, and every sequence of crashes inside recovery, the recovered disk holds every home block's old contents or every one's new contents, the latter exactly when the non-empty header write was done; the log is empty again |
| `FsCrash.HomeIsAll` | xv6-riscv-modificado/kernel/fs.h:7-22 | ownership, the absence of holes, the on-disk inodes and every file's bytes depend on the blocks outside the log area only |
| `FsCrash.FilesSurviveCrash` | xv6-riscv-modificado/kernel/log.c:67-206 | crash atomicity for files: stop a commit after any of its writes and crash recovery any number of times; the recovered file system is whole, with every file's old bytes or every file's new ones, new exactly from the header write on |
| `FsCrash.ChainSurvivesCrash` | xv6-riscv-modificado/kernel/log.c:67-206 | the same for any number of transactions one after the other: a crash in the commit of transaction n leaves a whole file system with exactly the files after n or after n + 1 transactions |
| `FsCrash.ChunksSurviveCrash` | xv6-riscv-modificado/kernel/file.c:145-172 | a write cut into chunks over several transactions: a crash anywhere leaves in the file a first part of the bytes, up to the end of a transaction |
| `Bio.UnlinkKeepsList` | xv6-riscv-modificado/kernel/bio.c:126-131 | taking a buffer out of the doubly linked ring leaves the rest linked both ways, in order |
| `Bio.PushKeepsList` | xv6-riscv-modificado/kernel/bio.c:128-131 | putting it back behind the head leaves a doubly linked ring with it first |
| `Bio.Bcache.constructor` | xv6-riscv-modificado/kernel/bio.c:35-53 | binit: all buffers on the ring, keyed (0, 0), unreferenced and unlocked |
| `Bio.Bcache.Lookup` | xv6-riscv-modificado/kernel/bio.c:61-87 | bget under bcache.lock: a hit counts one more reference, a miss gives the key to the unreferenced buffer nearest the least recently used end; it fails, where the code panics, exactly when the block is not cached and no buffer is unreferenced; the caller is from then on listed as waiting for this block in this buffer |
| `Bio.LookupWaits` | xv6-riscv-modificado/kernel/bio.c:75-84 | a lookup never recycles a buffer somebody waits for: every other waiter's buffer stays on the block it asked for |
| `Bio.Bcache.Bget` | xv6-riscv-modificado/kernel/bio.c:55-88 | a hit is the one buffer with the key, a miss takes the unreferenced buffer nearest the least recently used end; it waits, its reference counted, exactly when somebody holds the block's buffer; it fails, where the code panics, exactly when the block is not cached and no buffer is unreferenced |
| `Bio.Bcache.Bread` | xv6-riscv-modificado/kernel/bio.c:90-102 | unless it waits in bget, the locked buffer is valid: its own contents if it was valid, else the disk block's |
| `Bio.Bcache.Resume` | xv6-riscv-modificado/kernel/bio.c:61-101 | a bread that waited gets the lock of a buffer that still caches the block it asked for, with valid contents, its reference counted once; the waiters and the references behind them are part of the cache's invariant, which every method keeps, so neither a lookup, brelse nor bunpin can take them away |
| `Bio.Bcache.Bwrite` | xv6-riscv-modificado/kernel/bio.c:104-111 | exactly the buffer's block changes on disk, to its contents |
| `Bio.Bcache.Brelse` | xv6-riscv-modificado/kernel/bio.c:113-135 | the lock and one reference go; the buffer moves to the most recently used end exactly when that was the last reference, and the ring keeps the order of the others |
| `Bio.Bcache.Bpin` | xv6-riscv-modificado/kernel/bio.c:137-143 | one more reference to this buffer and no other change |
| `Bio.Bcache.Bunpin` | xv6-riscv-modificado/kernel/bio.c:145-151 | one reference less to this buffer, which must be neither the holder's nor a waiter's, and no other change |
| `Storage.ReadKeeps` | xv6-riscv-modificado/kernel/bio.c:55-102 | bread of a buffer nobody holds returns the latest logged contents if the block is logged, else the disk contents, whoever waits elsewhere; pinned, held and awaited buffers keep their block, so the agreement of cache, disk, log and waiters survives recycling |
| `Storage.WaitKeeps` | xv6-riscv-modificado/kernel/bio.c:55-88 | the lookup of a block, held by another or not, keeps the agreement, with one waiter more; every referenced buffer keeps its block |
| `Storage.ResumeKeeps` | xv6-riscv-modificado/kernel/bio.c:61-101 | a waiter that gets the lock finds the latest logged contents of the block it asked for, and the agreement holds with one waiter less |
| `Storage.ReleaseKeeps` | xv6-riscv-modificado/kernel/bio.c:113-135 | releasing a buffer whose contents are current keeps cache, disk and log in agreement |
| `Storage.WriteKeeps` | xv6-riscv-modificado/kernel/bio.c:104-111 | a write-through of a held buffer keeps the agreement |
| `Storage.EditKeeps` | xv6-riscv-modificado/kernel/fs.c:546-556 | editing a held buffer's bytes before it is logged or written keeps the agreement: nothing else sees them |
| `Storage.PinKeeps` | xv6-riscv-modificado/kernel/log.c:217-238 | logging a block for the first time pins its buffer and makes its contents current, the disk untouched |
| `Storage.AbsorbKeeps` | xv6-riscv-modificado/kernel/log.c:226-234 | logging a block again changes what is current without a second pin |
| `Storage.UnpinKeeps` | xv6-riscv-modificado/kernel/log.c:67-85 | dropping the pin of an installed block keeps the agreement for the blocks still pinned; its buffer had the references of pin, holder and waiters and no other |
| `Storage.FreeSlotIffRoom` | xv6-riscv-modificado/kernel/param.h:10-11 | an unreferenced buffer remains exactly when fewer than NBUF are pinned, held or waited for; each logged block pins one, so with no holder and no waiter one remains exactly when fewer than NBUF blocks are logged, and a full log of LOGBLOCKS = NBUF blocks pins them all |
| `Admission.StepKeepsInv` | xv6-riscv-modificado/kernel/log.c:127-238 | begin_op, log_write, end_op and the end of a commit keep: log entries plus the unused budgets of the active operations are at most LOGBLOCKS, and nothing is active while a commit runs |
| `Admission.AdmissionIsSafe` | xv6-riscv-modificado/kernel/log.c:127-238 | in every interleaved run: log_write never finds the log full for an operation within its budget, no operation is active during a commit, and an idle log admits the next operation |
| `Admission.FullOnlyIfSpent` | xv6-riscv-modificado/kernel/log.c:127-169 | a commit finds the log full only if the operation that ended last logged MAXOPBLOCKS distinct blocks, its whole budget |
| `Admission.OverfillsIff` | xv6-riscv-modificado/kernel/log.c:127-145 | an admission lets operations within their budgets overfill the log exactly if entries, unused budgets and one budget more exceed it |
| `Admission.GuardIsWeakest` | xv6-riscv-modificado/kernel/log.c:133-137 | begin_op's guard, over the numbers of entries and active operations, is the weakest safe one: it never admits an operation that could overfill the log, and where it refuses, a state with the same numbers keeps the invariant and could be overfilled |
| `LogModule.Log.BeginOp` | xv6-riscv-modificado/kernel/log.c:127-145 | one pass of the loop: it goes ahead exactly when no commit runs and the log has room for one more full budget; one more operation is then active |
| `LogModule.Log.EndOp` | xv6-riscv-modificado/kernel/log.c:147-169 | the panic is not met; the last operation out starts the commit |
| `LogModule.Log.Read` | xv6-riscv-modificado/kernel/bio.c:90-102 | bread between the log's lock sections: the latest logged contents of the block, or a wait exactly when somebody holds its buffer; it fails exactly when the block is not cached and no buffer is unreferenced; logged blocks stay pinned |
| `LogModule.Log.Resume` | xv6-riscv-modificado/kernel/bio.c:61-101 | the end of the wait: the latest logged contents of the block that was asked for |
| `LogModule.Log.LogWrite` | xv6-riscv-modificado/kernel/log.c:217-238 | within its budget an operation meets neither panic; the buffer's contents become current, the block is pinned exactly when it was not logged before, and the disk is not written; the list grows by the block or stays |
| `LogModule.Log.Edit` | xv6-riscv-modificado/kernel/fs.c:546-556 | the holder of a buffer changes its bytes before logging it: cache, disk and log still agree, and only that buffer changes |
| `LogModule.Log.WriteHead` | xv6-riscv-modificado/kernel/log.c:103-116 | when nobody holds the header's buffer: the header block on disk takes the in-memory count and list, nothing else changes; it fails exactly when the header is not cached and no buffer is free; its bytes spell count and list |
| `LogModule.Log.CopyToLog` | xv6-riscv-modificado/kernel/log.c:185-192 | one copy to the log, when nobody holds its two buffers, whoever holds or awaits others: exactly the log copy is written; it fails exactly when the log block is not cached and no buffer is free |
| `LogModule.Log.WriteLog` | xv6-riscv-modificado/kernel/log.c:180-193 | uninterrupted, with none of its buffers held: exactly the log copies are written, in order; it fails before any write exactly when no buffer is free |
| `LogModule.Log.InstallOne` | xv6-riscv-modificado/kernel/log.c:73-84 | one install, when nobody holds its two buffers: exactly the home block is written, and outside recovery its pin is dropped, the references of waiters staying; it fails exactly when the log block is not cached and no buffer is free |
| `LogModule.Log.InstallTrans` | xv6-riscv-modificado/kernel/log.c:67-85 | uninterrupted, with none of its buffers held: exactly the home blocks are written, in order, and outside recovery every pin is dropped |
| `LogModule.Log.Commit` | xv6-riscv-modificado/kernel/log.c:195-206 | uninterrupted, with none of its buffers held: the disk trace grows by exactly the commit writes that crash atomicity speaks of; afterwards home blocks hold what was current, the log is empty and unpinned; it fails, before any write, exactly when something is logged and no buffer is free, which with no buffer held or awaited means exactly when NBUF blocks are logged |
| `LogModule.Log.EndOpAndCommit` | xv6-riscv-modificado/kernel/log.c:147-206 | an uninterrupted end_op: the last operation leaves every home block on disk as the file system sees it and an empty log that admits again; one that is not the last asks nothing about held buffers |
| `LogModule.Log.FinishCommit` | xv6-riscv-modificado/kernel/log.c:171-178 | the end of a commit lets operations in again |
| `CommitRun.CommitStarts` | xv6-riscv-modificado/kernel/log.c:147-206 | the log's state when a commit is called, nobody holding a changed buffer, is an initial state of the runs that follow |
| `CommitRun.CommitKeeps` | xv6-riscv-modificado/kernel/log.c:67-206 | every lock section of a commit (lookup, end of a wait, block write, bunpin, brelse) keeps cache, disk, pins, holders and waiters in agreement and makes the next commit write, whatever others did since its last section |
| `CommitRun.OtherKeeps` | xv6-riscv-modificado/kernel/bio.c:55-135 | every lock section of another process (a lookup of any block, the end of a wait, a brelse) between any two of the commit's keeps the same |
| `CommitRun.CommitGivesBack` | xv6-riscv-modificado/kernel/log.c:67-206 | the commit gives back what it takes: none of its steps changes what others hold or wait for, so that between two of its writes it holds no buffer |
| `CommitRun.CommitAmongReaders` | xv6-riscv-modificado/kernel/log.c:67-206 | in every interleaving of a commit with any number of readers: disk and trace are those of the first k commit writes and nothing else, every home block's current contents stay what they were, and logged blocks stay pinned up to their install |
| `CommitRun.DoneIsCommitted` | xv6-riscv-modificado/kernel/log.c:195-206 | a commit that reaches its end among readers has issued exactly the commit writes, dropped every pin and emptied the log, as the uninterrupted one |
| `CommitRun.ReadersSeeTheLogged` | xv6-riscv-modificado/kernel/bio.c:90-102 | whoever gets a home block's buffer at any moment of a commit gets the block it asked for with the contents last logged |
| `CommitRun.CrashAmongReaders` | xv6-riscv-modificado/kernel/log.c:67-206 | a crash in any state of any such run, and any crashes in recovery, leave all old or all new home blocks, new exactly from the header write on |
| `CommitRun.PanicIsCrowding` | xv6-riscv-modificado/kernel/bio.c:86-87 | the panic for want of a buffer, of the commit or a reader, needs logged blocks not yet installed, holders and waiters to be at least NBUF together, whether it comes before or after a block write |
| `CommitRun.SecondIsCached` | xv6-riscv-modificado/kernel/log.c:180-193 | the second bread of each copy never panics: its block is pinned |
| `LogModule.Log.ReadHead` | xv6-riscv-modificado/kernel/log.c:87-101 | the in-memory list is the on-disk one |
| `LogModule.Log.Recover` | xv6-riscv-modificado/kernel/log.c:118-125 | at boot the disk becomes the recovered disk by exactly the recovery writes, and cache, log and disk agree |
| `FullLog.FullLogCommitFails` | xv6-riscv-modificado/kernel/log.c:127-206 | the full log met: from a boot on a blank disk an admission run, in which every log_write is within its operation's budget, ends with LOGBLOCKS blocks logged and the commit started; the commit then fails with nothing written since the boot |
| `FsSpec.BitOfPut` | xv6-riscv-modificado/kernel/fs.c:79-99 | setting or clearing one bitmap bit changes that bit of the block and no other |
| `FsSpec.UsedOfPut` | xv6-riscv-modificado/kernel/fs.c:67-107 | ... and so one block's allocation and no other's, over all bitmap blocks |
| `FsSpec.BitmapLayout` | xv6-riscv-modificado/kernel/fs.c:67-107 | the allocation of block b is bit b % 8, least significant first, of byte b % 8192 / 8 of the bitmap block b / 8192 |
| `FsSpec.OwnFrame` | xv6-riscv-modificado/kernel/fs.c:67-107 | block ownership depends on block map slots and bitmap bits only |
| `FsSpec.AllocKeeps` | xv6-riscv-modificado/kernel/fs.c:67-90 | balloc's write keeps ownership, with the new block awaiting its name |
| `FsSpec.AdoptKeeps` | xv6-riscv-modificado/kernel/fs.c:406-445 | entering the awaiting block in an empty slot restores full ownership: a bit is set exactly for metadata and for blocks named by exactly one slot |
| `FsContent.NameInInode` | xv6-riscv-modificado/kernel/fs.c:411-421 | a direct slot, or the indirect pointer, takes the new block: ownership holds and every other slot keeps its block |
| `FsContent.NameInIndirect` | xv6-riscv-modificado/kernel/fs.c:423-442 | the same for an entry of the indirect block |
| `FsContent.DataWriteKeeps` | xv6-riscv-modificado/kernel/fs.c:541-552 | writing a data block changes no block map slot and no bitmap bit |
| `FsContent.ExtendsKeepsBytes` | xv6-riscv-modificado/kernel/fs.c:406-445 | a byte of a mapped block reads the same after any growth of any block map |
| `FsContent.FileLayout` | xv6-riscv-modificado/kernel/fs.c:406-445 | byte x of a file is byte x % 1024 of the block in its direct entry x / 1024, or in the four bytes at 4 * (x / 1024 - 12) of its indirect block |
| `FsContent.TruncKeeps` | xv6-riscv-modificado/kernel/fs.c:449-477 | when exactly one inode's blocks become free and its slots vanish, ownership holds and every other slot stays |
| `Dinodes.DinodeRoundTrip` | xv6-riscv-modificado/kernel/fs.c:227-245 | ilock reads back what iupdate stored, and the other inodes of the block are as before |
| `Dinodes.InodeLayout` | xv6-riscv-modificado/kernel/fs.h:31-38 | what ilock takes from a block are the inode's 64 bytes: type, major, minor, nlink in two each, the size in four, thirteen block numbers in four each, least significant first |
| `Dinodes.PutDinodeLayout` | xv6-riscv-modificado/kernel/fs.c:227-245 | iupdate's copy puts these bytes there and leaves every other byte of the block |
| `Dinodes.UpdateSyncs` | xv6-riscv-modificado/kernel/fs.c:227-245 | iupdate brings one on-disk inode up to date and leaves the agreement of all others |
| `Fs.FileSystem.LogWrite` | xv6-riscv-modificado/kernel/log.c:217-238 | log_write as the file system uses it: one more distinct block in the transaction, within MAXOPBLOCKS |
| `Fs.FileSystem.Balloc` | xv6-riscv-modificado/kernel/fs.c:67-90 | the lowest free block is marked and zeroed; 0 exactly when every block is allocated |
| `Fs.FileSystem.Bfree` | xv6-riscv-modificado/kernel/fs.c:93-107 | exactly this block's bit is cleared |
| `Fs.FileSystem.Bmap` | xv6-riscv-modificado/kernel/fs.c:406-445 | a mapped block is only looked up; otherwise a zeroed block is mapped, with the indirect block if needed; 0 on a full disk, also when only the indirect block could be had; ownership holds on every path |
| `Fs.FileSystem.Iupdate` | xv6-riscv-modificado/kernel/fs.c:227-245 | the 64 bytes of the inode's place in its inode block become the in-memory inode, field by field; every other byte of the disk, file and inode is as before |
| `Fs.FileSystem.Ilock` | xv6-riscv-modificado/kernel/fs.c:294-318 | a recycled in-memory inode is filled with exactly the fields that the 64 bytes of its place in its inode block spell |
| `Fs.FileSystem.Itrunc` | xv6-riscv-modificado/kernel/fs.c:449-477 | exactly this inode's blocks become free, bfree never meets a free bit, and every other file reads as before; the caller's transaction must have room for the bitmap blocks of exactly the inode's own blocks and for the inode |
| `Fs.FileSystem.Readi` | xv6-riscv-modificado/kernel/fs.c:495-522 | exactly the requested slice of the file clipped to its size, or -1 when the user copy fails; nothing is allocated or logged |
| `Fs.FileSystem.Writei` | xv6-riscv-modificado/kernel/fs.c:529-563 | a result tot replaces or appends exactly bytes [off, off + tot); no other file's bytes change; -1 exactly for a hole, a wrap-around or the size limit, with nothing changed; less than n only after a failed copy or on a full disk; at most MAXOPBLOCKS blocks are logged, and apart from bitmap blocks only those of the chunks, the indirect block and the inode |
| `Fs.ChunkFits` | xv6-riscv-modificado/kernel/file.c:145-153 | a write of up to three blocks' worth of bytes, at any offset, needs at most MAXOPBLOCKS log blocks even when every allocation falls in a different bitmap block |
| `Fs.ChunkIsLargest` | xv6-riscv-modificado/kernel/file.c:145-153 | the count fits at every offset exactly for writes of at most three blocks' worth of bytes, and an unaligned one of that size uses it up |
| `FileIo.WriteChunk` | xv6-riscv-modificado/kernel/file.c:156-170 | one transaction of filewrite: -1 exactly for a hole or the size limit; a short write only after a failed copy or on a full disk; it logs at most MAXOPBLOCKS blocks and at most six besides bitmap blocks |
| `FileIo.FileWrite` | xv6-riscv-modificado/kernel/file.c:134-179 | the first w bytes replace or extend the file at the offset, the result is n when w is n and else -1; the offset moves by w, no other file changes; all n bytes are written whenever the user copy can read them, the offset is within the file and the size limit allows, unless the disk is full at the end; where one of the first three fails the result is -1 |
| `FileIo.FileRead` | xv6-riscv-modificado/kernel/file.c:106-130 | which bytes, 0 or -1, for every offset, count (also negative) and user buffer; outside any transaction |
| `Kalloc.ChainAppend` | xv6-riscv-modificado/kernel/kalloc.c:59-103 | linking a page behind the last one appends it to the list |
| `Kalloc.Kmem.Kfree` | xv6-riscv-modificado/kernel/kalloc.c:59-103 | the page joins the end of the queue; the tail pointer is right also when the list was empty |
| `Kalloc.Kmem.Kalloc` | xv6-riscv-modificado/kernel/kalloc.c:106-127 | the front page, 0 exactly when there is none |
| `Kalloc.Kmem.Freerange` | xv6-riscv-modificado/kernel/kalloc.c:36-54 | the queue gets exactly the whole pages of the range, in address order |
| `Kalloc.PagesFromExact` | xv6-riscv-modificado/kernel/kalloc.c:36-54 | those are exactly the page-aligned addresses whose page lies in the range |
| `Kalloc.FifoRun` | xv6-riscv-modificado/kernel/kalloc.c:59-127 | over any sequence of kfree and kalloc, what was handed out and what remains are together, in order, what was there and what was freed: first in, first out, and no page lost or doubled |
| `VmSpec.PteRoundTrip` | xv6-riscv-modificado/kernel/riscv.h:364-369 | PA2PTE, PTE2PA and PTE_FLAGS undo each other on page-aligned addresses |
| `VmSpec.IndicesOfPage` | xv6-riscv-modificado/kernel/riscv.h:371-380 | the three 9-bit indices of an address make up its page number, so different pages never share all three |
| `VmAccess.Sv39FindsLeaf` | xv6-riscv-modificado/kernel/riscv.h:352-380 | the hardware's three-level walk, told from the words in memory, ends with exactly the leaf that the page table's tree gives |
| `VmAccess.UserPageIsHardware` | xv6-riscv-modificado/kernel/vm.c:121-142 | walkaddr answers the page that a user access reaches in hardware, and 0 where none does |
| `VmAccess.EntryBits` | xv6-riscv-modificado/kernel/riscv.h:358-369 | the words stored for tables, trampoline, trapframe and program memory, bit by bit |
| `VmSpec.AddMid` | xv6-riscv-modificado/kernel/vm.c:98-118 | entering a fresh level-1 table keeps the tree well formed and every mapping |
| `VmSpec.AddLow` | xv6-riscv-modificado/kernel/vm.c:98-118 | the same for a fresh level-0 table |
| `VmSpec.PutLeaf` | xv6-riscv-modificado/kernel/vm.c:146-176 | storing an entry changes the finite map at that page and nowhere else, since table pages are unshared |
| `VmNeed.NeedMore` | xv6-riscv-modificado/kernel/vm.c:98-116 | needs add up: to map one page more takes that page and the level-1 and level-0 tables still missing once the tables for the others are there; it is what makes the exact failure conditions below independent of the order of mapping |
| `Vm.Phys.Walk` | xv6-riscv-modificado/kernel/vm.c:98-118 | finds the entry's table or builds the way to it, each new table taken from the free pages; with alloc, 0 exactly when fewer pages are free than the tables the tree lacks for the address; every mapping stays |
| `Vm.Phys.Walkaddr` | xv6-riscv-modificado/kernel/vm.c:121-142 | the page of a valid user mapping below MAXVA, else 0: UserPage, of which the contracts of uvmalloc, vmfault, proc_pagetable and fork speak |
| `Vm.Phys.Mappages` | xv6-riscv-modificado/kernel/vm.c:146-176 | exactly the range gets its entries; -1 exactly when fewer pages are free than the tables the tree lacks for the range, with a prefix of it mapped; the remap panic is not met on an unmapped range |
| `Vm.Phys.Uvmunmap` | xv6-riscv-modificado/kernel/vm.c:193-213 | exactly the range loses its mappings, and with do_free their pages join the queue in address order |
| `VmSpace.MapKeepsSpace` | xv6-riscv-modificado/kernel/vm.c:217-243 | mapping a fresh page below the size keeps: user leaves below the size, each with a page of its own, and every page free, a table or mapped |
| `VmSpace.UnmapKeepsSpace` | xv6-riscv-modificado/kernel/vm.c:193-213 | unmapping the top of the space keeps the same |
| `VmSpace.TopIsExact` | xv6-riscv-modificado/kernel/riscv.h:355-356 | the pages below the rounded-up size are exactly those that hold a byte below the size |
| `Uvm.Uvmalloc` | xv6-riscv-modificado/kernel/vm.c:217-243 | every page from the old to the new top is mapped, zeroed, with the permissions; it fails exactly when the free pages are fewer than the new pages and the tables missing for them, and then mapping, contents and the set of pages are as before; a smaller size changes nothing; walkaddr then reaches every address of the new pages |
| `Uvm.Uvmdealloc` | xv6-riscv-modificado/kernel/vm.c:248-260 | exactly the pages above the new top are unmapped and freed |
| `Uvm.Vmfault` | xv6-riscv-modificado/kernel/vm.c:454-475 | a fault below the size on an unmapped page maps a zeroed page there; 0 exactly beyond the size, on a mapped page, or with fewer free pages than one and the tables missing for it, and then no mapping changes; walkaddr of every address of the page then answers it |
| `Sbrk.Growproc` | xv6-riscv-modificado/kernel/proc.c:240-258 | all user leaves stay below the rounded-up size and no page is lost; a growth fails exactly when it would pass TRAPFRAME or the free pages are fewer than the new pages and their missing tables, with nothing changed; shrinking by more than the size is a successful no-op |
| `Sbrk.SysSbrk` | xv6-riscv-modificado/kernel/sysproc.c:39-65 | the old size, or -1 with nothing changed; an eager growth returns -1 exactly when it passes TRAPFRAME or the free pages are too few, a lazy one exactly when it passes TRAPFRAME, and that one maps nothing |
| `FreewalkModule.Freewalk` | xv6-riscv-modificado/kernel/vm.c:264-280 | with no leaf left, exactly the table pages of the tree are freed, each once, and the leaf panic is not met |
| `Fork.Uvmfree` | xv6-riscv-modificado/kernel/vm.c:284-294 | every user page and table page, and no other, becomes free |
| `Fork.Uvmcopy` | xv6-riscv-modificado/kernel/vm.c:298-325 | the child gets a copy of every mapped page below the size with the same flags; it fails exactly when the free pages are fewer than the parent's mapped pages and the tables the child lacks for them, and then its user space is empty again; the parent is untouched and no page is lost |
| `Fork.ProcPagetable` | xv6-riscv-modificado/kernel/proc.c:180-210 | a table with the trampoline and trapframe only, exactly when three pages are free, and otherwise every page is free again; the second mapping shares the first one's tables, so its failure branch is never taken; walkaddr answers 0 for every address |
| `Fork.ProcFreePagetable` | xv6-riscv-modificado/kernel/proc.c:214-220 | everything the table owns is freed, the trampoline and trapframe pages are not |
| `Fork.ForkMemory` | xv6-riscv-modificado/kernel/proc.c:109-280 | the memory side of kfork with allocproc and freeproc: a faithful copy taken from free pages, or every page taken is free again; it succeeds exactly when the trapframe, three table pages, the parent's mapped pages and the further tables they need are free; either way the parent is untouched; in the child walkaddr answers non-zero below the size exactly where it does in the parent, with a page of the same contents, and 0 from there on, trampoline and trapframe included |
| `Umalloc.FreeKeeps` | xv6-riscv-modificado/user/umalloc.c:24-46 | a freed block joins the address-ordered list and merges with both neighbours: the list stays circular, blocks disjoint, no two free blocks touch, and free and held blocks together are exactly the units obtained from sbrk |
| `Umalloc.UnlinkKeeps` | xv6-riscv-modificado/user/umalloc.c:76-78 | taking a whole block off the list keeps the same |
| `Umalloc.SplitKeeps` | xv6-riscv-modificado/user/umalloc.c:79-83 | splitting the tail off a block keeps the same |
| `Umalloc.GrowKeeps` | xv6-riscv-modificado/user/umalloc.c:48-62 | a region from sbrk enters as a block of its own |
| `Umalloc.RequestSize` | xv6-riscv-modificado/user/umalloc.c:48-72 | the block has room for the bytes asked for with less than a unit to spare; sbrk's int argument is the number meant exactly when the request is at most 0x7FFFFFE0 |
| `Sbrk.OversizedRequest` | xv6-riscv-modificado/user/umalloc.c:48-62 | morecore's block ends at the new size exactly for requests of at most 0x7FFFFFE0 bytes; for every larger one sbrk is asked for at most one header and the block ends past the new size, and unless that one header is asked for sbrk cannot fail |
| `Sbrk.TwoGigabytes` | xv6-riscv-modificado/user/umalloc.c:48-62 | an input: malloc of 2 to the 31 bytes asks sbrk for -0x7FFFFFF0 bytes, which succeeds without granting any |
| `Umalloc.Heap.Search` | xv6-riscv-modificado/user/umalloc.c:30-32 | the search loop ends, at the free block before the one freed |
| `Umalloc.Heap.Free` | xv6-riscv-modificado/user/umalloc.c:24-46 | exactly this block stops being held, and ends up within one free block; freep is the free block before it, or the one it has been merged into |
| `Umalloc.Heap.Morecore` | xv6-riscv-modificado/user/umalloc.c:48-62 | at least 4096 units join the free list in one block, or 0 and nothing changed |
| `Umalloc.Heap.Malloc` | xv6-riscv-modificado/user/umalloc.c:64-90 | first fit from freep on, the tail of the block; the loop ends; sbrk is asked at most once, exactly when no free block fits; 0 exactly when it then refuses, with nothing changed; otherwise exactly one new block of the right size is held, apart from all others; freep is then the free block before the place of the new one, where the next search goes on |
| `Umalloc.FreeListIsCanonical` | xv6-riscv-modificado/user/umalloc.c:24-46 | since free blocks never touch, the free list is determined by which units are free |
| `SleepLock.StepKeepsInv` | xv6-riscv-modificado/kernel/proc.c:569-638 | every step of acquiresleep, releasesleep, sleep, wakeup, kkill and the scheduler keeps the lock and wakeup invariant |
| `SleepLock.SleepLocksAreSafe` | xv6-riscv-modificado/kernel/sleeplock.c:21-41 | in every interleaved run, kkill included: at most one process is between acquiresleep and releasesleep of a lock, the lock names it, and a process asleep on a lock has the lock taken or a releaser that will still reach it |
| `SleepLock.HoldingsleepIsExact` | xv6-riscv-modificado/kernel/sleeplock.c:43-52 | holdingsleep's answer is whether the caller is between acquiresleep and releasesleep |
| `SleepLock.NobodySleepsOnAFreeLock` | xv6-riscv-modificado/kernel/proc.c:569-615 | when a sleep lock and its spinlock are free nobody sleeps on it: no wakeup was lost |
| `SleepLock.AcquireEndsWithLock` | xv6-riscv-modificado/kernel/sleeplock.c:21-31 | acquiresleep returns only with the lock, and nothing else gives a process a lock |
| `SleepLock.WokenForAReason` | xv6-riscv-modificado/kernel/proc.c:598-638 | a sleeper is woken only by a release of the lock it sleeps on or by kkill of it, and only kkill of a process marks it killed |
| `SleepLock.KillMarksItsVictim` | xv6-riscv-modificado/kernel/proc.c:616-638 | in every interleaved run, a kkill that returns has marked its victim, if there is one |
| `SleepLock.CallsKeepTheirArgument` | xv6-riscv-modificado/kernel/sleeplock.c:21-41 | a call works on the lock, or against the victim, that it was given, until it returns |
| `ExitWait.StepKeepsInv` | xv6-riscv-modificado/kernel/proc.c:263-419 | every step of kfork, kexit, reparent, kwait, sleep, wakeup and kkill keeps the parent, scan and wakeup invariant |
| `ExitWait.ExitsAreSafe` | xv6-riscv-modificado/kernel/proc.c:263-419 | in every interleaved run: each started process but init has a live parent; whenever wait_lock is free nobody sleeps in kwait with a zombie child; each exit has been collected once, except that of a slot still a zombie |
| `ExitWait.ZombiesAwaitTheirParent` | xv6-riscv-modificado/kernel/proc.c:386-405 | a zombie changes only by its current parent's kwait freeing it after a successful copy; a failed copy leaves it; a freed slot has no parent, channel or kill mark left |
| `ExitWait.NoKidsMeansNone` | xv6-riscv-modificado/kernel/proc.c:380-414 | kwait leaves its scan with havekids unset only if no slot names it as parent |
| `ExitWait.WaitReturnsForAReason` | xv6-riscv-modificado/kernel/proc.c:371-419 | in every interleaved run, kwait returns only when it has found a zombie child (collected, or its status could not be copied), has no child at all, or has been killed |
| `ExitWait.PassEndsAsleep` | xv6-riscv-modificado/kernel/proc.c:376-418 | every other pass of its loop ends asleep, and the next begins only after a child that exited, a process that gave init its children, or kkill has woken it |
| `ExitWait.ForkEnds` | xv6-riscv-modificado/kernel/proc.c:263-314 | kfork returns with a runnable child of its own, with its slot freed after memory ran out, or after it passed every slot; it passes none that is unused |
| `ExitWait.ForkBegins` | xv6-riscv-modificado/kernel/proc.c:109-120 | it begins at the first slot |
| `ExitWait.CallsBegin` | xv6-riscv-modificado/kernel/proc.c:263-419 | a process is in kfork, kexit or kwait from the call on, and only by the call |
| `ExitWait.ExitEndsAsZombie` | xv6-riscv-modificado/kernel/proc.c:331-365 | kexit does not return: it ends as a zombie |
| `ExitWait.KilledExactly` | xv6-riscv-modificado/kernel/proc.c:616-638 | a process is marked killed by kkill of it and nothing else, until its slot is freed; asleep, it then runs again |
| `Fcfs.Hart.Pick` | xv6-riscv-modificado/kernel/proc.c:446-466 | the runnable process with the least (arrival_time, slot), with exactly its lock held |
| `Fcfs.Hart.Dispatch` | xv6-riscv-modificado/kernel/proc.c:437-478 | exactly that process becomes RUNNING and current; none exactly when none is runnable |
| `Fcfs.Hart.Resume` | xv6-riscv-modificado/kernel/proc.c:478-484 | back from the process its lock, the only one held, is released |
| `Fcfs.DispatchIsChoice` | xv6-riscv-modificado/kernel/proc.c:446-478 | the scan's result is the choice the run model makes, and it makes one whenever it can |
| `Fcfs.NoPreemption` | xv6-riscv-modificado/kernel/trap.c:84-89 | a dispatched process keeps the hart until it sleeps or exits itself, whatever forks, wakeups and timer ticks happen |
| `Fcfs.StateChangesForAReason` | xv6-riscv-modificado/kernel/proc.c:437-484 | a process is runnable only by the end of its fork or a wakeup of it, runs only when chosen, and leaves the hart asleep or as a zombie |
| `Fcfs.NoOvertaking` | xv6-riscv-modificado/kernel/proc.c:446-466 | while a process waits runnable, everyone dispatched comes before it by arrival tick, then slot: a later arrival never overtakes |
| `Fcfs.FirstComeFirstServed` | xv6-riscv-modificado/kernel/proc.c:109-135 | over the clock of the run, counted in timer interrupts: while a process waits, no process claimed in a later tick, or in the same tick in a higher slot, is chosen |
| `Fcfs.ServedIffFirst` | xv6-riscv-modificado/kernel/proc.c:446-466 | an idle scheduler chooses exactly the runnable process that was claimed in the earliest tick, of several the one in the lowest slot |
| `Grep.WordSplits` | xv6-riscv-modificado/user/grep.c:84-97 | a match of an item followed by a pattern is a word of the item followed by a match of the rest |
| `Grep.WordOfMany` | xv6-riscv-modificado/user/grep.c:99-108 | a match of c* followed by a pattern is some number of fitting characters followed by a match of the rest |
| `Grep.MatchHere` | xv6-riscv-modificado/user/grep.c:84-97 | true exactly when some prefix of the text, the whole of it for a final $, is in the pattern's language |
| `Grep.MatchStar` | xv6-riscv-modificado/user/grep.c:99-108 | the same for a starred character before the pattern, with a measure for the mutual recursion |
| `Grep.Match` | xv6-riscv-modificado/user/grep.c:72-82 | true exactly when some substring, anchored for ^ and $, is in the pattern's language, for every pattern and text |
| `Grep.PlainByIndex` | xv6-riscv-modificado/user/grep.c:72-97 | a pattern of plain characters and '.', with or without ^ and $, matches exactly where the text has it character by character, at the beginning and at the end if tied there |
| `Grep.StarByIndex` | xv6-riscv-modificado/user/grep.c:84-108 | with one starred character between plain parts: exactly where some run of it, of any length, stands between the two |
| `Grep.PrintLines` | xv6-riscv-modificado/user/grep.c:20-33 | the complete lines in the buffer are matched and printed, and what remains begins at p |
| `Grep.Grep` | xv6-riscv-modificado/user/grep.c:11-35 | however reads cut up the input, exactly its matching lines are printed in order, up to the first line that with its newline does not fit in the buffer or holds a NUL |
| `Grep.PrintsAllIff` | xv6-riscv-modificado/user/grep.c:17-35 | every matching line is printed exactly when no line matches from the first one on that does not fit; all lines fit exactly when each with its newline is shorter than the buffer and holds no NUL |
| `Grep.LongLineHidesMatch` | xv6-riscv-modificado/user/grep.c:17-35 | an input: behind a line of 1023 characters a line that matches is not printed |
| `PipeModule.IsFull` | xv6-riscv-modificado/kernel/pipe.c:88-90 | the wrapped counters differ by PIPESIZE exactly when the pipe is full |
| `PipeModule.Slot` | xv6-riscv-modificado/kernel/pipe.c:95-95 | a wrapped counter names the same ring slot and wraps like the true one, since PIPESIZE divides 2 to the 32 |
| `PipeModule.Pipe.Put` | xv6-riscv-modificado/kernel/pipe.c:95-96 | the byte is accepted last and no byte under way is overwritten |
| `PipeModule.Pipe.Write` | xv6-riscv-modificado/kernel/pipe.c:76-103 | exactly the next bytes of the source are accepted in order; when it sleeps, fails or ends; who is woken; sleepers still wait for good reason exactly unless, in terms of the state before the call, a writer is killed after its first byte with room for all before it, no failed copy comes first and a reader sleeps |
| `PipeModule.Pipe.Read` | xv6-riscv-modificado/kernel/pipe.c:105-134 | the oldest bytes are delivered in order, at most n; a failed copyout consumes none; when it sleeps, fails or ends; sleepers still wait for good reason |
| `PipeModule.Pipe.Close` | xv6-riscv-modificado/kernel/pipe.c:58-74 | freed exactly when both ends are closed; the other side's sleepers are woken |
| `PipeModule.ReaderLeftAsleep` | xv6-riscv-modificado/kernel/pipe.c:83-87 | a run in which a killed writer leaves a reader asleep on a pipe that holds a byte |
| `ShellGrammar.ReadBack` | xv6-riscv-modificado/user/sh.c:350-452 | the grammar inverts the canonical form: every tree with at most 9 arguments to a command is read back from its fully parenthesised tokens |
| `ShellGrammar.LineFrom` | xv6-riscv-modificado/user/sh.c:350-452 | every word of a parsed tree is one of the tokens parsed |
| `ShellSyntax.PlainRead` | xv6-riscv-modificado/user/sh.c:380-452 | fewer than ten words with any redirections before, between and after them: a command of exactly these words, in order, inside exactly these redirections, the last outermost |
| `ShellSyntax.LineRead` | xv6-riscv-modificado/user/sh.c:350-452 | every line of the language, of simple commands, parenthesised lines, pipes, ampersands and semicolons, is read as the tree it stands for: pipes and lists to the right, one background for each ampersand |
| `ShellSyntax.CommandIsLine` | xv6-riscv-modificado/user/sh.c:333-452 | the grammar accepts tokens with a tree exactly when some line of the language is written with these tokens and stands for that tree |
| `ShellSyntax.LineIsUnambiguous` | xv6-riscv-modificado/user/sh.c:350-452 | two lines written alike stand for the same tree |
| `ShellSyntax.ParsedIsParsable` | xv6-riscv-modificado/user/sh.c:421-452 | no parsed command has MAXARGS words |
| `Shell.GetToken` | xv6-riscv-modificado/user/sh.c:271-314 | exactly the next token, the cursor behind it |
| `Shell.Peek` | xv6-riscv-modificado/user/sh.c:316-326 | whether the next token begins with one of the symbols, consuming only white space |
| `Shell.ParseRedirs` | xv6-riscv-modificado/user/sh.c:380-403 | the redirections ahead, outermost last, or the missing-file panic, as the grammar says |
| `Shell.ParseExec` | xv6-riscv-modificado/user/sh.c:421-452 | a simple command or a block, with each panic exactly where the grammar fails |
| `Shell.ParseBlock` | xv6-riscv-modificado/user/sh.c:405-419 | a parenthesised line and its redirections |
| `Shell.ParsePipe` | xv6-riscv-modificado/user/sh.c:367-378 | a pipeline, right-associative |
| `Shell.ParseLine` | xv6-riscv-modificado/user/sh.c:350-365 | a list with backgrounds; the recursive descent ends on every string |
| `Shell.EndsOutside` | xv6-riscv-modificado/user/sh.c:454-499 | the end of a recorded word never lies inside a recorded word |
| `Shell.NulTerminate` | xv6-riscv-modificado/user/sh.c:454-499 | a NUL at the end of every word of the tree and no other change to the buffer |
| `Shell.ParseCmd` | xv6-riscv-modificado/user/sh.c:333-348 | the grammar's tree or panic for every string; each word of the tree is afterwards a C string with the text it had |
| `Shell.ScanPrinted` | xv6-riscv-modificado/user/sh.c:271-314 | printed tokens are scanned as themselves |
| `ShellText.LexIsSpelling` | xv6-riscv-modificado/user/sh.c:268-314 | the scanner finds exactly the tokens that a string spells: each after any white space, and as long as it can be |
| `ShellText.ParseIsMeaning` | xv6-riscv-modificado/user/sh.c:333-452 | parsecmd accepts a string with a tree exactly when the string spells a line of the language that stands for that tree |
| `Shell.ParseInvertsPrint` | xv6-riscv-modificado/user/sh.c:333-452 | for every tree with at most 9 arguments to a command and words free of white space and symbols, parsing its fully parenthesised text gives the tree |

## Left out

- LogModule.Log.Commit: takes the buffers it needs to be free of holders, as do `WriteLog`, `InstallTrans` and `EndOpAndCommit`; the commit that waits for readers, one lock section at a time, is `CommitRun`.
- Waiting for an inode that is locked by somebody else is excluded in `Fs`, so file calls run without interleaving; a reader that modifies a buffer it does not log is not in `CommitRun`, no operation being active during a commit.
- Operations interleave on the log in `Admission`, one lock section at a time; the methods of `Log` are the single sections.
- Fs.FileSystem.LogWrite: `Fs` works on the current contents of the blocks (`view`) and counts the blocks it logs; that `bread` and `log_write` provide exactly this is proved in `Storage` and `Log`, the two classes are not one object; `FsCrash` takes the view of each transaction from `Fs` as a value.
- Fs.FileSystem.Writei: a failed user copy is taken to change nothing in the buffer, though the code may have copied part of the block before it failed.
- FullLog.FullLogCommitFails: the panic in `bget` is the result `false`, after which the model says nothing.
- LogModule.Log.EndOpAndCommit: wakeups of operations waiting for log space, `ncommit` and `sys_sync` are not modelled.
- Fs.FileSystem.Ilock: the panic on an inode of type 0 is excluded by precondition.
- Fs.FileSystem.Itrunc: a transaction with no room for the bitmap blocks of the inode's own blocks, which could meet a panic in `log_write`, is excluded by precondition.
- Fs.ChunkIsLargest: that ten distinct blocks are really logged by some write is shown for the count, not on a disk image; it takes an image with at least four bitmap blocks, as `FileIo.WriteChunk` shows.
- FileIo.FileWrite: other processes' calls between two chunks of one call are not interleaved.
- FileIo.FileRead: pipes and devices are not dispatched to.
- The initial image is assumed: bitmap and block maps agree, no holes, empty log.
- ialloc, iget, iput, directories and path lookup, link counts, file table and descriptors: bookkeeping around the core.
- Kalloc.Kmem.Kfree: the panic on a bad address, and freeing a page that is already free, are excluded by precondition; the junk written over freed and allocated pages is not modelled.
- Vm.Phys: holds the free pages as a queue, which is what `Kalloc` proves of the linked list.
- Fork.ForkMemory: registers, open files, the working directory and the name are not copied in the model.
- Vm.Phys.Walk: the panic on addresses beyond MAXVA is excluded by precondition.
- kexec, copyin, copyout, the kernel page table and the TLB.
- Umalloc.Heap.Malloc: other callers of `sbrk` may take memory in between, but not give back what the heap has; headers are not overwritten by callers.
- SleepLock.SleepLocksAreSafe: other users of sleep and wakeup, on other channels, are not in the run model; `locked` and `pid` are set in one step under the spinlock.
- ExitWait.ExitsAreSafe: sleeping elsewhere than in `kwait`, closing of files on exit, and pids are not modelled; exit status is not carried.
- Fcfs.Hart.Pick: one hart; ticks do not wrap.
- Deadlock freedom and liveness of the process protocols.
- PipeModule.Pipe.Write: `killed` and the failing copy are given by the byte at which they show.
- Grep.Grep: read errors; the loop over files.
- Shell.ParseExec: the command node is built when its words are complete, so its update in place under redirections is not seen.
- Shell.ParseCmd: a panic is a result, the messages are not modelled; `runcmd` is not part of this model.
- Device drivers, traps, system call arguments, mkfs, memory ordering of the spinlock, and the stock copy of the system.
