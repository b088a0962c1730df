# A Dafny model of the kernel, its file system and its programs

The repository is xv6 extended with a three-level file index, a window manager with
message queues, a calculator and a changed shell. This project models its cores and
proves what they are for. Imperative code is modelled by classes and methods that update
fields and arrays, each proved against a specification; protocols shared by several
processes are step systems, proved over every run.

* **Storage.** `Blocks`, `BufferCache`, `CacheOps`: the write-pinning buffer cache over a
  sector disk, with the sequence of disk images every write leaves behind. `LogSpec`, `Log`:
  the redo log, crash recovery and commit. `GroupCommit`: begin_op, log_write and end_op
  under any interleaving. `Bitmap`, `FileIndex`, `Volumes`, `Allocation`: the block bitmap, the
  index tree, consistent volumes, and which blocks and sectors a write takes and logs.
  `FileSystem`, `Truncate`: bmap, readi, writei and itrunc. `ImageSize`, `Mkfs`: how many blocks
  a file takes, and the image writer. `FileOps`: fileread and filewrite. `CrashSafety`,
  `FileCrash`: the file system over the log, with the on-disk inodes, and filewrite's run of
  transactions.
* **Memory.** `Heap`: the user allocator. `PageTables`, `VirtualMemory`, `AddressSpaces`: the
  page free list, page tables, copyuvm and freevm.
* **Processes.** `ProcTable`, `ProcSteps`: the process table and its runs. `Pipe`,
  `PipeSteps`: the pipe buffer and its runs.
* **Windows.** `Messages`: the message slab. `Windows`, `Screen`: the window stack and what
  it draws.
* **Languages.** `ShellParser`, `ShellRoundTrip`: the command parser. `Calculator`,
  `CalculatorRun`: infix to RPN and its reduction. `Grep`: the pattern matcher.

`Blocks`, `Wrappers` and `Sequences` hold what several of them share.
`dafny verify dfyconfig.toml` checks everything.

## What the model takes for granted

* A sector write is atomic and synchronous (memide.c:37-58), and a crash falls between two
  writes. What commit and recovery write is the class field `trace`; the crash theorems are
  about every prefix of it.
* log_write takes no lock (log.c:211-228). It is one atomic step here.
* commit runs with no buffer held by anyone else: another holder would only delay it.
* A boot finds the log's start and size in the superblock; they are parameters, and the
  sectors a transaction logs lie outside the log area.
* Processor exclusion by spin locks is taken as given: a region between acquire and release
  is one step.
* Block numbers, inode fields and bitmap bits are read and written through the values the
  cache would return. `CrashSafety` writes the inodes out after writei, and counts the inode's sector
  when the inode changed; the source calls iupdate only when the size grew, which is the same when every
  byte below the size has a block (`SizeDecides`).
* Where a write lacks free blocks and the log is too small for it as well, `CrashSafety` reports the
  blocks; both are panics.

## Where the code does less than it seems to

* mkfs makes the log LOGSIZE sectors long (mkfs.c:17), so log_write already refuses at
  LOGSIZE - 1 (log.c:215). `NeverPanicsIff` gives the exact bound for operations of any size: with
  at most K new sectors each, the panic can be reached if and only if 10 + 2K or 3K is at least
  that limit. K = 9 is safe as shipped, and nothing larger is (`ShippedLogSize`), although
  filewrite's chunks alone are 13 blocks (file.c:132). A write to a sector already logged is
  refused as well when the log is full.
* commit needs one free buffer besides the pinned ones: it completes exactly when the
  transaction has fewer than NBUF sectors (`Log.Log.Commit`).
* itrunc frees one level of the index tree (fs.c:430-440), bmap builds three. `TruncateLeaksIff`
  says exactly when blocks leak. In the trees that successful bmaps and itruncs keep, only files
  without an index block escape it (`DirectFilesOnly`), and any file that had a block beyond the
  direct ones leaks (`MapThenTruncate`).
* mkfs's own bitmap (mkfs.c:233-255) marks no sector beyond the data area, where the log lies, and
  holds 512 bits to a sector. It is right if and only if at most 512 blocks are in use and no sector
  lies beyond the data area (`MkfsBitmapIff`); with a log, as shipped, it never is. Once the data
  blocks have been handed out, balloc hands out the first sector of the log (`HandsOutLog`).
  `WriteThenRead` gives the kernel a bitmap that marks those sectors instead.
* cal3 writes a result of 0 as the empty string (cal.c:32-45), which is a blank cell. caln therefore
  returns a number exactly if no operator of the expression has the value 0 or divides by 0
  (`CalnExact`); otherwise it reads src[-1] or divides by 0. `ZeroRunsOff` and `SumRunsOff` show it for
  n - n and (n - n) + k. A number it does return is never wrong (`NeverWrong`).
* A redraw reaches the screen only if each window's program receives the request passed on by the one
  below (`Screen.Redraw`); a request that is refused or lost leaves the screen as it was.
* One writei can find the log full. Which sectors it logs follows from the index tree and the free
  blocks alone (`LogCount`), and log_write's guard comes before absorption, so that a transaction that
  just fits still panics if its last call is for a sector it logged before (`LastAgain`);
  `CrashSafety.WriteUnderCrash` says exactly when it does. A chunk of
  filewrite cannot, with the log as shipped and up to eleven bitmap sectors (`ChunkFitsLog`).
* writei stops at MAXFILE = 140 blocks (fs.c:501), although bmap reaches 12 + 128^3.
* malloc's rounding wraps for the 7 largest requests (`UnitsSuffice`), and morecore asks sbrk for
  fewer bytes than it then counts exactly above 2^31 - 16 and below those 7 (`SbrkAsksForIt`);
  `Malloc` says exactly when the block it then writes to is not the process's.
* pipewrite's early return (pipe.c:85-88) does not wake readers. `StrandsIff` says that this,
  with a reader asleep, is the only step that strands one, and `EarlyReturnStrands` shows it.
* dispatch drops a message when the table is full but keeps its slot (message.c:98-107); the
  slot is lost for good. `Messages.Slab.Post` says exactly when, and `LosesASlot` gets there by 21
  messages to 21 processes.
* A failed page-table-page allocation loses frames: in copyuvm the page's own (vm.c:329), in
  setupkvm every frame there was (vm.c:139-142). `AddressSpaces.Expected` tells from the number of
  free frames alone how copyuvm ends; `CopyThenFree` says exactly when every frame comes back, and
  `LosesAFrame` builds a machine on which one does not.
* deallocuvm moves on by a whole table from wherever it stands (vm.c:261-262). `DeallocUvm` and
  `FreesAllIff` say exactly what it then frees, and `BadStart` shows a page it steps over; freevm
  starts at 0, which is a good start.
* releaseWindow of the last window reads through a null list head (window.c:78, 183).
* `>>` gives the same redirection as `>` (sh.c:433-438, `RoundTrip`), and parentheses are word characters
  (sh.c:310), so they need spaces around them.

## Model

| member | source | states |
|---|---|---|
| BufferCache.Bcache.constructor | bio.c:38-56 | binit leaves the ring holding all buffers, last one first, each clean and free |
| BufferCache.Bcache.Bget | bio.c:61-95 | the one buffer that holds the sector, or the least recently released clean free one; asleep only if the holder is busy; panics only if nothing can be recycled; a dirty buffer is never recycled |
| BufferCache.Bcache.Iderw | memide.c:36-58 | dirty data goes to the disk as one new image, otherwise the sector comes in; refused exactly in the panic cases |
| BufferCache.Bcache.Bread | bio.c:98-107 | the buffer holds the latest contents of the sector, as a plain array of sectors would; disk, other buffers and pins unchanged |
| BufferCache.Bcache.Modify | log.c:203-209 | a change to a held buffer becomes the latest contents of its sector |
| BufferCache.Bcache.Pin | log.c:227 | a dirty buffer is pinned and nothing else changes |
| BufferCache.Bcache.Bwrite | bio.c:110-117 | the buffer's data reaches the disk in one write and its pin is gone |
| BufferCache.Bcache.Brelse | bio.c:121-140 | the buffer is free and first in the ring, the others keep their order, and the links are that permutation |
| BufferCache.Bcache.NoDuplicates | bio.c:68-93 | no two buffers hold the same device and sector, once a device is set |
| BufferCache.OrderOfRelease | bio.c:121-140 | after any releases the ring is in their order, the last one first, and the buffers never released behind in the order they had |
| CacheOps.CopyToLog | log.c:180-185 | one turn of write_log: the log sector takes the latest contents of a pinned sector, in one disk write, and the pins stay |
| CacheOps.CopyHome | log.c:74-79 | one turn of install_trans: the home sector takes the log sector's contents, in one disk write, and its pin goes |
| CacheOps.DirtyCount | bio.c:82-86 | the dirty buffers are as many as the pinned sectors |
| LogSpec.HeadRoundTrip | log.c:83-112 | read_head reads back from the header block what write_head put there |
| LogSpec.RecoveryTraceAt | log.c:114-121 | the images recovery leaves behind, write by write |
| LogSpec.CommitTraceAt | log.c:189-199 | the images a commit leaves behind, write by write: 2n + 2 of them |
| LogSpec.RecoveryIsIdempotent | log.c:114-121 | recovery started again from any image inside recovery ends with the same home sectors |
| LogSpec.RecoverySurvivesCrashes | log.c:52-121 | after any number of crashes inside recovery, a completed recovery gives the home sectors the first one would have |
| LogSpec.CommitIsAtomic | log.c:174-199 | after a crash between any two writes of a commit, recovery gives all old home sectors up to and including the last log block, all new ones from the header write on |
| LogSpec.TraceIsWhole | log.c:174-199 | every image a commit leaves behind recovers to the home sectors before or after it |
| LogSpec.CommittedHome | log.c:97-101 | the header write alone decides: from then on recovery gives exactly the logged blocks at their sectors |
| LogSpec.AfterIsWhole | log.c:174-199 | one transaction with its crash, if any, is either wholly there or wholly absent after reboot |
| LogSpec.HistoryIsSerial | log.c:52-199 | any history of transactions, crashes inside commits and crashes inside recoveries leaves the home sectors of a machine that ran the surviving transactions one after the other |
| Log.Log.constructor | log.c:52-65 | a boot leaves a valid empty log, and the disk the recovery of what was found |
| Log.Log.Find | log.c:220-223 | the first position of the sector in the header, or the end |
| Log.Log.LogWrite | log.c:210-228 | the sector is logged once (absorbed if already there) and its buffer pinned; refused exactly when the log is full or no operation is open |
| Log.Log.WriteHead | log.c:97-112 | one disk write of the header block with the logged sectors; everything else and every pin stay |
| Log.Log.ReadHead | log.c:83-95 | the in-memory header equals the one on disk |
| Log.Log.WriteLog | log.c:173-187 | the loop's images are the log area filled block by block with the latest contents |
| Log.Log.InstallTrans | log.c:67-81 | the loop's images are the home sectors installed one by one |
| Log.Log.RecoverFromLog | log.c:114-121 | writes exactly the recovery trace and leaves disk and cache at the recovered image |
| Log.Log.Commit | log.c:189-199 | completes exactly when n < NBUF; writes exactly the commit trace, every image of which recovers to all old or all new home sectors; leaves the home sectors at their latest contents and the log empty |
| GroupCommit.InvStep | log.c:124-171 | every step keeps the accounting of open operations of any size K, or is a log_write at the limit |
| GroupCommit.GroupCommitSafety | log.c:124-171 | in every reachable state, for every K: committing implies no open operation; the panic at line 152 is unreachable; logged sectors plus unspent allowance never exceed the larger of 10 + 2K and 3K, which is within LOGSIZE when K is at most MAXOPBLOCKS; who waits has a reason to |
| GroupCommit.CommitIsSettled | log.c:149-169 | from the end_op that starts a commit until it has finished, in every run, the logged sectors and their writers stay as they are and no operation opens |
| GroupCommit.NeverPanicsIff | log.c:131-215 | for every K, "too big a transaction" can be reached if and only if 10 + 2K or 3K is at least the limit of log_write |
| GroupCommit.ShippedLogSize | mkfs.c:17 | with the log as shipped, the panic can be reached if and only if operations may add 10 or more new sectors |
| Bitmap.MarkChangesOne | fs.c:64-66 | setting or clearing a block's bit changes that bit and no other |
| Bitmap.MarkRefines | fs.c:53-95 | the bits on disk stand for a set of blocks; marking adds or removes one member |
| Bitmap.OneRow | fs.c:62-66 | the bitmap is one row of bits: block b's is bit b % 8 of byte b / 8 |
| Bitmap.SumOfBits | fs.c:64-66 | bit k weighs 2^k |
| FileSystem.Volume.TakeIfFree | fs.c:64-67 | a block is taken exactly when its bit was clear |
| FileSystem.Volume.Balloc | fs.c:52-76 | the first free block, now marked and zeroed, all other bits as before; panics only if no block is free |
| FileSystem.Volume.Bfree | fs.c:79-95 | clears the bit exactly if it was set, and touches nothing else |
| FileIndex.SlotOfInjective | fs.c:365-380 | different block numbers of a file have different slots in the index tree |
| FileIndex.PtrInjective | fs.c:358-409 | no block is in two slots, of one file or of two |
| FileIndex.GrownTree | fs.c:384-403 | a fresh block put in an empty slot keeps the forest of index trees |
| FileIndex.GrownByte | fs.c:384-403 | and no byte of any file changes |
| Volumes.GrowConsistent | fs.c:358-409 | allocation keeps bitmap and trees consistent, keeps every pointer, and leaks nothing |
| Volumes.KeepsBranching | fs.c:384-403 | filling a whole path to a data block leaves no index block in use without a block below it |
| FileSystem.Volume.Bmap | fs.c:358-409 | the block in the file's slot; if missing it takes the lowest free blocks, one for each slot missing on its path and none elsewhere; stable if present; fails exactly beyond the tree or with fewer free blocks than slots missing; success keeps every index block leading to data |
| Allocation.ChainProgress | fs.c:504-510 | over any number of turns of writei's loop: the slots on the paths to the blocks written are filled and no others, with as many blocks as they lacked |
| Allocation.LogCount | fs.c:504-510 | the number of sectors logged by then is a closed form of the index tree, the blocks in use and the range alone |
| Allocation.LastAgain | fs.c:504-510 | the last log_write of writei's loop is of a sector logged before exactly if the last data block of the range is new |
| FileSystem.Volume.Readi | fs.c:460-483 | exactly the requested slice of the file, cut at its size; fails exactly as the source does, wrap-around included; changes no mapped file |
| FileSystem.Volume.Writei | fs.c:488-517 | replaces exactly [off, off+n) and extends the size as needed; every other file keeps its bytes; fails exactly as the source does; takes exactly the blocks its range lacks, and panics exactly if fewer are free; logs exactly its data blocks, and for each new block its bitmap sector, itself and the index block that points to it |
| Truncate.Itrunc | fs.c:417-444 | frees each direct block, the index block and its entries once, only blocks of this inode; the file is empty, other files keep their bytes, and trees keep their shape |
| Truncate.FreedIs | fs.c:423-440 | the blocks freed are the inode's addresses and the words of its index block |
| Truncate.EmptiedConsistent | fs.c:417-444 | what remains is consistent |
| Truncate.TruncateLeaksIff | fs.c:430-440 | no block is leaked if and only if the file has nothing below the first index level |
| Truncate.DirectFilesOnly | fs.c:372-440 | in a tree whose index blocks all lead to data, as Bmap and Itrunc keep it, that is so if and only if the file has no index block |
| Truncate.MapThenTruncate | fs.c:358-444 | over the operations: bmap of any block beyond the direct ones, then itrunc, leaks; bmap fails exactly for a block beyond the tree or with fewer free blocks than slots missing on its path |
| ImageSize.NextBlockTakes | mkfs.c:276-317 | when exactly the slots the first d data blocks need are in use, block d takes as many blocks as the closed form for d + 1 exceeds that for d: one for itself and one for each index block it is the first to need |
| ImageSize.FilledNext | mkfs.c:276-317 | and then exactly the slots the first d + 1 data blocks need are in use |
| Mkfs.Image.constructor | mkfs.c:91-101 | a zeroed image with empty files, no slot in use |
| Mkfs.NextBlock | mkfs.c:276-317 | the next block of the image goes to an empty slot and no byte of any file changes |
| Mkfs.Image.Iappend | mkfs.c:259-331 | the bytes go to the end of the file, no other file changes; in an image whose files have exactly the slots they need, it takes exactly the blocks the longer file needs beyond those it had, and it stops only when the image has fewer left |
| Mkfs.WriteFile | mkfs.c:259-331 | a file appended to in any pieces holds their concatenation and takes the blocks that length needs; it stops only when they are not there |
| Mkfs.ReadBack | fs.c:460-483 | of any image mkfs has built, given a bitmap as the kernel reads it, readi gives back any slice of any file, byte for byte, and never panics |
| Mkfs.StampedVolume | mkfs.c:259-331 | such an image is a consistent volume without leaks, holding the same files |
| Mkfs.WriteThenRead | mkfs.c:259-331 | from an empty image: a file appended in any pieces, up to the longest the index holds, fits if and only if the blocks its length needs fit between the bitmap and the end of the data area, and then the kernel reads any slice of the concatenation |
| Mkfs.RegionsMeet | mkfs.c:91-93 | before the data lie the boot sector, the superblock, the inodes' sectors and the bitmap's, one after the other with no gap and no overlap |
| Mkfs.Balloc | mkfs.c:233-255 | mkfs's bitmap: 512 bits to a sector, and the last buffer again over the first sector |
| Mkfs.MkfsBitmapIff | mkfs.c:233-255 | it is the bitmap of the blocks in use, the log's among them, if and only if there are at most 512 and no sector lies beyond the data area |
| Mkfs.HandsOutLog | fs.c:52-76 | on mkfs's bitmap, with a log at the end of the disk, balloc hands out the free data blocks in order and then the first sector of the log, zeroed |
| FileOps.WrittenCompose | file.c:132-151 | two writes, the second starting where the first ends, are one |
| FileOps.File.FileRead | file.c:95-112 | the next bytes of the file, and the offset moves past them |
| FileOps.File.FileWrite | file.c:116-155 | however it is split, one write of a prefix at the old offset; returns n exactly when everything was written, and that exactly under the stated bounds; a write past the limit leaves the whole chunks that fit; panics exactly if fewer blocks are free than the chunks within writei's limit need |
| FileOps.AcceptedIs | file.c:132-136 | those are as many chunks of 6656 bytes as there is room for: of 71681 bytes from offset 0 they are 66560 |
| CrashSafety.InodeRoundTrip | fs.c:201-217 | an inode written out by iupdate is read back from its sector |
| CrashSafety.InodeLayout | fs.h:27-34 | the size is word 2 of the inode's 16 and the addresses are words 3 to 15, eight inodes to a sector from sector 2 on |
| CrashSafety.VolumeIsAtomic | log.c:174-199 | any change from one consistent volume to another, logged as one transaction of sectors that cover it, is all or nothing across a crash: recovery gives a consistent volume with the contents of all files before it or after it |
| CrashSafety.WriteUnderCrash | fs.c:488-517 | so for writei: the size of the file, the free blocks and the size of the log decide whether it is refused, finds too few blocks, finds the log full at one of its calls of log_write or is committed; committed, the new volume is consistent and holds the written file and all others unchanged; after a crash at any sector write of its commit the file holds what it held or what was written, every other file what it held |
| CrashSafety.SizeDecides | fs.c:512-515 | while every byte below the size has a block, the inode changes exactly when writei grows the size and calls iupdate |
| CrashSafety.TransactionBound | log.c:211-228 | such a transaction needs room for at most the data blocks of its range, three index blocks, one inode sector and the bitmap sectors |
| CrashSafety.LogSuffices | log.c:215-216 | so a log that takes that many sectors is never found full |
| CrashSafety.LastCallDecides | log.c:215-216 | log_write's guard lets all calls of a transaction through if and only if it lets the last one through |
| FileCrash.FileWriteRun | file.c:132-151 | filewrite is a run of such transactions, one a chunk, and ends with all written, or at a chunk that the size, the free blocks or the log on the disk before it make fail, as it says which |
| FileCrash.ChunkFitsLog | file.c:125-132 | with the log as shipped and at most eleven bitmap sectors, no chunk finds the log full |
| FileCrash.ChunksHold | file.c:132-151 | after t chunks of such a run the volume is consistent, the file holds the old bytes with those chunks written, and no other file is touched |
| FileCrash.WholeChunks | file.c:132-151 | after a crash at any sector write of any chunk, and recovery, the file holds the old bytes with a whole number of chunks written: those before the chunk, and the chunk itself exactly from its header write on |
| Heap.UnitsSuffice | umalloc.c:69 | the units hold the header and the bytes if and only if the rounding does not wrap |
| Heap.SbrkAsksForIt | umalloc.c:52-54 | sbrk is asked for as many bytes as morecore counts exactly up to 2^31 - 16 bytes and for the requests that wrap; for none or fewer than none in between |
| Heap.FreeKeepsOk | umalloc.c:33-42 | freeing, with joining up and down, keeps one address-ordered cycle with no two blocks touching, disjoint blocks and the sum of all units |
| Heap.TakeKeepsOk | umalloc.c:76-77 | so does handing out a whole block |
| Heap.TailKeepsOk | umalloc.c:78-82 | so does cutting off a tail |
| Heap.GrantKeepsOk | umalloc.c:54-58 | so does a new region from sbrk, which adds its units |
| Heap.JoinsAreFreed | umalloc.c:33-42 | the two assignments of free compute exactly the joined list |
| Heap.Allocator.Search | umalloc.c:30-32 | the loop ends at the block after which the freed one belongs |
| Heap.Allocator.Free | umalloc.c:24-44 | the block leaves the program's hands and its units are covered by a free block; the program's other blocks keep their sizes |
| Heap.Allocator.Morecore | umalloc.c:46-61 | the larger of 4096 units and the request is added, and the request then fits; nothing changes if sbrk fails; and exactly if sbrk is asked for less than it counts, the region is too short |
| Heap.Allocator.Walk | umalloc.c:74-89 | the loop ends, grows the heap at most once and only if nothing fits |
| Heap.Allocator.Malloc | umalloc.c:63-90 | a block of exactly the units asked for, disjoint from all others; none exactly if nothing fits and sbrk fails; a block that is not there exactly if nothing fits, sbrk answers and the request is in the range where it was asked for too little |
| ProcTable.Table.constructor | proc.c:78-103 | init in the first entry, all others empty |
| ProcTable.Table.AllocProc | proc.c:34-50 | the first unused entry becomes an embryo with a new pid; none exactly if the table is full |
| ProcTable.Table.Wakeup1 | proc.c:388-396 | everyone asleep on the channel becomes runnable, and nobody else |
| ProcTable.Table.Exit | proc.c:194-209 | entry by entry: the parent woken, children passed to init, init woken exactly if one is a zombie, the caller a zombie |
| ProcTable.Table.Wait | proc.c:216-255 | reaps the first zombie child if there is one; otherwise fails exactly without children or when killed, else sleeps on itself |
| ProcTable.Table.Kill | proc.c:410-428 | the first entry with the pid is marked, and runs again if it slept; nothing else changes |
| ProcSteps.StepKeepsInv | proc.c:129-428 | every region, and fork's steps outside the lock, keeps the family invariant |
| ProcSteps.ExitHeard | proc.c:196-206 | after exit nobody asleep in wait has a zombie child |
| ProcSteps.ProcessFamily | proc.c:129-255 | in every reachable state: a live or zombie process other than init has a living parent, unused entries have none, nobody asleep in wait has a zombie child or was killed, and pids are distinct |
| ProcSteps.OneFamily | proc.c:129-212 | in every reachable state parents lead from every process to init |
| ProcSteps.Perform | proc.c:34-428 | a step of a run that is one of these regions is what the table's own method does |
| Pipe.Wraps | pipe.c:92-115 | counting modulo 2^32 finds the slot the true count would |
| Pipe.Distance | pipe.c:84-105 | the full and empty tests on wrapped counters are right |
| Pipe.Buffer.constructor | pipe.c:32-35 | an empty pipe, open at both ends |
| Pipe.Buffer.Write | pipe.c:78-97 | from taking the lock to giving it up: the bytes that fit are appended in order; returns, fails or sleeps as stated; readers woken unless it fails |
| Pipe.Buffer.Read | pipe.c:99-120 | from taking the lock to giving it up: the oldest bytes, in order, as many as asked unless the pipe is then empty; returns, fails or sleeps as stated |
| Pipe.Buffer.Close | pipe.c:58-74 | closes the end and frees the pipe exactly if both are closed |
| PipeSteps.StepKeepsInv | pipe.c:58-120 | every stay under the lock, kill and close keeps the stream and the sleepers' condition |
| PipeSteps.PipeStream | pipe.c:78-120 | in every run the bytes read are a prefix of those stored and the rest, at most 512, is in the pipe; a sleeping writer has a full pipe with an open reader; nobody who was killed sleeps; a freed pipe has nobody inside |
| PipeSteps.StrandsIff | pipe.c:85-88 | a step leaves a reader asleep on a pipe with bytes or without writer if and only if it is an early return over a sleeping reader |
| PipeSteps.NobodyStranded | pipe.c:59-120 | in every run without such a return a sleeping reader has an empty pipe and an open writer, and no reader and writer sleep at once |
| PipeSteps.EarlyReturnStrands | pipe.c:85-88 | a run that ends with a reader asleep on a full pipe |
| PipeSteps.ReadResult | pipe.c:105-119 | a read of n > 0 returns 0 if and only if the pipe is empty and the write end closed, and one that returns fewer than n has emptied the pipe |
| PipeSteps.WriteResult | pipe.c:83-96 | a write that returns n has put its n bytes once, in order, after everything the process sent before; one that fails has put a proper prefix |
| PipeSteps.Perform | pipe.c:58-120 | a step of a run is what pipewrite, piperead and pipeclose do to the buffer, end with and wake |
| PageTables.AddTable | vm.c:54-63 | a new page table makes no page appear or disappear |
| PageTables.MapUser | vm.c:79-83 | mapping a page onto a frame of its own extends the address space by that frame |
| PageTables.Unmap | vm.c:263-269 | clearing an entry takes exactly that frame out of the address space |
| PageTables.SpaceFrame | vm.c:45-65 | an address space depends only on its own frames |
| PageTables.TableDecides | vm.c:57-62 | what the processor lets through at a page of an address space, by both levels, is what the page table entry says |
| VirtualMemory.Kernel.constructor | kalloc.c:30-36 | no page free before the first freerange |
| VirtualMemory.Kernel.Freerange | kalloc.c:45-52 | exactly the pages that lie wholly in the range become free |
| VirtualMemory.Kernel.Kalloc | kalloc.c:82-95 | a frame from the free list, none exactly if it is empty |
| VirtualMemory.Kernel.Kfree | kalloc.c:59-77 | the frame joins the free list and no other frame changes |
| VirtualMemory.Kernel.Walk | vm.c:45-65 | the page table for a page, made if missing, with a directory entry that lets stores and user code through; every other directory entry and every mapping stays, frames are conserved |
| VirtualMemory.Kernel.MapRange | vm.c:69-90 | every page of the range is mapped, every other page as before; fails only with no frame left for the page table of one of its pages |
| VirtualMemory.Kernel.SetupKvm | vm.c:128-144 | succeeds exactly with a frame for the directory and for each page table the rows need, with exactly those rows mapped; otherwise no frame is left |
| VirtualMemory.TablesOfRows | vm.c:139-143 | the page tables are exactly those of the rows' pages |
| VirtualMemory.KernelIsHidden | vm.c:95-124 | with kernel rows that are not for the user, user code reaches no page from KERNBASE on |
| AddressSpaces.DeallocUvm | vm.c:249-273 | from any start, exactly the mapped pages from the first page table found on are freed |
| AddressSpaces.FreesAllIff | vm.c:258-271 | all pages in range are freed if and only if no page before that table is mapped |
| AddressSpaces.GoodStart | vm.c:258-271 | which is so for every start at a table's first page or inside a table that exists |
| AddressSpaces.BadStart | vm.c:258-271 | and not for a start at page 1 with the first table missing and page 1024 mapped |
| AddressSpaces.BadSpace | vm.c:258-271 | there is such an address space |
| AddressSpaces.FreeVm | vm.c:277-292 | every frame of the address space is free again, and nothing else changes |
| AddressSpaces.CopyUvm | vm.c:309-337 | the child sees each page as the parent does, with the same contents, and stores and user code let through or not by both levels; its other user pages are not there and its kernel half is the rows of kmap; its frames were free; parent and all others unchanged; success and each failure are decided by the number of free frames as Expected says, and each failure loses exactly the stated frames |
| AddressSpaces.PageRunsOut | vm.c:326-327 | the number of free frames at which a user page's frame is the one missing |
| AddressSpaces.TableRunsOut | vm.c:329-330 | the number at which it is the page table's: one more than a multiple of 1025 beyond setupkvm's |
| AddressSpaces.LosesAFrame | vm.c:309-336 | a machine and a process of one page, with a number of free frames at which Expected has copyuvm lack a page table: copyuvm fails and leaves one of those frames neither free nor in use |
| AddressSpaces.ChildFrames | vm.c:319-331 | the child's frames are pairwise distinct and none is the parent's |
| AddressSpaces.StoresAreIsolated | vm.c:307-332 | whatever one process stores in its pages, the other sees its own as before |
| AddressSpaces.CopyThenFree | vm.c:277-337 | copying and freeing the child restores the set of free frames if and only if no page table was missing once a frame had been taken |
| Messages.Slab.constructor | message.c:18-36 | no message, every slot unused |
| Messages.Slab.RequireMsg | message.c:39-78 | the first unused slot takes the message; none exactly if all are used |
| Messages.Slab.LastOf | message.c:88-92 | the walk ends at the last message of the queue |
| Messages.Slab.Dispatch | message.c:81-108 | the message joins the end of the process's queue, or its slot is lost exactly when the table has no room |
| Messages.Slab.Post | message.c:211-225 | refused when all slots are used, lost when the table is full, queued otherwise; other processes' queues unchanged; one slot and at most one table entry less |
| Messages.Slab.GetMsg | message.c:228-251 | the oldest pending message of the process, or none exactly if it has none; what was accepted for each process is what was delivered, in order, and what is pending |
| Messages.AppendedKeeps | message.c:86-95 | appending keeps the chains acyclic, disjoint and owned |
| Messages.RemovedKeeps | message.c:233-247 | so does fetching |
| Messages.ChainsCoverUsedSlots | message.c:81-108 | every used slot is on a chain if and only if none was lost |
| Messages.LosesASlot | message.c:98-107 | from the empty slab: a message to each of 20 processes and one to another, and a slot is lost |
| Windows.Desktop.AllocWindow | window.c:35-60 | appends to the sequence of windows; none exactly if all entries are in use |
| Windows.Desktop.ReleaseWindow | window.c:62-83 | removes the window with the id from the sequence and asks the bottom window's owner to redraw; follows a null list head exactly when it was the only window |
| Windows.Desktop.SetActivated | window.c:94-118 | moves the window to the end of the sequence, the bottom one excepted |
| Windows.Desktop.GetWindowByPoint | window.c:138-143 | the last window of the sequence over the point |
| Windows.UnlinkKeeps | window.c:69-76 | taking a window out of the links is taking it out of the sequence |
| Windows.StackKeeps | window.c:48-52 | linking it on at the tail is appending it |
| Screen.Framebuffer.DrawWindow | window.c:145-169 | the window's picture, its pixels cut into rows, stands at its rectangle in the picture of the screen, and nothing else changes |
| Screen.PictureAt | window.c:168 | point (x, y) of a picture w wide is pixel y * w + x |
| Screen.Serve | shell_gui.c:324-330 | a program's loop fetches its messages in order, up to and with the first request to redraw, or all of them if there is none |
| Screen.Ask | message.c:211-217 | a request to redraw reaches the program if and only if a slot is unused and the table has room for it, and then there is room for the next, no less than before |
| Screen.Redraw | window.c:145-184 | from the bottom window up, each program asked by the one before, with other messages arriving in between: the screen takes the picture, at each pixel the topmost window over it, if and only if no request is refused or lost; otherwise it stays as it was. With nothing else arriving the first request decides; with more slots and table entries free than messages arriving, no request fails |
| Screen.DrawnIsClicked | window.c:138-184 | after a redraw that went through, the colour on the screen at a covered point is the one at that place of the picture of the window a click there finds |
| ShellParser.GetToken | sh.c:312-353 | the next token of the line, and the cursor at the one after |
| ShellParser.Peek | sh.c:355-365 | whether the next token starts with one of the characters |
| ShellParser.ParseRedirs | sh.c:419-442 | the redirections the grammar gives, or failure without a file |
| ShellParser.ParseArgs | sh.c:474-490 | the words and redirections the grammar gives, at most MAXARGS - 1 words |
| ShellParser.ParseBlock | sh.c:444-458 | a parenthesised line with its redirections |
| ShellParser.ParseExec | sh.c:460-491 | the simple command or block the grammar gives |
| ShellParser.ParsePipe | sh.c:406-417 | the pipe the grammar gives |
| ShellParser.ParseLine | sh.c:389-404 | the line the grammar gives, on every input |
| ShellParser.NulTerminate | sh.c:493-538 | a NUL after each word of the tree and no other change |
| ShellParser.ParseCmd | sh.c:372-387 | succeeds exactly when the grammar takes the whole line; every word and file name is then a C string equal to its token, every redirection has a file behind it, and no command has MAXARGS words |
| ShellParser.LineSound | sh.c:389-491 | what the grammar takes has a file behind every redirection and fewer than MAXARGS words in every command |
| ShellRoundTrip.LexWritten | sh.c:309-353 | tokens with any of the five blanks between them, needed only between words, are read back one by one |
| ShellRoundTrip.ReadLine | sh.c:389-458 | the tokens of a written tree, wherever they stand, are parsed to that tree |
| ShellRoundTrip.RoundTrip | sh.c:372-491 | a line that writes any command tree with readable words, however it is spaced and with > or >>, is parsed to that tree |
| Calculator.PopsIsPrecedence | cal.c:91-119 | the table of precede is usual precedence with left association |
| Calculator.ReadsExpr | cal.c:136-173 | reading an expression anywhere leaves its postfix form, part put out and part on the stack |
| Calculator.RpnOfInfix | cal.c:121-181 | the output for an expression's text is its postfix form |
| Calculator.Regrouped | cal.c:121-181 | every infix text has a tree grouped by precedence and left association |
| Calculator.Arithmetic | cal.c:190-196 | the operators are those of arithmetic, and / leaves a remainder smaller than the divisor on the side of the dividend |
| Calculator.OneQuotient | cal.c:195 | and there is one such quotient |
| Calculator.ValueMeans | cal.c:183-240 | the value of an expression is the one number it means, operator by operator |
| CalculatorRun.ToRPN | cal.c:121-181 | on the arrays: the machine's output and blanks after it, within MAXCOUNT cells |
| CalculatorRun.ReduceKeeps | cal.c:237-238 | reducing the leftmost operator keeps the value of the text, in numbers |
| CalculatorRun.Caln | cal.c:214-240 | on any cells: the reduction of the numbers and operators in them, where a result of 0 leaves nothing; it ends in a number, at index -1 of the array or in a division by 0 |
| CalculatorRun.NeverWrong | cal.c:214-240 | from any text with one number more than operators, a number that comes out is its value |
| CalculatorRun.CalnExact | cal.c:183-240 | a number comes out of an expression's postfix form, and is its value, if and only if no operator in it has the value 0 or divides by 0 |
| CalculatorRun.ZeroRunsOff | cal.c:32-45 | for every n, n - n leaves no cell, so caln then ends as it would without it, and alone it runs off the array |
| CalculatorRun.SumRunsOff | cal.c:183-240 | for all n and k, caln runs off its array on (n - n) + k, whose value is k |
| CalculatorRun.Calculate | cal.c:243-248 | for every infix text and every tree grouped by usual precedence and left association that has this text (there is one): a number comes out exactly if no operator of the tree has the value 0 or divides by 0, and it is the number the tree means |
| CalculatorRun.OneReading | cal.c:121-240 | two trees grouped so with the same text have the same postfix form and value, and fail together |
| Grep.MatchHere | grep.c:83-95 | whether the pattern matches at the position, by the declarative meaning |
| Grep.MatchStar | grep.c:97-105 | whether c* and the rest match at the position |
| Grep.Match | grep.c:71-81 | true if and only if the pattern matches somewhere, or at the start after ^ |
| Grep.FirstAtom | grep.c:84-95 | a pattern matches exactly when its first atom covers a stretch and the rest matches after it |
| Grep.Cases | grep.c:83-105 | the meaning satisfies matchhere's and matchstar's equations: nothing, $ at the end, one character, and none or one more under a star |

## Left out

- Directories, path names, inode allocation and reference counts, and the type and link fields of
  inodes; outside CrashSafety and FileCrash the in-core sizes and addresses are taken as authoritative.
- Device inodes (T_DEV) in readi and writei, and the pipe branch of fileread and filewrite.
- mkfs main and byte-order conversion, which is the identity here.
- File operations of other processes between the chunks of one filewrite.
- exec, growproc, allocuvm's failure path, copyout, trap handling and the scheduler's choice.
- Reuse of pids after 2^31 processes, and whether `killed` is clear in a new process.
- The pixel contents of windows, the mouse pointer, partial updates and getUnion.
- createMsg's choice of window and its dragging of windows.
- cal.c's splitting and printing of digit strings, and overflow of int values.
- runcmd and command suggestions of the shell, grep's line buffer, and every GUI program.
- Hardware, boot code, interrupts and spin-lock internals.
- GroupCommit.GroupCommitSafety: K is a parameter, because nothing in the code enforces a bound on what one operation logs.
- CalculatorRun.Calculate: requires fewer than MAXCOUNT tokens, because the source writes past its arrays with more.
- Screen.Redraw: begins with no redraw under way, because two of them would interleave, and on a list with a window, because drawScreen reads through a null list head otherwise; what programs do with other messages is not modelled.
- Mkfs.Image.Iappend: stops when the image is full, where mkfs would write past its end.
- Heap.Allocator.Malloc: stops where a header has been written behind the end of the process, because what follows is no longer the allocator's doing.
