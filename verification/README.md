# xv6-x86-64: what the kernel and its user programs keep

This project models the stateful core of the xv6 teaching kernel and three of its user-space algorithms, and proves
what they keep over every input, every step and every run. `dafny verify dfyconfig.toml` checks all of it.

The parts, from the disk up:

- **Buffer cache** (`bcache.dfy`): the doubly linked ring of buffers of `kernel/bio.c` over the memory disk of
  `kernel/memide.c`. The links always form one ring of all buffers, ordered by most recent release.
- **Redo log** (`redolog.dfy`, `log.dfy`): `kernel/log.c`. `redolog.dfy` is a theory of sector writes cut off by crashes;
  `log.dfy` is the code over the cache, proved to make exactly those writes. Together they refine a plain map from sector
  to bytes that survives any crash, and any number of crashes during recovery, with exactly the committed transactions.
- **Disk driver** (`ide.dfy`): the request queue of `kernel/ide.c` with its processes, interrupts and device, as a state
  machine whose runs, as long as no request fails, leave the disk that the synchronous driver leaves for the same calls.
- **File system** (`bitmap.dfy`, `fslayout.dfy`, `fscontent.dfy`, `fs.dfy`, `file.dfy`, `mkfs.dfy`): block allocation,
  inodes, reading, writing and truncation of `kernel/fs.c`, the chunked write of `kernel/file.c` and the image that
  `tools/mkfs.c` makes, on the plain map that the log provides, with the log's own panics.
- **Files after a crash** (`fslog.dfy`): the file system in step with the log, and what a crash leaves of every file.
- **Names** (`names.dfy`, `dir.dfy`, `path.dfy`): directories as finite maps and path lookup as a fold.
- **Processes** (`proctable.dfy`, `sched.dfy`, `schedinv.dfy`, `schedstep.dfy`, `schedrun.dfy`): `kernel/proc.c` on any
  number of CPUs, as a state machine whose steps end where another CPU can interfere.
- **The process table's lock** (`schedlock.dfy`): `kernel/spinlock.c` one memory access a step, refining the machine above,
  in which taking the lock is a single step.
- **Pipes and console** (`ring.dfy`, `pipe.dfy`, `pipesync.dfy`, `console.dfy`): rings under wrapping 32-bit counters, and
  the sleep/wakeup protocol of pipes.
- **Address spaces** (`vm.dfy`): growth, shrinking, copying and freeing in `kernel/vm.c` over the free list that
  `kernel/kalloc.c` threads through the free pages.
- **User programs** (`freelist.dfy`, `malloc.dfy`, `shell.dfy`, `shellprint.dfy`, `shellparse.dfy`, `regex.dfy`): the
  allocator, the shell's parser and the matcher of grep.

Conventions. A lock held over a section of code makes that section one step. A panic is a result value. A wait
(`sleep` because something is busy) is a result value in the sequential parts and a state in the state machines. Integers
wrap where the source's width matters and are unbounded elsewhere (pids, file offsets below the checked limits).

Where a property turned out not to hold of the code, the model keeps the code and the exact condition is proved:

- A reader of a pipe can be left asleep over a full pipe when a writer is killed (`ReaderAbandoned`); no other step does
  this (`StepKeepsInv` of `PipeSync` is an equivalence).
- `fork` can return a child that is already marked killed (`ChildBornKilled` is such a run). A mark is set by exactly the
  kills that find the slot, whatever its state, and cleared by exactly the wait that reaps it (`KilledStep`); so over any
  run from boot the child is unmarked exactly if no kill found its slot after the slot was last reaped (`MarkedExactly`,
  `ChildUnmarked`). That kill may have found the slot unused, or in a fork that then failed.
- A disk request that the device fails leaves the buffer marked valid with bytes that are not those of the sector
  (`FailureUnseen`, and `FailureReached` from the first call on). The driver passes one bit of the device and 28 of the
  sector, so two calls for sectors 2^28 apart are one to it, and a process can return with bytes that are no longer those
  of its sector (`AliasReached`). No other step breaks this (`StepKeepsInv` of `Ide` is an equivalence), and neither
  happens to sectors below 2^28 of the first two devices (`RangeNeverAliases`).
- `allocuvm` ignores the result of `mappages`: its growth is complete exactly when the frames suffice for pages and page
  tables (`Allocuvm`). It returns success without the last page exactly when the free frames are one too few and the last
  page needs a page table of its own, for instance for a first page with one free frame (`OneFrameShort`, `ShortGrowth`).
- `deallocuvm` jumps by a whole table from the middle of a table that is absent, and can leave a page of its range mapped
  (`JumpsOver`). It comes to a mapped page exactly if the first page of the range has a page table, or is no further into
  its table than that page, or there is a table in between (`VisitedExactly`); so it misses nothing when the pages are
  mapped from 0 without a hole (`VisitsAll`), nor when it starts from page 0 (`Freevm`).
- `balloc` does not stop at the log: `tools/mkfs.c` leaves the bits of the log's blocks clear (`MadeNoLog`), and `balloc`
  gives out a block of the log exactly if no data block is free and such a bit is clear, log_write permitting (`Balloc`,
  `Took`). On an image whose files fill the data region the first block it gives out is that of the log's header
  (`LogBlockGiven`; `NoBlockLeft` on 40 blocks). The model of the file system stops there as at a panic.
- `filewrite` does not always stay within the log. A piece logs exactly the data sectors it touches, the table if it
  writes to it, the map blocks of the lowest free blocks it takes, and the inode if the file grows (`LogNeeded`); it panics
  exactly if those are as many as the log has blocks, or if there are fewer free data blocks than it takes
  (`WritePiece`), and a whole `filewrite` panics exactly if the blocks do not suffice for the bytes that fit or one of its
  pieces is too big, both told from the state before the call (`Filewrite`). A log with room for five sectors, the map
  blocks of four allocations and the inode is always enough (`PieceFits`, `RoomyLog`): ten blocks, as mkfs makes them, for
  disks of up to 12287 blocks. That bound is reached (`PieceLimitReached`), and with a log of seven blocks and one map
  block a file that mkfs made leads to the panic (`SmallLog`, `LogOverflows`).
- `mkfs` rounds the size of the root directory up past the end of its last block. So its image is a settled disk exactly
  if the number of entries, the files and two, is no multiple of 32 (`MadeExactly`); else the root is one block longer
  than what it has, and reading it makes the kernel allocate outside a transaction and panic (`ReadRootEnd`,
  `ThirtyFiles`).
- `malloc` narrows the byte count for `sbrk` to an `int`, which is exact precisely below 2^27 units (`SbrkArgExact`,
  `SbrkArgNarrowed`).
- `filewrite` that does not fit the largest file still writes whole pieces before it fails (`AcceptedExactly`).

## Model

| member | source | states |
|---|---|---|
| BufferCache.Cache.constructor | kernel/bio.c:38-56 | binit leaves one ring of all buffers, each an idle placeholder for no device, ordered as if each had been released once |
| BufferCache.MovedToFrontIsRing | kernel/bio.c:127-132 | unlinking a buffer and relinking it behind the head turns any ring of all buffers into one ring of all buffers with that buffer first |
| BufferCache.ReleaseKeepsRecency | kernel/bio.c:119-138 | after any history of releases, one more release keeps the ring sorted by most recent release |
| BufferCache.Cache.FindCached | kernel/bio.c:69-80 | the forward walk finds the buffer of a sector if there is one and otherwise returns to the head |
| BufferCache.Cache.FindRecyclable | kernel/bio.c:82-91 | the backward walk finds the least recently released buffer that is neither busy nor dirty, and fails only if there is none |
| BufferCache.Cache.Bget | kernel/bio.c:61-93 | the outcome of bget in all four cases, with the ring, uniqueness of (device, sector) and everything else kept; recycling takes the least recently released clean idle buffer |
| BufferCache.Cache.Iderw | kernel/memide.c:36-58 | the synchronous driver: exact panic conditions, and otherwise one sector written or read and the flags it leaves |
| BufferCache.Cache.Bread | kernel/bio.c:96-105 | the caller gets the latest bytes of the sector in a buffer it now holds; released clean buffers stay equal to the disk |
| BufferCache.Cache.Bwrite | kernel/bio.c:108-115 | exact panic conditions, for a buffer with or without contents; otherwise the held buffer is on the disk when the call returns and is valid and clean |
| BufferCache.Cache.Relink | kernel/bio.c:127-134 | the six link assignments are an unlinking followed by a relinking behind the head |
| BufferCache.Cache.Brelse | kernel/bio.c:119-138 | the buffer becomes the most recently released one, in one ring, and no other buffer changes but for its links |
| RedoLog.PutHeader | kernel/log.c:101-113 | the header block written by write_head reads back as the same count and sectors |
| RedoLog.ReplayAbsorbsPrefix | kernel/log.c:68-82 | replaying a sequence of writes over the effect of any of its prefixes gives the effect of the whole |
| RedoLog.RecoverySurvivesCrash | kernel/log.c:115-122 | recovery cut off after any number of its writes and started again gives the same home sectors |
| RedoLog.RecoverySurvivesCrashes | kernel/log.c:115-122 | the same for any number of crashes during recovery; the log ends empty |
| RedoLog.SectorsSpec | kernel/log.c:160-181 | each logged sector is listed once, and only logged sectors are |
| RedoLog.LogSlots | kernel/log.c:160-181 | before the commit record, each log slot holds the last bytes logged for its sector (absorption) |
| RedoLog.CommittedRecovers | kernel/log.c:115-149 | once the commit record is on disk, recovery installs exactly the logged bytes |
| RedoLog.TransactionIsAtomic | kernel/log.c:135-181 | a crash after any prefix of a transaction's sector writes recovers to all of it or none, and the commit record is the dividing line |
| RedoLog.TransactionCompletes | kernel/log.c:135-149 | a transaction that ends has installed its last bytes for each sector and emptied the log |
| RedoLog.RunReachesDisk | kernel/log.c:125-181 | after any run of transactions the home sectors are those of the transactions written directly, without a log |
| RedoLog.RunSurvivesCrashes | kernel/log.c:54-181 | a crash after any write of any run, and any number of crashes during recovery, leave exactly the committed transactions |
| RedoLog.CommitIsDurable | kernel/log.c:135-149 | a transaction whose commit_trans has returned is among those that survive |
| Log.Log.constructor | kernel/log.c:54-66 | initlog recovers whatever crash image the disk holds before anything else uses it |
| Log.Log.ReadHead | kernel/log.c:85-96 | the in-memory header is that of the disk |
| Log.Log.RecoverFromLog | kernel/log.c:115-122 | the sector writes are exactly those of the crash theory's recovery, in order |
| Log.Log.BeginTrans | kernel/log.c:124-133 | one transaction at a time |
| Log.Log.FindSlot | kernel/log.c:168-172 | the scan finds the slot of an earlier record of the sector, or the next free one |
| Log.Log.LogWrite | kernel/log.c:160-181 | exact conditions of both panics; otherwise the sector's bytes join the transaction, its log block is written and its buffer pinned |
| Log.Log.ReadBlock | kernel/bio.c:96-105 | inside a transaction bread returns the latest bytes logged, although the home sector is stale: the plain map of all transactions so far, the open one included |
| Log.Log.ReleaseBlock | kernel/bio.c:119-138 | releasing a block whose bytes are those logged or those found keeps pinned buffers equal to their log blocks and clean ones equal to the disk |
| Log.Log.WriteHead | kernel/log.c:101-113 | the commit record is one sector write of the count and the sectors |
| Log.Log.InstallTrans | kernel/log.c:69-82 | each listed log block reaches its home sector, in order, and its buffer is unpinned |
| Log.Log.CommitTrans | kernel/log.c:135-149 | the open transaction becomes the last of the finished ones; want of buffers is impossible while two are spare |
| Log.ViewIsDirect | kernel/log.c:135-181 | home sectors seen through log and disk are those of all transactions applied directly |
| Log.Log.SurvivesCrashes | kernel/log.c:54-181 | in every state the methods can reach, a crash after any sector write so far and any number of crashes in recovery leave exactly the committed transactions |
| IdeQueue.Queue.Append | kernel/ide.c:137-145 | the walk along the links puts the buffer last; it is first exactly if the queue was empty |
| IdeQueue.Queue.Pop | kernel/ide.c:96-103 | the interrupt removes the first request and the rest stay linked in order |
| Ide.InterruptIsMemIderw | kernel/ide.c:91-119 | an interrupt without failure does, in one step, exactly what the memory disk's iderw does for the buffer at the head |
| Ide.StepKeepsInv | kernel/ide.c:91-155 | every step keeps the queue, device and buffer invariant, except exactly a failed request whose buffer disagrees with its sector and a call for a sector that another call is alike to, in the bits the driver passes on |
| Ide.FailureUnseen | kernel/ide.c:106-112 | a failed request ends with a buffer that is valid and clean but does not equal its sector |
| Ide.RequestsInOrder | kernel/ide.c:91-155 | over any run requests finish in the order of the calls, each queued buffer is busy and queued once, the device works for the head, and a sleeper's buffer is still queued |
| Ide.ReturnsSynced | kernel/ide.c:120-155 | over any run without a failed request and without calls alike to the driver a process that returns has its buffer valid, clean and equal to its sector |
| Ide.FailureReached | kernel/ide.c:91-155 | such a failure in two steps from the start: one process, one empty buffer, one interrupt with an error, and the process returns |
| Ide.RangeNeverAliases | kernel/ide.c:74-87 | buffers for sectors below 2^28 of the first two devices are never alike to the driver |
| Ide.AliasReached | kernel/ide.c:74-87 | a run without failures in which a read and a write of sectors 2^28 apart leave a process with a finished buffer that differs from its sector |
| Ide.ServedInOrder | kernel/ide.c:91-155 | requests are finished in the order they were handed in, each with the bytes it was handed in with |
| Ide.DriverIsSynchronous | kernel/ide.c:91-155 | over any run without a failed request the disk is what the memory disk, called with the same requests in the same order, makes of it: all calls but those still pending |
| Bitmap.SetBit | kernel/fs.c:63-69 | setting or clearing one bit of a map byte leaves its other bits |
| Bitmap.PutBit | kernel/fs.c:63-69 | the same for a bit of a map block |
| FsLayout.InodeRoundTrip | kernel/fs.c:200-217 | what iupdate writes ilock reads back, and the other inodes of the block are unchanged |
| FsLayout.AttachDirect | kernel/fs.c:362-366 | a free block made the next direct block of a file keeps the file system consistent |
| FsLayout.AttachTable | kernel/fs.c:370-372 | the same for the table of indirect blocks |
| FsLayout.AttachIndirect | kernel/fs.c:373-380 | the same for an indirect block and its table entry |
| FsLayout.Detach | kernel/fs.c:398-412 | the first block a file still has is marked, and freeing it leaves the rest consistent |
| FsLayout.DetachTable | kernel/fs.c:413-416 | the same for the table once it is empty |
| FsContent.BlockWritten | kernel/fs.c:462-492 | writing a data block changes that block of that file and no block of any other |
| FileSystem.Fs.LogWrite | kernel/log.c:159-181 | the panics are exactly a transaction that is too big and one that was not begun; otherwise the sector has the bytes and joins the transaction, on the disk that the log's transactions make |
| FileSystem.SectorsCounted | kernel/log.c:164-172 | the header lists exactly the logged sectors, each once, so the test for too big a transaction is a test of their number |
| FileSystem.FreeCounted | kernel/fs.c:52-95 | the clear bits below the log are as many as the data blocks that no file owns |
| FileSystem.Fs.CommitTrans | kernel/log.c:135-149 | the calls become one more committed transaction that the log can hold, and the disk stays as the transactions make it |
| FileSystem.Fs.Balloc | kernel/fs.c:52-76 | the lowest free block, marked and zeroed, it and its map block logged; the panic is exactly that every block is marked or that log_write panics on the map block or the block, and without a free block nothing changes; the block is one of the log exactly if no data block is free |
| FileSystem.Fs.Bfree | kernel/fs.c:79-95 | exactly the given bit is cleared; the panics are exactly a clear bit and log_write's, in that order |
| FileSystem.Fs.Bmap | kernel/fs.c:356-384 | the block of the file at that index, allocated from the lowest free blocks if it was the next; nothing changes for a block that exists, and then no panic is possible; else a panic means fewer free data blocks before the call than it takes, a panic of log_write, or an index past the largest file, and outside a transaction it is certain; what is logged is exactly the block, its table and the map blocks of what was allocated |
| FileSystem.Fs.Iupdate | kernel/fs.c:201-217 | the inode table agrees with memory again and no file's bytes change; the panic is exactly log_write's |
| FileSystem.WrittenIsSplice | kernel/fs.c:462-492 | bytes written up to the end with the new size are the splice of the old file |
| FileSystem.Fs.Writei | kernel/fs.c:462-492 | exact errors; otherwise the bytes are spliced in across blocks and the direct/indirect boundary, no other file changes and no hole appears; exactly the lowest free blocks are taken, as many as the write needs; a panic means fewer free data blocks before the call than that, or a panic of log_write; what is logged is given exactly, and on a panic no more than that, without the last |
| FileSystem.Fs.Readi | kernel/fs.c:434-458 | exact errors; otherwise the bytes of the file from the offset, and the disk, with its bitmap, is unchanged |
| FileSystem.Fs.Itrunc | kernel/fs.c:391-419 | each block of the file is freed once, so the panic on a free block is unreachable; no other file changes; the one panic left is log_write's, with no more logged than the bitmap |
| FileSystem.Fs.FreeInode | kernel/fs.c:327-329 | an inode gives up its blocks and its slot; the one panic is log_write's |
| FileSystem.Fs.Iput | kernel/fs.c:317-336 | the last reference to a valid inode without links frees it and every other only counts down; the panic is exactly that case with the inode busy, or log_write's |
| FileSystem.Fs.Ialloc | kernel/fs.c:175-198 | the lowest free inode, cleared and typed, with every file's bytes kept; the panic means there is none or that log_write panics |
| FileSystem.Fs.BitmapIsExact | kernel/fs.c:52-95 | between operations the marked blocks below the log are exactly those before the data region and those that some file uses; no block is used twice, and none of the log |
| OpenFiles.SpliceTwice | kernel/file.c:135-153 | two writes one after the other are one write of the concatenation |
| OpenFiles.PieceCounts | kernel/file.c:126-138 | a piece of filewrite's size touches at most four data blocks wherever it starts, and allocates at most four blocks, the table included |
| OpenFiles.LogNeeded | kernel/fs.c:462-492 | from the start of a transaction a write logs exactly the sectors that LogNeed counts on the disk before it, and one that panics has logged fewer |
| OpenFiles.PieceFits | kernel/file.c:126-138 | a piece needs at most five sectors, the map blocks of four allocations and the inode: no more than LOGSIZE in all |
| OpenFiles.PieceLimitReached | kernel/file.c:126-138 | that many are needed by a piece that starts in the last direct block, wherever the map blocks of the lowest free blocks are as many as can be |
| OpenFiles.FirstFreeRest | kernel/fs.c:52-76 | once the lowest free blocks are taken, the lowest of the rest are the next ones |
| OpenFiles.NeedThere | kernel/file.c:135-153 | what a piece of a long write logs on the disk the pieces before it have left is told from the disk at the start |
| OpenFiles.RoomyLog | kernel/log.c:164-165 | if the log has room for a piece, every piece of every write fits |
| OpenFiles.PieceLimitSmall | kernel/log.c:164-165 | that is below LOGSIZE on any disk, and six sectors with one map block |
| OpenFiles.WritePiece | kernel/file.c:140-146 | one piece in its own transaction is one writei; the transaction is committed; it panics exactly if fewer data blocks are free than it takes or it needs as many sectors as the log has blocks; if the log has room for a piece that of log_write is unreachable |
| OpenFiles.AcceptedExactly | kernel/file.c:135-153 | all bytes are written exactly if the whole write fits, else whole pieces up to the first that does not fit |
| OpenFiles.Filewrite | kernel/file.c:116-155 | the pieces compose to one write at the original offset, the offset advances by what was written, and the result is n exactly if all was written; every committed transaction leaves a settled disk with whole pieces of the write in the file and the other files as they were; it panics exactly if, before the call, fewer data blocks are free than the bytes that fit need, or some piece is too big for the log; with room for a piece log_write never panics |
| OpenFiles.WriteMany | kernel/file.c:116-155 | filewrite after filewrite on any files: the history of settled disks goes on from call to call, and all calls return if the log has room for a piece and the free blocks suffice for the bytes of all of them |
| FsOnLog.SameCount | kernel/log.c:159-181 | the file system's disk and count of logged sectors are those of the log, so their tests for a panic are the same |
| FsOnLog.BuffersSuffice | kernel/bio.c:82-91 | one buffer is free as long as the sectors logged and held are fewer than the buffers |
| FsOnLog.PieceBuffers | kernel/file.c:126-138 | on disks of up to 12287 blocks the sectors a piece of filewrite reads or logs are fewer than the buffers |
| FsOnLog.BeginInStep | kernel/log.c:124-133 | begin_trans keeps both sides in step |
| FsOnLog.LogWriteInStep | kernel/log.c:159-181 | log_write on the log and on the file system's disk have the same panics and the same effect, and no buffer is wanting while the sectors logged and held are fewer than the buffers |
| FsOnLog.ReadInStep | kernel/bio.c:96-105 | bread of a sector outside the log gives the bytes of the file system's disk; under the same condition it does not panic, and waits only for a sector that is held |
| FsOnLog.CommitInStep | kernel/log.c:135-149 | commit_trans adds the same transaction on both sides and leaves the file system's disk as it is |
| FsOnLog.SettledOutsideLog | include/fs.h:4-9 | whether a disk is settled, and the bytes of every file, do not depend on the blocks of the log |
| FsOnLog.FilesSurviveCrashes | kernel/log.c:54-181 | a crash after any sector write of any sequence of transactions that leave settled disks, and any number of crashes in recovery, leave a settled disk with every file as some committed transaction left it |
| FsOnLog.CrashLeavesPieces | kernel/file.c:116-155 | so a file that filewrite was writing holds whole pieces of the write and nothing else of it, and the other files are as they were |
| Mkfs.SuperRoundTrip | tools/mkfs.c:88-107 | the superblock the kernel reads is the one mkfs wrote |
| Mkfs.MarkUsed | tools/mkfs.c:233-247 | exactly the first bits of the map block are set |
| Mkfs.Image.constructor | tools/mkfs.c:88-107 | the zeroed image with its superblock: every inode free, no block given out |
| Mkfs.Image.Ialloc | tools/mkfs.c:219-231 | the next inode, typed and with one link, and every file as it was; none exactly if the table is full |
| Mkfs.Image.Iappend | tools/mkfs.c:251-298 | the bytes go to the end of the file, across blocks and the direct/indirect boundary, and no other file changes; it stops exactly if the file gets too large or the data blocks do not suffice |
| Mkfs.Image.AddFile | tools/mkfs.c:122-146 | one file more under the root, with its entry and its bytes, exactly if name, inodes and blocks permit |
| Mkfs.Image.Finish | tools/mkfs.c:148-155 | the root gets its rounded size and the map its bits, exactly if all blocks in use fit one map block; no file changes |
| Mkfs.Make | tools/mkfs.c:62-158 | an image with the given files, consistent, with superblock, inode table and bits written and zeroes behind the last block in use, exactly if there is room for them |
| Mkfs.RootHasHole | tools/mkfs.c:148-153 | the size mkfs gives the root directory covers no more blocks than it wrote exactly if the entries do not end on a block boundary |
| Mkfs.MadeSettled | tools/mkfs.c:62-158 | then the image is settled, its directories are good and the root holds the entries of the files |
| Mkfs.MadeWithHole | tools/mkfs.c:148-153 | else it is a settled disk for no inodes, extents and owners |
| Mkfs.MadeExactly | tools/mkfs.c:62-158 | so the image is a settled disk exactly if the number of files and two is no multiple of 32 |
| Mkfs.MadeNames | tools/mkfs.c:137-140 | the root binds the name of each file, and to its inode where names are unique |
| Mkfs.MadeNoLog | tools/mkfs.c:102-155 | its log is empty, so the crash guarantees hold from it on, and the bits of the log's blocks are clear |
| Mkfs.Mount | kernel/fs.c:27-35 | with the superblock it reads, the kernel starts on the image idle and consistent, and on a settled one settled and with a history, which is all that filewrite asks for |
| Mkfs.ReadRootEnd | kernel/fs.c:356-384 | where the entries fill their blocks, bmap for the last block of the root panics outside a transaction |
| Mkfs.ThirtyFiles | tools/mkfs.c:122-153 | thirty empty files are such a case |
| Mkfs.LogBlockGiven | kernel/fs.c:52-76 | on an image whose files fill the data region balloc gives out the first block of the log |
| Mkfs.NoBlockLeft | kernel/fs.c:52-76 | mkfs without files on 40 blocks makes such an image |
| Mkfs.SmallLog | kernel/file.c:135-146 | with one map block and a log of at most seven blocks a piece that starts in the last direct block panics |
| Mkfs.LogOverflows | kernel/file.c:135-146 | such a run from mkfs on |
| Names.Strncmp | kernel/string.c:58-66 | zero exactly for names with the same first n characters |
| Names.Strncpy | kernel/string.c:68-79 | the same first n characters, padded with NULs |
| Directories.Dirlookup | kernel/fs.c:505-529 | agrees with the directory as a map from 14-byte names to inode numbers, in both directions, and changes nothing; it panics exactly on what is no directory, and on one with a part of an entry at its end if the name is not bound |
| Directories.FindFree | kernel/fs.c:543-550 | the first free entry, all before it in use, or the end; the panic means all entries are in use and a part of one is at the end |
| Directories.AddedBindings | kernel/fs.c:532-559 | an entry written into a free slot adds exactly its binding to the map |
| Directories.AddedUnique | kernel/fs.c:532-559 | names stay unique |
| Directories.Dirlink | kernel/fs.c:532-559 | adds one binding or refuses a name that is there; other files are untouched and names stay unique; blocks are taken exactly if no entry is free; the panics are no directory, a part of an entry, a full directory, fewer free data blocks before the call than that, and those of log_write; linking an inode of the table keeps every directory naming inodes of the table |
| Directories.DirsKept | kernel/fs.c:505-559 | that all directories name inodes of the table is kept by any change of one file that leaves it no directory or a good one |
| Directories.NamesInTable | kernel/fs.c:505-529 | a directory whose entries in use name inodes of the table binds names to such inodes only |
| Directories.ErasedBindings | kernel/sysfile.c:211-213 | clearing an entry takes exactly its name out of the map where names are unique |
| Directories.UnlinkUndoesLink | kernel/sysfile.c:211-213 | clearing the entry that dirlink wrote gives the map from before |
| Directories.Unlink | kernel/sysfile.c:200-213 | unlink's lookup and write: the name goes out of the map and nothing else changes; no block is needed, so the panics are those of dirlookup and log_write; directories stay good |
| Directories.MakeInode | kernel/fs.c:175-198 | ialloc keeps every directory naming inodes of the table |
| Directories.Truncate | kernel/fs.c:391-419 | so does itrunc |
| Directories.DropInode | kernel/fs.c:317-336 | so does iput |
| Directories.WriteFile | kernel/fs.c:462-492 | so does writei on what is no directory |
| Paths.ComponentsJoin | kernel/fs.c:566-575 | a path joined by a slash has the components of both parts in order |
| Paths.OneComponent | kernel/fs.c:566-575 | a word without slashes is one component, truncated to 14 bytes |
| Paths.Skipelem | kernel/fs.c:576-599 | returns the first component and the rest, skipping all slashes between; fails exactly when no component is left |
| Paths.FollowStays | kernel/fs.c:601-637 | where directories name inodes of the table a walk stays in the table |
| Paths.PassingIsTarget | kernel/fs.c:601-637 | if every inode without links is referenced elsewhere, namex with its iputs comes to what the walk comes to |
| Paths.Namex | kernel/fs.c:601-637 | follows the map of each directory along the path's components from the root or the current directory, with or without the last, the panics included; each directory passed is given up, which frees exactly inodes without links and other references and leaves all other files; on any settled disk, up to where ilock would read past the inode table |
| ProcTable.Adopted | kernel/proc.c:193-200 | after exit's loop each child belongs to init, and init is awake if one of them is a zombie |
| ProcTable.Table.Wakeup1 | kernel/proc.c:389-397 | exactly the processes asleep on the channel become runnable |
| ProcTable.Table.PassToInit | kernel/proc.c:193-200 | the loop computes the adoption, wakeups included |
| ProcTable.Table.FindUnused | kernel/proc.c:38-42 | the first unused slot, or none |
| ProcTable.Table.FindZombie | kernel/proc.c:219-238 | the first zombie child, or none and whether there are children |
| ProcTable.Table.Kill | kernel/proc.c:411-429 | the first process with the pid is marked, and woken if asleep; -1 exactly if no slot has the pid |
| SchedulerInv.CpuMoves | kernel/proc.c:259-327 | a CPU that moves on keeps every process on at most one CPU and the lock with at most one |
| SchedulerInv.NodeChanges | kernel/proc.c:128-249 | a change of one slot keeps the tree of parents and the uniqueness of pids, under conditions fork, exit and wait meet |
| SchedulerSteps.PickStep | kernel/proc.c:275-287 | a process the scheduler picks has a kernel stack and is on no CPU |
| SchedulerSteps.ReapStep | kernel/proc.c:224-237 | when wait frees a zombie's kernel stack no CPU is on it, and the zombie has no children |
| SchedulerSteps.WaitSleepStep | kernel/proc.c:240-247 | a process goes to sleep in wait only with a child and without a zombie child |
| SchedulerSteps.ExitAdoptStep | kernel/proc.c:193-200 | every child of the exiting process becomes init's and no other slot changes its parent; the exiting process has no child left, and no process asleep in wait has a zombie child |
| SchedulerSteps.ExitZombieStep | kernel/proc.c:202-205 | the process that becomes a zombie has no children and its parent is not asleep in wait |
| SchedulerSteps.TakeStep | kernel/proc.c:44-48 | a slot taken by fork is in no other fork and gets a pid no other slot has |
| SchedulerSteps.ForkEndStep | kernel/proc.c:139-158 | fork's last write outside the lock, success or failure, is to a slot being built, on no CPU and in no other fork, and changes no other slot but the forking process's own |
| SchedulerRuns.StepKeepsInv | kernel/proc.c:31-429 | every step of every CPU keeps the whole invariant |
| SchedulerRuns.CpusAgree | kernel/proc.c:259-327 | over any run on any number of CPUs in which a step takes the lock when it is free: two CPUs never share a process or the lock, sched never panics for a running process, and with the lock free a process is RUNNING exactly if it is on a CPU |
| SchedulerRuns.ProcessTree | kernel/proc.c:128-249 | over any run: every live process but init has a live parent, parents lead to init, pids are unique, and a process asleep in wait has a child and no zombie child |
| SchedulerRuns.SleeperWakes | kernel/proc.c:351-429 | a process asleep becomes runnable by exactly a wakeup on its channel (from wakeup, an interrupt, or exit) or its kill, and else sleeps on, on the same channel |
| SchedulerRuns.RunnableRuns | kernel/proc.c:275-287 | a runnable process starts to run by exactly being picked by a scheduler |
| SchedulerRuns.RunningStops | kernel/proc.c:166-384 | a running process stops by exactly its own yield, sleep, wait or exit, in the state each leaves |
| SchedulerRuns.SlotTaken | kernel/proc.c:37-48 | an unused slot is taken by exactly the fork that finds it first |
| SchedulerRuns.SlotBuilt | kernel/proc.c:50-161 | a slot being built becomes runnable or unused by exactly the end of its own fork |
| SchedulerRuns.ZombieStays | kernel/proc.c:166-249 | a zombie changes only by passing to init, and its slot is freed by exactly the wait of its parent that finds it first, when it is on no CPU and has no children |
| SchedulerRuns.KilledStep | kernel/proc.c:31-429 | a slot, whatever its state, is marked killed by exactly the kills that find it and loses the mark by exactly the wait that reaps it |
| SchedulerRuns.MarkedExactly | kernel/proc.c:31-429 | at the end of any run a slot is marked exactly if a kill found it, or it was marked at the start, and no wait has reaped it since |
| SchedulerRuns.ChildUnmarked | kernel/proc.c:128-161 | over any run from boot a child that fork makes runnable is unmarked exactly if no kill found its slot after the slot was last reaped |
| SchedulerRuns.ChildBornKilled | kernel/proc.c:31-161 | a run from boot in which fork yields a child already marked killed |
| SchedulerLock.StoreKeeps | kernel/spinlock.c:40-44 | a CPU whose xchg has taken the lock word finds no CPU holding ptable.lock |
| SchedulerLock.TestKeeps | kernel/spinlock.c:100-105 | the holding tests of acquire, release and sched pass in every state, and sched's process is not RUNNING |
| SchedulerLock.LStepKeeps | kernel/spinlock.c:24-70 | every memory access of acquire and release, and every other step, keeps the lock invariant and is a step of the scheduler machine or none |
| SchedulerLock.LockIsExclusive | kernel/spinlock.c:24-105 | over any run on any number of CPUs: no holding test panics; the lock word is set exactly while one CPU is between taking and freeing it; lk->cpu names that CPU from its store to its clearing, through every hand-over in sched and scheduler; and the run is one of the scheduler machine |
| Ring.PutLast | kernel/pipe.c:92 | a byte stored at the write counter's slot joins the end of the queue, counters wrapping or not |
| Ring.TakeFirst | kernel/pipe.c:114 | a byte read at the read counter's slot is the oldest, and the rest of the queue stays |
| PipeBuffer.FullTest | kernel/pipe.c:84 | the 32-bit test for a full pipe is exact |
| PipeBuffer.Pipe.Fill | kernel/pipe.c:83-93 | the loop of pipewrite appends as many bytes as fit |
| PipeBuffer.Pipe.Drain | kernel/pipe.c:111-115 | the loop of piperead removes the oldest bytes, as many as asked and there |
| PipeSync.StepKeepsInv | kernel/pipe.c:58-120 | every step of every reader, writer, closer and killer keeps the invariant, except exactly the exit of a killed writer past a sleeping reader |
| PipeSync.WriterUp | kernel/pipe.c:58-120 | a sleeping writer gets up by exactly a reader's or the read end's wakeup, or its kill |
| PipeSync.ReaderUp | kernel/pipe.c:58-120 | a sleeping reader gets up by exactly a writer's or the write end's wakeup, or its kill |
| PipeSync.PipeSafe | kernel/pipe.c:58-120 | over any run: bytes read followed by bytes queued are the bytes written; one thread at a time is in the pipe; with the lock free a sleeping writer finds the pipe full and the read end open; both ends closed means no call is in progress |
| PipeSync.NoLostWakeup | kernel/pipe.c:58-120 | over any run without that exit: with the lock free a sleeping reader finds the pipe empty and the write end open, so readers and writers never sleep together |
| PipeSync.ReaderAbandoned | kernel/pipe.c:84-88 | for any write larger than the pipe, a run in which the writer is killed and a reader sleeps on over a full pipe |
| Console.Input.Erase | kernel/console.c:214-226 | a backspace takes back the last byte of the line being edited and no committed byte |
| Console.Input.Key | kernel/console.c:200-241 | committed bytes are only added to; kill-line and backspace touch only the line being edited; a typed byte is accepted exactly if there is room, and commits the line at its end or when the buffer is full; the keys for the process list and the reboot touch nothing |
| Console.Input.Read | kernel/console.c:243-279 | from its start or from a sleep on, a read takes from the committed bytes exactly what Consume says, then returns, sleeps, or fails because it was killed |
| Console.ConsumeMeans | kernel/console.c:252-274 | the bytes are the committed ones in order up to a line's end, the count or an end of file; an end of file after other bytes is kept for the next read |
| Console.SleepIsUnseen | kernel/console.c:252-274 | a read that sleeps and goes on when more is committed takes what a read of all of it at once would |
| Vm.Kmem.Kalloc | kernel/kalloc.c:82-95 | the frame last freed, found through the link in it, and null exactly if none is free |
| Vm.Kmem.Kfree | kernel/kalloc.c:59-77 | the frame is overwritten with ones and the link, and becomes the first free one; the panic is exactly an address that is no page of the allocator's |
| Vm.LinkRoundTrip | kernel/kalloc.c:69-71 | the link stored in the first eight bytes of a free page reads back as the same frame |
| Vm.Walkpgdir | kernel/vm.c:44-67 | a page table for the page exactly if there is one or one may be made and a frame is free; frames are never shared |
| Vm.Mappages | kernel/vm.c:69-92 | for one page: mapped exactly if there is a page table or a frame for one, else nothing changes |
| Vm.Deallocuvm | kernel/vm.c:249-277 | exactly the mapped pages of the range that its walk comes to are unmapped and their frames freed once; all memory not free keeps its bytes |
| Vm.VisitedExactly | kernel/vm.c:262-266 | the walk comes to a page that has a page table exactly if the first page has one, or is no further into its table, or there is a table in between |
| Vm.VisitsAll | kernel/vm.c:262-275 | with pages mapped from 0 without a hole, the walk comes to every mapped page in its range |
| Vm.JumpsOver | kernel/vm.c:264-265 | a call on a sound directory with a hole that leaves a page of its range mapped |
| Vm.Rollback | kernel/vm.c:238-242 | undoing a growth that ran out of memory restores the user pages and their bytes |
| Vm.Allocuvm | kernel/vm.c:222-247 | growth is complete exactly if the free frames suffice for pages and missing page tables; new pages are zeroed, old pages keep frames and bytes; failure restores the old mapping; success without the last page happens exactly if one frame is missing, for that page's own table |
| Vm.OneFrameShort | kernel/vm.c:234-246 | one free frame and a first page are such a case |
| Vm.ShortGrowth | kernel/vm.c:224-247 | a call with one free frame that returns success and maps nothing |
| Vm.Freevm | kernel/vm.c:279-296 | every page, every page table and the directory's own page are free again, holes or not, and all other memory keeps its bytes |
| Vm.PagesFit | kernel/vm.c:287 | no address space has more pages than there are frames, so all of it lies below freevm's limit |
| Vm.Copyuvm | kernel/vm.c:310-340 | the child has the parent's pages with equal flags and bytes in frames of its own, exactly if the free frames suffice; else everything of the child is free again but at most the one frame whose mapping failed; all other memory is unchanged |
| FreeList.PutOrdered | ulib/umalloc.c:32-41 | joining a block with its neighbours keeps the free list ordered, disjoint and never adjacent |
| FreeList.PutUnits | ulib/umalloc.c:32-41 | and adds exactly the block's units |
| FreeList.TakeUnits | ulib/umalloc.c:74-83 | taking a block, or the upper part of one, removes exactly the units taken |
| FreeList.Canonical | ulib/umalloc.c:24-44 | two such lists with the same free units are equal, so that free after malloc restores the list |
| Malloc.PutRing | ulib/umalloc.c:32-42 | the headers free writes form the ring of the new list |
| Malloc.CutRing | ulib/umalloc.c:77-81 | the headers malloc writes when it cuts a block form the ring of the new list |
| Malloc.Holds | ulib/umalloc.c:46-61 | a stretch of free units lies in one block, so new core is found by the next walk |
| Malloc.Heap.FindPlace | ulib/umalloc.c:30-32 | the walk ends, from any start, at the one block after which the freed block belongs |
| Malloc.Heap.Free | ulib/umalloc.c:24-44 | the block leaves the blocks in use and exactly its units become free, in one ordered ring of disjoint, never adjacent blocks |
| Malloc.Heap.Morecore | ulib/umalloc.c:46-61 | the units from sbrk become free and a block that fits exists; failure changes nothing |
| Malloc.Heap.Search | ulib/umalloc.c:73-89 | the loop ends, calls morecore at most once and only after finding that no block fits |
| Malloc.Heap.Malloc | ulib/umalloc.c:63-90 | units free and in use are exactly those got from sbrk; the block returned was free; null exactly if nothing fits and sbrk fails; for any size that some block fits or sbrk refuses |
| Malloc.Heap.Store | ulib/umalloc.c:24-90 | what the program writes into its blocks cannot disturb the allocator |
| Malloc.SbrkArgExact | ulib/umalloc.c:52-54 | the argument of sbrk is the size recorded exactly below 2^27 units |
| Malloc.SbrkArgNarrowed | ulib/umalloc.c:52-54 | for the largest request sbrk is asked for 16 bytes |
| ShellRoundTrip.RoundTrip | user/sh.c:266-447 | for every command tree with legal words and argument counts, parsing its printing gives the tree back |
| ShellRoundTrip.ReadRedirs | user/sh.c:375-398 | printed redirections are read back in order |
| ShellRoundTrip.ReadArgs | user/sh.c:429-443 | printed arguments and redirections are read back |
| ShellRoundTrip.ReadLine | user/sh.c:345-360 | a printed line followed by a closing parenthesis or nothing is read back, and the rest is left |
| ShellRoundTrip.AppendIsWrite | user/sh.c:386-395 | `>>` is read as the same redirection as `>` |
| ShellRoundTrip.MissingFile | user/sh.c:382-385 | a redirection not followed by a word is refused |
| ShellRoundTrip.TooManyArgs | user/sh.c:438-440 | ten or more words in one command are refused |
| ShellRoundTrip.Unclosed | user/sh.c:400-414 | a parenthesis that is never closed is refused |
| ShellRoundTrip.Leftover | user/sh.c:328-343 | a legal line followed by an unopened closing parenthesis is refused |
| ShellParser.Parser.Gettoken | user/sh.c:266-309 | the cursor moves past exactly one token, whose kind and text are those of the language |
| ShellParser.Parser.Peek | user/sh.c:311-321 | the cursor moves past white space only, and the answer is whether the next character is one of the given |
| ShellParser.Parser.Parseredirs | user/sh.c:375-398 | the loop reads the redirections of the language, or panics with it |
| ShellParser.Parser.Parseexec | user/sh.c:416-447 | likewise for a simple command or a block |
| ShellParser.Parser.Parseline | user/sh.c:345-360 | likewise for a line |
| ShellParser.LineAt | user/sh.c:266-447 | every word of a parsed line is a maximal run of word characters of it |
| ShellParser.Nulterminate | user/sh.c:450-494 | exactly the positions after words are overwritten, with NULs |
| ShellParser.WordsSurvive | user/sh.c:450-494 | no byte of any argument or file name is overwritten, and each becomes a C string equal to its token |
| ShellParser.Strlen | user/sh.c:334 | the characters before the first NUL |
| ShellParser.ReadCommand | user/sh.c:328-343 | a C string is accepted exactly if it is in the language; then each word of the tree is a C string in the buffer and nothing behind the line changes, else the buffer is unchanged |
| Regex.HereSplits | user/grep.c:84-95 | a match at the start is a match of the first item followed by one of the rest |
| Regex.MatchHere | user/grep.c:84-95 | true exactly if the text starts with a string of the pattern, ending the text where `$` demands |
| Regex.MatchStar | user/grep.c:98-105 | true exactly if some number of fitting characters is followed by a match of the rest |
| Regex.Match | user/grep.c:71-81 | true exactly if some substring, anchored as `^` and `$` demand, is in the language of the pattern |

## Left out

- Boot code, traps, segments, interrupt controllers and device programming: hardware encodings without a law to prove.
- Spinlocks other than ptable.lock, interrupt nesting (ncli) and with it sched's tests of it: the other locks are taken as mutual exclusion.
- System call wrappers, argument fetching and exec: plumbing over the functions modelled here.
- Inode cache (iget, idup) and device switches: the file system model has one locked inode per file, and iput is given its reference count; reads and writes of devices are a result value.
- Link counts across create, link and unlink: entries can be made inside an unlinked current directory, so no simple count holds.
- fork, exec and wait contents other than the process table: memory is copied in `vm.dfy`, files and names are not.
- Two CPUs inside the cache, log or file system at once: the cache lock, the busy flag and the one-transaction rule make those sections single steps here; waits are outcomes of the pass that meets them.
- setupkvm: a new directory comes from the caller; of the three frames setupkvm takes, freevm returns the directory's own, and the other two stay among the frames in use elsewhere.
- Mkfs.Image.Iappend: stops where mkfs, which does not test for it, would go on past the data region into the log.
- Mkfs.Image.Ialloc: stops where mkfs, which does not test for it, would go on past the inode table.
- Pids that wrap and free list sizes beyond 32 bits.
- Vm.Allocuvm: requires sizes up to 0x3fa00000, because above that the walk meets the back pointers that kernel/vm64.c keeps in the last entries of the directory, which the model does not have.
- Vm.Deallocuvm: likewise speaks of directories without those back pointers.
- Vm.Mappages: models one page, the only use in growth and copying, because setting up the kernel part is boot code.
- Vm.Walkpgdir: a page table page is kept as the set of its present entries, so stale bits in absent entries are not modelled.
- Malloc.Heap.Malloc: requires fewer than 2^27 units when no block fits and sbrk succeeds, because above that the source records more units than it asks sbrk for, as SbrkArgExact and SbrkArgNarrowed state; sbrk gives unit-aligned addresses above the static header.
- FileSystem.Fs.BitmapIsExact: says nothing of the bits of the log's own blocks, which mkfs leaves clear.
- FileSystem.Fs.Bmap: stops where balloc would give out a block of the log, as at a panic, because from there on log_write writes into the log; the same holds for all that allocates through it.
- FileSystem.Fs.LogWrite: leaves out the panic for want of a buffer, which belongs to the cache below; FsOnLog.LogWriteInStep has it as an outcome and says when it cannot happen.
- Paths.Namex: stops where an entry names an inode past the table; FollowStays keeps that from happening where directories are good, and Dirlink, Unlink, MakeInode, Truncate, DropInode and WriteFile keep them so.
- Log.Log.LogWrite: with 10 buffers and 10 log slots the buffers run out before the log does, so the want of a buffer is an outcome of its own.
- PipeSync.NoLostWakeup: claims nothing of a killed process being woken, since kill can land between the test for killed and sleep.
- PipeSync.PipeSafe: takes from kernel/file.c that the last descriptor of an end is not closed while a call through it is in progress.
- Ide.ReturnsSynced: takes from the buffer cache that buffers in use are for different sectors.
- ShellRoundTrip.RoundTrip: printing never uses `>>`, which AppendIsWrite covers.
- ShellParser.Parser.Parseexec: the command node that redirections already wrap is filled in later in the source; here arguments and redirections are collected and wrapped at the end.
- Console output, the process listing and what a reboot does.
- runcmd, the buffering loop of grep, printf and the other user programs: drivers around the parts modelled here.
- Lottery tickets: a field without a scheduler that reads it.
