# xv6 in Dafny

A model of xv6, a small Unix kernel with a shell and user library, and proofs about it. The kernel's code works
by updating records, arrays and linked structures in place, so most of the model is classes and methods with
loops, each proved against a specification on values. What the code promises is then proved about the
specification: for every run, every point at which power can fail, every interleaving of the steps of several
processes, every input.

The parts, from the disk up:

- `Blocks`: bytes, sectors, little-endian words.
- `LruList`, `BufferCache`: the buffer cache of bio.c over the synchronous disk of memide.c. Ghost state says what
  readers are to see of each sector.
- `LogSpec`, `LogHeader`, `Log`: the redo log of log.c. `LogSpec` is the disk as home sectors, header and log blocks,
  sector writes and crashes; `Log` is the code, running on the buffer cache, whose sector writes are those of `LogSpec`.
- `Ide`: the interrupt-driven request queue of ide.c, refining the synchronous disk.
- `Bitmap`, `FsIndex`, `FsState`, `FsLog`, `FsWrite`, `FsSpace`, `FsSync`, `FsTrunc`, `Dinode`, `FsLayout`, `FileSys`: block
  allocation, the index with direct, indirect and doubly indirect blocks, reading, writing and truncating of fs.c. A
  file is a sequence of bytes; `FsLayout` says where on the disk its bytes, its inode and the bitmap are. `FiniteSets`
  holds the counting lemmas.
- `TxBound`, `FileWrite`, `FileCrash`: filewrite of file.c in chunks, the size of its transactions, and filewrite over
  the log when power fails. `Disks` has states of the disk that mkfs makes, on which some of these fail.
- `TreeSpec`, `TreeNames`, `Tree`: directories, link counts, names and references (sysfile.c, fs.c).
- `VmSpec`, `Vm`: page tables and physical frames (vm.c, kalloc.c).
- `Sleep`: sleep and wakeup of proc.c in small steps, with spinlock.c's locks.
- `ProcSpec`, `ProcRuns`, `ProcTable`: the process table of proc.c; fork, exit, wait, kill and the clock's statistics;
  what the calls return over whole runs.
- `PipeSpec`, `PipeHistory`, `Pipe`: the pipe of pipe.c; the bounded queue, its runs, whose bytes they carry, and the
  ring buffer with 32-bit counters.
- `Umalloc`: the user-level allocator of umalloc.c.
- `ShellLex`, `ShellParse`, `ShellGrammar`, `ShellRound`, `Shell`: the scanner, parser, grammar, printer and
  nulterminate of sh.c.
- `Grep`: the regular-expression matcher of grep.c.

How the model reads the code:

- Sector writes are atomic and the disk makes no errors. A crash may fall between any two of them.
- Where the code sleeps or panics, a method returns that as an outcome. A lock held across a stretch of code makes
  the stretch one step; `Sleep` shows why sleeping releases a lock without losing a wakeup. `Sleep` itself steps
  from lock operation to lock operation.
- No file has a block in the log, and every operation keeps it so. balloc scans all of `sb.size`, which includes the
  log's sectors (fs.c:61-63, log.c:62), and mkfs leaves their bits clear (mkfs.c:229-237): once every data block is in
  use it hands out a sector of the log (`Disks.LogNext`). `FileSys.FileSystem.Balloc` says exactly when, the operations
  above it pass that on as an outcome of its own, and `LogSpec.AreaHolds` says what then becomes of the block.
- The inode in memory has NDIRECT+2 slots, as fs.h has on disk and bmap uses, although file.h declares one fewer. As
  in the code, iupdate and ilock copy only NDIRECT+1 of them, so the last one is whatever the entry of the inode cache
  held before: `Dinode.SurvivesReload` says exactly when that matters.
- Numbers are unbounded except where the width matters: block and header words, file offsets, pipe counters and
  malloc's rounding are 32 bits wide, the fields of an inode on disk and link counts 16.

Some properties one would expect do not always hold. The model shows how each fails and says exactly when it holds:

- truncation gives back all blocks: `FsTrunc.TruncRestoresUpTo`, up to (NDIRECT+NINDIRECT)*BSIZE bytes;
- an inode survives the inode cache: `Dinode.SurvivesReload`, `Dinode.StaleSlot`;
- a chunk of filewrite fits the log: `TxBound.ChunkExact`, `Disks.BigChunk`;
- commit_trans finds the buffers it needs: `Log.Log.CommitTrans`, `Log.ReaderInTheWay`;
- link counts stay exact: `TreeSpec.CreateExact`, `LinkExact`, `MakeDirExact`, `RemovedParent`, `UnlinkPanics`,
  `FreedNamed`;
- allocuvm succeeds only with all pages there: `Vm.Memory.AllocUvm`, `Vm.FirstPageLost`;
- deallocuvm frees all pages beyond the new size: `Vm.Memory.DeallocUvm`, `VmSpec.PageJumped`;
- malloc's block is big enough and made of memory: `Umalloc.MallocLimit`;
- a reader asleep on a pipe is woken: `PipeSpec.StepAwake`, `PipeSpec.KilledWriterStrands`;
- a new process is not born killed: `ProcSpec.StepClean`, `BornKilled`, `KillZero`, `KilledForkFails`.

## Model

| member | source | states |
|---|---|---|
| `LogSpec.CrashAtomicity` | log.c:69-182 | In every run of boots and transactions, with power failing after any sector write (those of recovery included), the recovered home sectors equal the initial ones with exactly the transactions whose header write completed applied in order; while the machine is up the home sectors show just that |
| `LogSpec.StepRefines` | log.c:115-182 | One boot or transaction, cut anywhere, moves the recovered home sectors to the transaction's full effect if its header write completed and leaves them alone otherwise |
| `LogSpec.TxAtomic` | log.c:135-182 | The header write decides: cut before it, recovery yields the old home sectors; cut after it, all the updates; a completed transaction leaves nothing to recover |
| `LogSpec.TxUncommitted` | log.c:159-182 | Until the header is written a transaction changes neither home sectors nor header, and recovery does nothing |
| `LogSpec.TxCommitted` | log.c:135-149 | From the header write on, recovery yields all the updates |
| `LogSpec.CommitIsRecover` | log.c:135-149 | After its header write commit_trans is step for step the recovery that a crash at that point would start |
| `LogSpec.CommitPrefix` | log.c:135-149 | Commit cut after any of its writes recovers to all the updates the log describes |
| `LogSpec.RecoverPrefix` | log.c:69-122 | Recovery cut after any of its own writes can be run again with the same result; run to the end it leaves an empty log |
| `LogSpec.RedoAgain` | log.c:69-82 | Installing is idempotent: some of the installs followed by all of them is all of them |
| `LogSpec.RedoReplace` | log.c:170-178 | Absorption: replacing the block in a sector's log slot has the effect of one more update |
| `LogSpec.LogWriteFaithful` | log.c:159-182 | One more log_write makes header and log area describe one more update, absorbed or appended |
| `LogSpec.LogFaithful` | log.c:159-182 | Any sequence of log_writes that does not panic leaves a header and log area that describe exactly its effect, and writes log blocks only |
| `LogSpec.PanicHarmless` | log.c:165-168 | A transaction that panics in log_write, or loses power before that, leaves the disk as it was |
| `LogSpec.AreaHolds` | log.c:135-182 | A finished transaction leaves in log block i the sector it lists there, so whatever a file kept in a block of the log is gone |
| `LogHeader.HeaderRoundTrip` | log.c:85-113 | write_head stores the count in the first word of the sector and the sector numbers in the next ones, and read_head reads back exactly that list |
| `LogHeader.ViewWrite` | log.c:36-39 | A raw sector write is, seen through the log's layout, exactly one write to a home sector, the header or a log block |
| `LogHeader.UnpinnedDurable` | bio.c:61-93 | What readers see of a sector that no dirty buffer holds is what is on disk |
| `LogHeader.SpareCount` | bio.c:61-93 | Every buffer can be recycled, is pinned by the log, or is held: the three add up |
| `Log.SparesLeft` | bio.c:79-92 | What is left to a commit is NBUF less the sectors of the transaction and the buffers held by others |
| `Log.ReaderInTheWay` | log.c:135-149 | With nine sectors in the transaction one buffer held by a reader is enough: none is left |
| `Log.Log.constructor` | log.c:53-66 | initlog issues exactly the writes of recovery, and starts with an empty log over the recovered disk |
| `Log.Log.Recover` | log.c:115-122 | The writes are exactly those of recovery, and lead to the recovered disk with an empty log |
| `Log.Log.ReadHead` | log.c:85-96 | The in-memory header becomes the one on disk; nothing else changes |
| `Log.Log.InstallTrans` | log.c:69-82 | The sector writes are exactly the installs of the described updates in order, and no buffer stays pinned; buffers held by others are as before |
| `Log.Log.InstallOne` | log.c:75-80 | One log block reaches its home sector by one write; its buffer is no longer pinned, no buffer that was held or could be recycled is lost |
| `Log.Log.WriteHead` | log.c:101-113 | One write of the header sector, which from then on reads back as the in-memory header; panics exactly when no buffer can be recycled |
| `Log.Log.LogWrite` | log.c:159-182 | The transaction gains exactly this update, and readers see it at once; it panics exactly on a full log, outside a transaction, or without a buffer for the log block, before any disk write |
| `Log.Log.AppendBlock` | log.c:175-178 | One write, to the log block chosen, of the data in the caller's buffer; panics exactly when no buffer can be recycled |
| `Log.Log.CommitLog` | log.c:139-142 | Header, installs and erased header are written in that order; one buffer that can be recycled is enough for all of it, and without one it panics before the first write |
| `Log.Log.CommitTrans` | log.c:135-149 | The sector writes since begin_trans are exactly those of the specified transaction; no buffer stays pinned; what readers see does not change and is now durable. It panics if and only if it has something to write and readers hold all the buffers it has not pinned, as many as NBUF less its sectors, and then nothing has been written |
| `Log.CrashInTransaction` | log.c:69-182 | The code's own trace, cut after any sector write of a transaction: recovery of the disk reached yields the state before the transaction or all its updates, decided by the header write |
| `Log.CutView` | log.c:36-39 | The disk after any prefix of the sector writes issued by the code is, through the log's layout, the specification's disk after the corresponding writes |
| `Log.Log.BeginTrans` | log.c:124-133 | A transaction starts unless one is running, and then the caller sleeps |
| `Log.Log.Read` | bio.c:96-105 | bread sleeps exactly on a sector whose buffer is held and panics exactly without an eligible buffer; otherwise it returns the durable disk overlaid with the running transaction's updates, inside and outside the transaction |
| `Log.Log.Release` | bio.c:119-138 | Giving a buffer back keeps the log and cache invariants and changes no other buffer |
| `Log.Log.Change` | log.c:151-158 | A holder's change to its buffer is invisible to readers until log_write |
| `BufferCache.Bcache.constructor` | bio.c:38-56 | binit establishes the cache and list invariants with every buffer eligible |
| `BufferCache.Bcache.FindCached` | bio.c:70-80 | Finds the buffer of a sector if and only if there is one |
| `BufferCache.Bcache.FindVictim` | bio.c:83-91 | Finds a buffer that is neither busy nor dirty if there is one, and then the least recently released of them |
| `BufferCache.Bcache.Bget` | bio.c:61-93 | Sleeps exactly on a busy cached sector, panics exactly when the sector is not cached and no buffer is eligible; a dirty buffer is never recycled, and the victim is the least recently released |
| `BufferCache.Bcache.Bread` | bio.c:96-105 | The buffer returned shows what readers are to see of the sector, whether it was cached or not; the disk is not changed |
| `BufferCache.Bcache.Iderw` | memide.c:36-58 | Synchronous transfer: a dirty buffer is written, any other is filled, and the flags end up valid and clean |
| `BufferCache.TraceStep` | memide.c:36-58 | The disk is always the initial one with the recorded sector writes applied in order |
| `BufferCache.Bcache.Bwrite` | bio.c:108-115 | Exactly one sector write, after which disk and readers agree on the buffer's data; panics without the buffer |
| `BufferCache.Bcache.Brelse` | bio.c:119-138 | The buffer becomes the most recently released one and the others keep their order; panics without the buffer |
| `BufferCache.Bcache.Pin` | log.c:179-181 | The buffer's data becomes what readers see, and the buffer cannot be recycled |
| `BufferCache.RecycleKeeps` | bio.c:83-91 | Recycling an eligible buffer for a sector that is not cached keeps at most one buffer for each sector and every cached copy correct |
| `BufferCache.PublishKeeps` | bio.c:108-115 | Writing or pinning a held buffer keeps the cache consistent with the new content |
| `BufferCache.FlagsKeep` | bio.c:61-80 | Holding, releasing or filling a buffer keeps the cache invariant |
| `BufferCache.MoveToFront` | bio.c:127-132 | The four pointer updates keep the circular list in order of release, with the buffer in front |
| `LruList.UnlinkRemoves` | bio.c:127-128 | Unlinking turns the doubly linked list of an order into that of the order without the buffer |
| `LruList.PushFrontInserts` | bio.c:129-132 | Linking behind the head turns it into the list of the order with the buffer in front |
| `Ide.Driver.constructor` | ide.c:42-66 | An idle driver whose state is that of the synchronous disk |
| `Ide.LastWrittenIs` | ide.c:121-155 | The last data written to a sector: that of a write request after which there is none to the sector, or what was there at first |
| `Ide.Driver.Submit` | ide.c:121-147 | A request joins the end of the queue as it stands; panics exactly for a buffer that is not held or needs nothing; the synchronous disk serves it at once |
| `Ide.Driver.Accept` | ide.c:137-147 | The request is queued last, started if it is alone, and recorded with its sector and data |
| `Ide.Driver.Enqueue` | ide.c:140-143 | The pointer walk appends the buffer to the queue, in the order of the requests |
| `Ide.Driver.DriveStep` | ide.c:69-88 | Completing a command brings exactly one more request to the disk: every sector then holds the last data written to it by the requests up to that one |
| `Ide.Driver.Interrupt` | ide.c:91-119 | Exactly the head request is completed, the next in the queue starts, and disk, buffers and pending requests still amount to the synchronous disk's state |
| `Ide.Driver.Complete` | ide.c:106-111 | A read buffer takes the data the drive fetched, a written one keeps its own, and it is valid and clean |
| `Ide.Driver.Wait` | ide.c:150-152 | Along every run, once the wait is over a read buffer holds the data of the last write to its sector enqueued before it, or what the sector held at first; and what the synchronous disk would have given |
| `Ide.Driver.Change` | ide.c:130-155 | A holder's change to a buffer without a pending request commutes with everything queued |
| `Ide.Driver.Quiescent` | memide.c:36-58 | With an empty queue every sector holds the last data written to it in the order of the requests, and disk and buffers equal those of the synchronous disk |
| `Ide.ServeAppend` | memide.c:36-58 | A request added at the end is served after all the others |
| `Ide.ServeCommutes` | memide.c:36-58 | Serving other requests commutes with a change to a buffer that has none |
| `Bitmap.PutGet` | fs.c:62-66 | Setting or clearing one bit with the mask arithmetic changes that bit and no other |
| `FsIndex.OwnedOnce` | fs.c:356-411 | No block is reached from two slots, of one inode or of two |
| `FsIndex.PutAt` | fs.c:362-405 | Storing a block number in a slot, in an inode or an index block, changes that slot and no other of any inode |
| `FsIndex.PutOwned` | fs.c:362-405 | Ownership stays exact when a new block is stored in an empty slot |
| `FsState.AllocatedOk` | fs.c:53-76 | A block before the log with a clear bit is a data block of nobody, and marking and zeroing it disturbs no file |
| `FsState.SlotInRange` | fs.c:356-411 | Every block number in an inode or index block lies between the bitmap and the log |
| `FsState.FilledOk` | fs.c:362-405 | Allocating a block into an empty slot keeps the file system consistent |
| `FsState.ExtendsBytes` | fs.c:356-411 | Allocating blocks changes no byte of any file |
| `FsState.StoredBytes` | fs.c:506-512 | Copying into a content block changes exactly those bytes of that file and no byte of another |
| `FsState.InodeWriteOk` | fs.c:201-217 | Writing an inode block disturbs neither index nor bitmap nor content |
| `FsSpace.GrowsCount` | fs.c:53-76 | However an inode grows, the free data blocks and the empty slots on the way fall by the same number, and no bit of the log changes |
| `FsSpace.StuckNoRoom` | fs.c:490-519 | A write that stops for want of a block had fewer free blocks than empty slots |
| `FsSpace.FilledRoom` | fs.c:490-519 | A write that fills all its slots had at least as many |
| `FsWrite.WriteStep` | fs.c:506-512 | One turn of the loop of writei extends the overwritten range by the piece copied |
| `FsWrite.WriteDone` | fs.c:490-519 | After the loop and the size update the file is the overwritten byte sequence, holes are absent, other files are unchanged and ownership is exact |
| `FsWrite.WriteLogsDone` | fs.c:490-519 | The sectors logged are exactly the content blocks of the range, the new index blocks and the old ones that got an entry, the bitmap sectors of the new blocks, and last, if the file grows, the inode |
| `FsLog.FootprintRange` | fs.c:356-411 | Every sector that growing logs is a data block or a sector of the bitmap, never one of the log |
| `FsWrite.ReadPiece` | fs.c:478-483 | A piece within one block is that slice of the file's bytes |
| `FsSync.WriteSynced` | fs.c:490-519 | writei keeps the inodes on disk equal to those in memory: it writes the inode back when the file grows, and otherwise has not changed it |
| `FsSync.NoGrowth` | fs.c:506-512 | A write inside a file without holes allocates nothing |
| `FsTrunc.TruncDone` | fs.c:419-446 | Truncation frees exactly the blocks under the first NDIRECT+1 roots; other files keep content and blocks |
| `FsTrunc.FreeingNext` | fs.c:433-438 | Each block of the indirect block is still marked when its turn comes, so bfree cannot panic |
| `FsTrunc.WritesGrow` | fs.c:490-519 | Any sequence of writes to a file only adds blocks to it, all of them on the way to blocks of its new size |
| `FsTrunc.TruncRestores` | fs.c:419-446 | Growing an empty file and truncating it restores the bitmap if and only if it had no doubly indirect block |
| `FsTrunc.DoublyIndirect` | fs.c:383-405 | A file written from empty has a doubly indirect block if and only if it is longer than (NDIRECT+NINDIRECT)*BSIZE bytes |
| `FsTrunc.TruncRestoresUpTo` | fs.c:419-446 | So truncation gives every block back if and only if the file is at most that long, and loses blocks of every longer one |
| `Dinode.Reload` | fs.c:201-217 | iupdate followed by ilock gives back every field but the doubly indirect slot, which keeps what the cache entry had there |
| `Dinode.ReloadOthers` | fs.c:201-217 | iupdate leaves the other inodes of the block alone |
| `Dinode.SurvivesReload` | fs.c:283-293 | An inode survives leaving the inode cache if and only if the entry it comes back to holds its own doubly indirect block number |
| `Dinode.StaleSlot` | fs.c:240-253 | Both failures: the doubly indirect block is lost in a new entry, and an inode without one takes over that of the inode whose entry it is given |
| `FileSys.FileSystem.FindFree` | fs.c:61-65 | The lowest clear bit, across bitmap sectors |
| `FileSys.FileSystem.Balloc` | fs.c:53-76 | The lowest free data block, now marked and zeroed, exactly when there is one; otherwise it panics exactly when the bits of the log are set too, and returns the lowest sector of the log that looks free if they are not |
| `FileSys.FileSystem.Bfree` | fs.c:79-95 | Clears the bit; panics exactly when it was clear |
| `FileSys.FileSystem.Bmap` | fs.c:356-411 | Through all three index shapes: an allocated block is returned without any change; otherwise block and missing index blocks are allocated and nothing else changes; it fails only with no data block free and a slot on the way still empty |
| `FileSys.FileSystem.BmapBelow` | fs.c:371-378 | The same for one level of index blocks |
| `FileSys.FileSystem.BmapDouble` | fs.c:386-405 | The same for two levels |
| `FileSys.FileSystem.FillRoot` | fs.c:363-364 | A slot of the inode is allocated only if empty, and only a disk without free data blocks prevents that |
| `FileSys.FileSystem.FillWord` | fs.c:373-378 | A word of an index block is allocated only if empty, and the index block logged; only a disk without free data blocks prevents that |
| `FileSys.FileSystem.Iupdate` | fs.c:201-217 | On the whole disk exactly bytes 64k to 64k+59 from sector 2 on change, to the fields of inode k at their places in the struct |
| `FileSys.FileSystem.WriteLoop` | fs.c:506-512 | All bytes are written exactly when there are as many free data blocks as empty slots on the way to them |
| `FileSys.FileSystem.Writei` | fs.c:490-519 | Refuses exactly an offset past the end, 32-bit overflow and files beyond MAXFILE. Otherwise it succeeds exactly when there are as many free data blocks as empty slots on the way: the file becomes its bytes with that range overwritten or extended, and no other file changes. The log_write calls lead from the old sectors to the new ones |
| `FileSys.FileSystem.Readi` | fs.c:461-485 | Refuses exactly an offset past the end and overflow; otherwise returns that slice of the file's bytes and allocates nothing |
| `FileSys.FileSystem.Itrunc` | fs.c:419-446 | Never panics; frees exactly the blocks under the direct and indirect slots |
| `FileSys.FileSystem.SuperKept` | fs.h:4-20 | Along every run of balloc, bfree, bmap, writei, iupdate and itrunc the boot sector, the superblock and the log are what they were |
| `FsLayout.InodeLaid` | fs.h:26-40 | The dinode of inode k: type, major, minor and nlink as little-endian shorts, size and block numbers as words, in bytes 64k to 64k+59 from sector 2 on, and no other byte of the disk |
| `FsLayout.SyncedBytes` | fs.c:283-293 | ilock reads an inode back from disk if and only if those bytes are its fields |
| `FsLayout.BitPlace` | fs.h:42-46 | The bit of block b is bit b counted from the start of sector ninodes/8+3 |
| `FsLayout.BlockPlace` | fs.c:356-411 | The block number of content block n, from the bytes of the disk: 11 direct, 128 in the block named next, then 128 times 128 |
| `FsLayout.ContentPlace` | fs.c:461-485 | So each byte of a file is that byte of that block of the disk |
| `FileSys.FileSystem.TruncDirect` | fs.c:426-429 | The block of a direct slot is freed and the slot emptied |
| `FileSys.FileSystem.TruncIndirect` | fs.c:432-442 | The blocks of the indirect block, and then the block itself, are freed |
| `TxBound.PathsFew` | fs.c:356-411 | Four neighbouring content blocks lie on at most seven blocks, index blocks included, wherever they fall among the three index shapes |
| `TxBound.GainedLowest` | fs.c:53-76 | The blocks that an inode gains are the lowest free data blocks, however many it takes |
| `TxBound.MapsBefore` | fs.c:53-76 | So the bitmap sectors that a write logs are those of the n lowest free blocks, n being its empty slots |
| `TxBound.ChunkSectors` | file.c:132-150 | The sectors a chunk logs before the inode, counted in the state before it: content blocks, new index blocks, old index blocks with an empty child on the way, and the bitmap sectors of the lowest free blocks |
| `TxBound.HeaderSize` | log.c:165-178 | log_write has panicked exactly if it was called with as many sectors listed as there is room for, and the header lists each once |
| `TxBound.ChunkExact` | log.c:165-168 | For every chunk: log_write panics with "too big a transaction" if and only if the file grows and those sectors, counted in the state before the chunk, leave no room for the inode |
| `TxBound.TouchedFew` | fs.c:356-411 | Content and index blocks that a chunk logs are at most seven, wherever it lies |
| `TxBound.ChunkFits` | file.c:132-150 | So a chunk fits whenever the blocks it needs share a bitmap sector |
| `TxBound.OneBitmap` | fs.h:42-46 | As they do on a disk of at most 4096 blocks |
| `Disks.BigChunk` | mkfs.c:14-17 | On the disk of 40960 blocks there is a consistent file system without holes in which appending one chunk has all the blocks it needs and is too big a transaction |
| `Disks.LogNext` | mkfs.c:229-241 | A consistent state of that disk in which the next block that balloc hands out is the header of the log |
| `Disks.Laid` | mkfs.c:86-90 | On the disk that mkfs makes the bitmap starts at sector 28, the data at 39 and the log at 40950 |
| `FileWrite.Filewrite` | file.c:117-155 | Comes to an end exactly when there is a free block for every empty slot on the way to the bytes that fit below MAXFILE. The file then holds exactly those bytes over its old ones and the offset is past them; failure is reported exactly when they are not all. The transactions are the consecutive chunks, each from the state the one before left, and what they logged is all that was logged |
| `FileWrite.ChainHolds` | file.c:132-150 | After any number of chunks the file holds that much of the data, and no other file has changed |
| `FileWrite.ChainRoom` | file.c:132-150 | A finished run of chunks had a free block for every empty slot |
| `FileWrite.ChainShort` | file.c:132-150 | A run that got stuck had not |
| `FileCrash.CrashInFilewrite` | file.c:117-155 | Wherever power fails in filewrite or in the recoveries after it, the recovered disk is that of the file with the data up to the end of some chunk, every other file as before; sectors 0 and 1 are untouched, and the bytes of every inode on it are those of its fields |
| `FileCrash.TxHome` | file.c:132-150 | On the sectors below the log a chunk is exactly its log_write calls, none of which names a sector of the log |
| `FileCrash.LogsHome` | file.c:132-150 | Every sector that a chunk logs is at least 2 and before the log |
| `FileCrash.TxBoot` | file.c:132-150 | A chunk changes neither the boot sector nor the superblock |
| `FileCrash.TxExact` | file.c:132-150 | Each chunk of filewrite panics in log_write if and only if it is too big in the state it starts in |
| `FileCrash.FilewriteFits` | file.c:132-150 | On a disk of at most 4096 blocks no chunk of any filewrite is |
| `TreeSpec.LinkOk` | sysfile.c:126-151 | Giving a file with fewer than 32767 links one more name keeps every nlink equal to the number of entries that name the inode, and the directory structure |
| `TreeSpec.CreateOk` | sysfile.c:254-272 | The same for a new file or device |
| `TreeSpec.MakeDirOk` | sysfile.c:254-272 | The same for a new directory, whose ".." counts for its parent, if that has fewer than 32767 links |
| `TreeSpec.UnlinkOk` | sysfile.c:200-222 | unlink of a file or an empty directory keeps them exact; nlink is at least 1 there, so the panic is unreachable |
| `TreeSpec.CreateExact` | sysfile.c:254-272 | The counts stay exact if and only if the parent directory is itself linked: in a removed directory that is still open, create makes an inode with a count that no entry backs |
| `TreeSpec.LinkExact` | sysfile.c:135-142 | For link the counts stay exact if and only if the directory is linked and the file has fewer than 32767 links |
| `TreeSpec.MakeDirExact` | sysfile.c:254-272 | For mkdir if and only if the parent is linked and has fewer than 32767 links; a removed parent would get a link again though no entry leads to it |
| `TreeSpec.LinkWraps` | sysfile.c:135-142 | Beyond that link keeps nlink equal to the number of names as a 16-bit number |
| `TreeSpec.WrapExact` | file.h:22 | Counts kept so are exact if and only if no inode has more than 32767 links |
| `TreeSpec.LinkMany` | sysfile.c:135-142 | A file in the root directory can be linked again and again: each link leads from n names to n+1 |
| `TreeSpec.UnlinkPanics` | sysfile.c:204-205 | From a consistent tree the 32768th link of a file makes its count negative, which is the panic of every unlink of it |
| `TreeSpec.FreedNamed` | fs.c:321-333 | The 65536th link makes the count 0: iput, at the end of that link, frees an inode that all those entries still name |
| `TreeSpec.NoCycle` | fs.c:532-556 | From every linked directory ".." leads to the root, and from none but the root back to itself |
| `TreeSpec.RemovedStays` | sysfile.c:211-222 | rmdir of an open directory leaves a consistent tree with such a directory in it |
| `TreeSpec.RemovedParent` | sysfile.c:234-277 | A consistent tree in which create, mkdir and link, into a removed directory, each break the counts |
| `TreeSpec.EmptyDir` | sysfile.c:162-176 | A directory that isdirempty calls empty has exactly one link, its name in its parent |
| `TreeSpec.StaysLinked` | sysfile.c:214-217 | A directory that holds another has at least two links, so unlinking the inner one never unlinks it |
| `TreeSpec.NamedCount` | sysfile.c:204-205 | An inode that an entry of a linked directory names has nlink of at least 1 |
| `TreeSpec.FreeOk` | fs.c:317-336 | An inode with nlink 0 is named by no entry of a linked directory, and freeing it keeps all the rest exact |
| `TreeNames.CreatingMakes` | sysfile.c:254-272 | After create of a file or device: the new inode has the kind asked for, the name leads to it, every other name in every directory leads where it did, and every other inode keeps its kind |
| `TreeNames.MakingDirMakes` | sysfile.c:254-272 | The same for mkdir, whose directory has "." and ".." and nothing else |
| `TreeNames.LinkingNames` | sysfile.c:135-142 | After link the name leads to the inode, and every other name where it did |
| `TreeNames.UnlinkingNames` | sysfile.c:211-222 | After unlink the name leads nowhere, and every other name where it did |
| `TreeNames.FoundOnly` | fs.c:532-556 | What dirlookup returns is the one inode that the name leads to |
| `TreeNames.RemovableIs` | sysfile.c:162-209 | unlink's tests hold exactly for a name, other than "." and "..", of a file or of a directory in which nothing else can be found |
| `Tree.Tree.constructor` | mkfs.c:102-113 | The root directory alone, named by its own "..", satisfies the invariant |
| `Tree.Tree.Iput` | fs.c:317-336 | Frees the inode exactly at the last reference with a valid copy and no link left; with exact counts no entry names it then |
| `Tree.Tree.Iget` | fs.c:222-253 | One more reference to an inode in use |
| `Tree.Tree.DirLookup` | fs.c:532-556 | In any directory, removed ones included: the inode that the name leads to, or that it leads nowhere; in a linked directory that inode is in use and linked, in a removed one only "." and ".." are found |
| `Tree.Tree.DirLink` | fs.c:559-586 | Refuses exactly a name that is there; otherwise the first free entry, or a new one at the end, takes the name |
| `Tree.Tree.IsDirEmpty` | sysfile.c:162-176 | True exactly when no entry after the first two is in use |
| `Tree.Tree.Ialloc` | fs.c:175-198 | The lowest free inode number, if there is one |
| `Tree.Tree.Create` | sysfile.c:234-277 | In a linked directory or one removed and still open: an existing file is opened for a file, any other existing name refused; otherwise the name leads to a new inode of that kind, all other names and kinds as before. Panics exactly when all inodes are in use, or on the ".." of a removed directory whose parent is gone. The invariant is kept if and only if the directory is linked and, for mkdir, has fewer than 32767 links. Apart from the reference returned, references are balanced |
| `Tree.Tree.CreateAgain` | sysfile.c:247-250 | Creating a file of the same name again gives the same inode, a file, and changes nothing |
| `Tree.Tree.Link` | sysfile.c:115-160 | Succeeds exactly for an inode that is no directory and a name not yet there, which then leads to it, all other names as before; the invariant is then kept if and only if the directory is linked and the count does not overflow; a failure leaves the link count as it was; references are balanced either way |
| `Tree.Tree.GiveName` | sysfile.c:135-156 | The count goes up and the entry is made, or both stay as they were |
| `Tree.Tree.RemoveEntry` | sysfile.c:211-222 | After the entry is cleared both counts are exact again, the parent is still linked, and the inode is freed exactly at its last link and reference |
| `Tree.Tree.Unlink` | sysfile.c:179-232 | In a linked or removed directory: succeeds exactly for a name other than "." and ".." that leads to a file or to a directory with nothing else in it, after which the name leads nowhere and all others where they did; the inode is freed exactly if that was the last link and nobody has it open; references are balanced |
| `VmSpec.FramesDistinct` | vm.c:45-90 | No frame is mapped as a user page twice, in one address space or in two |
| `VmSpec.WithTableOk` | vm.c:52-62 | A new page table keeps every frame in exactly one use |
| `VmSpec.WithPageOk` | vm.c:79-83 | So does mapping a frame of one's own |
| `VmSpec.WithoutPageOk` | vm.c:263-270 | So does unmapping and freeing a page |
| `VmSpec.KmapCost` | vm.c:112-144 | With the kernel's table, setupkvm takes exactly 65 frames |
| `VmSpec.CostFresh` | vm.c:309-336 | A user space of a pages takes a frames and one for every 1024 of them begun |
| `VmSpec.KmapIsOk` | vm.c:115-125 | The kernel's ranges are disjoint and above user memory, so mappages never remaps |
| `VmSpec.ScanSkip` | vm.c:258-262 | The 4MB step jumps over exactly those pages |
| `VmSpec.PageJumped` | vm.c:258-262 | An example: from the second page on, without a first page table, the first page of the second table stays mapped |
| `VmSpec.AlignedAll` | vm.c:275-284 | From the start of a table, as in freevm, none is jumped over |
| `VmSpec.SpanUnmapped` | vm.c:245-273 | Nor is any in memory without gaps |
| `Vm.Memory.constructor` | kalloc.c:30-52 | All frames are free, each once |
| `Vm.Memory.Kalloc` | kalloc.c:79-95 | A frame that was free and is now in use, or 0 exactly when none is free |
| `Vm.Memory.Kfree` | kalloc.c:59-77 | The frame is on the free list once and in no other use |
| `Vm.Memory.WalkPgdir` | vm.c:45-65 | The page table of a page, made exactly if missing, asked for and a frame is free; no mapping of any address space changes |
| `Vm.Memory.MapPages` | vm.c:67-90 | The pages lead to the frames and nothing else changes; it fails exactly when there are fewer free frames than missing page tables, and otherwise takes just those |
| `Vm.Memory.DeallocUvm` | vm.c:245-273 | In any address space exactly the pages from the new size to the old are gone, their frames free, except those that the 4MB step over missing page tables jumps over: there is no table from the new size up to that of the page, and the page comes earlier in its table than the new size does in its own. Other address spaces and all other contents are unchanged |
| `Vm.Memory.FreeVm` | vm.c:275-292 | Of any address space, with gaps or without, exactly its frames, tables and directory included, are free again; others keep mappings and contents |
| `Vm.Memory.FreeTables` | vm.c:285-290 | Each page table is freed once |
| `Vm.Memory.SetupKvm` | vm.c:127-144 | A new address space with the kernel's mappings, no user page or user table, and frames that were free; 0 exactly when there are fewer free frames than the directory and tables take, and then all of them are lost |
| `Vm.Memory.AddPage` | vm.c:233-240 | A page takes one frame, or two if its table is missing; with one frame left and no table the frame is lost |
| `Vm.Memory.AllocUvm` | vm.c:218-243 | Memory with nothing mapped beyond the old size grows to the new size with zeroed frames of its own exactly when there are as many free frames as the pages and their missing tables take. It also returns newsz, with the last page missing, exactly when one more frame was needed and the last page alone needed its table; otherwise 0, back at the old size. At most one frame is lost, and exactly if memory runs out within a page. Whatever it returns, nothing is mapped beyond it, so it can be called again |
| `Vm.FirstPageLost` | vm.c:230-242 | With one frame left, growing a new address space by a page succeeds without the page |
| `Vm.Memory.CopyPages` | vm.c:319-336 | The loop of copyuvm: all pages up to sz or to the first one missing, if as many frames are free as they and their tables take |
| `Vm.Memory.CopyUvm` | vm.c:307-336 | The copy has the same bytes below sz in frames that were free before; the parent and all others are unchanged. Memory runs out exactly when there are fewer free frames than the kernel's tables, the pages and their tables take, and then all frames but at most one are back (or, before the kernel's tables are done, none). With a page missing below sz it panics at that page |
| `Vm.FreeUndoesCopy` | vm.c:275-336 | Freeing the copy gives back exactly the frames it took |
| `Vm.Memory.FreeIsRest` | kalloc.c:79-95 | The free frames are exactly those not in use |
| `Umalloc.FreeKeeps` | umalloc.c:24-44 | free, in all four cases of joining neighbours, keeps the list circular in address order with one wrap point, blocks disjoint, no two free blocks touching, and free plus outstanding units equal to the units obtained |
| `Umalloc.FreeUnits` | umalloc.c:33-42 | Exactly the units of the block given back become free |
| `Umalloc.FreeLinked` | umalloc.c:33-42 | The list stays linked in address order whichever neighbours are joined |
| `Umalloc.TakeKeeps` | umalloc.c:75-85 | Taking a whole block or its tail keeps the same invariant |
| `Umalloc.TakeUnits` | umalloc.c:75-85 | Exactly the units handed out stop being free |
| `Umalloc.TakeCutsOff` | umalloc.c:75-85 | The block handed out is the end of a free block, which keeps its place and the rest; no other free block changes |
| `Umalloc.FittedCut` | umalloc.c:74-89 | So is every block that malloc finds |
| `Umalloc.SbrkKeeps` | umalloc.c:54-58 | Fresh memory from sbrk extends the heap by exactly its units |
| `Umalloc.UnitsSuffice` | umalloc.c:69 | The units hold nbytes beside the header if and only if nbytes is at most 2^32-8; beyond that the rounding wraps to one unit |
| `Umalloc.GrantedAll` | umalloc.c:46-61 | morecore asks sbrk for the bytes it goes on to use if and only if they are below 2^28 units; above, the argument is negative, and 0 at 2^29 |
| `Umalloc.MallocLimit` | umalloc.c:63-90 | malloc can be relied on if and only if nbytes is at most 2^31-16: beyond that sbrk is not asked for the block's units, or, in the last seven cases, the block has one unit |
| `Umalloc.PayloadSafe` | umalloc.c:11-19 | A caller that writes only behind the headers of its own blocks cannot disturb the heap |
| `Umalloc.Allocator.constructor` | umalloc.c:21-22 | Before the first call nothing is free and nothing handed out |
| `Umalloc.Allocator.FindPlace` | umalloc.c:29-32 | The walk ends, at the node after which the block belongs |
| `Umalloc.Allocator.Free` | umalloc.c:24-44 | The block is no longer handed out; the heap invariant holds and no unit is lost |
| `Umalloc.Allocator.Morecore` | umalloc.c:46-61 | The units obtained join the free list at their place, and freep or the node after it can serve the request; nothing changes when sbrk fails; from 2^28 units on sbrk's success is not what morecore takes it for |
| `Umalloc.Allocator.FirstFit` | umalloc.c:74-89 | The block comes from the first node big enough after freep, all nodes passed being too small; only if there is none is sbrk asked, once, and the search resumes where the new memory is |
| `Umalloc.Allocator.TakeBlock` | umalloc.c:76-84 | The block, or the tail of it, is handed out with exactly that size, and was not handed out before |
| `Umalloc.Allocator.Malloc` | umalloc.c:63-90 | First fit as above, the invariant kept; NULL exactly when no free block is big enough and sbrk fails. Up to 2^31-16 bytes the block holds nbytes; a larger request goes wrong exactly when the list cannot serve it and sbrk succeeds |
| `Sleep.NoLostWakeup` | proc.c:363-418 | In every run of any number of processes, whenever lk is free and the condition holds, no process is SLEEPING on the channel, nor past releasing lk on the way to sleep |
| `Sleep.StepOk` | proc.c:363-418 | Each small step of any process keeps locks, sleep marks and pending wakeups consistent |
| `Sleep.StepHeard` | proc.c:378-385 | Taking ptable.lock before releasing lk leaves no moment in which a wakeup can miss the sleeper |
| `Sleep.Exclusive` | spinlock.c:24-64 | In every run each lock has at most one holder |
| `Sleep.Progress` | proc.c:363-418 | In every run some process can move unless all are asleep, and then the condition is false: the order lk before ptable.lock cannot deadlock |
| `ProcSpec.Forest` | proc.c:143-261 | In every run a process past EMBRYO other than init has a parent that is neither UNUSED, EMBRYO nor ZOMBIE and has a smaller pid, and UNUSED slots have no parent |
| `ProcSpec.NoForgottenZombie` | proc.c:181-261 | In every run no process asleep in wait or wait2 has a ZOMBIE child |
| `ProcSpec.Line` | proc.c:143-261 | From every process past EMBRYO the chain of parents ends at init |
| `ProcSpec.StepForest` | proc.c:36-261 | Every operation, and every unlocked step of fork, keeps the forest |
| `ProcSpec.ExitForest` | proc.c:200-216 | exit hands its children to a living init, and wakes whoever now has a zombie child |
| `ProcSpec.TickBound` | proc.c:532-551 | In every run the three times of a process sum to at most ticks - ctime + 1, and to at most ticks - ctime between the increment and the pass, whatever happens in between |
| `ProcSpec.TimesCount` | proc.c:532-551 | Over every run in which the slot stays in use, each of retime, rutime and stime grows by exactly the passes made while the process was RUNNABLE, RUNNING or SLEEPING |
| `ProcRuns.WaitReturns` | proc.c:486-530 | In every run, wait and wait2 return the pid of a zombie child of the caller, and wait2 exactly the passes of updatestatistics made while that process was RUNNABLE, RUNNING and SLEEPING |
| `ProcRuns.WaitMeans` | proc.c:231-259 | wait reaps exactly if there is a zombie child, whose pid is then in no slot, and no other slot changes; it gives up exactly without such a child and without any child or when killed; otherwise it sleeps on its own channel |
| `ProcRuns.ReapedOnce` | proc.c:238-246 | In every run each pid is returned by wait at most once |
| `ProcRuns.WhereTheyGo` | proc.c:35-82 | In every run every pid ever given out is that of a process in the table, was returned by wait, or belongs to a fork that failed; one returned by wait is no longer in the table |
| `ProcRuns.RunTimes` | proc.c:532-551 | The times of a process, wherever the run starts, grow by the passes made while it was in each state |
| `ProcRuns.ForkMakes` | proc.c:142-178 | fork leaves a runnable child of the caller whose pid is neither in the table nor was ever returned by wait, and changes no other slot |
| `ProcRuns.ExitMeans` | proc.c:200-215 | exit leaves a zombie with its pid, all its children with init, and the parent runnable if it slept in wait |
| `ProcRuns.KillMeans` | proc.c:423-441 | kill marks the process with the pid, which is no longer asleep, and touches no other; it fails exactly if no slot has the pid |
| `ProcRuns.KilledForGood` | proc.c:423-441 | In every run a killed process stays marked as long as it is in the table |
| `ProcSpec.PidsUnique` | proc.c:48-50 | In every run no process shares its pid with any slot, so kill marks at most one process |
| `ProcSpec.StepClean` | proc.c:423-441 | A step leaves unused slots unmarked if and only if it is neither a kill whose first matching slot is unused nor a fork that fails with its child killed |
| `ProcSpec.BornKilled` | proc.c:48-63 | In every run, a process born killed means that one of those two has happened before, for allocproc does not clear the mark |
| `ProcSpec.KillZero` | proc.c:423-441 | kill(0) on a fresh system succeeds, and the first process forked is born killed |
| `ProcSpec.KilledForkFails` | proc.c:143-157 | A run in which a child killed while its fork fails leaves the mark to the next process |
| `ProcTable.Ptable.constructor` | proc.c:92-117 | The table after userinit |
| `ProcTable.Ptable.AllocProc` | proc.c:36-63 | The first UNUSED slot becomes an EMBRYO with a new pid and cleared times; fails exactly when there is none |
| `ProcTable.Ptable.Wakeup1` | proc.c:401-409 | Exactly the processes SLEEPING on the channel become RUNNABLE |
| `ProcTable.Ptable.Exit` | proc.c:200-216 | The loop with its repeated wakeups amounts to one adoption of all children and at most one wakeup of init |
| `ProcTable.Ptable.Wait` | proc.c:231-259 | One turn of wait or wait2: the pid and the three times returned are those of a zombie child, whose slot is cleared; the whole new table is the specified one |
| `ProcTable.Ptable.Kill` | proc.c:423-441 | The first slot with that pid is marked, and woken if it sleeps; fails exactly when there is none |
| `ProcTable.Ptable.UpdateStatistics` | proc.c:532-551 | Each process is counted once, for the state it is in |
| `ProcTable.ToldNext` | proc.c:206-212 | The wakeups that exit repeats for each zombie child add up to one |
| `PipeSpec.Delivery` | pipe.c:76-120 | In every run of any readers and writers, the bytes read are a prefix of the bytes written, and 0 to PIPESIZE bytes are under way |
| `PipeHistory.FromCallers` | pipe.c:77-120 | In every run the bytes sent are an interleaving of what the calls of pipewrite were given: of each call's buffer the first bytes, in order, and all of them once it returned success; and what the calls of piperead returned, in order, makes up the bytes taken out |
| `PipeHistory.RecordOk` | pipe.c:77-120 | Every step keeps that account |
| `PipeSpec.WriteMeans` | pipe.c:83-96 | pipewrite sends as much as there is room for; success exactly if that is all, failure exactly if it is not and nobody can read or the caller was killed; otherwise it sleeps, on a full pipe |
| `PipeSpec.ReadMeans` | pipe.c:105-119 | piperead returns nothing exactly if nothing is asked for or at the end of the file, and fewer bytes than asked for only if it has emptied the pipe; it sleeps or fails exactly on an empty pipe that may still be written |
| `PipeSpec.StepAwake` | pipe.c:58-120 | A step keeps readers asleep only on an empty pipe open for writing, and writers only on a full one open for reading, if and only if it is not that of a killed writer with more than PIPESIZE bytes left and a reader asleep |
| `PipeSpec.WriteAwake` | pipe.c:83-96 | The same if and only if, for pipewrite alone |
| `PipeSpec.ReadAwake` | pipe.c:105-119 | piperead always keeps it |
| `PipeSpec.CloseAwake` | pipe.c:58-74 | pipeclose always keeps it |
| `PipeSpec.NobodyStranded` | pipe.c:58-120 | In every run without a kill, a sleeping reader implies an empty pipe with the write end open, a sleeping writer a full one with the read end open |
| `PipeSpec.NoDeadlock` | pipe.c:76-120 | In every run without a kill, when a reader and a writer are both in a call one of them can run |
| `PipeSpec.KilledWriterStrands` | pipe.c:84-88 | A run with a kill that leaves a full pipe, its writer gone and its reader asleep |
| `Pipe.SlotOf` | pipe.c:92 | The ring index of a 32-bit counter is that of the unbounded count, across wrap-around |
| `Pipe.Counters` | pipe.c:84-113 | The 32-bit comparisons tell empty and full exactly, across wrap-around |
| `Pipe.Ring.constructor` | pipe.c:32-36 | A new pipe is empty and open at both ends |
| `Pipe.Ring.Put` | pipe.c:92 | One more byte sent; none under way is overwritten |
| `Pipe.Ring.Take` | pipe.c:115 | The oldest byte under way |
| `Pipe.Ring.PipeWrite` | pipe.c:76-97 | The ring with its wrapping counters does what the bounded queue does: as many bytes as fit, then success, failure or sleep, with the wakeups of the source |
| `Pipe.Ring.PipeRead` | pipe.c:99-120 | The same for reading |
| `Pipe.Ring.CopyOut` | pipe.c:112-116 | The next bytes in order, as many as wanted or there are |
| `Pipe.Ring.PipeClose` | pipe.c:58-74 | Closes one end and wakes the other side; the page is freed exactly when both are closed |
| `ShellRound.RoundTrip` | sh.c:459-643 | For every command with proper words and at most nine of them in a simple command, parsing its minimally parenthesised text gives that command |
| `ShellRound.Canonical` | sh.c:524-643 | Every accepted line means such a command, and its printed form means the same |
| `ShellGrammar.Accepts` | sh.c:524-643 | parsecmd accepts exactly the sentences of a grammar with redirections anywhere among the words, and gives each its meaning; it refuses exactly the lines that are no sentence |
| `ShellGrammar.AppendIsOutput` | sh.c:583-591 | Every line reads as it does with > for >> |
| `ShellGrammar.ReadLine` | sh.c:541-556 | Every sentence is read to its end, with its meaning |
| `ShellGrammar.FindLine` | sh.c:541-556 | What parseline reads is a sentence with that meaning |
| `ShellRound.LineRound` | sh.c:541-556 | The text of a command of any kind, followed by the end or a closing parenthesis, is parsed back by parseline |
| `ShellRound.BackRound` | sh.c:546-550 | Background marks bind looser than pipes and tighter than lists |
| `ShellRound.PipeRound` | sh.c:558-569 | Pipes associate to the right and bind tighter than background marks |
| `ShellRound.ExecRound` | sh.c:596-643 | Simple commands, blocks and the redirections after them are parsed back |
| `ShellRound.LineBuilt` | sh.c:541-556 | Every command parsed has fewer than MAXARGS words in each simple command, all of them words of the line |
| `ShellLex.LexRender` | sh.c:462-505 | The scanner reads back exactly the tokens that were printed |
| `ShellLex.LexWords` | sh.c:492-495 | Every word is as long as it can be: all its characters are ordinary, and it ends at one that is not |
| `Shell.GetToken` | sh.c:462-505 | Returns the next token, with its exact bounds for a word, and moves past it; NUL exactly at the end |
| `Shell.Peek` | sh.c:507-517 | Tells whether the next token begins with one of the symbols, and consumes none |
| `Shell.ParseRedirs` | sh.c:571-594 | Collects the redirections the grammar has there, or finds that a file name is missing |
| `Shell.ParseExec` | sh.c:612-643 | Accepts and refuses, with the same panic, what the grammar does, and leaves the cursor after it; ends on every input |
| `Shell.ParseBlock` | sh.c:596-610 | The same for a block |
| `Shell.ParsePipe` | sh.c:558-569 | The same for pipes |
| `Shell.ParseLine` | sh.c:541-556 | The same for background marks and lists |
| `Shell.ParseCmd` | sh.c:524-536 | Every line is parsed or refused as the grammar says; no leftover is accepted |
| `Shell.NulTerminate` | sh.c:645-690 | A NUL is written at the end of each word of the command, and nowhere else |
| `Shell.WordsSurvive` | sh.c:645-690 | No NUL falls inside a word of the line, whether the command has that word or not |
| `Shell.WordsTerminated` | sh.c:645-690 | Each argument and file name is then a C string equal to the word the scanner delimited |
| `Shell.RunParser` | sh.c:524-539 | Both of these after parsecmd on a line buffer; a refused line is left unchanged |
| `Grep.Match` | grep.c:71-81 | Returns true exactly when some substring of the text, anchored as ^ and a final $ demand, belongs to the language of the pattern |
| `Grep.MatchHere` | grep.c:84-95 | True exactly when a prefix of the text belongs to the language of the pattern |
| `Grep.MatchStar` | grep.c:98-105 | True exactly when a prefix consists of repetitions of the character and a match of the rest |
| `Grep.PrefixCons` | grep.c:84-95 | A pattern matches at the start exactly when its first item takes some prefix and the rest matches what follows |

## Left out

- Log.Log.constructor: requires that the header on disk lists at most as many sectors as there are log blocks, all of them home sectors; initlog trusts it the same way.
- Log.Log.CommitTrans: processes that read outside transactions (log.c:21-23) may hold buffers, but not of sectors in the transaction, on which the commit would sleep, and they neither take nor release one while it runs. The buffers that the file system itself holds between its calls of log_write are not counted: `FileSys` works on blocks, not on the cache.
- Log.Log.Release: requires that a change to the buffer has been logged, as `BufferCache.Bcache.Brelse` does.
- BufferCache.Bcache.Brelse: requires that a change to the buffer has been published by bwrite or log_write; the code would then serve the unpublished data until the buffer is recycled.
- FileSys.FileSystem.Readi: device inodes are not modelled, nor in Writei; their calls go to driver functions.
- FileSys.FileSystem.Balloc: where it would return a sector of the log it says so and goes no further, so the state after that is not modelled, nor in the operations above it.
- FileCrash.CrashInFilewrite: the chunks run without other transactions between them; that a process has been killed or its memory has gone in the middle is not modelled.
- FileWrite.Filewrite: requires an offset inside the file or at its end, which file descriptors keep; the 32-bit sign of lengths is not modelled. The guard of log_write is not part of it: `FileCrash.TxExact` says in which chunk it would panic.
- Tree.Tree.Create: path walks (namex, skipelem) are not modelled, nor that names are cut to DIRSIZ characters, nor the numbers of a new device, and a directory never reaches MAXFILE. With inexact counts (removed parent, more than 32767 links) operations are followed no further than one step.
- Tree.Tree.DirLookup: directory contents are entries, not bytes; that readi and writei move bytes faithfully is shown in `FileSys`.
- Vm.Memory.MapPages: user pages are mapped one at a time, as all callers but setupkvm do; accessed and dirty bits, clearpteu and exec's use of loaduvm are not modelled.
- Vm.Memory.AllocUvm: requires that nothing is mapped from the old size on, which the code keeps; mappages panics otherwise.
- Vm.Memory.Kfree: the link word that a free page holds is part of the free list, not of the page's bytes.
- Umalloc.Allocator.Malloc: sbrk is an answer given beforehand, memory above the allocator's static data that was not obtained before; where it is not the memory that morecore puts on the list the run is not followed further.
- Sleep.NoLostWakeup: one lock, one channel and one condition at a time; that the lock is ptable.lock itself, as in wait, is covered by `ProcSpec.NoForgottenZombie`.
- ProcSpec.TickBound: the counters are unbounded; the code's are 32 bits wide.
- ProcSpec.StepForest: each operation under ptable.lock is one step, fork's unlocked assignments are steps of their own; files, memory and names of processes are not modelled.
- PipeSpec.Delivery: a call is one step from lock to sleep or return; descriptors of calls under way stay open, as reference counts in file.c see to.
- Shell.ParseExec: the words and redirections of a simple command are collected and the nodes built at the end; the code fills the node in place while redirections already point at it.
- Ide.Driver.Submit: port I/O is a command given to a drive; device errors and the second disk's presence check are not modelled.
- The console, keyboard and serial drivers, line editing and both histories: screen and port I/O.
- Booting, interrupt controllers, timers, multiprocessor discovery, context switching and trap entry: assembly and register accesses; a context switch is a step.
- exec, sys_getcwd and the argument fetching of system calls.
- The file table and descriptors of file.c and sysfile.c beyond filewrite: filealloc, filedup, fileclose, fileread, fdalloc and the calls on them.
- iget and ilock as a cache of inodes with a fixed number of places.
- printf, strings, and the user programs other than the shell's parser and grep's matcher.
- mkfs, except for the root directory it leaves and the bits of the log that it does not set.
