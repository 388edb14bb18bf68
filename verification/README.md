# xv6 on the Raspberry Pi: a verified model

This project models the stateful core of an xv6 port to ARM in Dafny 4.11 and
proves what that code is for. Each part takes the form of the code: classes with
fields and arrays where the C code updates structures in place, loops where it
loops, and values and lemmas for what is said about them.

`dafny verify dfyconfig.toml` verifies everything; no file needs another to be
given first.

| part | files | main results |
|---|---|---|
| redo log, buffer cache, disk | `Sector`, `Disk`, `Ring`, `BufferCache`, `LogMachine`, `Log`, `LogRegion`, `LogTurns` | all-or-nothing transactions over every crash point, crashes during recovery included; the cache refines the disk overlaid with the pending transaction; exactly when that fails for sectors of the log itself; one transaction at a time |
| buddy allocator | `BuddyTiling`, `BuddyMarks`, `Buddy`, `GetOrder` | free and outstanding blocks tile the heap; buddies are always merged; bitmaps, packed links and lists agree; the bit trick of `get_order` |
| files and directories | `FsImage`, `FsBitmap`, `FsWrite`, `FsTrunc`, `FsDisk`, `Fs`, `FileWrite`, `Directory` | a write splices the file's bytes and nothing else, exactly when blocks for it are free; every block has one owner; a chunk of a write fits the log and the cache; a directory is a map |
| files over the log | `LogRuns`, `FsCrash`, `FsCache`, `FileWrite` | in every run of what `filewrite` logs, crashes and recoveries anywhere, recovery leaves exactly the chunks committed so far in the file and every other file as it was; reads and log writes of the file system find a buffer and room in the log |
| address spaces | `PageTable`, `PagePool`, `Vm` | two-level tables refine a flat prefix of pages; copies share nothing; pages and page tables come from one heap, and growing and copying succeed, fail or panic exactly as what it has left says |
| processes | `ProcTable`, `Procs`, `Sched` | no lost exit, each zombie reaped once, bounded waiting |
| pipes and interrupt state | `Pipe`, `Interrupts` | first in first out across wrap-around, each byte of a write once however often it sleeps, no wrong sleep; the interrupt flag survives context switches |
| user programs | `Umalloc`, `ShellGrammar`, `ShellTree`, `Shell`, `Grep` | the ring allocator; the shell parser accepts exactly the lines of an unambiguous grammar, and its trees follow the characters of the line; the pattern matcher |
| shared | `Params`, `Bits` | sizes, finite sets and sequences, words of bits |

A `panic` halts the system. Where a method could panic, either its contract says
exactly when (a result or an `ok` flag), or it has a precondition with a comment
naming the panic, or the method proves that the panic cannot happen.

Six properties one might expect are false of the code. Each has its failing case
and the exact condition under which the code meets it:

- a transaction need not be all or nothing for sectors of the log region: before the
  commit it is exactly when no logged sector is the slot of another block
  (`LogRegion.UncommittedUnseen`), after it exactly under the condition of
  `LogRegion.CommittedSurvives`, with `LogRegion.FullDiskExample` and
  `LogRegion.ThreeBlocksExample`;
- a write does not always reach the file: on a disk without free blocks `balloc` hands
  out the log's header (`Fs.FileSystem.Obtain`). `Bmap`, `Writei`, `WriteChunk`,
  `Write` and `DirLink` succeed exactly when the blocks they need are free before the
  log, and otherwise end in the outcome `InLog`, with the header logged;
- `malloc` does not get more memory whenever none of its blocks fits and the system
  would grant it: `morecore` multiplies in 32 bits and `sbrk` takes a signed count, so a
  request of too many units ends in the outcome `Overflow`, exactly when no free block
  fits and the bytes of the request are not a positive `int`
  (`Umalloc.Allocator.Malloc`);
- `deallocuvm` can skip a page (`Vm.SkipExample`, `Vm.LeavesNone`);
- giving back the whole of a process's memory leaves its recorded size wrong
  (the if-and-only-if of `Vm.Memories.GrowProc`);
- the scheduler's own release need not restore the interrupt flag
  (`Interrupts.SchedulerLosesFlag`, `Interrupts.SchedulerFlag`).

## Model

| member | source | states |
|---|---|---|
| `LogMachine.HeadRoundTrip` | src/log.c:89-126 | reading the header sector that write_head wrote gives back the count and the sectors; the count is its first word and sector i its word i + 1 |
| `LogMachine.NextKeeps` | src/log.c:70-202 | every single sector write of logging, commit, installation and recovery, and a crash at any point, keeps the invariant that the disk plus a valid log amounts to the committed image |
| `LogMachine.RecoveryYieldsCommitted` | src/log.c:128-134 | from any reachable disk, recovery leaves every home sector as committed |
| `LogMachine.CrashAtomicity` | src/log.c:70-202 | over every run with any number of crashes, also inside recovery, recovery at any point yields exactly the committed image, and the committed image changes at no step but the header write with a positive count, where it becomes the pending one |
| `LogRegion.UncommittedUnseen` | src/log.c:171-202 | for any list of logged sectors and blocks, a crash before the commit leaves every logged sector as it was if and only if none of them is the slot of a different block |
| `LogRegion.CommittedSurvives` | src/log.c:70-134 | after the commit every logged sector ends with its block, however often and wherever recovery is interrupted, if and only if no logged sector is the slot of a different block and a block logged for the header reads as an empty header with all later blocks in place already; the header and any slots may be among the logged sectors |
| `LogRegion.SurvivesNeeds` | src/log.c:70-134 | the conditions are necessary: a recovery run once, or interrupted once, loses a block without them |
| `LogRegion.FinishedIsRecovered` | src/log.c:128-134 | for logged home sectors the recovery meant here is that of the log machine |
| `LogRegion.HomesSurvive` | src/log.c:70-134 | sectors outside the log always survive |
| `LogRegion.FullDiskExample` | src/fs.c:50-78 | the transaction of a disk with every block before the log in use, which logs the bitmap sector with the header's bit and then the header, loses the header's block |
| `LogRegion.ThreeBlocksExample` | src/fs.c:491-526 | on a full disk a write of three blocks, which takes the header and two slots, loses a block whatever the data, unless the block for the first slot equals the bitmap sector |
| `LogRegion.LookalikeSurvives` | src/log.c:70-134 | a commit whose header is overwritten by a copy of itself survives although a logged sector is the slot of a different block |
| `LogTurns.OneAtATime` | src/log.c:136-161 | in every run of any number of threads two transactions are never open at once, and inside one the busy flag is set |
| `LogTurns.SleepersAreWoken` | src/log.c:136-161 | whoever sleeps in begin_trans sleeps on someone else's open transaction, and its commit wakes them |
| `LogTurns.SomeoneGoesOn` | src/log.c:136-161 | while a thread wants or has the log, some thread has it or can take it at once |
| `LogRuns.RecoversWhole` | src/log.c:136-202 | for any program of transactions, in every state of every run that logs its blocks in order and commits after each transaction, with crashes and recoveries anywhere, recovery yields the disk of exactly the transactions committed so far |
| `LogRuns.Transaction` | src/log.c:136-202 | every transaction of blocks for few enough home sectors can be carried out to its end |
| `Log.Log.LogWrite` | src/log.c:171-202 | implements the machine's logging step: absorption or a new slot, one disk write, the buffer kept dirty |
| `Log.Log.CommitTrans` | src/log.c:148-161 | the committed image becomes the pending one, the log is empty again and no buffer is dirty; with nothing logged nothing is written |
| `Log.Log.InstallTrans` | src/log.c:70-86 | all logged sectors reach their homes by machine steps, the committed image unchanged |
| `Log.Log.ReadHead` | src/log.c:89-104 | memory agrees with the header sector; the disk is unchanged |
| `Log.Log.WriteHead` | src/log.c:109-126 | exactly one sector write, the header for the sectors in memory |
| `Log.Log.RecoverFromLog` | src/log.c:128-134 | recovery by machine steps ends with an empty log and the committed image unchanged |
| `Log.Log.constructor` | src/log.c:53-67 | whatever run and crash came before, initlog resumes with what that run had committed |
| `Log.Log.ViewIsPending` | src/log.c:171-202 | inside a transaction the cache shows every home sector as the pending image has it |
| `Disk.Image.Iderw` | src/memide.c:33-63 | a dirty buffer is written and becomes clean, a stale one is read; the only step that changes the disk |
| `Ring.Remove` | src/bio.c:123-142 | unlinking by two pointer writes keeps a ring of the others in order |
| `Ring.Push` | src/bio.c:38-56 | linking at the head keeps a ring with the node first |
| `BufferCache.SetKeeps` | src/bio.c:61-94 | a buffer may be recycled without a second copy of any sector or losing a dirty one |
| `BufferCache.WriteKeeps` | src/bio.c:111-119 | writing a buffer through keeps disk plus pending writes coherent |
| `BufferCache.PendKeeps` | src/log.c:171-202 | marking a buffer dirty adds it to the pending writes coherently |
| `BufferCache.Cache.constructor` | src/bio.c:38-56 | the ring holds all buffers, none used |
| `BufferCache.Cache.Lookup` | src/bio.c:61-94 | finds the one buffer of a sector, or proves there is none |
| `BufferCache.Cache.FindIdle` | src/bio.c:61-94 | the least recently released buffer that is neither busy nor dirty, or none exists |
| `BufferCache.Cache.Bget` | src/bio.c:61-94 | sleeps exactly for a busy buffer of the sector, and on that buffer; panics exactly when nothing can be recycled, and otherwise marks one buffer busy, recycled least recently used first |
| `BufferCache.Cache.Bread` | src/bio.c:97-108 | returns what the disk overlaid with the pending writes holds |
| `BufferCache.Cache.Bwrite` | src/bio.c:111-119 | one sector of the disk changes, and is no longer pending |
| `BufferCache.Cache.Brelse` | src/bio.c:123-142 | the ring stays a permutation of all buffers with this one first |
| `BufferCache.BuffersSuffice` | src/bio.c:61-94 | while the busy and dirty buffers belong to sectors that with the wanted one are no more than the buffers, bget does not panic |
| `BufferCache.EightAreFine` | src/bio.c:61-94 | in particular eight busy or dirty buffers are never too many |
| `BuddyTiling.SplitTiles` | src/buddy.c:221-242 | replacing a block by its halves keeps a disjoint exact cover |
| `BuddyTiling.MergeTiles` | src/buddy.c:260-281 | replacing two buddies by their parent keeps a disjoint exact cover |
| `BuddyTiling.EveryByteOnce` | src/buddy.c:54-62 | in a tiling every byte of the heap lies in exactly one block |
| `BuddyTiling.BlocksApart` | src/buddy.c:54-62 | the blocks of a tiling lie inside the heap and no two of them share a byte |
| `BuddyTiling.FreeRegionInFreeBlock` | src/buddy.c:260-281 | with buddies always merged, an entirely free aligned region lies in one free block |
| `BuddyTiling.RegionIffBlock` | src/buddy.c:221-242 | an entirely free aligned region exists exactly when a free block at least as large does |
| `BuddyTiling.AllFreeIsMaximal` | src/buddy.c:260-281 | if everything is free, the free blocks are exactly the largest ones, whatever the history |
| `BuddyTiling.MergeStep` | src/buddy.c:260-281 | merging with a free buddy keeps tiling and coalescing |
| `BuddyTiling.SplitStep` | src/buddy.c:221-242 | splitting a block just taken keeps tiling and coalescing |
| `BuddyMarks.LnksRoundTrip` | src/buddy.c:27-31 | two indices are packed without loss exactly when both fit 16 bits |
| `BuddyMarks.LinkPushes` | src/buddy.c:157-189 | linking a mark puts it at the head of a doubly linked list, previous and next inverse |
| `BuddyMarks.UnlinkRemoves` | src/buddy.c:115-154 | unlinking a mark anywhere leaves a doubly linked list of the others in order |
| `BuddyMarks.MarkKeepsList` | src/buddy.c:157-189 | the list still visits exactly the marks with a non-zero bitmap, once each |
| `BuddyMarks.UnmarkKeepsList` | src/buddy.c:115-154 | the same after a block is taken |
| `BuddyMarks.MarkAvailability` | src/buddy.c:157-189 | one block becomes available and no other changes |
| `BuddyMarks.UnmarkAvailability` | src/buddy.c:115-154 | one block stops being available and no other changes |
| `Buddy.WhenMarksFit` | src/buddy.c:74-112 | no mark has the number of the null link exactly for pools under 1023 times 128 KB; the pool main sets up has 65088 marks of the smallest order |
| `Buddy.Heap.constructor` | src/buddy.c:74-112 | the heap begins at the first page boundary after the tables, every page that begins before the end of the pool is free, the last one even where it reaches past the end, nothing is outstanding, and each bitmap word has its initial value |
| `Buddy.Heap.MarkFree` | src/buddy.c:157-189 | the free set gains the block; lists and bitmaps agree |
| `Buddy.Heap.UnmarkFree` | src/buddy.c:115-154 | the free set loses the block; lists and bitmaps agree |
| `Buddy.Heap.GetBlk` | src/buddy.c:192-216 | takes some free block of the order and gives its address |
| `Buddy.Heap.KmallocRec` | src/buddy.c:221-242 | a block is cut out of a smallest free block that is large enough, one half of each larger block on the way staying free, or no free block is large enough |
| `Buddy.Heap.Kmalloc` | src/buddy.c:245-258 | null exactly when no aligned region of the order is entirely free; otherwise such a region, at a multiple of its size, becomes outstanding; its bytes lie inside the heap and in no block outstanding before |
| `Buddy.Heap.KfreeRec` | src/buddy.c:260-281 | the block stops being outstanding and merges upwards as far as buddies are free |
| `Buddy.Heap.Kfree` | src/buddy.c:285-294 | panics exactly for an order out of range or an unaligned address; otherwise the block is freed and merged, keeping tiling, coalescing and list agreement |
| `Buddy.Heap.AllFreedIsInitial` | src/buddy.c:260-281 | when everything is freed again the free set is the initial one and every bitmap word is what it was after the start |
| `GetOrder.SmearRounds` | src/buddy.c:310-336 | five shift-or rounds turn any 32-bit value into one less than the power of two above it |
| `GetOrder.Get` | src/buddy.c:310-336 | panics exactly for 0 and above 4096; otherwise the least order from 6 whose block holds the size |
| `Bits.BitIs` | src/fs.c:50-99 | a bit test is a shift and a remainder |
| `FsBitmap.UsedBit` | src/fs.c:50-99 | block b is in use exactly when bit b % 8 of byte b / 8 is set |
| `FsBitmap.MarkUsed` | src/fs.c:50-99 | setting or clearing a bitmap bit adds or removes exactly that block |
| `FsImage.AllocInNode` | src/fs.c:373-407 | filling an address of an inode with a fresh block keeps single ownership, all files' bytes and all other slots |
| `FsImage.AllocInEntry` | src/fs.c:373-407 | the same for an entry of the indirect block |
| `FsImage.ContentStored` | src/fs.c:373-407 | byte x of a file lies at x % 512 of the block in address x / 512 of the inode, or in the block named by entry x / 512 - 12 of the indirect block |
| `FsImage.DataWriteByte` | src/fs.c:491-526 | writing one data block changes those bytes of that file and no byte of any file else |
| `FsWrite.ProgressStep` | src/fs.c:491-526 | one turn of the loop of writei extends the written part and leaves the rest |
| `FsWrite.SplicedAt` | src/fs.c:491-526 | splicing puts the source in its place and keeps every other byte |
| `FsWrite.ProgressDone` | src/fs.c:491-526 | after the last turn the content is the old one with the source spliced in, and blocks exist exactly up to the size |
| `FsTrunc.Emptied` | src/fs.c:414-444 | an emptied inode with its blocks released keeps single ownership |
| `FsTrunc.NextNamed` | src/fs.c:414-444 | a block about to be freed is in use and is named by no other slot of the inode, so it is freed once |
| `Fs.FileSystem.Balloc` | src/fs.c:50-78 | the first free block becomes used and zeroed, or every block is used; it lies before the log exactly when a block is free there |
| `Fs.FileSystem.Obtain` | src/fs.c:50-78 | a block before the log, exactly when one is free there; otherwise the log's header is handed out and logged |
| `Fs.FileSystem.Room` | src/log.c:171-183 | a transaction within its plan meets neither the panic for too big a transaction nor the one for want of buffers when it logs a sector |
| `Fs.FileSystem.Busy` | src/bio.c:61-94 | nor the latter when it reads one |
| `Fs.FileSystem.Bfree` | src/fs.c:81-99 | exactly that block becomes free |
| `Fs.FileSystem.Bmap` | src/fs.c:373-407 | address bn of the inode, or entry bn - 12 of its indirect block, allocated if missing, exactly when the blocks for that are free, of which that many are used up; no file's bytes change, and an existing block changes nothing at all |
| `Fs.FileSystem.Iupdate` | src/fs.c:206-223 | the inode on disk equals the one in memory |
| `Fs.FileSystem.FileStored` | src/fs.c:373-407 | in every state between operations the bytes of a file lie where its inode's addresses say |
| `Fs.FileSystem.Readi` | src/fs.c:458-487 | exactly the requested slice of the file, clipped at its size, each byte from the block its inode's addresses name; nothing is allocated or logged |
| `Fs.FileSystem.Writei` | src/fs.c:491-526 | refused exactly for the bad ranges; otherwise, exactly when the new blocks are free, the file is spliced, other files keep their bytes, ownership holds, and the inode is on disk; on every path the books of the transaction are kept |
| `Fs.FileSystem.Itrunc` | src/fs.c:414-444 | the file is empty, exactly its blocks are free again, other files keep their bytes |
| `FsDisk.NodeRoundTrip` | src/fs.h:27-34 | an inode written to the 64 bytes of its place in a sector is read back |
| `FsDisk.NodeFormat` | src/fs.h:27-34 | inode i lies at byte 64 * (i % 8) of sector i / 8 + 2: four shorts, the size and thirteen addresses, little-endian |
| `FsDisk.BitmapFormat` | src/fs.h:36-46 | byte p of the bitmap is byte p % 512 of sector ninodes / 8 + 3 + p / 512 |
| `FsDisk.BlockChanges` | src/fs.c:491-526 | writing a block changes one sector of the disk |
| `FsDisk.ByteChanges` | src/fs.c:50-99 | changing a bitmap byte changes one sector of the disk |
| `FsDisk.NodeChanges` | src/fs.c:206-223 | changing an inode changes one sector of the disk |
| `FsDisk.AppliedMore` | src/log.c:171-202 | logging the one sector that changed makes the log amount to the disk as it is now |
| `FsCrash.HoldsFile` | src/fs.c:373-407 | any disk that agrees with the file system outside the log holds each of its files, read from the bytes of its inode and blocks |
| `FsCrash.Carried` | src/log.c:136-202 | what a transaction of the file system logged, in that order, the log machine can carry out |
| `FsCrash.FullDisk` | src/fs.c:50-78 | for any file system, the transaction that logs the header's bitmap sector and the header survives a crash if and only if the header's new block begins with four zero bytes |
| `FsCache.ReadGoesOn` | src/bio.c:61-94 | with the busy buffers of the cache those of the sectors held and the dirty ones those logged, a read neither sleeps nor panics wherever the file system makes one |
| `FsCache.WriteGoesOn` | src/log.c:171-202 | and log_write has room in the log and a buffer for its slot |
| `FsCache.Read` | src/bio.c:97-108 | a read keeps cache, log and the file system's books in step |
| `FsCache.Release` | src/bio.c:123-142 | so does releasing a buffer |
| `FsCache.Write` | src/log.c:171-202 | so does logging a sector, whose panics cannot happen |
| `FsCrash.CrashLeaves` | src/log.c:128-134 | in any state of any run of the transactions, recovery leaves the files of the disk with the transactions committed so far |
| `FileWrite.ChunkBudget` | src/file.c:153-182 | a chunk of at most 1536 bytes at any offset takes at most seven sectors: four blocks, the indirect block, the inode and the bitmap |
| `FileWrite.WriteChunk` | src/file.c:153-182 | one transaction: at most seven sectors logged and eight buffers busy or dirty on every path; the chunk is refused exactly when out of range, and otherwise spliced in exactly when its new blocks are free |
| `FileWrite.Write` | src/file.c:131-188 | the source is written up to the first chunk that would make the file too large, exactly when the blocks for that are free, with result -1 if anything is left; each transaction keeps the budget; for every run that logs what its transactions logged, in order, with crashes and recoveries anywhere, recovery gives the file exactly the chunks committed so far and leaves every other file unchanged |
| `FileWrite.MoreChunks` | src/file.c:156-182 | one more transaction, with the next chunk or none, adds one to the disks that have a whole number of chunks in the file |
| `FileWrite.ChunksAreWhole` | src/file.c:156-182 | if those disks are what the transactions lead to, every crash in every run leaves such a disk after recovery |
| `Directory.TrimPadded` | src/fs.c:571-602 | a name stored padded reads back as its first 14 bytes |
| `Directory.EntryBytes` | src/fs.h:50-55 | entry k binds a name exactly when its first two bytes, a little-endian short, are the inode's number, not 0, and the name follows, ended by a zero if shorter than 14 bytes |
| `Directory.NameCmp` | src/fs.c:531-534 | equal exactly when the names agree in their first 14 bytes |
| `Directory.LinkBinds` | src/fs.c:571-602 | an entry for a new name in an unused slot, or after the last, adds that binding to the map and changes no other; for inode 0 it adds none |
| `Directory.DirLookup` | src/fs.c:538-568 | the inode bound to the name and where its entry lies, or the name is bound to none; the directory is unchanged |
| `Directory.DirLink` | src/fs.c:571-602 | refused exactly for a name in use; otherwise the map gains exactly the binding to the number cut to 16 bits and other files keep their bytes, except exactly when no entry is unused and the directory is of maximal size, which panics, or its new block is not to be had before the log |
| `Directory.ElementsOfPath` | src/fs.c:604-652 | the elements of a path are the names it is made of, with or without a first slash |
| `Directory.FirstElement` | src/fs.c:619-652 | the run of bytes after the leading slashes is the first element of a path |
| `Directory.SkipElem` | src/fs.c:619-652 | none exactly for a path without elements; otherwise the name is the first element, cut at 14 bytes, and the rest has the remaining elements and no leading slash |
| `PageTable.Walk` | src/vm.c:89-115 | the entry of an address is found by its bits from 20 on and its bits 12 to 19 |
| `PageTable.SetLookup` | src/vm.c:89-148 | writing one page-table entry changes the mapping of that page and of no other, in any address space |
| `PageTable.MapSound` | src/vm.c:120-148 | mapping a loose frame keeps every frame mapped once |
| `PageTable.UnmapSound` | src/vm.c:264-295 | unmapping keeps every other frame mapped once |
| `PageTable.TableSound` | src/vm.c:89-115 | a new empty table changes no mapping |
| `PageTable.CloseSound` | src/vm.c:299-320 | removing an empty directory changes no other address space |
| `PageTable.FramesDetermined` | src/vm.c:229-258 | which frames are in use is determined by the mappings |
| `Vm.PagesFewest` | src/vm.c:229-258 | the pages of a size are the fewest that hold it |
| `Vm.LeavesNone` | src/vm.c:264-295 | deallocuvm leaves nothing mapped in its range exactly when no mapped page there starts an entry after an entry without a table |
| `Vm.SkipExample` | src/vm.c:274-280 | a mapped page that is still mapped after deallocuvm went over its range |
| `Vm.ClearedFlat` | src/vm.c:264-295 | with tables in a prefix deallocuvm cuts the address space at the new size |
| `PagePool.TableTaken` | src/buddy.c:221-242 | a page table from the heap takes one place of the smaller free blocks, or, if there is none, a page, of which three places are left |
| `PagePool.Pool.AllocPage` | src/buddy.c:301-305 | none exactly when no maximal block is free; otherwise one that nobody uses |
| `PagePool.Pool.FreePage` | src/buddy.c:295-299 | a page in use goes back to the heap without a panic |
| `PagePool.Pool.KptAlloc` | src/vm.c:66-85 | a block nobody uses, from the boot-time list first, then from the heap; none exactly when the list is empty and the heap has neither room nor a free page |
| `PagePool.Pool.KptFree` | src/vm.c:45-55 | the block goes back to where its address says it came from |
| `Vm.EnoughMade` | src/vm.c:229-258 | taking a page, and a page table if one is missing, leaves enough for the rest exactly when there was enough for all |
| `Vm.GoingNext` | src/vm.c:238-256 | after each turn of the loop what is left is what there was but for the pages and tables made |
| `Vm.GoingFails` | src/vm.c:238-256 | if the loop stops, there was not enough for all of it, and it stops at a page table rather than at a page exactly when at some page there was enough for it but not for its page table |
| `Vm.Memories.WalkPgdir` | src/vm.c:89-115 | the table of a page, made on demand, changing no mapping; panics exactly when one is missing and no block is left |
| `Vm.Memories.MapPage` | src/vm.c:120-148 | the address space gains one page with the frame and permission; the remap panic cannot happen |
| `Vm.Memories.DeallocUvm` | src/vm.c:264-295 | exactly the visited pages of the range are unmapped and given back, for any directory |
| `Vm.Memories.AllocUvm` | src/vm.c:229-258 | adds zeroed user pages exactly when the heap and the boot-time list have enough for them and for the missing page tables; panics exactly when at some page there is enough for it but not for its page table; otherwise it answers 0 and the mapped pages and their frames are as before |
| `Vm.Memories.CopyUvm` | src/vm.c:339-379 | exactly when there is enough for the pages, the page tables and the directory, the copy has the same contents and permissions on frames used nowhere before; panics exactly when there is no block for the directory, or at some page enough for it but not for its page table; otherwise there is no copy and every other space has its frames |
| `Vm.Memories.FreeVm` | src/vm.c:299-320 | exactly the frames of the space, its tables and its directory are given back, each once; other spaces are untouched |
| `Vm.Memories.GrowProc` | src/proc.c:153-174 | growing works, fails and panics exactly as allocuvm does and adds zeroed pages; shrinking cuts the address space; no other page and no other address space changes; the recorded size matches the mapped pages afterwards except exactly when the whole space is given back |
| `ProcTable.ExitKeeps` | src/proc.c:222-263 | exit keeps: parents alive, no parent asleep in wait with a zombie child, pids distinct, every exited process a zombie or reaped once |
| `ProcTable.ReapKeeps` | src/proc.c:267-311 | reaping keeps the same invariant and records the pid once |
| `ProcTable.WokenKeeps` | src/proc.c:453-470 | waking any sleepers keeps the invariant |
| `ProcTable.LeaveKeeps` | src/proc.c:385-449 | giving up the processor keeps it, sleeping in wait only without a zombie child |
| `ProcTable.SlotKeeps` | src/proc.c:51-106 | allocating, failing to allocate and publishing a child keep it |
| `Procs.Kernel.constructor` | src/proc.c:117-149 | the first process is init, runnable with pid 1, and every other slot is unused; the invariant holds |
| `Procs.Kernel.AllocProc` | src/proc.c:51-106 | an unused slot becomes an embryo with a fresh pid, or there is none or no stack |
| `Procs.Kernel.Fork` | src/proc.c:179-217 | a runnable child of the current process, or -1 with no process changed |
| `Procs.Kernel.Exit` | src/proc.c:222-263 | the process is a zombie, its children are init's, whoever must reap is awake, and the invariant holds |
| `Procs.Kernel.Wait` | src/proc.c:267-311 | reaps the first zombie child of the caller exactly when there is one; answers -1 exactly when there is none and the caller has no children or is killed; otherwise it sleeps |
| `Procs.Kernel.Sleep` | src/proc.c:415-449 | the process sleeps on the channel and nothing else changes |
| `Procs.Kernel.Yield` | src/proc.c:385-391 | the process is runnable and nothing else changes |
| `Procs.Kernel.Wakeup` | src/proc.c:453-470 | exactly the sleepers on the channel become runnable, and none is left |
| `Procs.Kernel.Kill` | src/proc.c:474-496 | exactly the first slot with the pid, in use or not, is marked, and woken if asleep, and any process with the pid is marked by that |
| `Procs.Kernel.Scan` | src/proc.c:321-353 | one turn of the scheduler's loop dispatches the slot at the cursor exactly when it is runnable |
| `Sched.StepWaits` | src/proc.c:321-353 | each step leaves a runnable process waiting with at most one more slot passed, or dispatches it |
| `Sched.BoundedWaiting` | src/proc.c:321-353 | over every run, a runnable process stays runnable until dispatched, fewer than 64 slots are looked at before it, and every other slot is dispatched at most once |
| `Pipe.Counters` | src/pipe.c:101-139 | 32-bit counters tell empty and full from every other state although they wrap, and slots follow the true positions |
| `Pipe.PutKeeps` | src/pipe.c:111 | writing a byte to a pipe with room overwrites no pending byte |
| `Pipe.Wake` | src/pipe.c:94-146 | a wakeup readies exactly the sleepers of one side, each with the rest of its call as it was |
| `Pipe.PutMore` | src/pipe.c:99-112 | a byte put by one call is added to what that call has put and to no other |
| `Pipe.Pipe.constructor` | src/pipe.c:21-69 | both ends open, empty, nobody waiting |
| `Pipe.Pipe.RunWriter` | src/pipe.c:94-117 | a stretch of pipewrite appends a part of the caller's bytes; over all its stretches a call has put exactly the first bytes of its buffer into the pipe, each once, and all of them when it is done; it sleeps only on a full pipe with readers and after waking them, fails only without readers, and finishes only with all bytes written |
| `Pipe.Pipe.TakeOut` | src/pipe.c:134-140 | the oldest pending bytes, as many as wanted and there |
| `Pipe.Pipe.RunReader` | src/pipe.c:119-146 | bytes come out in the order they went in, as many as wanted and pending; it sleeps only on an empty pipe with writers |
| `Pipe.Pipe.Close` | src/pipe.c:71-91 | the other side is woken; the pipe is freed exactly when both ends are closed, and then no thread is inside |
| `Interrupts.NextKeeps` | src/arm.c:58-85 | every step of any thread keeps: depth is the running thread's, interrupts off inside, each thread's flag kept for it |
| `Interrupts.FlagRestored` | src/proc.c:357-382 | for every interleaving, a thread's outermost release restores the flag from before its outermost acquire |
| `Interrupts.FirstRelease` | src/proc.c:357-382 | a new thread's first release restores the flag the scheduler had remembered when it first switched to it |
| `Interrupts.FlagRestoredThroughGaps` | src/proc.c:415-449 | also through any number of gaps as in sleep, which leaves the table's lock before it takes its own, the last release restores the flag from before the first acquire |
| `Interrupts.SchedulerLosesFlag` | src/proc.c:321-353 | a run after which the scheduler's release leaves interrupts off although they were on |
| `Interrupts.SchedulerFlag` | src/proc.c:321-353 | over every run from its acquire to its release, the scheduler restores the flag if and only if no thread left through sched in between, or the last one that did had entered its outermost section with that flag |
| `Interrupts.LeaverEntered` | src/proc.c:357-382 | the flag of a thread that leaves is the one from before the acquire that opened its section |
| `Interrupts.Processor.PushCli` | src/arm.c:58-69 | implements entering a critical section |
| `Interrupts.Processor.PopCli` | src/arm.c:71-85 | implements leaving one; fails exactly outside every section |
| `Interrupts.Processor.Acquire` | src/spinlock.c:27-47 | enters a critical section and sets the lock word |
| `Interrupts.Processor.Release` | src/spinlock.c:50-73 | clears the lock word and leaves the section |
| `Interrupts.Processor.Sched` | src/proc.c:357-382 | switches out exactly when the table's lock is the only one held and the process is no longer marked running |
| `Interrupts.Processor.Dispatch` | src/proc.c:357-382 | a thread that returns from sched finds depth 1 and its own flag, a new one the flag the scheduler remembered |
| `Interrupts.Processor.SleepEnd` | src/proc.c:441-449 | leaving the table's lock for the caller's keeps the flag from before it |
| `Umalloc.InsertStep` | src/usr/umalloc.c:25-44 | linking a block where it belongs keeps ring, disjointness and conservation, with adjacency only around it |
| `Umalloc.MergeStep` | src/usr/umalloc.c:25-44 | merging two adjacent free blocks keeps everything |
| `Umalloc.StopsAtPlace` | src/usr/umalloc.c:29-32 | the exit tests of free's loop hold exactly at the place of the block |
| `Umalloc.OnlyNext` | src/usr/umalloc.c:33-42 | a free block can touch only the next free block, so the two tests of free suffice |
| `Umalloc.Request` | src/usr/umalloc.c:69 | the units hold the request with less than a unit to spare exactly when 32-bit rounding does not wrap |
| `Umalloc.Amount` | src/usr/umalloc.c:51-54 | at least 4096 units are asked for, and exactly what is needed above that |
| `Umalloc.Allocator.Search` | src/usr/umalloc.c:29-32 | the search ends at the place of the block from any starting point |
| `Umalloc.Allocator.Free` | src/usr/umalloc.c:25-44 | the block is no longer outstanding, nothing else moves, no two free blocks are adjacent, and the next search starts at the free block before it |
| `Umalloc.Allocator.Morecore` | src/usr/umalloc.c:47-61 | the arena grows by the new units and some free block is large enough, or nothing changes |
| `Umalloc.Allocator.Take` | src/usr/umalloc.c:74-84 | exactly the units asked for become outstanding, the last ones of the block |
| `Umalloc.Allocator.Malloc` | src/usr/umalloc.c:64-90 | terminates with a disjoint block of exactly the units asked for if one fits or the system grants more, cut from the first that fits, looking on from where the last search ended; null exactly when none fits and it refuses |
| `Shell.WordsFormed` | src/usr/sh.c:266-309 | the words of a line are maximal runs of letters, in order and apart |
| `ShellGrammar.Recognised` | src/usr/sh.c:346-447 | the parser gives all of the tokens a command if and only if the grammar, with its precedence of redirection, bar, ampersand and semicolon, gives them that command |
| `ShellGrammar.LineComplete` | src/usr/sh.c:346-447 | every line of the grammar before the end or a closing parenthesis is parsed to its command |
| `ShellGrammar.LineSound` | src/usr/sh.c:346-447 | what the parser reads is a line of the grammar with the command it returns |
| `ShellGrammar.Unambiguous` | src/usr/sh.c:346-447 | no line has two commands |
| `ShellGrammar.LineWords` | src/usr/sh.c:346-447 | the words of a line are those of its command, each as often |
| `ShellTree.SimpleFollows` | src/usr/sh.c:376-447 | arguments stand in turn and after no arrow; the file of a redirection is after `<`, for reading as descriptor 0, or after `>`, for writing as descriptor 1, whatever space is between |
| `ShellTree.WrappedFollows` | src/usr/sh.c:376-398 | of two redirections of a command the one whose file comes later is outside |
| `ShellTree.LineLaw` | src/usr/sh.c:346-447 | the command of a line follows its characters: a bar, semicolon or ampersand stands where the tree says, with the words of the parts before and after it, and so do its redirections |
| `Shell.GetToken` | src/usr/sh.c:267-309 | the token at or after a position, and where the next begins |
| `Shell.Peek` | src/usr/sh.c:312-321 | whether the next character is one of those given |
| `Shell.ParseRedirs` | src/usr/sh.c:376-398 | the redirections at the front of the tokens, or a panic exactly for an arrow without a file; each has the mode and descriptor of the arrow before its file, and they come in order |
| `Shell.ParseExec` | src/usr/sh.c:417-447 | the parser on tokens for a program or a block, panics included |
| `Shell.ParseBlock` | src/usr/sh.c:401-414 | the same for a parenthesised line with redirections |
| `Shell.ParsePipe` | src/usr/sh.c:363-373 | the same for programs and blocks between bars |
| `Shell.ParseLine` | src/usr/sh.c:346-360 | the same for background and list operators |
| `Shell.NulTerminate` | src/usr/sh.c:451-494 | zeros exactly at the ends of the stored words |
| `Shell.WordsReadBack` | src/usr/sh.c:451-494 | after all those writes every word still reads as itself, even without space between words |
| `Shell.ParseCmd` | src/usr/sh.c:329-343 | a line is accepted exactly when the grammar has a command for its tokens, and the result is that command, which follows the characters of the line in its operators, redirections and arguments; each word of the line is in it exactly once and every stored pointer reads as its word; on rejection the line is unchanged |
| `Grep.ParsePrinted` | src/usr/grep.c:72-95 | a pattern of ordinary characters, written with its stars, caret and dollar, is read as that pattern |
| `Grep.PrintParsed` | src/usr/grep.c:72-95 | and every string is what its pattern is written as |
| `Grep.FirstItem` | src/usr/grep.c:84-95 | a word of the language is a match of the first item followed by a word of the rest |
| `Grep.MatchHere` | src/usr/grep.c:84-95 | true exactly when a prefix of the text is in the language, reaching the end for a final dollar |
| `Grep.MatchStar` | src/usr/grep.c:98-105 | true exactly when some run of the character can be followed by a match |
| `Grep.Match` | src/usr/grep.c:72-81 | true exactly when some part of the line is in the language, at the ends its caret and dollar ask for |

## Left out

- Fs.FileSystem: reference counts and locking of inodes are not modelled; inodes and bitmap are kept as values, and `FsDisk` says which bytes of which sectors they are.
- Fs.FileSystem: the log and the buffer cache appear as accounting of sectors logged and buffers held, with the panics as preconditions; the cache and the log themselves are `BufferCache` and `Log`, and `FsCache` says that they keep in step, call by call.
- Fs.FileSystem.Writei: what happens to a file after a block in the log was handed out to it is not followed further than the outcome `InLog`; `LogRegion` says what a crash then makes of the logged sectors.
- FileWrite.Write: one bitmap sector, as the sizes mkfs uses give, and a log of more than eight sectors; no other process holds buffers; not for devices, whose drivers do the writing.
- LogRegion.CommittedSurvives: no block that reads as a non-empty header is logged, before the header, for the slot of the header's own block; `LogRegion.LookalikeSurvives` shows that the condition is not necessary there.
- LogRegion.CommittedSurvives: recovery from the disk; while the system runs on, installing copies from cached slots.
- Log.Log.LogWrite: logged sectors lie outside the log region; balloc does not ensure it on a full disk, which `Fs.FileSystem.Obtain` shows.
- BufferCache.Cache.Brelse: a released buffer holds logged or written data, which all callers in fs.c and log.c observe.
- Buddy.Heap.constructor: the pool does not reach the top page of the address space and has few enough marks for 16-bit links.
- Vm.Memories.MapPage: only one page at a time, the page after the last, as all user mappings are made; the kernel's own map is not modelled.
- Vm.Memories: loaduvm, inituvm, clearpteu, uva2ka, copyout, TLB and cache maintenance would only add easy members.
- Procs.Kernel: pids do not wrap around; kernel stacks, trap frames, open files and names are not modelled; no other code sleeps on the address of a table slot.
- Procs.Kernel.Fork: whether memory could be had is a parameter.
- Sched.BoundedWaiting: dispatched processes are taken to return to the scheduler; how long they run is not modelled.
- Pipe.Pipe.Close: a thread inside piperead or pipewrite keeps its descriptor, so its end is not closed meanwhile.
- Interrupts.Processor: handlers and traps appear as flag changes and critical sections of the thread they interrupt; the start-up code is not modelled.
- Umalloc.Allocator: addresses count headers; what sbrk answers is a parameter, above everything obtained before, and of a byte count that is not a positive int nothing more is said than `Overflow`.
- Umalloc.Allocator: users do not write outside their blocks.
- Shell.ParseExec: the command is built when its arguments are known, instead of filling in a node already inside its redirections.
- Shell: executing commands and reading lines.
- Grep: reading files line by line.
- Path walks (namex), inode allocation, the inode cache and link counts.
- System call dispatch, exec, the console, device drivers, traps, boot code and assembly.
