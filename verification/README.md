# Verification of the xv6 kernel and its companions

A Dafny model of the parts of this repository that are hardest to get right, with proofs that hold
for every input, every run or every reachable state.  `dafny verify dfyconfig.toml` checks the
whole project.

The model follows the code: objects that update fields are classes, table scans are loops over
arrays, protocols are step relations in which one step is one critical section, one statement or
one single-block disk write.  `panic`, `exit` and failed `assert`s stop a run and are modelled as
results (`ok`, `panicked`, `Panic`).  Each part has an independent meaning that the code is proved
against:

| part | files | proved against |
|---|---|---|
| write-ahead log | `RedoLog`, `LogProtocol`, `LogTheorems`, `LogRoom`, `LogHistory` | the disk that a completed recovery would leave; the writes that the steps of a run tell |
| buffer cache | `BufferRing`, `CacheTickets`, `BufferCache`, `CacheRuns`, `CacheHistory` | plain blocks with a lock each, the last publication of each block, and the order of last release |
| log on the cache | `CommitBuffers`, `CommitCache` | the same recovered disk, and the buffers a commit needs |
| inode layer and files | `FsBlocks`, `FsState`, `FsSteps`, `FsTrunc`, `Dinodes`, `InodeLayer`, `FileRuns`, `FileOps`, `FileWeave`, `FileHistory` | each file as a byte sequence; the last write to cover each byte; ownership of blocks |
| image builder | `Mkfs`, `Mount` | the same file contents and invariant that the kernel relies on |
| demand paging | `Fifo`, `PageTable`, `Paging`, `PagingHistory` | flat memory; the last store to each address; a queue as a sequence |
| user allocator | `Arena`, `Umalloc`, `SbrkSize` | a tiling of the heap by free, live and foreign units; the size of the process |
| shell parser | `ShellSyntax`, `ShellGrammar`, `Shell` | a grammar; a parser on token sequences, and its inverse, a printer |
| sleep locks | `SleepLock`, `SleepProgress` | a step relation over any number of processes |
| processes | `ProcTable`, `ProcLifecycle`, `ProcHistory` | a step relation over the process table; the pids and parents that the steps of a run tell |
| cake factory | `CakeFactory`, `CakeProgress`, `CakeHistory` | a step relation over five threads |
| regular expressions | `Grep` | the declared language of a pattern |
| pipe | `Pipe`, `PipeRuns` | a plain queue of bytes, with what each call sent or got |

## Where the code falls short

Each of these is stated as an exact condition, with a run or input that shows the failure.

- Crash atomicity holds of every run only if the log region is larger than LOGSIZE; `mkfs.c:25`
  makes it exactly LOGSIZE.  Then a write inside its operation's reservation can panic, two
  unlocked capacity tests in `log.c:218` can together overrun the region, and a crash during the
  commit that follows recovers to a mixture of old and new blocks
  (`LogRoom.RoomExactlyWhenLarger`, `LogRoom.TornRun`).
- A larger region is not enough for log_write never to panic: on a log of LOGSIZE blocks it panics
  even for a block that is already logged (`LogTheorems.CheckPanics`, `LogRoom.AbsorbPanicRun`).
- Nor for a commit to go through: LOGSIZE equals NBUF, so the blocks of a full log pin every
  buffer, and `log.c:183` finds none for the log block; with fewer blocks and nobody else in the
  cache no bread of the commit fails (`CommitCache.Commit`, `CommitCache.StarvedCommit`).
- A process that touches an address without a page table brings the kernel down, unless page 0 is
  resident and its first word has bit 0x200 clear: `vm.c:471` reads through walkpgdir's null
  result (`Paging.AddressSpace.Fault`, `Paging.PanicsWhenSwapped`, `Paging.PanicsOnWord`).
- `mkfs.c:161` rounds the root directory's size past a block the directory does not have exactly
  when its size is a whole number of blocks (`Mkfs.Image.Finish`, `Mkfs.FullRootBlock`).
- A writer that finds the pipe full and is being killed (`pipe.c:86-89`) leaves without waking the
  readers, so a reader can sleep on beside a full pipe (`PipeRuns.OrderlyStep`, `Pipe.StarvedReader`).
- `malloc` and `morecore` are exact up to 2^31 - 16 bytes (`Umalloc.RequestRanges`).  From there to
  2^32 - 8 bytes the byte count wraps: `sbrk` takes 2^32 - 8 * units bytes away from a process that
  has more, and succeeds without giving any memory if it has fewer; in both cases `morecore` records
  units that are not there (`SbrkSize.SbrkWraps`, `SbrkSize.FirstWrap`, `Umalloc.Allocator.Malloc`).
  If it has exactly as many, `sbrk` fails and leaves it without a page.  Larger requests wrap to one
  unit.

## Model

| member | source | states |
|---|---|---|
| `RedoLog.HeaderRoundTrip` | xv6-Development/xv6/log.c:85-113 | a header block written by write_head reads back, through read_head's layout, as exactly the same list of block numbers |
| `RedoLog.LogBlockWrite` | xv6-Development/xv6/log.c:177-190 | while the on-disk header is empty, writing any log block leaves what recovery would produce unchanged |
| `RedoLog.CommitPoint` | xv6-Development/xv6/log.c:98-113 | the single header write switches what recovery would produce from all old contents to all new contents |
| `RedoLog.InstallWrite` | xv6-Development/xv6/log.c:68-82 | copying a logged block home changes nothing that recovery would produce |
| `RedoLog.ClearWrite` | xv6-Development/xv6/log.c:115-122 | once all blocks are installed, erasing the header loses nothing and the home blocks hold the recovered contents |
| `RedoLog.EmptyLogIsHome` | xv6-Development/xv6/log.c:115-122 | with an empty header, recovery yields `want` if and only if the home blocks already are `want` |
| `RedoLog.Log.LogWrite` | xv6-Development/xv6/log.c:213-233 | panics exactly on the two capacity tests or outside a transaction; otherwise appends a new number once, absorbs a repeated one, and pins the buffer |
| `RedoLog.Log.WriteHead` | xv6-Development/xv6/log.c:101-113 | one disk write, whose header block is the in-memory list over the block's previous tail |
| `RedoLog.Log.ReadHead` | xv6-Development/xv6/log.c:85-96 | the in-memory list becomes the on-disk one |
| `RedoLog.Log.WriteLog` | xv6-Development/xv6/log.c:177-190 | every disk image on the way recovers to the old contents, and the log blocks end up holding the new ones |
| `RedoLog.Log.InstallTrans` | xv6-Development/xv6/log.c:68-82 | every disk image on the way, and the last, recovers to the same contents; all listed blocks are installed and unpinned |
| `RedoLog.Log.Commit` | xv6-Development/xv6/log.c:192-202 | n disk images recover to the old contents, then n + 2 to the new ones: a crash after any single write is atomic; the log is empty afterwards and home blocks are new |
| `RedoLog.Log.Recover` | xv6-Development/xv6/log.c:115-122 | leaves the home blocks as promised, and a crash after any of its own writes recovers to the same contents (idempotence) |
| `LogProtocol.AccountedStep` | xv6-Development/xv6/log.c:125-174 | every step keeps lh.n plus unused reservations within LOGSIZE, logged numbers distinct, and no operation outstanding during a commit |
| `LogProtocol.SaneStep` | xv6-Development/xv6/log.c:177-202 | every step keeps the on-disk header a list of distinct home blocks, whatever the size of the region |
| `LogProtocol.HistoriesStep` | xv6-Development/xv6/log.c:145-174 | every step keeps each operation's writes entirely durable, entirely in the current transaction, or lost in a crash |
| `LogProtocol.OnDiskStep` | xv6-Development/xv6/log.c:177-202 | every step, including every single-block write and a crash between any two, keeps what recovery would produce equal to the committed writes |
| `LogTheorems.Reservations` | xv6-Development/xv6/log.c:125-174 | for a log region of any size: lh.n plus unused reservations never exceeds LOGSIZE, logged numbers are distinct, no operation is outstanding during a commit, so the end_op panic is unreachable and every panic is log_write's capacity test |
| `LogTheorems.CheckPanics` | xv6-Development/xv6/log.c:218-221 | in every reachable state and for a region of any size, log_write panics exactly when the list has LOGSIZE or size - 1 blocks; with a region larger than LOGSIZE exactly on a full log, and then on a block already logged |
| `LogTheorems.OperationsWhole` | xv6-Development/xv6/log.c:145-174 | for a region of any size, the committed writes contain each operation wholly or not at all |
| `LogTheorems.QuietMeansCommitted` | xv6-Development/xv6/log.c:145-174 | for a region of any size, without crashes, once no operation is outstanding every operation's writes are committed |
| `LogTheorems.CrashAtomicity` | xv6-Development/xv6/log.c:69-202 | in every state of a run with any number of crashes, recovery yields exactly the committed writes, the cache shows them and the current transaction, and whenever no operation is outstanding they are at home; for every run if the region is larger than LOGSIZE, else while the list fits it |
| `LogTheorems.Durability` | xv6-Development/xv6/log.c:69-202 | after any later steps and crashes, recovery still yields what was committed in every home block that no later committed write touched |
| `LogHistory.AppendWrites` | xv6-Development/xv6/log.c:213-233 | read off the steps: an append completes the block and contents that its operation passed to log_write last, absorbed or not |
| `LogHistory.WroteAsPassed` | xv6-Development/xv6/log.c:213-233 | for a region of any size, what each operation has written is exactly that, in the order of its appends |
| `LogHistory.RecoversOperations` | xv6-Development/xv6/log.c:69-202 | in every state of a run with crashes, recovery yields exactly the writes, as the steps tell them and in their order, of a set of operations: none outstanding, and all whose commit ran to its end |
| `LogHistory.LastWriteWins` | xv6-Development/xv6/log.c:69-233 | without crashes, bread shows in every home block the contents of the last write completed there, or the image's, and so does the disk once no operation is outstanding |
| `LogRoom.RoomExactlyWhenLarger` | xv6-Development/xv6/log.c:125-233 | every run is crash-atomic, every reserved append goes through, and the list always fits, each if and only if the region is larger than LOGSIZE; mkfs makes it equal |
| `LogRoom.TornRun` | xv6-Development/xv6/log.c:177-202 | in a region of 2 to LOGSIZE blocks, a run whose crash during commit recovers to neither the old nor the new contents: the last log block fell on a home block before the header was written |
| `LogRoom.OverrunningRun` | xv6-Development/xv6/log.c:218-230 | in such a region, a run in which two capacity tests pass before either append and the list outgrows the region |
| `LogRoom.PanickingRun` | xv6-Development/xv6/log.c:218-219 | in a region of at most LOGSIZE blocks, a run in which an append within its reservation panics |
| `LogRoom.AbsorbPanicRun` | xv6-Development/xv6/log.c:218-219 | in a larger region, a run in which writing an already logged block of a full log panics |
| `LogRoom.SomeRunPanics` | xv6-Development/xv6/log.c:218-219 | whatever the size of the region, some run panics in log_write within its reservations |
| `CommitBuffers.BufferLeft` | xv6-Development/xv6/bio.c:78-92 | a block that is not cached gets a buffer if and only if fewer than NBUF buffers are referenced or dirty |
| `CommitBuffers.CommitFindsBuffer` | xv6-Development/xv6/bio.c:78-92 | with nobody using the cache and exactly the n logged blocks pinned, an idle buffer exists if and only if n < NBUF, and with NBUF of them no other block is cached |
| `CommitBuffers.FirstClean` | xv6-Development/xv6/log.c:74-79 | writing the first listed block home unpins that block and no other |
| `CommitBuffers.PinMore` | xv6-Development/xv6/log.c:213-233 | logging a block pins it, once, and keeps the list distinct |
| `CommitCache.Bread` | xv6-Development/xv6/bio.c:95-107 | of a block nobody uses: runs out of buffers if and only if the block is not cached and no buffer is idle; else the buffer holds the latest logged or written contents, and the same blocks stay pinned |
| `CommitCache.Brelse` | xv6-Development/xv6/bio.c:118-141 | the use ends, the same blocks stay pinned and nothing else is seen to change |
| `CommitCache.CopyToLog` | xv6-Development/xv6/log.c:182-188 | one turn of write_log through the cache: the cached contents of a logged block reach the log block; it runs out of buffers if and only if NBUF blocks are pinned |
| `CommitCache.CopyHome` | xv6-Development/xv6/log.c:73-80 | one turn of install_trans through the cache: the log block reaches its home, which is then no longer pinned; it runs out of buffers if and only if NBUF blocks are pinned |
| `CommitCache.WriteHead` | xv6-Development/xv6/log.c:101-113 | through the cache, the header block becomes the list over its previous tail; it runs out of buffers if and only if NBUF blocks are pinned |
| `CommitCache.WriteLog` | xv6-Development/xv6/log.c:177-190 | runs out of buffers at its first bread or at none; every disk image on the way recovers to the old contents and the log blocks end up holding the cached ones |
| `CommitCache.InstallTrans` | xv6-Development/xv6/log.c:68-82 | no later bread runs out of buffers either; every image recovers to the cached contents, and in the end nothing is pinned |
| `CommitCache.Commit` | xv6-Development/xv6/log.c:192-202 | with nobody else using the cache, no bread of the whole commit runs out of buffers if and only if it logs fewer than NBUF blocks; then a crash after any of its 2n + 2 disk writes is atomic, and in the end nothing is pinned and the disk is exactly what the cache shows |
| `CommitCache.LoggedWrite` | xv6-Development/xv6/log.c:204-233 | bread, change, log_write and brelse: the block is pinned with its new contents, unless it is new and NBUF blocks are pinned |
| `CommitCache.StarvedCommit` | xv6-Development/xv6/log.c:183-183 | a run of operations in a region larger than LOGSIZE, and the cache exactly as their writes leave a new one, on which the commit runs out of buffers |
| `BufferRing.MoveToFront` | xv6-Development/xv6/bio.c:130-138 | unlinking a buffer and pushing it to the front keeps the ring a permutation of all buffers, linked both ways, and changes no buffer |
| `BufferRing.UnlinkLinks` | xv6-Development/xv6/bio.c:132-133 | the ring without that buffer is linked both ways |
| `BufferRing.PushFrontLinks` | xv6-Development/xv6/bio.c:134-137 | the ring with that buffer in front is linked both ways |
| `BufferCache.RecycleKeeps` | xv6-Development/xv6/bio.c:78-90 | giving an idle buffer a new identity keeps identities unique and stale disk blocks pinned |
| `BufferCache.CleanIsCurrent` | xv6-Development/xv6/bio.c:96-106 | a buffer that is not dirty caches a block whose disk copy is the logical block, so reading it from disk is right |
| `BufferCache.PublishKeeps` | xv6-Development/xv6/log.c:223-232 | log_write's pin makes the buffer's contents the logical block, coherently |
| `BufferCache.WriteBackKeeps` | xv6-Development/xv6/memide.c:38-60 | a disk write makes disk, cache and logical block agree and unpins the buffer |
| `BufferCache.Fresher` | xv6-Development/xv6/bio.c:130-138 | the ring stays in order of last release, most recent first |
| `BufferCache.Cache.constructor` | xv6-Development/xv6/bio.c:38-56 | the initial ring holds all buffers once, linked both ways, and the cache is coherent with any disk |
| `BufferCache.Cache.FindCached` | xv6-Development/xv6/bio.c:68-76 | finds the buffer that carries the block, if there is one |
| `BufferCache.Cache.FindIdle` | xv6-Development/xv6/bio.c:78-91 | finds the least recently released buffer with no reference and not dirty, if there is one |
| `BufferCache.Cache.Bget` | xv6-Development/xv6/bio.c:61-93 | references the buffer that carries the block, else recycles the least recently released idle one, and gives the process a ticket for it; panics exactly when there is neither; never changes the identity of a referenced or dirty buffer |
| `BufferCache.Cache.Acquire` | xv6-Development/xv6/bio.c:71-74 | the ticket's process holds the buffer's lock |
| `BufferCache.Cache.Fill` | xv6-Development/xv6/bio.c:96-106 | the buffer of the ticket carries the block its process asked bget for, and now holds the logical block: the latest logged or written contents, else the disk's; panics exactly for a block the disk does not have |
| `BufferCache.Cache.Modify` | xv6-Development/xv6/log.c:204-212 | a holder's changes stay private until they are logged or written |
| `BufferCache.Cache.LogWrite` | xv6-Development/xv6/log.c:223-232 | the contents become the logical block and the buffer is pinned |
| `BufferCache.Cache.Unlock` | xv6-Development/xv6/bio.c:120-126 | panics exactly when the caller does not hold the lock; else gives it up, and the cache stays coherent if and only if the contents released are those of the logical block |
| `BufferCache.Cache.Unref` | xv6-Development/xv6/bio.c:128-141 | drops the reference of one ticket; the last one moves the buffer to the front of the ring and changes nothing else |
| `CacheTickets.BookNew` | xv6-Development/xv6/bio.c:68-91 | a new reference keeps every other process's buffer carrying the block it asked for |
| `CacheTickets.BookGone` | xv6-Development/xv6/bio.c:128-130 | dropping a reference takes it from that process's count only, so no buffer in use becomes idle |
| `CacheRuns.PerformRead` | xv6-Development/xv6/bio.c:96-106 | bread returns the contents that plain blocks would show for the block that was asked for |
| `CacheRuns.Perform` | xv6-Development/xv6/bio.c:61-141 | any step of any process does to the cache what it does to plain blocks with a lock each; a ticket that stays keeps its process, buffer and block; bget fails only when every buffer is referenced or dirty |
| `CacheRuns.Run` | xv6-Development/xv6/bio.c:38-141 | over every interleaving, what every process reads is what plain blocks would show, and at all times each buffer in use carries the block its process asked for; a run ends for want of buffers only at a bget of a block that is not cached while every buffer is referenced or dirty, and what came before it is as with plain blocks |
| `CacheRuns.UseLasts` | xv6-Development/xv6/bio.c:96-141 | between its bget and the end of its brelse a process's use keeps its block |
| `CacheHistory.RunTold` | xv6-Development/xv6/bio.c:38-141 | every outcome is the one its history calls for: a read sees what was last logged or written to its block, a lock is taken exactly when nobody holds the block, log_write and bwrite take effect exactly while the block is open, a release exactly with no change unpublished |
| `CacheHistory.PublishedLast` | xv6-Development/xv6/log.c:213-233 | a block holds what a use put there and then logged or wrote, until somebody publishes it again |
| `CacheHistory.Run` | xv6-Development/xv6/bio.c:38-141 | the same of every run of the cache itself, up to a want of buffers |
| `BufferCache.Cache.Bwrite` | xv6-Development/xv6/bio.c:108-116 | panics without the lock; else disk and logical block become the contents and the buffer is clean |
| `Fifo.Queue.Insert` | xv6-Development/xv6/vm.c:605-613 | appends the page to the queue, for any position of the wrap |
| `Fifo.Queue.ReplaceHead` | xv6-Development/xv6/vm.c:502-516 | on a full queue the head leaves and the new page joins the tail |
| `Fifo.Queue.OverwriteHead` | xv6-Development/xv6/fs.c:825-826 | replaces the page at the head |
| `Fifo.Queue.Shift` | xv6-Development/xv6/vm.c:675-678 | rotates a full queue: its head becomes its tail |
| `Fifo.Queue.Delete` | xv6-Development/xv6/vm.c:631-638 | removes the page at any occupied position and keeps the order of the others across the wrap |
| `Fifo.Queue.Organize` | xv6-Development/xv6/vm.c:662-673 | closes the gap exactly, moving every later entry down by one |
| `Fifo.Queue.Remove` | xv6-Development/xv6/vm.c:615-629 | removes the page if it is queued, else nothing |
| `PageTable.MappedEntry` | xv6-Development/xv6/vm.c:254-254 | a fresh entry is present and maps its frame |
| `PageTable.OutEntry` | xv6-Development/xv6/vm.c:455-466 | marking out clears present and the address and sets paged-out, whatever the entry was |
| `PageTable.InEntry` | xv6-Development/xv6/vm.c:518-532 | or-ing the new frame into a swapped entry maps exactly that frame |
| `Paging.SlotReused` | xv6-Development/xv6/fs.c:817-868 | page_in's first vAddr match is the right slot, and the slot it frees is the one page_out takes next |
| `Paging.ExchangePages` | xv6-Development/xv6/vm.c:565-602 | exchanging the head of the queue with a swapped page keeps every page holding its memory, in RAM or in its slot |
| `Paging.EvictHead` | xv6-Development/xv6/vm.c:481-503 | evicting the head keeps every page holding its memory |
| `Paging.MapNewPage` | xv6-Development/xv6/vm.c:246-259 | mapping a zeroed page keeps every page holding its memory |
| `Paging.PartitionSwap` | xv6-Development/xv6/vm.c:565-602 | each page stays in exactly one of queue and swap slots, once, when two change places |
| `Paging.PartitionEvict` | xv6-Development/xv6/vm.c:481-516 | ... and when the head is evicted for a new page |
| `Paging.AddressSpace.NextFreePageIndexInFile` | xv6-Development/xv6/fs.c:859-868 | the first unused slot, or -1 |
| `Paging.AddressSpace.PageOut` | xv6-Development/xv6/fs.c:840-854 | writes the page to the first unused slot, or fails when there is none or the write would start past the end of the file |
| `Paging.AddressSpace.PageIn` | xv6-Development/xv6/fs.c:817-833 | reads the first slot whose vAddr matches, frees it and overwrites the head of the queue |
| `Paging.AddressSpace.SwapOut` | xv6-Development/xv6/vm.c:481-516 | the head of the full queue goes to the next slot and the new page joins the tail; all pages keep their contents |
| `Paging.AddressSpace.AddPage` | xv6-Development/xv6/vm.c:244-266 | memory grows by one zeroed page, in whichever branch |
| `Paging.AddressSpace.SwapIn` | xv6-Development/xv6/vm.c:534-602 | the faulting page is mapped and joins the tail, the head takes its slot, and memory is unchanged |
| `Paging.AddressSpace.Fault` | xv6-Development/xv6/trap.c:82-105 | an access inside memory ends on a resident page; one outside is a hard fault exactly when its address has a page table, or page 0 is resident and bit 0x200 of its first word is clear; else the kernel panics |
| `Paging.AddressSpace.Grow` | xv6-Development/xv6/vm.c:224-269 | sizes in bytes: memory grows by zeroed pages up to MAX_TOTAL_PAGES and not at all beyond, with the source's return values; the resident queue grows first-in first-out |
| `Paging.AddressSpace.Write` | xv6-Development/xv6/vm.c:468-472 | a user store changes exactly that byte of flat memory, or ends as Fault says |
| `Paging.AddressSpace.Read` | xv6-Development/xv6/vm.c:468-472 | a user load yields what was last written there, or ends as Fault says |
| `Paging.AddressSpace.Perform` | xv6-Development/xv6/proc.c:168-187 | one load, store or growth does what flat memory does |
| `Paging.AddressSpace.Run` | xv6-Development/xv6/vm.c:224-602 | over every run of loads, stores and growth the process sees exactly what flat memory would show, wild accesses included, with pages in exactly one place and used slots a prefix throughout |
| `Paging.ResidenceInvisible` | xv6-Development/xv6/vm.c:534-602 | as long as every address has a page table, which pages are resident shows in nothing the process sees |
| `Paging.PanicsWhenSwapped` | xv6-Development/xv6/vm.c:468-472 | a process with sixteen pages brings the kernel down by reading at 4 MB, its page 0 being swapped out |
| `Paging.PanicsOnWord` | xv6-Development/xv6/vm.c:518-523 | so does a process with one page that stores 2 at address 1 first |
| `Paging.LooksLike` | xv6-Development/xv6/vm.c:471-472 | the byte tested is the one that holds bit 0x200 of the word at address 0 |
| `PagingHistory.StoreThenLoad` | xv6-Development/xv6/vm.c:468-472 | a load sees a store to its own address and no other |
| `PagingHistory.RunShows` | xv6-Development/xv6/vm.c:224-602 | in every run of a new process each load shows the byte last stored at its address, or 0; sbrk returns the size of the grants before it and is refused exactly at the limits; only accesses outside memory are fatal |
| `PagingHistory.Run` | xv6-Development/xv6/vm.c:224-602 | the same through page tables, queue and swap file |
| `Umalloc.SearchStops` | xv6-Development/xv6/umalloc.c:30-32 | free's two exit tests hold together at exactly one entry of the cycle: the one the block belongs after |
| `Umalloc.LinkIn` | xv6-Development/xv6/umalloc.c:36-42 | the block joins the list in address order; only its own neighbours can touch it |
| `Umalloc.Coalesce` | xv6-Development/xv6/umalloc.c:33-40 | merging two touching blocks keeps the tiling, the cycle, the live blocks and the foreign units |
| `Umalloc.JoinAbove` | xv6-Development/xv6/umalloc.c:33-37 | free's first merge keeps the heap sound; afterwards only the pair below can touch |
| `Umalloc.JoinBelow` | xv6-Development/xv6/umalloc.c:38-42 | free's second merge leaves no two free blocks adjacent |
| `Umalloc.TakeGood` | xv6-Development/xv6/umalloc.c:79-80 | unlinking an exact fit makes it live and keeps everything else |
| `Umalloc.CarveGood` | xv6-Development/xv6/umalloc.c:81-85 | carving the tail of a block makes it a live block and keeps everything else |
| `Umalloc.ExtendGood` | xv6-Development/xv6/umalloc.c:56-60 | sbrk'd units become a live block, units others took in between are foreign |
| `Umalloc.RequestRanges` | xv6-Development/xv6/umalloc.c:52-71 | the request's units are what sbrk is asked for if and only if the request is at most 2^31 - 16 bytes or above 2^32 - 8; they hold it, and are the fewest that do, if and only if it is at most 2^32 - 8 bytes, and above that they are a single unit |
| `SbrkSize.SbrkGives` | xv6-Development/xv6/proc.c:170-187 | the block that morecore records becomes memory of the process if and only if sbrk is asked for it, kalloc succeeds and the new size is within KERNBASE and the page limit |
| `SbrkSize.SbrkWraps` | xv6-Development/xv6/proc.c:176-184 | for every other request the process shrinks if and only if 2^32 - 8 * units is positive and at most its size, sbrk fails if and only if that is its size (and leaves it with nothing mapped), and otherwise sbrk succeeds without any memory |
| `SbrkSize.FirstWrap` | xv6-Development/xv6/vm.c:287-288 | a request of 2^31 - 15 bytes makes morecore call sbrk(-2^31), which succeeds, takes nothing away and gives nothing |
| `Umalloc.HeaderOutside` | xv6-Development/xv6/umalloc.c:33-43 | the base header and block headers are not in the payload of any live block |
| `Umalloc.Allocator.Search` | xv6-Development/xv6/umalloc.c:30-32 | terminates from any freep, at the last entry below the block |
| `Umalloc.Allocator.Free` | xv6-Development/xv6/umalloc.c:24-44 | the block leaves the live set, no other live block changes and no header is written in a live payload, and the free list is again one address-ordered cycle with a single wrap and no two adjacent blocks |
| `Umalloc.Allocator.Morecore` | xv6-Development/xv6/umalloc.c:46-63 | on success the request's units, but at least 4096, are added where sbrk's memory begins, and some free block holds the request; live blocks are unchanged; the new block is not all there exactly when sbrk was asked for another amount |
| `Umalloc.Allocator.FirstFit` | xv6-Development/xv6/umalloc.c:77-92 | terminates with at most one successful morecore; takes the end of the first block behind freep that is large enough and leaves freep before it; grows or fails only when no free block fits, and fails only when sbrk does |
| `Umalloc.ScanDone` | xv6-Development/xv6/umalloc.c:89-91 | when the scan is back at freep, no free block on the cycle fits |
| `Umalloc.Allocator.Take` | xv6-Development/xv6/umalloc.c:78-88 | the units handed out were free and are now live, all of the block or its tail |
| `Umalloc.Allocator.Malloc` | xv6-Development/xv6/umalloc.c:65-93 | for any request: the block returned was not live and has the request's units, every other live block and its payload is untouched, free and live blocks tile the heap, and no unit is ever lost; it returns 0 only when no free block fits and sbrk failed; the block is not all there if and only if sbrk succeeded for a request between 2^31 - 15 and 2^32 - 8 bytes |
| `Umalloc.Allocator.Serve` | xv6-Development/xv6/umalloc.c:24-93 | one request changes the live blocks exactly as its result changes what the client holds, and never returns a block that is held |
| `Umalloc.Allocator.Run` | xv6-Development/xv6/umalloc.c:24-93 | after any sequence of requests and releases the live blocks are exactly those that were given and not freed since, none was given while held, and sbrk failed once for each request that got nothing; only a last block, for a request between 2^31 - 15 and 2^32 - 8 bytes, may be not all there |
| `Umalloc.HeldByPosition` | xv6-Development/xv6/umalloc.c:24-93 | by position, the client holds a block if and only if some request got it and none has freed or got it since, with that request's units |
| `FsBlocks.EntryStored` | xv6-Development/xv6/fs.c:391-394 | storing a 32-bit entry in an indirect block stores exactly that entry |
| `FsBlocks.MapBitSet` | xv6-Development/xv6/fs.c:66-68 | setting a free-map bit sets exactly that bit |
| `FsBlocks.MapBitCleared` | xv6-Development/xv6/fs.c:89-93 | clearing a free-map bit clears exactly that bit |
| `FsBlocks.BitOfByte` | xv6-Development/xv6/fs.c:65-66 | bit k of a byte is the one that the mask 1 << k selects |
| `FsState.ClaimBit` | xv6-Development/xv6/fs.c:66-71 | claiming a block marks it and no other, across bitmap blocks |
| `FsState.AssignAddr` | xv6-Development/xv6/fs.c:380-389 | a fresh block stored in addrs changes exactly that entry of that inode's block map |
| `FsState.AssignEntry` | xv6-Development/xv6/fs.c:390-395 | a fresh block stored in the indirect block changes exactly that entry, of that inode only |
| `FsState.AssignWired` | xv6-Development/xv6/fs.c:373-401 | block maps and free map stay tied: every block number has one owner, and the map marks exactly the blocks before the data and the owned ones |
| `FsSteps.GrownByte` | xv6-Development/xv6/fs.c:373-401 | allocating for one inode changes no byte of any file |
| `FsSteps.WriteByte` | xv6-Development/xv6/fs.c:500-503 | writing an inode's n-th data block changes exactly the bytes of that block of that file |
| `FsSteps.WrittenTurn` | xv6-Development/xv6/fs.c:499-505 | each turn of the write loop extends the written part and touches no other byte or file |
| `FsSteps.WrittenAll` | xv6-Development/xv6/fs.c:482-512 | after the last turn the contents are the old ones with the data spliced in, and other files are as they were |
| `FsSteps.SplicedBytes` | xv6-Development/xv6/fs.c:499-510 | byte by byte: a write reaches to the longer of the old end and its own, and changes exactly the bytes it covers |
| `InodeLayer.FileSystem.Balloc` | xv6-Development/xv6/fs.c:55-78 | the first free block, marked and zeroed, owned by nobody; panics exactly when every block is marked |
| `InodeLayer.FileSystem.Bfree` | xv6-Development/xv6/fs.c:80-96 | clears exactly the block's bit; panics exactly on a free block |
| `InodeLayer.FileSystem.Bmap` | xv6-Development/xv6/fs.c:373-401 | the block's number, allocated if missing; no byte or other inode changes; logs nothing for a present block, else the new block, its indirect block and at most two bitmap blocks |
| `Dinodes.WordsStored` | xv6-Development/xv6/fs.h:29-36 | storing words in a block stores exactly those words |
| `Dinodes.DinodeStored` | xv6-Development/xv6/fs.c:228-234 | an inode stored at index k of a block reads back, and the other seven are unchanged |
| `Dinodes.DinodeLayout` | xv6-Development/xv6/fs.h:29-36 | the fields of a struct dinode, byte by byte, little-endian |
| `Dinodes.InodeStored` | xv6-Development/xv6/fs.h:38-42 | storing inode i changes no other inode of any block |
| `InodeLayer.FileSystem.Iupdate` | xv6-Development/xv6/fs.c:217-237 | the on-disk bytes decode to the in-memory inode, and to the same inodes as before everywhere else; its block is logged |
| `InodeLayer.FileSystem.constructor` | xv6-Development/xv6/fs.c:299-309 | the in-memory inodes are those the inode blocks hold |
| `InodeLayer.FileSystem.Readi` | xv6-Development/xv6/fs.c:450-477 | -1 exactly for an offset past the end or a wrapping range; else the bytes of the file's contents, and nothing changes although it goes through bmap |
| `InodeLayer.FileSystem.WriteBlocks` | xv6-Development/xv6/fs.c:499-505 | writes the range, allocating as it goes; a write within the old size changes no inode |
| `InodeLayer.FileSystem.Writei` | xv6-Development/xv6/fs.c:479-512 | -1 exactly for the refused ranges; else the contents are spliced, every other file is unchanged, every block below size is allocated, and the disk's inodes are up to date |
| `InodeLayer.WroteBytes` | xv6-Development/xv6/fs.c:499-510 | the same of the inode's size and of every byte of the file on the disk |
| `InodeLayer.LogsBound` | xv6-Development/xv6/file.c:127-133 | at most three blocks of data touch at most four data, four bitmap and one indirect block, for any offset and any number of bitmap blocks |
| `InodeLayer.FirstTurn` | xv6-Development/xv6/fs.c:499-501 | a write that begins inside a block finds that block allocated |
| `FsTrunc.NotYetFreed` | xv6-Development/xv6/fs.c:415-432 | each block itrunc frees is still marked when its turn comes, so "freeing free block" is out of reach |
| `FsTrunc.TruncSound` | xv6-Development/xv6/fs.c:403-436 | after truncation the invariant holds, the file is empty and every other file is intact |
| `InodeLayer.FileSystem.FreeDirect` | xv6-Development/xv6/fs.c:415-420 | frees exactly the direct blocks and logs their free-map blocks |
| `InodeLayer.FileSystem.FreeIndirect` | xv6-Development/xv6/fs.c:422-432 | frees exactly the blocks listed in the indirect block, and the indirect block, and logs their free-map blocks |
| `InodeLayer.FileSystem.Itrunc` | xv6-Development/xv6/fs.c:403-436 | frees exactly the blocks the inode owned, never panics, empties the inode in memory and on disk, leaves every other file's contents, and logs exactly the free-map blocks of what it frees and the inode's block |
| `FsTrunc.TruncWithinOp` | xv6-Development/xv6/fs.c:403-436 | that is within MAXOPBLOCKS if and only if the file's blocks have their bits in fewer than MAXOPBLOCKS free-map blocks, as they always do on a disk of up to nine of them |
| `FileRuns.Perform` | xv6-Development/xv6/fs.c:403-512 | one write, read or truncation does to all files what it does to plain byte sequences; it can only stop on a full disk |
| `FileRuns.Run` | xv6-Development/xv6/fs.c:403-512 | over every run of writes, reads and truncations on all inodes, contents and everything read are those of plain byte sequences |
| `FileHistory.RunShows` | xv6-Development/xv6/fs.c:403-512 | told from the operations alone: each read returns, byte by byte, what the last accepted write to cover it wrote; a file reaches as far as the accepted writes since its last truncation; an operation is refused exactly when its range is |
| `FileHistory.Run` | xv6-Development/xv6/fs.c:403-512 | the same of every run of the inode layer |
| `FileOps.WriteThenRead` | xv6-Development/xv6/fs.c:450-512 | writei followed by readi of the same range returns what was written |
| `FileOps.File.FileRead` | xv6-Development/xv6/file.c:95-113 | returns the bytes at the offset and moves it past them |
| `FileOps.File.FileWrite` | xv6-Development/xv6/file.c:117-156 | alone, the bytes written are spliced in at the offset, which moves past them; all of them unless a chunk is refused; every chunk's log operation logs at most MAXOPBLOCKS blocks |
| `FileWeave.WriteChunk` | xv6-Development/xv6/file.c:140-149 | one chunk is one atomic write at the offset, which moves past it, or nothing; it logs at most MAXOPBLOCKS blocks |
| `FileWeave.FileWriteAmong` | xv6-Development/xv6/file.c:127-154 | with any other operations between its chunks, all files end up as the woven sequence of operations makes them, the chunks carrying the bytes in order, one behind the other; a file that is not writable gives -1 and nothing happens |
| `FileWeave.WeaveLaws` | xv6-Development/xv6/file.c:127-154 | a trace's other operations and own bytes are those of its turns, one after the other |
| `FileWeave.FlattenLaws` | xv6-Development/xv6/file.c:127-154 | the operations between chunks, one list after the other |
| `Mkfs.UsedBits` | xv6-Development/xv6/mkfs.c:246-248 | after `used` turns of the loop exactly the first `used` bits are set |
| `Mkfs.UsedMapBlock` | xv6-Development/xv6/mkfs.c:237-251 | the bitmap block written marks exactly the blocks below freeblock |
| `Mkfs.TakeIsClaim` | xv6-Development/xv6/mkfs.c:271-284 | freeblock++ is, on the kernel's view of the image, what the kernel's allocator would do |
| `Mkfs.SuperLayout` | xv6-Development/xv6/mkfs.c:93-104 | the sizes and positions of the areas of the disk |
| `Mkfs.Image.constructor` | xv6-Development/xv6/mkfs.c:93-115 | the zeroed image satisfies the kernel's invariant with every file empty |
| `Mkfs.Image.Rinode` | xv6-Development/xv6/mkfs.c:197-208 | reads exactly the inode that the kernel would |
| `Mkfs.Image.Winode` | xv6-Development/xv6/mkfs.c:183-195 | the kernel would read back what was written, and the block's other inodes as before |
| `Mkfs.Image.Ialloc` | xv6-Development/xv6/mkfs.c:223-235 | the next inode number, for an empty inode with one link; beyond the last inode the builder goes on unchecked |
| `Mkfs.Image.TakeBlock` | xv6-Development/xv6/mkfs.c:269-286 | finds or takes the block for the next byte without changing any file |
| `Mkfs.Image.Iappend` | xv6-Development/xv6/mkfs.c:255-297 | the kernel would read the old contents followed by the new bytes, other files unchanged and blocks disjoint; stops only at the largest file or the end of the disk |
| `Mkfs.Image.AppendAll` | xv6-Development/xv6/mkfs.c:117-156 | after any interleaving of appends every file is the concatenation of what was appended to it; it stops only at a full disk or a file too long, and takes at most two blocks for each block of data and one before and after |
| `Mkfs.BytesForLaws` | xv6-Development/xv6/mkfs.c:117-156 | what is appended to one file among others is its own bytes, in order |
| `Mkfs.RoundedRoot` | xv6-Development/xv6/mkfs.c:158-163 | rounding the root's size keeps the kernel's invariant if and only if the size was not a whole number of blocks |
| `Mkfs.Image.Finish` | xv6-Development/xv6/mkfs.c:158-165 | the bitmap marks exactly the blocks below freeblock; every other file is allocated up to its size and holds what was appended, the root padded with zeros; the kernel's invariant holds if and only if the root's size was not a multiple of the block size |
| `Mkfs.FullRootBlock` | xv6-Development/xv6/mkfs.c:158-163 | a root directory of exactly one full block gets a size that reaches into a block it does not have |
| `Mount.FinishAndMount` | xv6-Development/xv6/mkfs.c:158-168 | the kernel's file system object on a finished image is valid if and only if the root was not a whole number of blocks; its block maps and free map agree in any case |
| `Mount.ReadAfterMount` | xv6-Development/xv6/fs.c:453-477 | the kernel's readi on a finished image returns what was appended: for the root if it is not a whole number of blocks, for every other inode in any case |
| `Mount.AllocAfterMount` | xv6-Development/xv6/fs.c:56-78 | the kernel's balloc on a finished image returns exactly the first block the builder did not use, and panics only if it used them all |
| `ShellSyntax.RoundTrip` | xv6-Development/xv6/sh.c:327-446 | parsing the canonical text of any legal tree rebuilds that tree |
| `ShellSyntax.Parseable` | xv6-Development/xv6/sh.c:327-446 | the trees some line parses to are exactly those with legal words and at most nine arguments per command |
| `ShellSyntax.RoundExec` | xv6-Development/xv6/sh.c:374-446 | a printed command or block, followed by anything that cannot start one, parses to itself with the rest left over |
| `ShellSyntax.RoundLine` | xv6-Development/xv6/sh.c:344-372 | a printed line parses to itself |
| `ShellSyntax.LineLegal` | xv6-Development/xv6/sh.c:344-446 | the parser only builds legal trees |
| `ShellSyntax.ShowToks` | xv6-Development/xv6/sh.c:265-308 | the canonical text has exactly the printed tokens |
| `ShellGrammar.LineSplits` | xv6-Development/xv6/sh.c:265-308 | every line splits into its tokens and blanks: a word is a maximal run of word characters, >> is one token, nothing is swallowed or cut |
| `ShellGrammar.SplitsOnce` | xv6-Development/xv6/sh.c:265-308 | and there is no other way to split it |
| `ShellGrammar.NothingSwallowed` | xv6-Development/xv6/sh.c:265-308 | the texts of a line's tokens, one behind the other, are the line without its blanks |
| `ShellGrammar.LineReads` | xv6-Development/xv6/sh.c:344-446 | the parser reads every line that the grammar spells as the grammar's tree, with redirections anywhere among the words, in order from the inside out, and > and >> alike |
| `ShellGrammar.LineSpelled` | xv6-Development/xv6/sh.c:344-446 | whatever the parser reads, the grammar spells |
| `ShellGrammar.ParsesGrammar` | xv6-Development/xv6/sh.c:327-446 | a token sequence parses to a tree if and only if the grammar derives both |
| `Shell.GetToken` | xv6-Development/xv6/sh.c:265-308 | takes the first token off the line; a word's span is a maximal run of word characters |
| `Shell.Peek` | xv6-Development/xv6/sh.c:310-320 | moves past blanks and tells whether the next character is one of the given |
| `Shell.ParseRedirs` | xv6-Development/xv6/sh.c:374-397 | agrees with the parser on tokens, panics included, and terminates |
| `Shell.ParseExec` | xv6-Development/xv6/sh.c:415-446 | agrees with the parser on tokens, including redirections between arguments and the argument limit |
| `Shell.ParseBlock` | xv6-Development/xv6/sh.c:399-413 | agrees with the parser on tokens, including a missing parenthesis |
| `Shell.ParsePipe` | xv6-Development/xv6/sh.c:361-372 | agrees with the parser on tokens |
| `Shell.ParseLine` | xv6-Development/xv6/sh.c:344-359 | agrees with the parser on tokens; the mutual recursion terminates by remaining input and rank of the nonterminal |
| `Shell.NulTerminate` | xv6-Development/xv6/sh.c:448-493 | a NUL at the end of every word of the tree, and no other byte changed |
| `Shell.EndsOutside` | xv6-Development/xv6/sh.c:448-493 | no word ends inside another word |
| `Shell.ReadsBack` | xv6-Development/xv6/sh.c:448-493 | after the NULs are in place every argument and file name, read as a C string, is its token's text |
| `Shell.ParseCmd` | xv6-Development/xv6/sh.c:327-342 | panics exactly when the tokens do not parse; else the tree read back from the modified buffer is what the line's tokens parse to |
| `SleepLock.InvStep` | xv6-Development/xv6/sleeplock.c:22-42 | every statement of every process, scheduler and killer keeps the locking and sleeping invariant |
| `SleepLock.RescuedGo` | xv6-Development/xv6/proc.c:461-518 | a process that goes to sleep or sleeps keeps somebody who is going to wake it until the scan reaches it |
| `SleepLock.NoLostWakeup` | xv6-Development/xv6/sleeplock.c:22-53 | for any number of processes and any interleaving: at most one owns the lock, from setting locked to clearing it; a sleeper implies the lock is held or a releaser has yet to reach it; holdingsleep is exact |
| `SleepProgress.Settles` | xv6-Development/xv6/proc.c:461-518 | from every state satisfying the invariant, the holders of the spin locks can go on until nobody holds one |
| `SleepProgress.Unlocks` | xv6-Development/xv6/sleeplock.c:33-42 | and the owner of the sleep lock can then give it up |
| `SleepProgress.EveryoneCanLock` | xv6-Development/xv6/sleeplock.c:22-42 | in every reachable state, for every process, asleep or not, some schedule leads to its holding the lock |
| `ProcTable.Wakeup1` | xv6-Development/xv6/proc.c:499-509 | exactly the sleepers on the channel become runnable |
| `ProcTable.WokenEach` | xv6-Development/xv6/proc.c:499-509 | slot by slot: a sleeper on the channel becomes runnable, every other slot stays |
| `ProcTable.Exit` | xv6-Development/xv6/proc.c:283-298 | the parent and, if a zombie is handed over, init are woken; children go to init; the process is a zombie; nothing else changes |
| `ProcTable.ExitedEach` | xv6-Development/xv6/proc.c:283-298 | slot by slot, who is woken, handed to init or left alone |
| `ProcTable.ScanChildren` | xv6-Development/xv6/proc.c:319-351 | the first zombie child, or that there is none and whether there are children |
| `ProcLifecycle.Lifecycle` | xv6-Development/xv6/proc.c:192-356 | in every reachable table nobody sleeps in wait with a zombie child, every process and zombie but init has a live, older parent, and each exited child is returned by exactly one wait |
| `ProcLifecycle.Forest` | xv6-Development/xv6/proc.c:192-356 | from any process or zombie, following parents reaches init |
| `ProcLifecycle.ReturnedToParent` | xv6-Development/xv6/proc.c:283-344 | every child that wait has returned went to the parent it had when it exited, or to init |
| `ProcLifecycle.TreeStep` | xv6-Development/xv6/proc.c:192-356 | every step of fork, exit, wait, kill and scheduling keeps the parent and sleeping invariant |
| `ProcLifecycle.HistoriesReap` | xv6-Development/xv6/proc.c:321-344 | wait retires a pid that has exited and was not returned before |
| `ProcHistory.HistoryTold` | xv6-Development/xv6/proc.c:192-356 | in every reachable table the pids, the parents, who has exited under whom and who was returned to whom are as the steps tell them |
| `ProcHistory.ForkRuns` | xv6-Development/xv6/proc.c:192-246 | once fork is done the child is its parent's, is younger and can run |
| `ProcHistory.ExitEndsWait` | xv6-Development/xv6/proc.c:283-344 | an exit lets its parent, asleep in wait, run and wait return the child, or to init perhaps a zombie it inherits |
| `ProcHistory.KillWakes` | xv6-Development/xv6/proc.c:520-542 | a killed sleeper can run, and gives up if it was in wait |
| `ProcHistory.RunsAgain` | xv6-Development/xv6/proc.c:429-437 | who yields, or sleeps and is woken, can run again |
| `ProcHistory.ChildLives` | xv6-Development/xv6/proc.c:192-344 | fork, exit and wait in a row: the child gets the next pid, wait returns it and its slot is free again |
| `CakeFactory.Safety` | IPC/CakeFactory/CakeFactory.cpp:80-262 | in every reachable interleaving queue and counters hold 0 to 5 cakes, nothing underflows, the carrier never looks at or pops an empty queue and takes the cake it looked at, and cakes made equal queued, carried, on show and sold, per flavour |
| `CakeFactory.Exclusion` | IPC/CakeFactory/CakeFactory.cpp:108-137 | no two threads are inside the same critical section |
| `CakeFactory.DeadlockFree` | IPC/CakeFactory/CakeFactory.cpp:152-262 | in every reachable state some thread can step |
| `CakeProgress.Serve` | IPC/CakeFactory/CakeFactory.cpp:152-262 | from any state with all mutexes free, a schedule that sells another cake of a given flavour |
| `CakeProgress.Progress` | IPC/CakeFactory/CakeFactory.cpp:152-262 | from every reachable state, a schedule that sells another cake of each flavour: no thread is stuck for good |
| `CakeHistory.MadeAndSold` | IPC/CakeFactory/CakeFactory.cpp:152-262 | the cakes made and sold of each flavour are given by how often its chef and its waiter have stepped |
| `CakeFactory.SomeTokenLeft` | IPC/CakeFactory/CakeFactory.cpp:80-87 | with all mutexes free the semaphores' tokens let some thread pass |
| `CakeFactory.InvStep` | IPC/CakeFactory/CakeFactory.cpp:152-262 | every statement of every thread keeps mutex ownership, token counts, the front of the queue and the cake count |
| `Grep.Match` | xv6-Development/xv6/grep.c:72-82 | true exactly when some substring of the text, respecting ^ and $, is in the declared language of the pattern |
| `Grep.MatchHere` | xv6-Development/xv6/grep.c:84-96 | true exactly when a prefix of the text (all of it under $) is in the language; terminates |
| `Grep.MatchStar` | xv6-Development/xv6/grep.c:98-106 | true exactly when some run of accepted characters is followed by a hit of the rest |
| `Grep.ManyHits` | xv6-Development/xv6/grep.c:89-90 | a starred item followed by the rest hits exactly when a run of its characters followed by a hit of the rest does |
| `Grep.OneHits` | xv6-Development/xv6/grep.c:93-94 | a single item followed by the rest hits exactly when it accepts the first character and the rest hits after it |
| `Grep.StarHere` | xv6-Development/xv6/grep.c:98-106 | c* followed by a pattern hits exactly when a run of c, perhaps empty, is followed by a hit of the pattern |
| `Grep.PlainHits` | xv6-Development/xv6/grep.c:72-96 | a pattern of literals and dots is found exactly where it occurs; behind ^ only at the front, before $ only at the end, between both only as the whole text |
| `Pipe.CountersWrap` | xv6-Development/xv6/pipe.c:85-114 | the full and empty tests are exact although the 32-bit counters wrap |
| `Pipe.PutKeeps` | xv6-Development/xv6/pipe.c:93-93 | a byte put at nwrite % PIPESIZE overwrites none that is still to be read |
| `Pipe.TakeKeeps` | xv6-Development/xv6/pipe.c:113-117 | the byte at nread % PIPESIZE is the oldest accepted one |
| `Pipe.Pipe.PipeWrite` | xv6-Development/xv6/pipe.c:78-98 | puts in as many bytes as there is room for, then returns, fails or sleeps as the source does; a failing call wakes nobody |
| `Pipe.Pipe.PipeRead` | xv6-Development/xv6/pipe.c:100-121 | sleeps exactly on an empty open pipe; else delivers the oldest bytes, as many as asked for and there are |
| `Pipe.Pipe.PipeClose` | xv6-Development/xv6/pipe.c:59-75 | closes the end, wakes the other side and frees when both are closed |
| `PipeRuns.WritesGrow` | xv6-Development/xv6/pipe.c:84-94 | a write call's accepted bytes stay exactly a prefix of its own bytes, in order, whatever others write meanwhile |
| `PipeRuns.ReadsGrow` | xv6-Development/xv6/pipe.c:112-117 | what a read call returns is exactly what left the pipe for it, also when it slept first, and other calls keep what they got |
| `PipeRuns.OrderlyStep` | xv6-Development/xv6/pipe.c:78-121 | any step keeps bytes taken a prefix of bytes accepted, the backlog within PIPESIZE, every call's bytes accounted for and no writer asleep without cause; it leaves a reader asleep beside readable bytes if and only if a write fails after filling an empty pipe on which a reader sleeps |
| `PipeRuns.OrderlyRun` | xv6-Development/xv6/pipe.c:78-121 | the same of every run; and no reader is left asleep beside readable bytes while no writer is killed and the read end stays open |
| `PipeRuns.Perform` | xv6-Development/xv6/pipe.c:78-121 | any event does to the ring and its counters, the sleepers and every call exactly what it does to a plain queue of bytes |
| `PipeRuns.CallsRun` | xv6-Development/xv6/pipe.c:78-121 | every write call keeps the bytes, and every read call the count, that its event passed, through all its sleeps |
| `PipeRuns.Run` | xv6-Development/xv6/pipe.c:78-121 | for any interleaving on a new pipe, every call has sent or got what it would with a plain queue; what all reads returned, in order, is a prefix of what all writes put in |
| `Pipe.StarvedReader` | xv6-Development/xv6/pipe.c:85-92 | a concrete run in which a killed writer fills the pipe and leaves its reader asleep |

## Left out

- Malloc: what later requests do once a block is not all there (they may be given memory that overlaps it) is not modelled; the run ends with that block.
- CrashAtomicity: in a log region of at most LOGSIZE blocks it is stated for the runs whose list fits the region; `RoomExactlyWhenLarger` and `TornRun` show that the others break it.
- Ialloc: past the last inode the builder writes on into the block after the inodes; the model stops there.
- Iupdate: the inode blocks are a field of their own, next to the other blocks; the bytes of the superblock and of directory entries are not modelled.
- FileWrite: two writers of one open file share its offset only through the operations between chunks of `FileWriteAmong`.
- Commit: `CommitCache.Commit` has the cache to itself; in the log protocol, with operations running, blocks are read and written directly.
- The spin locks of the cache and of the log; each critical section is one step.
- Processes that give up a buffer with changes they neither logged nor wrote: `Unlock` states what that does to the cache, runs leave it out; device 0, which the kernel does not use, likewise.
- Device inodes (T_DEV), the inode cache (iget, iput, ilock), link counts, directories and path names.
- Paging across fork and exec, shrinking with swapped pages, guard pages, kalloc failing, the TLB, and the branch of swap_in for a queue that is not full; the swap file is read and written a whole page at a time.
- The memory behind a pipe after both ends are closed, and `pipewrite` with a negative count.
- The signal of `timeoutPassed` in the cake factory (it is never set) and the text of its messages.
- `grep`'s line buffering, the shell's execution of commands and its `cd`.
- Spin locks, interrupts and the context switch below `sched`; `sleep` and `wakeup` are modelled down to the hand-off of the process table lock.
- `sock.c`, drivers, boot code, system-call argument checking, user commands and the tutorial programs: they would add easy members or need hardware.
