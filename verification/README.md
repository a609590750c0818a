# xv6, modelled and proved in Dafny

This project models the parts of xv6 (x86, with the added lottery and stride schedulers and
clone-style threads) whose correctness is not visible in any single function: the crash-safe log over
the buffer cache, the file contents and block ownership of the file system, the two memory allocators,
page tables, process states and scheduling, sleep and wakeup, pipes, the shell's parser and grep's
matcher. Code that changes things in place is a class whose methods have the source's loops and
branches; each is proved against values, and the properties are proved of those values for every input,
every run and every interleaving of any number of processes. `dafny verify dfyconfig.toml` checks
everything.

## How the modules fit together

| modules | what they are about |
|---|---|
| `Recovery` | the on-disk log as a crash machine: any crash during commit, then any number of crashes during recovery |
| `BufferCache`, `Log` | bio.c and log.c as classes; every disk write they make is a step of the crash machine |
| `Transactions` | begin_op, log_write, end_op by any number of processes, interleaved at the granularity of log.lock |
| `Bits`, `Inodes`, `Ownership`, `FileBlocks`, `FileBytes`, `Truncation`, `Space`, `Steps`, `FileSystem`, `FileWrite`, `DiskLayout` | fs.c and file.c: free map, inodes, bmap, readi, writei, itrunc, filewrite; when the disk is full; the order of bread and log_write; the bytes on the disk |
| `Durability` | the two together: a write runs step by step on the cache and the log, and is all or nothing across crashes |
| `FreeList`, `Umalloc` | the K&R allocator |
| `PageTables`, `VmSteps`, `PageAccess`, `FrameNeeds`, `Vm` | kalloc.c and vm.c; what the hardware then allows, and how many frames it takes |
| `ProcTable`, `Wakeup`, `SleepLock`, `Stride`, `Lottery` | proc.c and sleeplock.c |
| `Pipe`, `TokenRing` | pipe.c; prog3.c with the lock of thread_lib.h |
| `ShellLexer`, `ShellGrammar`, `ShellParse`, `ShellMeaning`, `Shell`, `ShellLaws`, `Grep` | sh.c's parser, and what runcmd does with its commands; grep.c's matcher |
| `Params`, `Wrappers`, `Blocks`, `Counting`, `Sequences`, `Exclusion`, `Processes` | what several of these share |

`Pipe` and `Transactions` treat a failed test and the call of sleep that follows it as one step. That is
what `Wakeup.NoLostWakeup` allows: from the test on, until it is woken, a process misses no wakeup, as long
as wakers hold the lock that the test was made under, which those of pipe.c and log.c do.

## Where the code and its promises differ

Each of these is proved, with the exact condition under which the promise holds and an input or a run for
which it fails.

- mkfs makes the log LOGSIZE blocks long (mkfs.c:25), header included, and log_write compares with
  `log.size - 1`. Some run of operations that stay within their reservation panics in log_write exactly
  when log.size <= LOGSIZE (`Transactions.PanicIff`).
- log_write tests the size before it takes log.lock (log.c:218-223), so two processes can pass the test
  for the last place. Some run then fills the log beyond its area exactly when 2 <= log.size <= LOGSIZE
  (`Transactions.OverrunIff`).
- bget finds a buffer exactly while fewer than NBUF buffers are pinned or in use (`Log.VictimIff`). With
  LOGSIZE = NBUF = 30, a log with room for LOGSIZE blocks can pin them all, and commit's first bread of a
  log block panics (`Log.Journal.LogFillsCache`); with mkfs's log the same happens once a reader holds the
  one buffer that is left (`Log.Journal.ReaderFillsCache`).
- The reservation counts calls. In a log with room, operations that log up to k distinct blocks, with any
  number of calls, can panic exactly when k >= MAXOPBLOCKS, on a block that is in the log already
  (`Transactions.BlocksPanicIff`, `Transactions.AbsorbedWriteMayPanic`). A chunk of filewrite makes more
  than MAXOPBLOCKS calls, but for at most 7 distinct blocks on a disk with one free map block
  (`FileWrite.File.WriteOp`, `FileWrite.ChunksNeverPanic`).
- malloc's unit count wraps around for the largest requests: the block has room for the request exactly
  when nbytes <= 2^32 - 8 (`Umalloc.EnoughUnits`), and sbrk is asked for the units meant exactly below
  2^28 units (`Umalloc.AskedAsMeant`, `Umalloc.Allocator.Malloc`).
- A thread that wait has reaped keeps its parent, so its parent can go to sleep in wait with nobody left
  to wait for. Some run does so exactly when there are threads (`ProcTable.WaitsForNobodyIff`). It also keeps
  its pid and its killed mark: a kill can hit the unused entry by the old pid, and the next process in the
  entry can start out killed, again exactly when there are threads (`ProcTable.KeepsPidIff`,
  `ProcTable.InheritsMarkIff`).
- A reset in the stride scheduler advances the process remembered from an earlier round; the table is
  balanced afterwards exactly when no runnable process has a smaller stride (`Stride.ResetBalancedIff`).
  Two processes with 3 and 4 tickets get there from fork (`Stride.ThreeAndFourTickets`).
- fork resets the tickets of everybody who is neither runnable nor running: a process that sleeps through
  somebody's fork has one ticket afterwards (`Stride.SleptThroughFork`).
- A killed writer that finds the pipe full returns without waking readers; exactly then a sleeping
  reader is left behind (`Pipe.KilledWriterIff`, `Pipe.KilledWriterStrandsReader`).
- In prog3 the test of `output` is made without the lock: n threads can make k passes exactly when
  k <= passnum + n - 1, so more than asked for exactly when n >= 2 (`TokenRing.ReachIff`,
  `TokenRing.OvershootIff`).
- In the shell nothing but &, ; or ) may follow an &, so `a & b` is a syntax error
  (`ShellLaws.NothingFollowsAmp`), and >> opens files exactly as > does, overwriting from the start
  (`ShellLaws.AppendOverwrites`). Of several redirections of a descriptor the first in the line counts,
  though all the files are opened, from right to left (`ShellMeaning.RunWrapped`).

## Model

| member | source | states |
|---|---|---|
| `Recovery.HeaderRoundTrip` | log.c:84-113 | write_head then read_head gives back exactly the list of logged blocks |
| `Recovery.InstallKeepsPromise` | log.c:68-82 | part-way through install_trans the contents recovery would deliver are those promised before the first install |
| `Recovery.InstallDelivers` | log.c:68-82 | after the last install every home block holds what the header and the log copies promised |
| `Recovery.RecoveryDelivers` | log.c:115-122 | recovery run to the end leaves an empty header and every home block as promised |
| `Recovery.RecoveryKeepsPromise` | log.c:115-122 | a crash after any write of recovery leaves a readable log that promises the same contents |
| `Recovery.LogWritesKeepOld` | log.c:177-190 | blocks written to the log before the header promise nothing: the old contents still stand |
| `Recovery.NamedCopiesArePromised` | log.c:98-113 | a header naming blocks above their log copies promises those copies at those blocks and nothing else |
| `Recovery.HeaderWriteCommits` | log.c:98-113 | the single header write switches all logged blocks to their new contents |
| `Recovery.CommitTraceIsAtomic` | log.c:192-197 | after each write up to the header write the disk promises all old blocks, after it all new ones |
| `Recovery.HomeWaitsForHeader` | log.c:192-202 | no home block changes before the header naming the transaction is on disk |
| `Recovery.WholeCommitIsAtomic` | log.c:192-202 | after each write of the whole of commit, installs and header erasure included, the promise is all old or all new |
| `Recovery.CrashesKeepPromise` | log.c:115-122 | any number of recoveries, each cut short anywhere, leave a disk that recovery can read, with the same promise |
| `Recovery.CrashAtomicity` | log.c:69-202 | a crash after any write of commit, any number of crashes inside recovery, then one full recovery: home blocks are all old or all new, decided by the header write |
| `BufferCache.UnlinkKeepsRing` | bio.c:132-133 | taking a buffer out leaves a circular doubly linked list of the others in the same order |
| `BufferCache.PushKeepsRing` | bio.c:50-54 | linking a buffer behind the head leaves a circular doubly linked list with it in front |
| `BufferCache.MoveKeepsRing` | bio.c:132-137 | the six assignments of brelse move one entry to the front of the ring and change nothing else |
| `BufferCache.HitKeepsCoherence` | bio.c:69-75 | sharing a cached buffer keeps every buffer in agreement with the logical disk and one buffer per block |
| `BufferCache.RecycleKeepsCoherence` | bio.c:81-89 | taking over a clean unreferenced buffer loses no contents and keeps one buffer per block |
| `BufferCache.HeldBufferMaySync` | memide.c:38-60 | reading or writing a held buffer through keeps cache, disk and logical disk in agreement |
| `BufferCache.HeldBufferMayChange` | bio.c:108-116 | the holder may change a buffer; marked dirty, its contents are the logical contents of the block |
| `BufferCache.ReleaseKeepsOrder` | bio.c:128-138 | the list stays in the order of last release, most recent first |
| `BufferCache.OldestIsFirst` | bio.c:78-91 | the first recyclable buffer from the back is the one released longest ago |
| `BufferCache.NotCached` | bio.c:68-76 | when the scan finds nothing, no buffer anywhere holds the block |
| `BufferCache.BCache.constructor` | bio.c:38-56 | binit links all buffers into a ring; all are clean, unreferenced and agree with the disk |
| `BufferCache.BCache.FindCached` | bio.c:68-76 | finds the block's one buffer exactly when it has one |
| `BufferCache.BCache.FindVictim` | bio.c:78-91 | returns the recyclable buffer released longest ago; none exactly when no buffer is recyclable |
| `BufferCache.BCache.Bget` | bio.c:61-93 | whole new state on a hit and on a miss; the panic exactly when the block is not cached and nothing is recyclable; refcnt is the number of calls not yet matched by brelse, so a buffer with a user, or pinned, is never taken and keeps its block |
| `BufferCache.BCache.Iderw` | memide.c:38-60 | a dirty buffer becomes one disk write, otherwise the buffer is filled from disk |
| `BufferCache.BCache.Bread` | bio.c:95-106 | the buffer returned holds the block's contents on the flat logical disk |
| `BufferCache.BCache.Bwrite` | bio.c:108-116 | exactly one disk write, of the buffer's contents at its block |
| `BufferCache.BCache.Pin` | log.c:231 | setting B_DIRTY makes the contents the block's logical contents without any disk write |
| `BufferCache.BCache.Brelse` | bio.c:118-141 | one user and one reference less; the last one moves the buffer to the front with the newest release time |
| `Log.VictimExists` | bio.c:78-91 | with fewer pinned blocks and held buffers than NBUF some buffer can be recycled |
| `Log.VictimIff` | bio.c:78-91 | a victim exists exactly while fewer than NBUF buffers are pinned or in use |
| `Log.PinsFill` | bio.c:78-91 | when pinned blocks and buffers in use fill the cache, no other block is cached and there is no victim |
| `Log.MissKeepsPins` | bio.c:78-91 | a cache miss leaves the set of pinned blocks as it was |
| `Log.PinnedIsPatch` | log.c:204-233 | the logical disk is the disk with the pinned blocks' contents written over it |
| `Log.CommitReachesView` | log.c:192-202 | the last disk of a commit has the logical disk in its home blocks and an empty header |
| `Log.Journal.CopyBlock` | log.c:75-80 | one disk write: the logical contents of one block at another; the target is no longer pinned and buffers held by others are as they were |
| `Log.Journal.WriteLog` | log.c:176-190 | the disk passes through the states in which one more log slot holds the copy of its block |
| `Log.Journal.InstallTrans` | log.c:68-82 | the disk passes through the states in which one more home block holds its log copy |
| `Log.Journal.WriteHead` | log.c:98-113 | one disk write, the header block encoding lh |
| `Log.Journal.EncodeHeader` | log.c:107-110 | the loop stores count and block numbers as PutHeader defines |
| `Log.Journal.ReadHead` | log.c:84-96 | lh becomes the list of blocks that the header on disk names |
| `Log.DecodeHeader` | log.c:91-94 | the loop reads back the list that a header block stands for |
| `Log.Journal.ApplyLog` | log.c:115-122 | the disk writes are exactly those of the recovery trace; afterwards nothing is pinned and disk and view agree |
| `Log.Journal.RecoverFromLog` | log.c:115-122 | recovery on a fresh cache leaves on disk what the disk promised, through the states of the recovery trace |
| `Log.Journal.CommitRecord` | log.c:196-197 | write_log and write_head make exactly the writes of the commit trace, ending in the committed disk |
| `Log.Journal.Commit` | log.c:192-202 | while others hold buffers of other blocks: every disk state on the way is one of the crash-safe commit trace, at the end the home blocks on disk are the logical disk, and the held buffers are as they were |
| `Log.Journal.LogFillsCache` | log.c:192-202 | after LOGSIZE writes of distinct blocks in a log with room for them, the first bread of commit finds no buffer |
| `Log.Journal.ReaderFillsCache` | log.c:192-202 | and after LOGSIZE - 1 of them, once a reader holds another block |
| `Log.Journal.Read` | bio.c:95-106 | whatever other buffers the caller holds, bread and brelse read a block as the flat logical disk has it, writing nothing |
| `Log.Journal.Update` | log.c:204-233 | bread, modify, log_write, brelse change the logical disk at one block and the disk not at all, whatever other buffers the caller holds; fails exactly under log_write's panics |
| `Log.Journal.LogWrite` | log.c:213-233 | panics exactly on a full log or outside an operation; otherwise lh gains the block unless it has it, and the block is pinned with the new contents |
| `Log.Absorb` | log.c:224-230 | a block takes a new entry only when it has none |
| `Transactions.ReachableKeeps` | log.c:124-174 | in every interleaving: outstanding counts open operations, committing excludes them, logged blocks and unspent reservations fit LOGSIZE |
| `Transactions.CommitExcludesOps` | log.c:145-174 | while a commit runs no operation is open, so end_op's panic is unreachable; log use plus reservations never exceed LOGSIZE |
| `Transactions.SleeperHasWaker` | log.c:129-140 | a process asleep in begin_op always has a commit or an open operation that will wake it |
| `Transactions.PanicMeansFull` | log.c:218-219 | in a log with room, log_write panics exactly when LOGSIZE blocks are logged, and then the block was in the log already and the operation was allowed MAXOPBLOCKS distinct blocks |
| `Transactions.NoPanicWithRoom` | log.c:213-233 | with log.size > LOGSIZE no run panics whose operations make MAXOPBLOCKS calls at most, or log fewer than MAXOPBLOCKS distinct blocks with any number of calls |
| `Transactions.PanicIff` | log.c:218-219 | some run of operations within their reservation panics exactly when log.size <= LOGSIZE |
| `Transactions.AbsorbedWriteMayPanic` | log.c:218-230 | however large the log, with MAXOPBLOCKS or more distinct blocks per operation a run exists that panics on a block the operation and the log have already |
| `Transactions.BlocksPanicIff` | log.c:218-230 | with log.size > LOGSIZE and k distinct blocks per operation, some run panics exactly when k >= MAXOPBLOCKS |
| `Transactions.OverrunIff` | log.c:218-230 | some run puts more blocks into the log than its area holds exactly when 2 <= log.size <= LOGSIZE |
| `Bits.BitAtStored` | fs.c:66-69 | setting or clearing one bit of the free map changes that bit and no other |
| `Blocks.WordStored` | fs.c:390-393 | a word stored in a block reads back and leaves every other word as it was |
| `Blocks.WordIsLittleEndian` | log.c:89-93 | reading and storing words through a uint pointer is little-endian: a word is the value of its four bytes, least significant first |
| `Blocks.BytePlaces` | log.c:105-109 | a value below 256 goes into the first byte of a word, a multiple of 256 leaves it zero, and so on for the other bytes |
| `DiskLayout.HeaderBytes` | log.c:34-37 | the log header on disk, byte by byte: the count, then the block numbers |
| `DiskLayout.InodeBytes` | fs.h:29-36 | an inode on disk, byte by byte: type, major, minor, nlink, size, thirteen block numbers |
| `DiskLayout.MapBits` | fs.c:65-67 | bit i of a free map block is the bit of value 2^(i % 8) in byte i / 8 |
| `DiskLayout.Consecutive` | fs.h:38-48 | inodes lie one after the other from inodestart on, and so do the bits of the free map from bmapstart on |
| `DiskLayout.FileBytesPlace` | fs.c:370-400 | byte k of a file lies at offset k % 512 of the block that the inode, or the indirect block's bytes, name for it |
| `Inodes.InodeStored` | fs.c:216-236 | iupdate then ilock gives the inode back and leaves the other inodes of the block alone |
| `Ownership.ReferencedOnce` | fs.c:362-400 | no two places refer to the same block, and a block referred to is a marked data block |
| `Ownership.GainKeeps` | fs.c:379-393 | giving an unowned block to an empty slot keeps the ownership invariant |
| `Ownership.RewriteKeeps` | fs.c:481-511 | contents may change wherever no reference does |
| `Ownership.LoseKeeps` | fs.c:402-435 | an inode may give up blocks: their slots become empty and their marks may go |
| `Ownership.RelockKeeps` | fs.c:285-313 | when the inode in memory equals its copy on disk, unlocking it and locking another keeps the invariant |
| `Ownership.FreshDisk` | mkfs.c:237-251 | a file system whose inodes have no blocks and whose map marks the blocks before the data area satisfies the invariant |
| `FileBlocks.MarkStored` | fs.c:66-95 | a mark set or cleared in the map affects that block's mark only |
| `FileBlocks.AllocationEffect` | fs.c:55-78 | balloc marks and zeroes one block and touches no inode and no other data block |
| `FileBlocks.FreshIsUnowned` | fs.c:55-78 | an unmarked block is a data block that nothing refers to |
| `FileBlocks.LinkKeeps` | fs.c:378-388 | putting a fresh block into a direct slot, or as indirect block, keeps ownership and touches no other inode |
| `FileBlocks.LinkKeepsBlocks` | fs.c:378-388 | and changes no file contents: the new block reads as zeros like the hole it replaces |
| `FileBlocks.EnterKeeps` | fs.c:389-394 | entering a fresh block in the indirect block keeps ownership and touches no other inode |
| `FileBlocks.EnterKeepsBlocks` | fs.c:389-394 | and changes no file contents |
| `FileBlocks.StoreSetsBlock` | fs.c:499-503 | a store changes the block of the file it is aimed at and no other |
| `FileBlocks.UpdateKeeps` | fs.c:216-236 | iupdate makes the inode on disk equal to the one in memory, keeps ownership and touches no other inode |
| `FileBytes.StoreSetsBytes` | fs.c:500-502 | storing a piece in one block changes exactly its bytes of the file |
| `FileBytes.OneMoreBlock` | fs.c:498-500 | each round of the loop moves at least one byte, stays within a block, ends at a block boundary or the end, and handles one more block |
| `FileBytes.PatchProgresses` | fs.c:498-504 | one round of writei: exactly the next piece is written, only touched blocks are added, nothing else changes |
| `FileBytes.WriteFinished` | fs.c:506-509 | after the loop and the size test the file is the overlay of the old contents, without holes, and the inode on disk equals the one in memory although iupdate runs only on growth |
| `FileBytes.FirstBlockPresent` | fs.c:498-500 | a write into the middle of a block finds that block allocated |
| `FileBytes.OtherFilesSame` | fs.c:478-511 | an operation that leaves what other inodes own alone leaves the contents of every other file as they were |
| `FileSystem.Files.Ilock` | fs.c:285-313 | the inode in memory is the one on disk, and the invariant and the log accounting hold for it |
| `FileSystem.Files.Balloc` | fs.c:55-78 | hands out the first unmarked block, marked and zeroed; the panic exactly on a full map |
| `FileSystem.Files.MapDirect` | fs.c:378-382 | a direct block is looked up or allocated; contents, ownership and log accounting |
| `FileSystem.Files.EnsureIndirect` | fs.c:386-388 | the indirect block is looked up or allocated; file contents unchanged |
| `FileSystem.Files.EnsureEntry` | fs.c:389-396 | an entry of the indirect block is looked up or allocated; file contents unchanged |
| `FileSystem.Files.Bmap` | fs.c:370-400 | the block's address, freshly allocated and zero when it was missing; no file's contents change; no effect when it exists; panics exactly when fewer blocks are free than the block and its indirect block lack |
| `FileSystem.Files.Readi` | fs.c:449-476 | -1 exactly for an offset beyond the end or one that wraps; otherwise the slice of the flat contents, across the direct and indirect blocks; nothing changes |
| `FileSystem.Files.Writei` | fs.c:478-511 | -1 exactly for an offset beyond the end or a file too large; otherwise the overlay of the flat contents, other files untouched, inode on disk equal to the one in memory, and bounds on the blocks logged; panics exactly when fewer blocks are free than the bytes' blocks, the indirect block counted, lack; the inode is logged last |
| `FileSystem.Files.Iupdate` | fs.c:216-236 | the inode's block is rewritten with the inode in memory and logged |
| `FileSystem.Files.Bfree` | fs.c:80-95 | clears the mark exactly when it is set; false is the panic |
| `FileSystem.Files.FreeSlot` | fs.c:415-418 | the block whose turn it is is still marked, so bfree's panic is unreachable |
| `FileSystem.Files.Itrunc` | fs.c:402-435 | frees exactly the blocks the inode owned, empties it in memory and on disk, and touches no other inode |
| `Truncation.NextFreed` | fs.c:414-431 | in itrunc's order each block is marked when its turn comes, and freeing it frees only it |
| `Truncation.TruncationEmpties` | fs.c:414-434 | all marks cleared and addresses zeroed: the ownership invariant holds without the inode's blocks |
| `FileWrite.ChunkFits` | file.c:126-133 | data, free map, indirect and inode blocks of a chunk at any alignment are at most MAXOPBLOCKS |
| `FileWrite.ChunkIsLargest` | file.c:126-133 | and no larger number of whole blocks fits at every offset |
| `FileWrite.ChunksNeverPanic` | file.c:126-145 | in a log with room for LOGSIZE blocks no run of operations that log as many distinct blocks as a chunk panics in log_write |
| `FileWrite.OverlayTwice` | file.c:135-152 | two writes that meet are one write |
| `FileWrite.WroteTwice` | file.c:135-152 | two writei calls that meet have the effect of one, on the file, its surroundings and the inode on disk |
| `FileWrite.File.WriteOp` | file.c:140-145 | one transaction: writei's effect, at most MAXOPBLOCKS distinct blocks logged, 7 on a disk with one free map block, and every block changed is among them; every log_write finds fewer than MAXOPBLOCKS blocks in the log; panics exactly as writei does |
| `FileWrite.File.Filewrite` | file.c:117-156 | n exactly when the write fits the file, and then one flat write of n bytes; otherwise -1 with whole chunks written up to the maximal size; every transaction logs at most MAXOPBLOCKS blocks; panics exactly when fewer blocks are free than the blocks of all the chunks it tries lack |
| `Durability.HomeIsFileSystem` | log.c:192-202 | disks that agree outside the log hold the same consistent file system with the same file contents |
| `Durability.InstalledHome` | log.c:68-82 | installing the logged blocks of an operation over the old file system makes the new one, since every changed block is logged |
| `Durability.WriteIsCrashAtomic` | file.c:140-145 | a crash after any disk write of the commit of a writei, and any number of crashes in recovery, leave a consistent file system in which the file has all of its old contents or all of the new ones |
| `Durability.WriteSparesOthers` | file.c:140-145 | and every other file has the inode and the contents it had |
| `Durability.GroupIsCrashAtomic` | log.c:124-202 | several operations in one commit: after any crash during it and any crashes in recovery, every file has its contents from before all of them, or every file has those after all of them |
| `Durability.RunSteps` | log.c:213-233 | the breads and log_writes of an operation in its own order, on the buffer cache and the log with absorption: every bread returns what the operation saw on the flat disk, every log_write finds room, the disk does not change, and the logical disk becomes the flat one |
| `Durability.WriteThroughLog` | file.c:135-152 | begin_op, writei step by step on the buffer cache and the log, end_op: the disk writes are those of the commit of the changed blocks, the file has the bytes, and whatever interrupts the commit leaves all of them or none and spares the other files; panics exactly when blocks are lacking |
| `Steps.RanLogWrite` | fs.c:498-504 | a log_write extends the record of an operation: the disk is what all its steps so far make of the one it began with |
| `Steps.RoomForAll` | log.c:218-219 | when all steps but the last store blocks of a small set, every log_write finds fewer blocks than the limit |
| `Space.OneFilled` | fs.c:378-380 | a block that goes from the free map into an empty slot leaves free blocks and used slots the same in sum |
| `Space.FedHasEnough` | fs.c:370-400 | when blocks lo to hi-1 of a file have all been found or allocated, there were free blocks enough for those missing |
| `Space.StarvedLacks` | fs.c:55-78 | when no free block is left before they all have one, there were fewer free blocks than missing ones |
| `FreeList.RingReaches` | umalloc.c:74 | following the pointers from base comes past every free block |
| `FreeList.InsertRing` | umalloc.c:37-42 | linking a block into its gap keeps one ring sorted by address |
| `FreeList.RemoveRing` | umalloc.c:35-40 | dropping a block from between its neighbours keeps one ring sorted by address |
| `FreeList.FreedRing` | umalloc.c:33-42 | in all four cases of coalescing the links of free form one sorted ring of the remaining free blocks |
| `FreeList.FreedArena` | umalloc.c:33-42 | after free no blocks overlap and no two free blocks touch |
| `FreeList.FreedUnits` | umalloc.c:33-42 | free keeps the total number of units |
| `FreeList.TakenWhole` | umalloc.c:76-77 | handing out a whole block keeps the heap in order |
| `FreeList.TakenTail` | umalloc.c:78-82 | splitting off the tail makes a new block that overlaps none and keeps the heap in order |
| `FreeList.SplitUnits` | umalloc.c:78-82 | splitting keeps the total number of units |
| `Umalloc.EnoughUnits` | umalloc.c:69 | the block has room for the request exactly when rounding up does not wrap around |
| `Umalloc.LeastUnits` | umalloc.c:69 | and then the count is the least one with room; a request that wraps gets a bare header |
| `Umalloc.CoreAsked` | umalloc.c:52-53 | sbrk is asked for 4096 units at least, and for more only when that many are needed |
| `Umalloc.AskedAsMeant` | umalloc.c:54 | sbrk receives the byte count meant exactly below 2^28 units |
| `Umalloc.FreedKeepsLive` | umalloc.c:33-42 | free gives up the block it is given, no other block in use changes, and some free block is at least as large |
| `Umalloc.Allocator.FindGap` | umalloc.c:30-32 | the search ends, at the free block directly below the one being freed |
| `Umalloc.Allocator.Free` | umalloc.c:24-44 | the block is no longer in use, all others are as before, and the list is again a sorted, coalesced ring |
| `Umalloc.Allocator.Relink` | umalloc.c:33-42 | the assignments of free produce the joined blocks and links |
| `Umalloc.Allocator.Morecore` | umalloc.c:46-61 | asks for at least 4096 units; fails exactly when sbrk refuses; the units obtained are free afterwards and blocks in use are as before |
| `Umalloc.Allocator.Malloc` | umalloc.c:63-90 | ends after at most one morecore; returns a block of the computed size, not in use before and overlapping none in use; null exactly when nothing fits and sbrk refuses; free and used units equal those obtained; it is the first block that fits on the way from freep, or its tail, and the next search starts before it; after sbrk it is the end of the heap |
| `PageTables.EntryParts` | mmu.h:111-113 | frame and flags packed into an entry come out again |
| `PageTables.SameSpace` | vm.c:35-55 | writing outside an address space's tables does not affect it |
| `PageTables.TableKeeps` | vm.c:44-53 | a new zeroed page table keeps every frame in one role |
| `PageTables.PteSet` | vm.c:69-73 | writing one entry changes the mapping of one page |
| `PageTables.PteKeeps` | vm.c:69-73 | mapping a frame not in use, or unmapping, keeps every frame in one role |
| `VmSteps.MapEntry` | vm.c:68-78 | one round of mappages: one page mapped, frames accounted for, other pages' contents kept |
| `VmSteps.UnmapEntry` | vm.c:269-276 | freeing one page: its frame leaves the space, its entry is cleared, all else is as before |
| `VmSteps.UnmappedSkip` | vm.c:266-268 | where there is no page table, skipping its 1024 pages misses no present page |
| `VmSteps.RolledBack` | vm.c:234-246 | pages added and then deallocated: the mapping is the original one, only page tables have been added |
| `VmSteps.CopiedOne` | vm.c:325-339 | one more page of the child has the parent's flags and contents in a frame of its own |
| `Vm.Kernel.Freerange` | kalloc.c:46-53 | exactly the whole frames in the range become free |
| `Vm.Kernel.Kalloc` | kalloc.c:82-95 | the most recently freed frame, owned by nobody; none exactly when the list is empty |
| `Vm.Kernel.Kfree` | kalloc.c:59-77 | the frame is filled with junk and first on the list; the range test holds |
| `Vm.Kernel.Walkpgdir` | vm.c:35-55 | the table of a page, made when missing and asked for; no mapping changes; its directory entry allows user access and writes |
| `PageAccess.EntryDecides` | vm.c:35-55 | the hardware grants what both the directory entry and the page table entry allow; in an address space made by walkpgdir the page table entry decides |
| `PageAccess.MappedAccess` | vm.c:57-80 | pages mapped with perm are accessible to user and writes as perm says, and no other page's access changes |
| `PageAccess.KmappedAccess` | vm.c:101-136 | the kernel half is accessible as its regions say and nothing else of it is |
| `PageAccess.CopiedAccess` | vm.c:313-345 | the child's pages are accessible as the parent's are |
| `Vm.Kernel.Mappages` | vm.c:57-80 | the pages asked for are mapped and no others, and the hardware allows what perm says; out of memory only with an empty free list; every frame accounted for |
| `Vm.Kernel.Deallocuvm` | vm.c:251-279 | with its jump over missing tables, unmaps and frees exactly the present pages from PGROUNDUP(newsz) up to oldsz |
| `Vm.Kernel.Allocuvm` | vm.c:219-249 | zeroed pages from oldsz to newsz that the user can read and write, or on failure at any step the original mapping with every user frame returned; succeeds exactly when the free frames suffice for the new pages and the page tables they lack |
| `Vm.Kernel.Rollback` | vm.c:237-246 | deallocuvm undoes what allocuvm has mapped so far |
| `Vm.Kernel.Freevm` | vm.c:281-298 | every frame the address space owned is free again, exactly once, and no other |
| `Vm.Kernel.Setupkvm` | vm.c:117-136 | a directory with the kernel's regions, accessible as kmap says, and no user page; no frame lost on failure; fails exactly when there are fewer free frames than one and the tables of all regions |
| `Vm.Kernel.Copyuvm` | vm.c:313-345 | equal contents, flags and access on frames disjoint from the parent's, parent untouched; no frame lost on failure; fails exactly when there are fewer free frames than for setupkvm, the pages and their tables |
| `FrameNeeds.EnoughFrames` | vm.c:219-249 | pages mapped one by one, each with a table when its table is missing: when all are mapped, there were frames enough |
| `FrameNeeds.TooFewFrames` | vm.c:232-247 | when the frames run out on the way, for a page or for its table, there were too few for all |
| `FrameNeeds.TooFewForKernel` | vm.c:127-134 | the same for the regions of kmap, which may share tables |
| `FrameNeeds.CopyNeedsMore` | vm.c:313-345 | the kernel half and the user half share no table, so what copyuvm needs is the sum |
| `ProcTable.Ptable.Wakeup1` | proc.c:754-762 | exactly the sleepers on the channel become runnable |
| `ProcTable.Ptable.Exit` | proc.c:356-373 | the whole table after exit: who wakes, every child's parent becomes init, and the zombie |
| `ProcTable.Ptable.Wait` | proc.c:384-425 | reaps the first zombie child when there is one, fails exactly without children or when killed, otherwise sleeps |
| `ProcTable.Ptable.Kill` | proc.c:776-794 | the first process with the pid is marked and, if asleep, made runnable |
| `ProcTable.ExitKeeps` | proc.c:356-373 | exit wakes every parent that is left with a zombie child |
| `ProcTable.StepKeeps` | proc.c:331-428 | every step of the table keeps: nobody sleeps in wait while it has a zombie child |
| `ProcTable.WaitMissesNone` | proc.c:331-428 | in every run a process asleep in wait has no zombie child |
| `ProcTable.BootKeeps` | proc.c:152-181 | the table userinit leaves satisfies the invariant of those runs |
| `ProcTable.WokenOnlyByItsChannel` | proc.c:754-794 | a sleeper is woken only by kill, by a wakeup of its own channel, or by an exit that wakes the parent or init on that channel |
| `ProcTable.ParentIsAlive` | proc.c:361-367 | in every run from boot, with threads too, whoever is some entry's parent is alive; the children of a process that exits are init's |
| `ProcTable.ZombieHasReaper` | proc.c:356-428 | in every run from boot every zombie has a parent that is alive and not asleep in wait, and whose next wait reaps |
| `ProcTable.MarkedIffHit` | proc.c:402-412 | as long as no thread is reaped, an entry is marked killed exactly if kill has hit it since it was last reaped, so a new process starts out unmarked |
| `ProcTable.InheritsMarkIff` | proc.c:393-401 | an unused entry can be marked without such a kill exactly when clone is called and the table has two entries |
| `ProcTable.ThreadIffCloned` | proc.c:103-145 | in every run from boot an entry is a thread's exactly if clone made its latest process |
| `ProcTable.PidsUnique` | proc.c:103-125 | in every run from boot no two entries in use have the same pid, so kill hits the process that is meant |
| `ProcTable.PidGone` | proc.c:402-412 | as long as no thread is reaped, no entry ever has the pid of a reaped process again |
| `ProcTable.KeepsPidIff` | proc.c:393-401 | an entry can keep the pid of a reaped thread exactly when clone is called and the table has two entries |
| `ProcTable.WaiterHasLiveChild` | proc.c:205-428 | in every run from boot without clone, a process asleep in wait has a child that has yet to exit |
| `ProcTable.WaitsForNobodyIff` | proc.c:283-428 | some run from boot leaves a process asleep in wait with every other entry unused exactly when clone is called and the table has two entries |
| `Wakeup.StepKeepsExclusive` | proc.c:713-771 | each step of any caller of sleep and wakeup keeps at most one holder of lk and of ptable.lock, also when they are the same lock |
| `Wakeup.StepKeeps` | proc.c:713-771 | each step keeps: a process between its failed test and its wakeup has missed no wakeup of its channel, and its condition is false or the wakeup it is owed is still to come |
| `Wakeup.NoLostWakeup` | proc.c:713-771 | in every run of any number of processes, channels and conditions in which wakers hold lk: no wakeup is missed from the test on, also between release(lk) and SLEEPING, and whenever lk is free the condition of every sleeper is false |
| `Wakeup.StrandIff` | proc.c:713-771 | some run leaves a process asleep with its condition true and everybody else gone exactly when wakers may call wakeup without lk and there are two processes |
| `SleepLock.StepKeepsExclusive` | sleeplock.c:22-42 | each step keeps at most one holder of each lock, and `locked` says whether there is one |
| `SleepLock.StepRefines` | sleeplock.c:22-42 | each step of acquiresleep and releasesleep is one or two steps that sleep and wakeup allow their callers |
| `SleepLock.ShownStrandsNone` | sleeplock.c:22-42 | so whoever sleeps or is about to has a holder or a pending wakeup ahead |
| `SleepLock.SleepLockSafety` | sleeplock.c:22-42 | in every run of any number of processes there is one holder at most and no sleeper while the lock is free |
| `SleepLock.NoDeadlock` | sleeplock.c:22-42 | in every run, unless all processes are outside, one that is neither outside nor asleep can go on |
| `Stride.Scheduler.Normalise` | proc.c:250-271 | fork's loop: strides and passes of runnable processes, tickets and counts of the others |
| `Stride.ShareDivides` | proc.c:257 | stride * tickets <= TOTAL_MAX_TICKETS < (stride + 1) * tickets |
| `Stride.ForkKeepsTickets` | proc.c:250-263 | who is runnable or running at a fork keeps its tickets and starts anew with its share |
| `Stride.SleptThroughFork` | proc.c:264-271 | anybody else has one ticket afterwards, whatever it had |
| `Stride.Scheduler.FindMin` | proc.c:573-589 | the first runnable process with the smallest pass below max, with its stride computed anew; the remembered one is kept when there is none |
| `Stride.Scheduler.Round` | proc.c:569-604 | a round advances exactly the process with the smallest pass; otherwise it resets and advances the remembered one, or runs nobody |
| `Stride.NormalIsFair` | proc.c:250-272 | after fork's normalisation the table is balanced |
| `Stride.RoundKeepsFair` | proc.c:569-604 | running the smallest pass keeps pass_i - stride_i <= pass_j for all pairs, pass = (count + 1) * stride, and the bound on pass |
| `Stride.StrideFairness` | proc.c:569-625 | in every run without a reset: pass_i - stride_i <= pass_j <= max + TOTAL_MAX_TICKETS and count_i * stride_i <= (count_j + 1) * stride_j; in tickets, with T = TOTAL_MAX_TICKETS: count_i * tickets_j * (T - tickets_i + 1) <= (count_j + 1) * tickets_i * T |
| `Stride.StrideShares` | proc.c:569-604 | from fork, in every run with r resets: count_i * stride_i <= (count_j + r + 1) * stride_j + r * stride_i; in tickets: count_i * tickets_j * (T - tickets_i + 1) <= ((count_j + r + 1) * tickets_i + r * tickets_j) * T |
| `Stride.ResetBalancedIff` | proc.c:594-603 | after a reset the table is balanced exactly when the remembered process has the smallest stride |
| `Stride.ThreeAndFourTickets` | proc.c:569-604 | two processes with 3 and 4 tickets, run from fork by rounds of the scheduler: after the first reset the table is not balanced |
| `Lottery.TotalTickets` | proc.c:504-507 | the sum over the runnable processes |
| `Lottery.FindWinner` | proc.c:517-527 | the first runnable process whose tickets, with those before it, reach the winner; none exactly when there is none |
| `Lottery.Draw` | proc.c:504-547 | someone is selected exactly when someone is runnable |
| `Lottery.SomeoneWins` | proc.c:510-527 | every winner from 0 to the total is somebody's |
| `Lottery.OnlyOneWins` | proc.c:517-527 | and nobody else's |
| `Lottery.LotteryShares` | proc.c:499-547 | a runnable process is selected by exactly as many winners as it has tickets, the first runnable one by one more |
| `Pipe.Buffer.CountersTell` | pipe.c:85-114 | the 32-bit counters tell a full and an empty pipe apart although they wrap around |
| `Pipe.Buffer.WriteSome` | pipe.c:83-97 | one hold of the lock in pipewrite: how many bytes go in, in order, and whether it finishes, fails or sleeps |
| `Pipe.Buffer.ReadSome` | pipe.c:105-120 | one hold of the lock in piperead: the next bytes in order of writing, as many as asked for and there |
| `Pipe.StepKeepsSleepers` | pipe.c:59-121 | each hold of the lock by a process not killed leaves sleepers with a reason to sleep |
| `Pipe.SleepersAreRight` | pipe.c:59-121 | in every run without kills a sleeping reader means an empty pipe with a write end open, a sleeping writer a full one with a read end open |
| `Pipe.KilledNeverSleep` | pipe.c:85-108 | in every run, with kills, no killed process sleeps on the pipe |
| `Pipe.WriteHold` | pipe.c:83-97 | a hold of the lock on the ring buffer is a step of these runs: same count, same outcome |
| `Pipe.ReadHold` | pipe.c:105-120 | likewise for piperead |
| `Pipe.CloseHold` | pipe.c:59-74 | and for pipeclose |
| `Pipe.KilledWriterIff` | pipe.c:85-89 | a killed writer leaves a reader asleep on a non-empty pipe exactly when it finds the pipe full and a reader sleeps |
| `Pipe.KilledWriterStrandsReader` | pipe.c:85-89 | for every write of more bytes than the pipe holds, a run in which this happens |
| `TokenRing.StepKeepsLock` | thread_lib.h:15-22 | the spin lock has one holder at most |
| `TokenRing.StepKeepsTurn` | prog3.c:69-77 | whose turn it is follows from the number of passes whenever the two are not being updated |
| `TokenRing.StepKeepsRotation` | prog3.c:69-76 | pass number k is made by thread k modulo their number |
| `TokenRing.StepKeepsBound` | prog3.c:64-71 | once the last pass is made only threads that tested before can add one each |
| `TokenRing.TokenRingSafety` | prog3.c:59-91 | in every interleaving of n threads: workpid == output mod n when the lock is free, strict rotation, output <= passnum + n - 1 |
| `TokenRing.ReachIff` | prog3.c:64-71 | n threads can make k passes exactly when k <= passnum + n - 1, for all n and passnum |
| `TokenRing.OvershootIff` | prog3.c:64-71 | they can make more passes than asked for exactly when n >= 2 |
| `ShellLexer.Gettoken` | sh.c:265-308 | the next token of the line with its span, and the cursor at the one after it |
| `ShellLexer.Peek` | sh.c:310-320 | whether the next token starts with one of the symbols; the tokens ahead are the same |
| `ShellLexer.LexSpans` | sh.c:295-299 | a word ends at white space, a symbol or the end of the line, where no word goes on |
| `ShellLexer.LexIsLine` | sh.c:265-306 | the tokens are the line without its white space, in order: single symbols, >> and words, each as long as it can be |
| `ShellParse.LineSound` | sh.c:344-359 | whatever parseline accepts has a parse tree that yields the tokens used up and stands for the command built |
| `ShellParse.LineComplete` | sh.c:344-359 | whatever has a parse tree is accepted, with its command and the rest of the line |
| `ShellParse.ExecSound` | sh.c:399-446 | the same for parseexec and parseblock, one way |
| `ShellParse.ExecComplete` | sh.c:399-446 | and the other way |
| `ShellParse.ParseIff` | sh.c:327-342 | the parser yields a command exactly when the whole line has a parse tree that stands for it |
| `ShellParse.FailIff` | sh.c:327-342 | it fails exactly when the line has no parse tree |
| `ShellLaws.NothingFollowsAmp` | sh.c:344-359 | a line in which anything but &, ; or ) follows an & is a syntax error |
| `ShellLaws.BackgroundThenMore` | sh.c:344-359 | `a & b` is one |
| `ShellLaws.AppendOverwrites` | sh.c:374-397 | a line parses to the same command when every >> in it is replaced by > |
| `Shell.Parser.Parseredirs` | sh.c:374-397 | the cursor loop collects the redirections the grammar has next, or panics when a file is missing |
| `Shell.Parser.Parseline` | sh.c:344-359 | the cursor version agrees with the parser on tokens and ends before the same token |
| `Shell.Parser.Parsepipe` | sh.c:361-372 | the cursor version agrees with the parser on tokens |
| `Shell.Parser.Parseblock` | sh.c:399-413 | the cursor version agrees with the parser on tokens |
| `Shell.Parser.Parseexec` | sh.c:415-446 | the cursor version agrees with the parser on tokens, panics included |
| `Shell.Nulterminate` | sh.c:448-493 | exactly the characters at the ends of the command's words become NUL |
| `Shell.LineWords` | sh.c:344-446 | every word of the command is a word token of the line |
| `Shell.WordsRead` | sh.c:448-493 | after the NULs are written each word still reads as its token did |
| `ShellMeaning.RunWrapped` | sh.c:84-92 | a command with redirections opens their files from the last to the first, and each descriptor ends up with the first file for it |
| `ShellMeaning.LineMeans` | sh.c:57-132 | runcmd on the command of a parse tree starts the programs of the line with the arguments, files, pipes and background that its characters say: < is mode 0 on descriptor 0, > and >> are mode 0x201 on descriptor 1 |
| `Shell.Parsecmd` | sh.c:327-342 | for every NUL-free line: a panic exactly when it has no parse tree, otherwise the command of a tree of the whole line, with every argument and file name reading as its token; running it does what the line asks for, and its redirections and arguments are those of the line, in order |
| `Grep.LeadsMatches` | grep.c:84-106 | the matcher's recursion finds only texts with a prefix in the language of the pattern |
| `Grep.MatchesLeads` | grep.c:84-106 | and finds all of them |
| `Grep.HereIff` | grep.c:84-106 | matching at the beginning by recursion is membership of a prefix in the pattern's language |
| `Grep.Matchhere` | grep.c:84-96 | ends, and decides whether the pattern matches at the beginning of the text |
| `Grep.Matchstar` | grep.c:98-106 | ends, and decides whether some number of repetitions can be followed by the rest of the pattern |
| `Grep.Match` | grep.c:72-82 | holds exactly when some part of the text, anchored by ^ and a final $, is in the language of the pattern |

## Left out

- Log.Journal.Commit: others hold a fixed set of buffers throughout; readers that come and go during a commit, and waiting for a buffer of a logged block, are not modelled.
- Log.Journal.Update: the block is not in a buffer that the caller holds, and there is a buffer for it; bget's panic without one is in BufferCache.BCache.Bget.
- Log.Journal.Read: as Log.Journal.Update.
- BufferCache.BCache.Brelse: a buffer whose contents were changed but not logged is not released.
- BufferCache.BCache.Bread: as BufferCache.BCache.Bget.
- BufferCache.BCache.Bget: the sleep lock is taken at once; waiting for a buffer that another process holds is modelled only in SleepLock.
- FileWrite.File.Filewrite: the inode is unlocked between chunks in the source; chunks of other writers in between are not modelled.
- FileSystem.Files.Ilock: the valid flag and the panic on an inode without a type are not modelled.
- Ownership.FreshDisk: covers a file system without files; the root directory and the programs that mkfs adds are not modelled.
- FileSystem.Files.Readi: assumes a file without holes, as writei produces; bmap's allocation during a read of a hole is not modelled.
- FileSystem.Files.Writei: device inodes (T_DEV) are not modelled, nor is the commit of a transaction cut off by balloc's panic.
- Durability.WriteThroughLog: bmap's buffer of the indirect block is released and read again around balloc, rather than held.
- Durability.WriteIsCrashAtomic: the committed transaction consists of this one operation; several operations in one commit are in Durability.GroupIsCrashAtomic.
- Umalloc.Allocator.Malloc: stops at the call of sbrk (outcome Astray) when the byte count wraps around; what the kernel then does is not modelled.
- Vm.Kernel.Kfree: as Vm.Kernel.Kalloc.
- Vm.Kernel.Kalloc: the free list is a sequence rather than links stored in the free frames.
- Vm.Kernel.Deallocuvm: oldsz is at most KERNBASE, as in all its callers.
- Vm.Kernel.Mappages: a remap, which panics in the source, is excluded by its precondition; user pages are mapped one at a time, as all its callers do.
- Vm.Kernel.Copyuvm: the parent's pages up to sz are present, as the source's panics demand.
- Lottery.Draw: tickets are not negative and their sum does not overflow an int; the table does not change between the two loops.
- Stride.StrideFairness: one processor, a fixed set of runnable processes and fixed tickets; no reset, runs with resets are in Stride.StrideShares.
- Wakeup.NoLostWakeup: a caller that makes a sleeper's condition true calls wakeup on its channel before it releases lk, a rule built into the steps; a caller that breaks it, as a killed pipewrite does, is in Pipe.
- SleepLock.SleepLockSafety: spin locks are atomic steps; the pid field of a sleep lock is not modelled.
- Pipe.SleepersAreRight: an end of a pipe is closed only when no call is using it, which descriptors guarantee without clone.
- TokenRing.TokenRingSafety: a thread that has left the loop, and sleep(1), are not modelled; the lock is sequentially consistent.
- Shell.Parsecmd: commands are values; the memory they are allocated in is not modelled.
- ShellMeaning.LineMeans: opens and pipes are taken to succeed; what the programs do and the waits between them are not modelled.
- Directories, path names, iget/iput reference counts, ialloc, links, the file table: not modelled; the model starts from a locked inode.
- copyout, loaduvm, inituvm, exec, trap frames, swtch, system call argument fetching: not modelled.
- clone's stack and shared files and the thread paths of exit: not modelled; clone's and wait's effects on the process table are in ProcTable.
- Devices, the console, interrupts, boot code, spinlock internals and the memory model: left out; the disk is the one of memide.c.
- grep's reading loop, rand.c, other user programs: left out; the lottery takes any random number.
