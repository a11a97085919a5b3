# Verification of the xv6 kernel and user programs

This project models the hardest parts of the xv6 kernel in `Random(G26)_Project1_xv6CustomizeSystemCalls/`
and three of its user programs, and proves what they promise. Paths below are relative to the repository.

- **Log and crash recovery** (`Blocks`, `Wal`, `Log`, `GroupCommit`, `CommitSteps`, `CommitCache`, `Transactions`).
  Every disk write is one step and a crash can fall between any two. `Log` has the code of log.c as loops over a mutable
  header and shows which writes it issues; `Wal` proves crash atomicity of those writes; `GroupCommit` is the concurrent
  machine of begin_op, log_write, end_op, commit, crash and recovery, refined to atomic transactions over whole runs.
  `CommitSteps` shows that its commit issues the writes of `Log`, `CommitCache` meets it with the buffer cache, and
  `Transactions` with what filewrite logs.
- **Files** (`FsState`, `FileIO`, `FileSpec`, `FileSystem`). Bitmap, inodes, direct and indirect blocks, as block
  contents. The invariant says that a bit is set exactly for metadata and for blocks named by exactly one pointer, and
  that no block below the size is missing. The methods are the loops of fs.c and file.c; files are byte sequences.
- **Virtual memory** (`PageTable`, `VmSpec`, `UserMem`, `TearDown`, `Vm`). Physical pages are free-list nodes, tables or
  data. A ghost role says what each is used for, so that uses are disjoint and no page is lost. The methods are those of
  kalloc.c and vm.c, proc_pagetable, growproc and sbrk. What a process sees is a byte per address, zero where no page has
  been allocated yet.
- **Processes** (`Monitor`, `SleepLock`, `ExitWait`). Interleaving machines whose steps are the lines between lock
  operations, over any number of processes, channels and locks; the theorems hold in every reachable state.
- **Buffer cache, disk driver, pipe** (`Bio`, `Virtio`, `Pipe`), **malloc** (`HeapSpec`, `Umalloc`), **shell parser**
  (`Shell`, `ShellGrammar`, `ShellParser`) and **grep** (`Grep`).

Panics, errors and lack of memory or blocks are results, not preconditions. What comes from outside is a parameter: how
much of a user buffer can be read or written, what sbrk returns, how much a read delivers, when the device takes and
completes requests, which process runs next.

Where a property turned out not to hold of the code, the code is modelled as it is, a lemma gives an input, and the exact
condition is proved:

- `initlog` calls `install_trans(1)`, not `recover_from_log`, with an empty header in memory. The crash theorem is about
  `recover_from_log`; see `Log.BootCanExposeTornCommit`, `Log.BootIsAtomicIff` and `Log.BootIsRecoveryIffLogEmpty`.
- NBUF equals LOGBLOCKS, so a commit of a full header finds no buffer for the log block:
  `CommitCache.FullCommitReachable` and `CommitCache.WriteLogPanics`.
- A write whose copy fails in the middle of a block has changed the block in memory beyond the bytes it reports:
  `FileSpec.TornWrite`, `FileSpec.TornIff` and `FileSystem.FileSystem.Writei`.
- malloc passes its byte count to sbrk as an int: `Umalloc.HugeRequests` and `Umalloc.Allocator.Malloc`.
- grep stops reading at a line that fills its buffer: `Grep.LongLineIsLost`, `Grep.NothingLostIff` and
  `Grep.CompleteIff`.

`dafny verify dfyconfig.toml` checks all of it.

## Model

| member | source | states |
|---|---|---|
| Wal.HeaderRoundTrip | Random(G26)_Project1_xv6CustomizeSystemCalls/kernel/log.c:50-71 | a header block written by write_head is read back by read_head as the same list of block numbers |
| Wal.CommitPrefixLogical | Random(G26)_Project1_xv6CustomizeSystemCalls/kernel/log.c:156-181 | after any number of commit's disk writes, what recovery would produce is the old disk up to the header write and the new disk after it |
| Wal.CommitPrefixAfterHeader | Random(G26)_Project1_xv6CustomizeSystemCalls/kernel/log.c:171-181 | once the header is on disk, every later point of commit already stands for the whole transaction |
| Wal.RecoverFinishes | Random(G26)_Project1_xv6CustomizeSystemCalls/kernel/log.c:75-102 | a finished recovery leaves an empty header and every home block at the value the log promised |
| Wal.CrashingRecoveriesKeepLogical | Random(G26)_Project1_xv6CustomizeSystemCalls/kernel/log.c:75-102 | any number of recoveries that crash part way change nothing of what a finished recovery will produce |
| Wal.CrashAtomicity | Random(G26)_Project1_xv6CustomizeSystemCalls/kernel/log.c:50-181 | crash at any write of commit, crash again in any number of recoveries, then recover: every home block is old, or every one is new; blocks outside the header are untouched and the header is clear |
| Log.Log.constructor | Random(G26)_Project1_xv6CustomizeSystemCalls/kernel/log.c:37-46 | an empty log over a disk, with nothing pinned |
| Log.Log.ReadHead | Random(G26)_Project1_xv6CustomizeSystemCalls/kernel/log.c:50-59 | the loop loads exactly the header's block numbers |
| Log.Log.WriteHead | Random(G26)_Project1_xv6CustomizeSystemCalls/kernel/log.c:61-71 | one disk write, of the header that reads back as the list in memory |
| Log.Log.InstallTrans | Random(G26)_Project1_xv6CustomizeSystemCalls/kernel/log.c:75-93 | the loop issues one write per header entry, of the log block to its home, and, when not recovering, one bunpin per entry, in order |
| Log.Log.WriteLog | Random(G26)_Project1_xv6CustomizeSystemCalls/kernel/log.c:156-167 | the loop issues one write per header entry, of the cached block to its log slot |
| Log.Log.Commit | Random(G26)_Project1_xv6CustomizeSystemCalls/kernel/log.c:171-181 | the writes issued are, in order, the list that the crash theorem cuts anywhere; one bunpin per entry; the header in memory ends empty |
| Log.Log.RecoverFromLog | Random(G26)_Project1_xv6CustomizeSystemCalls/kernel/log.c:97-102 | the writes issued are the list that the crash theorem cuts anywhere |
| Log.Log.InitLog | Random(G26)_Project1_xv6CustomizeSystemCalls/kernel/log.c:37-46 | boot as wired calls install_trans with an empty header in memory: the writes it issues are those of the header as it stands in memory, that is none |
| Log.Log.LogWrite | Random(G26)_Project1_xv6CustomizeSystemCalls/kernel/log.c:185-210 | panics exactly when the header is full or no operation is open; otherwise the block is listed once (absorption), and bpin is called exactly when it was not listed yet |
| Log.BootIsRecoveryIffLogEmpty | Random(G26)_Project1_xv6CustomizeSystemCalls/kernel/log.c:37-46 | the whole disk after boot as wired, header included, is the disk after recovery if and only if the on-disk header counts no block |
| Log.BootIsAtomicIff | Random(G26)_Project1_xv6CustomizeSystemCalls/kernel/log.c:37-46 | after a crash at any write of a commit and boot as wired, with j blocks installed before the crash: the home blocks are as before the commit if and only if the contents of the first j were there already, and as after it if and only if those of the others were |
| Log.BootCanExposeTornCommit | Random(G26)_Project1_xv6CustomizeSystemCalls/kernel/log.c:37-46 | a concrete commit and crash after which the disk that boot as wired leaves is neither the old one nor the new one |
| CommitSteps.EndBegins | Random(G26)_Project1_xv6CustomizeSystemCalls/kernel/log.c:124-152 | the end_op that closes the last operation starts a commit of the header with the memory contents of that moment |
| CommitSteps.StepWrites | Random(G26)_Project1_xv6CustomizeSystemCalls/kernel/log.c:156-181 | what a step of the commit does to the disk is the one write that it issues |
| CommitSteps.StepFollows | Random(G26)_Project1_xv6CustomizeSystemCalls/kernel/log.c:156-181 | each step of the commit in the concurrent machine issues the next write of the list, and the state goes on following it |
| CommitSteps.OthersWait | Random(G26)_Project1_xv6CustomizeSystemCalls/kernel/log.c:106-152 | meanwhile the other processes can only fall asleep in begin_op, and that changes nothing of the commit |
| CommitSteps.CommitTrace | Random(G26)_Project1_xv6CustomizeSystemCalls/kernel/log.c:124-181 | in any run after that end_op, however the other processes interleave, the writes issued so far are exactly a prefix of the list that the crash theorem cuts |
| GroupCommit.NoPanic | Random(G26)_Project1_xv6CustomizeSystemCalls/kernel/log.c:106-210 | in every reachable state no panic of log.c can happen: not in log_write and not in end_op, for operations that have appended fewer than MAXOPBLOCKS entries |
| GroupCommit.RunNeverPanics | Random(G26)_Project1_xv6CustomizeSystemCalls/kernel/log.c:106-210 | and so at no moment of any run |
| CommitCache.FullHeaderTakesAll | Random(G26)_Project1_xv6CustomizeSystemCalls/kernel/param.h:9-11 | distinct pinned blocks are at most NBUF, and when the header lists NBUF of them bget finds no buffer for any other block |
| CommitCache.WriteLogPanics | Random(G26)_Project1_xv6CustomizeSystemCalls/kernel/log.c:156-167 | in write_log, the bread of the log block panics if and only if the block is not cached and the header's blocks, with the buffers in use for other blocks, number NBUF; so with no other buffer in use and the block not cached, exactly when the header is full; always when the header lists NBUF blocks, because NBUF equals LOGBLOCKS |
| CommitCache.FullCommitReachable | Random(G26)_Project1_xv6CustomizeSystemCalls/kernel/log.c:106-167 | three operations of ten blocks each reach such a commit from an empty log |
| GroupCommit.StepRefines | Random(G26)_Project1_xv6CustomizeSystemCalls/kernel/log.c:106-210 | every step of any interleaving (begin_op, log_write, end_op, each disk write of commit, crash, each disk write of recovery) keeps the invariant (capacity, distinct header entries, one pin each, commit only with nothing outstanding) and does to the logical disk what one atomic event does |
| GroupCommit.RunRefines | Random(G26)_Project1_xv6CustomizeSystemCalls/kernel/log.c:106-210 | whole runs refine runs of atomic events |
| GroupCommit.RunsAreAtomic | Random(G26)_Project1_xv6CustomizeSystemCalls/kernel/log.c:106-210 | from a clean disk, every run through any crashes and half-finished recoveries is a run of atomic transactions |
| GroupCommit.DurableIsQuiescent | Random(G26)_Project1_xv6CustomizeSystemCalls/kernel/log.c:124-181 | what a crash would leave at any moment is the state of memory at some moment of the run when no operation was open |
| GroupCommit.DurableSince | Random(G26)_Project1_xv6CustomizeSystemCalls/kernel/log.c:124-181 | the same from any reachable state, naming the moment |
| GroupCommit.FinishedCommitIsDurable | Random(G26)_Project1_xv6CustomizeSystemCalls/kernel/log.c:124-181 | when end_op's commit has finished, everything in memory is durable |
| GroupCommit.SleeperHasWaker | Random(G26)_Project1_xv6CustomizeSystemCalls/kernel/log.c:106-152 | a process asleep in begin_op is waiting for a commit in progress or for an open operation, and the end of either wakes it: admission cannot stall |
| Transactions.FittingRuns | Random(G26)_Project1_xv6CustomizeSystemCalls/kernel/log.c:106-210 | any interleaving of transactions each of which touches few enough distinct blocks is a run of the group commit: none finds its reservation used up, whatever others do |
| Transactions.FittingRunsAreAtomic | Random(G26)_Project1_xv6CustomizeSystemCalls/kernel/log.c:106-210 | from a clean disk, such transactions never panic the log at any moment of the run, and are atomic across crashes |
| Transactions.MadeIsFitting | Random(G26)_Project1_xv6CustomizeSystemCalls/kernel/file.c:159-186 | a run whose operations log parts of given transactions that fit is such a run |
| Transactions.FilewritesAreAtomic | Random(G26)_Project1_xv6CustomizeSystemCalls/kernel/file.c:159-186 | the transactions that filewrite makes, run concurrently in any interleaving with crashes, never panic the log and are atomic |
| Transactions.PrefixFits | Random(G26)_Project1_xv6CustomizeSystemCalls/kernel/file.c:159-186 | a transaction whose whole log fits has fitted at every log_write before |
| FsState.BitOfWithBit | Random(G26)_Project1_xv6CustomizeSystemCalls/kernel/fs.c:67-106 | setting or clearing one bit of the bitmap changes that bit and no other |
| FsState.AllocateKeeps | Random(G26)_Project1_xv6CustomizeSystemCalls/kernel/fs.c:67-89 | taking a free block keeps the ownership invariant with one more block to attach, and moves no pointer |
| FsState.AttachDirect | Random(G26)_Project1_xv6CustomizeSystemCalls/kernel/fs.c:371-379 | recording a fresh block in a direct slot gives it its one owner and changes no mapped block |
| FsState.AttachIndirect | Random(G26)_Project1_xv6CustomizeSystemCalls/kernel/fs.c:382-389 | recording a fresh indirect block: being zeroed, it names nothing |
| FsState.AttachEntry | Random(G26)_Project1_xv6CustomizeSystemCalls/kernel/fs.c:390-398 | recording a fresh block inside the indirect block gives it its one owner |
| FsState.DetachIndirect | Random(G26)_Project1_xv6CustomizeSystemCalls/kernel/fs.c:422-432 | clearing the indirect pointer of an empty file detaches exactly the indirect block and all it names |
| FsState.ExtendsFiles | Random(G26)_Project1_xv6CustomizeSystemCalls/kernel/fs.c:366-404 | allocation is invisible: every file reads the same before and after |
| FsState.IupdateOnDisk | Random(G26)_Project1_xv6CustomizeSystemCalls/kernel/fs.c:191-206 | writing back one inode makes all sixteen words on disk agree with memory and disturbs no other inode in its block |
| FsState.SmallImageOk | Random(G26)_Project1_xv6CustomizeSystemCalls/kernel/fs.h:12-43 | the invariant is not empty: a small image with one empty file has it |
| FileIO.LandedTwice | Random(G26)_Project1_xv6CustomizeSystemCalls/kernel/fs.c:489-522 | writing two consecutive pieces is writing them at once, also when the second is cut short |
| FileIO.WriteProgress | Random(G26)_Project1_xv6CustomizeSystemCalls/kernel/fs.c:499-511 | one round of writei puts exactly its piece into the file, block by block |
| FileIO.WriteDone | Random(G26)_Project1_xv6CustomizeSystemCalls/kernel/fs.c:513-521 | after the loop and the size update the file is the old one overwritten with exactly the bytes copied, and not longer than the bytes that count make it |
| FileSpec.TornIff | Random(G26)_Project1_xv6CustomizeSystemCalls/kernel/fs.c:503-508 | what a write leaves is the file overwritten with exactly the bytes it reports if and only if no byte that the failing copy stores, between the last block boundary before the unreadable byte and what it could read, lies inside the file and differs: a condition on the file and the arguments alone |
| FileSpec.TornWrite | Random(G26)_Project1_xv6CustomizeSystemCalls/kernel/fs.c:503-508 | a write of two bytes, the second unreadable, that reports 0 bytes and changes the first byte of the file that is read back |
| FileIO.PieceIsSlice | Random(G26)_Project1_xv6CustomizeSystemCalls/kernel/fs.c:455-479 | the part of a block that readi copies is the slice of the file at that offset |
| FileIO.SpellsFiles | Random(G26)_Project1_xv6CustomizeSystemCalls/kernel/fs.c:357-404 | block contents read through the pointers determine the byte sequences of all files |
| FileSystem.FileSystem.constructor | Random(G26)_Project1_xv6CustomizeSystemCalls/kernel/fs.c:31-45 | a file system over any image that has the invariant |
| FileSystem.FileSystem.TryBit | Random(G26)_Project1_xv6CustomizeSystemCalls/kernel/fs.c:74-84 | one bit of balloc's scan: the block is taken exactly when its bit was clear |
| FileSystem.FileSystem.Balloc | Random(G26)_Project1_xv6CustomizeSystemCalls/kernel/fs.c:67-89 | first fit: the lowest clear bit is set and its block zeroed; 0 exactly when every bit is set |
| FileSystem.FileSystem.Bfree | Random(G26)_Project1_xv6CustomizeSystemCalls/kernel/fs.c:93-106 | clears exactly that bit; panics exactly when it was clear |
| FileSystem.FileSystem.Iupdate | Random(G26)_Project1_xv6CustomizeSystemCalls/kernel/fs.c:191-206 | all sixteen words of the in-memory inode are copied to its place in its inode block, and the block is logged |
| FileSystem.FileSystem.AllocAddr | Random(G26)_Project1_xv6CustomizeSystemCalls/kernel/fs.c:371-389 | an empty address of the inode gets a fresh block or the disk is full; nothing mapped changes |
| FileSystem.FileSystem.AllocEntry | Random(G26)_Project1_xv6CustomizeSystemCalls/kernel/fs.c:390-400 | an empty entry of the indirect block gets a fresh block or the disk is full; nothing mapped changes |
| FileSystem.FileSystem.Bmap | Random(G26)_Project1_xv6CustomizeSystemCalls/kernel/fs.c:366-404 | returns the block's number, allocating it and the indirect block as needed; 0 only on a full disk; panics exactly past MAXFILE; every mapped block keeps number and contents; logs only the named blocks and at most the needed bitmap blocks |
| FileSystem.FileSystem.TruncDirects | Random(G26)_Project1_xv6CustomizeSystemCalls/kernel/fs.c:415-420 | frees exactly the direct blocks, never a free one |
| FileSystem.FileSystem.FreeEntries | Random(G26)_Project1_xv6CustomizeSystemCalls/kernel/fs.c:423-428 | frees exactly the blocks that the indirect block names, never a free one |
| FileSystem.FileSystem.Itrunc | Random(G26)_Project1_xv6CustomizeSystemCalls/kernel/fs.c:409-436 | never panics; the file is empty; exactly the blocks the inode owned are freed; every other inode and file is unchanged; ownership invariant kept; what it logs are the bitmap blocks of the freed blocks and then the inode block, which fits in a transaction if and only if those bitmap blocks are fewer than MAXOPBLOCKS |
| FileSpec.TruncLogIs | Random(G26)_Project1_xv6CustomizeSystemCalls/kernel/fs.c:409-436 | freeing blocks one by one logs exactly the bitmap blocks that they are in |
| FileSpec.SmallDisk | Random(G26)_Project1_xv6CustomizeSystemCalls/kernel/fs.c:409-436 | on a disk of at most 9 bitmap blocks truncation always fits |
| FileSystem.FileSystem.ReadPiece | Random(G26)_Project1_xv6CustomizeSystemCalls/kernel/fs.c:465-477 | a round of readi returns the file's bytes there and allocates nothing |
| FileSystem.FileSystem.Readi | Random(G26)_Project1_xv6CustomizeSystemCalls/kernel/fs.c:455-479 | returns exactly the slice of the file, cut at its end; 0 past the end or on overflow; -1 exactly when the destination cannot take it; changes nothing |
| FileSystem.FileSystem.Writei | Random(G26)_Project1_xv6CustomizeSystemCalls/kernel/fs.c:489-522 | -1 exactly for an offset past the end or a size past MAXFILE; else the file is overwritten with the first r bytes and with what a copy that failed stored after them, and with exactly the r bytes if and only if no byte is torn; r is short only at the last block boundary before the unreadable byte, or past the end of the file with no block left; all other files are unchanged, the inode is written back, ownership and no-holes kept also on a short write |
| FileSpec.PaidBound | Random(G26)_Project1_xv6CustomizeSystemCalls/kernel/file.c:159-186 | a write of at most one chunk touches at most MAXOPBLOCKS - 1 distinct blocks before the inode block |
| FileSpec.InsideIsMapped | Random(G26)_Project1_xv6CustomizeSystemCalls/kernel/fs.c:489-511 | a write that begins inside a block begins inside a mapped one, because there are no holes |
| FileSpec.WriteFits | Random(G26)_Project1_xv6CustomizeSystemCalls/kernel/file.c:159-186 | the log of such a write has at most MAXOPBLOCKS distinct blocks and a free slot before each log_write |
| FileSystem.FileSystem.WriteTransaction | Random(G26)_Project1_xv6CustomizeSystemCalls/kernel/file.c:169-177 | one chunk: its transaction fits in the log, and only its file changes |
| FileSystem.FileSystem.Filewrite | Random(G26)_Project1_xv6CustomizeSystemCalls/kernel/file.c:159-186 | a write of any length is a run of transactions that all fit; their number is that of the chunks, and their concatenation is all that log_write was given; the file is overwritten with exactly the bytes by which the offset moved, and on failure with what the failing copy stored; the result is the length or -1, and -1 has one of four reasons |
| Vm.Vm.constructor | Random(G26)_Project1_xv6CustomizeSystemCalls/kernel/kalloc.c:46-56 | kinit gives every page above the kernel image to the free list, once |
| Vm.Vm.Kalloc | Random(G26)_Project1_xv6CustomizeSystemCalls/kernel/kalloc.c:76-85 | 0 exactly when no page is free; else the first free page leaves the list, filled with 5 |
| Vm.Vm.Kfree | Random(G26)_Project1_xv6CustomizeSystemCalls/kernel/kalloc.c:60-72 | panics exactly on an address outside the pool; else the page goes to the front of the list; the list stays one of exactly the free pages if and only if the page was not free: after a second kfree no list follows the links |
| VmSpec.FreePop | Random(G26)_Project1_xv6CustomizeSystemCalls/kernel/kalloc.c:37-42 | popping keeps a linked list of exactly the free pages, each once |
| VmSpec.FreePush | Random(G26)_Project1_xv6CustomizeSystemCalls/kernel/kalloc.c:31-34 | pushing keeps a linked list of exactly the free pages, each once |
| VmSpec.FreedTwice | Random(G26)_Project1_xv6CustomizeSystemCalls/kernel/kalloc.c:60-72 | after a page is freed twice no finite list follows the links |
| PageTable.FlagsRoundTrip | Random(G26)_Project1_xv6CustomizeSystemCalls/kernel/riscv.h:358-369 | the flag bits of an entry encode and decode without loss |
| PageTable.PteRoundTrip | Random(G26)_Project1_xv6CustomizeSystemCalls/kernel/riscv.h:365-369 | PTE2PA inverts PA2PTE whatever the flags, and the flags survive |
| PageTable.VpIsPage | Random(G26)_Project1_xv6CustomizeSystemCalls/kernel/riscv.h:371-374 | the three PX indices of an address are the digits of its page number |
| PageTable.NumInjective | Random(G26)_Project1_xv6CustomizeSystemCalls/kernel/riscv.h:371-374 | the three indices determine the page |
| PageTable.PageIsVp | Random(G26)_Project1_xv6CustomizeSystemCalls/kernel/riscv.h:371-374 | every address inside a page has that page's indices |
| PageTable.AttachUser | Random(G26)_Project1_xv6CustomizeSystemCalls/kernel/vm.c:131-159 | filling an empty leaf entry with an unowned page keeps the tree, and the page is owned there and only there |
| PageTable.DetachUser | Random(G26)_Project1_xv6CustomizeSystemCalls/kernel/vm.c:178-197 | clearing a leaf entry gives exactly that page back and keeps the tree |
| PageTable.SetLeaf | Random(G26)_Project1_xv6CustomizeSystemCalls/kernel/vm.c:131-197 | writing a leaf entry changes that page of that page table and no other mapping |
| Vm.Vm.Walk | Random(G26)_Project1_xv6CustomizeSystemCalls/kernel/vm.c:87-104 | the entry found is the leaf of the address; missing tables are made only when asked, from free pages, without changing a mapping; failure means fewer than two pages were free; panics exactly from MAXVA on |
| Vm.Vm.Mappages | Random(G26)_Project1_xv6CustomizeSystemCalls/kernel/vm.c:131-159 | success adds exactly the range with the given frames and flags; failure adds a prefix and means too few free pages; all other addresses of all page tables keep their mapping; a panic has one of its listed causes, and with memory enough for the tables it happens if and only if one of them holds; without a panic no page tried was mapped before |
| Vm.Vm.Uvmunmap | Random(G26)_Project1_xv6CustomizeSystemCalls/kernel/vm.c:178-197 | removes exactly the range from that page table, freeing its pages when asked; panics exactly when misaligned or past MAXVA; all other mappings stay |
| Vm.Vm.Uvmdealloc | Random(G26)_Project1_xv6CustomizeSystemCalls/kernel/vm.c:232-243 | removes exactly the pages between the two rounded sizes, and never panics |
| Vm.Vm.NewPage | Random(G26)_Project1_xv6CustomizeSystemCalls/kernel/vm.c:211-222 | a page with given contents is mapped at a free place, or nothing is mapped and no data page is lost; failure means fewer than three free pages; panics exactly when a page is free and the place is taken |
| Vm.Vm.Uvmalloc | Random(G26)_Project1_xv6CustomizeSystemCalls/kernel/vm.c:202-225 | adds exactly the zeroed pages of the new range, or returns 0 with every mapping and every data page as before, and then fewer than three pages per new page were free; panics only on remapping |
| UserMem.RangeUndo | Random(G26)_Project1_xv6CustomizeSystemCalls/kernel/vm.c:213-221 | taking back a partly added range restores every mapping and every data page |
| Vm.Vm.Uvmcopy | Random(G26)_Project1_xv6CustomizeSystemCalls/kernel/vm.c:277-304 | the child gets a copy of every page the parent has; on failure the child has no page left, no data page is lost, and memory was short |
| UserMem.ForkSees | Random(G26)_Project1_xv6CustomizeSystemCalls/kernel/vm.c:277-304 | after a successful copy the child sees every byte the parent sees, and the parent sees what it saw |
| Vm.Vm.Walkaddr | Random(G26)_Project1_xv6CustomizeSystemCalls/kernel/vm.c:110-127 | the frame of a valid user mapping, else 0 |
| Vm.Vm.Ismapped | Random(G26)_Project1_xv6CustomizeSystemCalls/kernel/vm.c:453-463 | true exactly when the page has a leaf entry; panics exactly from MAXVA on |
| Vm.Vm.Vmfault | Random(G26)_Project1_xv6CustomizeSystemCalls/kernel/vm.c:430-450 | no byte of any process looks different; a page is added only below the size where none is mapped, and then surely when three pages are free; panics exactly when the page table asked about is not the process's, lacks the page, and the process has it; never for its own page table |
| UserMem.AddsLazily | Random(G26)_Project1_xv6CustomizeSystemCalls/kernel/vm.c:430-450 | a zeroed page at an unmapped place changes no byte that anyone sees |
| Vm.Vm.Copyin | Random(G26)_Project1_xv6CustomizeSystemCalls/kernel/vm.c:361-383 | returns exactly the bytes the user sees, lazily allocated pages reading as zero; every page read from was one the user may read or one still to be allocated below the size; succeeds when all are readable, and, with three free pages for each page of the range, if and only if all are readable or to be allocated; nothing anyone sees changes |
| Vm.Vm.Copyout | Random(G26)_Project1_xv6CustomizeSystemCalls/kernel/vm.c:323-355 | the bytes are written where the user sees them and nothing else changes for anyone, on failure a prefix; every page written was one the user may write or one still to be allocated below the size; succeeds when all are writable, and, with enough free pages, if and only if all are writable or to be allocated |
| Vm.Vm.Growproc | Random(G26)_Project1_xv6CustomizeSystemCalls/kernel/proc.c:237-255 | never panics; grows or shrinks what the process sees, new bytes being zero, or fails with nothing changed, past TRAPFRAME or for want of memory; a shrink below zero changes nothing |
| Vm.Vm.Sbrk | Random(G26)_Project1_xv6CustomizeSystemCalls/kernel/sysproc.c:40-65 | eager and lazy growth give the same memory to see; the lazy one touches no page; returns the old size or -1 |
| Vm.Vm.Uvmcreate | Random(G26)_Project1_xv6CustomizeSystemCalls/kernel/vm.c:163-172 | 0 exactly when no page is free; else a page table without mappings, made of one free page, and no other mapping changes |
| PageTable.NewRoot | Random(G26)_Project1_xv6CustomizeSystemCalls/kernel/vm.c:163-172 | an empty root keeps the tree of every other page table |
| Vm.Vm.ProcPagetable | Random(G26)_Project1_xv6CustomizeSystemCalls/kernel/proc.c:177-206 | a page table with exactly the trampoline and the trap frame; 0 only with fewer than five free pages, and then every page is used as before, whichever step failed |
| Vm.Vm.Freewalk | Random(G26)_Project1_xv6CustomizeSystemCalls/kernel/vm.c:248-263 | panics if and only if some entry under the page is a leaf; else frees every table under it exactly once |
| Vm.Vm.Uvmfree | Random(G26)_Project1_xv6CustomizeSystemCalls/kernel/vm.c:268-273 | panics if and only if a mapping beyond the size is left; else every table and page of the page table is free afterwards, exactly once, and no other page changes its use |
| Vm.Vm.ProcFreepagetable | Random(G26)_Project1_xv6CustomizeSystemCalls/kernel/proc.c:211-216 | the same for a process, after dropping the trampoline and trap frame entries |
| Monitor.RunKeeps | Random(G26)_Project1_xv6CustomizeSystemCalls/kernel/proc.c:543-587 | over every interleaving, with any number of channels and locks, several channels to a lock or not: locks held where the code says, states and channels follow the code, a scanned entry is not waiting, nobody waits on a channel whose condition holds unless it was raised in the critical section going on now |
| Monitor.WakeupIsComing | Random(G26)_Project1_xv6CustomizeSystemCalls/kernel/proc.c:543-587 | a process waiting on a channel although its condition holds is ahead of a scan for that channel by the process that raised it |
| Monitor.NoLostWakeup | Random(G26)_Project1_xv6CustomizeSystemCalls/kernel/proc.c:543-587 | in every reachable state a process SLEEPING on a channel whose condition holds has not been passed yet by a waker's scan for that channel |
| Monitor.ScanWakes | Random(G26)_Project1_xv6CustomizeSystemCalls/kernel/proc.c:573-587 | a scan for the channel that comes to such a process makes it RUNNABLE |
| SleepLock.RunKeeps | Random(G26)_Project1_xv6CustomizeSystemCalls/kernel/sleeplock.c:22-41 | over every interleaving of acquiresleep and releasesleep, among any sleeping and waking on other channels: at most one holder, which pid names, and locked says whether there is one |
| SleepLock.MutualExclusion | Random(G26)_Project1_xv6CustomizeSystemCalls/kernel/sleeplock.c:22-41 | at most one process holds a sleep lock, and then it is not free |
| SleepLock.NoStrandedSleeper | Random(G26)_Project1_xv6CustomizeSystemCalls/kernel/sleeplock.c:22-41 | a process asleep on a free sleep lock's channel is about to be woken by the process releasing it |
| SleepLock.HoldingSleepIsExact | Random(G26)_Project1_xv6CustomizeSystemCalls/kernel/sleeplock.c:44-52 | holdingsleep is true of exactly the holder |
| ExitWait.StepKeeps | Random(G26)_Project1_xv6CustomizeSystemCalls/kernel/proc.c:260-415 | every step of kfork, reparent, kexit, kwait, sleep and kkill keeps the invariant on locks, states, parents and zombies |
| ExitWait.RunKeeps | Random(G26)_Project1_xv6CustomizeSystemCalls/kernel/proc.c:260-415 | and so does every interleaving |
| ExitWait.ParentsAlive | Random(G26)_Project1_xv6CustomizeSystemCalls/kernel/proc.c:260-366 | every process past creation, other than init, has a parent that has not exited |
| ExitWait.NoZombieMissed | Random(G26)_Project1_xv6CustomizeSystemCalls/kernel/proc.c:311-415 | no parent sleeps in kwait with a zombie child, unless it is init and the wakeup that reparent owes it has not passed it yet |
| ExitWait.ReapedOnce | Random(G26)_Project1_xv6CustomizeSystemCalls/kernel/proc.c:327-415 | every exit is reaped at most once: exits equal reaps, plus one while the zombie waits |
| ExitWait.ReapedHasLeft | Random(G26)_Project1_xv6CustomizeSystemCalls/kernel/proc.c:371-415 | kwait frees only a child of the caller that has left its own stack for good |
| HeapSpec.RingInsert | Random(G26)_Project1_xv6CustomizeSystemCalls/user/umalloc.c:33-43 | linking a block into its gap keeps the list circular and sorted by address |
| HeapSpec.RingRemove | Random(G26)_Project1_xv6CustomizeSystemCalls/user/umalloc.c:74-85 | unlinking a block keeps the list circular and sorted by address |
| HeapSpec.FreedOk | Random(G26)_Project1_xv6CustomizeSystemCalls/user/umalloc.c:25-44 | after free the list is circular, sorted and fully coalesced, and live and free blocks still partition all units |
| HeapSpec.FreedAbsorbs | Random(G26)_Project1_xv6CustomizeSystemCalls/user/umalloc.c:25-44 | some free block holds the freed one and all it was merged with; every other block is as it was |
| HeapSpec.CarvedOk | Random(G26)_Project1_xv6CustomizeSystemCalls/user/umalloc.c:78-82 | splitting off the tail of a block keeps the partition |
| HeapSpec.ExtendedOk | Random(G26)_Project1_xv6CustomizeSystemCalls/user/umalloc.c:47-61 | fresh units from sbrk join the partition |
| HeapSpec.BlocksDisjoint | Random(G26)_Project1_xv6CustomizeSystemCalls/user/umalloc.c:25-90 | any two blocks, live or free, are disjoint |
| HeapSpec.ComesToAll | Random(G26)_Project1_xv6CustomizeSystemCalls/user/umalloc.c:25-90 | following the links from the header reaches every free block |
| Umalloc.Allocator.FindGap | Random(G26)_Project1_xv6CustomizeSystemCalls/user/umalloc.c:30-33 | the search for the place of a block ends, at the one gap it belongs to, also when it wraps |
| Umalloc.Allocator.Free | Random(G26)_Project1_xv6CustomizeSystemCalls/user/umalloc.c:25-44 | exactly that block stops being live; sorted, coalesced, partition kept; a free block now holds all its units and every other block is as it was |
| Umalloc.Allocator.Morecore | Random(G26)_Project1_xv6CustomizeSystemCalls/user/umalloc.c:47-61 | 0 exactly when sbrk fails, with nothing changed; else the units asked for are on the list; they all lie in the memory that sbrk gave if and only if their byte count is below 2^31 |
| Umalloc.Allocator.Malloc | Random(G26)_Project1_xv6CustomizeSystemCalls/user/umalloc.c:64-90 | for every unsigned request: ends, also after morecore; the block returned is new, large enough and disjoint from all live ones; it lies in memory obtained from sbrk if and only if a free block was large enough or the byte count asked of sbrk is below 2^31; 0 only when sbrk fails and no free block was large enough |
| Umalloc.SbrkCovers | Random(G26)_Project1_xv6CustomizeSystemCalls/user/umalloc.c:47-61 | the memory that sbrk gives covers the units that morecore records if and only if their byte count is below 2^31 |
| Umalloc.HugeRequests | Random(G26)_Project1_xv6CustomizeSystemCalls/user/umalloc.c:47-87 | malloc(2^31 - 31) and malloc(2^32 - 1) record a block that ends outside memory |
| Bio.UnlinkRing | Random(G26)_Project1_xv6CustomizeSystemCalls/kernel/bio.c:126-129 | the two link updates take exactly that buffer out of the doubly linked ring |
| Bio.PushRing | Random(G26)_Project1_xv6CustomizeSystemCalls/kernel/bio.c:130-133 | the four link updates put the buffer first in the ring |
| Bio.Cache.constructor | Random(G26)_Project1_xv6CustomizeSystemCalls/kernel/bio.c:37-53 | binit builds a ring with each buffer once |
| Bio.Cache.FindCached | Random(G26)_Project1_xv6CustomizeSystemCalls/kernel/bio.c:65-73 | the forward scan finds the buffer of the block exactly when there is one |
| Bio.Cache.FindUnused | Random(G26)_Project1_xv6CustomizeSystemCalls/kernel/bio.c:75-88 | the backward scan finds the least recently used buffer that is not in use, or none is |
| Bio.Cache.Bget | Random(G26)_Project1_xv6CustomizeSystemCalls/kernel/bio.c:59-89 | the cached buffer with one more reference, or the least recently used idle one recycled; a buffer in use is never recycled; panics exactly when the block is not cached and every buffer is in use; no block looks different if and only if the recycled buffer was clean |
| Bio.Cache.Bread | Random(G26)_Project1_xv6CustomizeSystemCalls/kernel/bio.c:93-103 | a locked, valid buffer with the block's latest contents, or waiting for the process that has it locked; no block looks different as long as idle buffers are clean |
| Bio.Cache.Bwrite | Random(G26)_Project1_xv6CustomizeSystemCalls/kernel/bio.c:107-112 | the disk gets the buffer's contents; no block looks different; panics exactly without the lock |
| Bio.Cache.Brelse | Random(G26)_Project1_xv6CustomizeSystemCalls/kernel/bio.c:117-137 | one reference less; an idle buffer moves to the front of the ring; no block looks different; idle buffers stay clean if and only if this one is in use or clean; panics exactly without the lock |
| Bio.Cache.Bpin | Random(G26)_Project1_xv6CustomizeSystemCalls/kernel/bio.c:140-144 | one reference more; no block looks different |
| Bio.Cache.Bunpin | Random(G26)_Project1_xv6CustomizeSystemCalls/kernel/bio.c:147-151 | one reference less; no block looks different; idle buffers stay clean if and only if this one is in use or clean |
| Bio.Stored | Random(G26)_Project1_xv6CustomizeSystemCalls/kernel/bio.c:107-112 | storing into a locked buffer changes what is seen of its block and of no other |
| Bio.RecycledClean | Random(G26)_Project1_xv6CustomizeSystemCalls/kernel/bio.c:75-88 | recycling a buffer changes nothing that is seen if and only if it is clean |
| Pipe.Wraps | Random(G26)_Project1_xv6CustomizeSystemCalls/kernel/pipe.c:94-136 | 32-bit wrap of the counters keeps the full and empty tests and the slots right, because PIPESIZE divides 2^32 |
| Pipe.RunHolds | Random(G26)_Project1_xv6CustomizeSystemCalls/kernel/pipe.c:98-173 | in every interleaving the bytes written are the bytes read followed by the bytes in the ring |
| Pipe.Fifo | Random(G26)_Project1_xv6CustomizeSystemCalls/kernel/pipe.c:98-173 | from a new pipe, the bytes read are a prefix of the bytes written, at most PIPESIZE behind; empty and full are reported exactly |
| Pipe.FreedOnce | Random(G26)_Project1_xv6CustomizeSystemCalls/kernel/pipe.c:73-90 | the page is freed exactly once, when both ends are closed, and not used after |
| Pipe.Pipe.Write | Random(G26)_Project1_xv6CustomizeSystemCalls/kernel/pipe.c:98-130 | the loop is a run of single-byte steps; it stops for the reason reported and copies no unreadable byte |
| Pipe.Pipe.Read | Random(G26)_Project1_xv6CustomizeSystemCalls/kernel/pipe.c:138-173 | the loop is a run of single-byte steps that delivers what it returns; it stops for the reason reported |
| Pipe.Pipe.Close | Random(G26)_Project1_xv6CustomizeSystemCalls/kernel/pipe.c:73-90 | closes one end, and frees exactly when the other is closed |
| Virtio.Disk.constructor | Random(G26)_Project1_xv6CustomizeSystemCalls/kernel/virtio_disk.c:120-146 | every descriptor free, both rings empty |
| Virtio.Disk.AllocDesc | Random(G26)_Project1_xv6CustomizeSystemCalls/kernel/virtio_disk.c:157-166 | the first free descriptor, every one before it being in use, or -1 exactly when none is free |
| Virtio.Disk.FreeDesc | Random(G26)_Project1_xv6CustomizeSystemCalls/kernel/virtio_disk.c:170-182 | panics exactly on a bad or free descriptor; else frees exactly it |
| Virtio.Disk.Alloc3 | Random(G26)_Project1_xv6CustomizeSystemCalls/kernel/virtio_disk.c:202-213 | three distinct free descriptors exactly when there are three; else none is kept |
| Virtio.Disk.Submit | Random(G26)_Project1_xv6CustomizeSystemCalls/kernel/virtio_disk.c:216-281 | publishes one request for the buffer, on descriptors of no other request, overwriting no avail entry the device has not taken; the sector is the 32-bit product; waits exactly when fewer than three descriptors are free |
| Virtio.SectorsApart | Random(G26)_Project1_xv6CustomizeSystemCalls/kernel/virtio_disk.c:217 | since the product is taken in 32 bits, two blocks share a sector if and only if they are 2^31 apart, and the sector is the block's own exactly below 2^31 |
| Virtio.Disk.Take | Random(G26)_Project1_xv6CustomizeSystemCalls/kernel/virtio_disk.c:235-277 | the device reads, in order, the operation, sector and buffer of the oldest published request |
| Virtio.Disk.Complete | Random(G26)_Project1_xv6CustomizeSystemCalls/kernel/virtio_disk.c:261-324 | the device completes any taken request, in any order and with any status, overwriting no used entry not seen yet |
| Virtio.Disk.IntrOne | Random(G26)_Project1_xv6CustomizeSystemCalls/kernel/virtio_disk.c:312-324 | panics exactly when the oldest completed request has a nonzero status, and has changed nothing then; else its buffer is released and it is seen |
| Virtio.Disk.Intr | Random(G26)_Project1_xv6CustomizeSystemCalls/kernel/virtio_disk.c:294-327 | panics if and only if some completed request has a nonzero status, at the first such; those before it, or all, are seen, each once |
| Virtio.Disk.Finish | Random(G26)_Project1_xv6CustomizeSystemCalls/kernel/virtio_disk.c:283-291 | the chain of the finished request is freed without panic; free descriptors plus three per request stay NUM |
| Virtio.Disk.FreeChain | Random(G26)_Project1_xv6CustomizeSystemCalls/kernel/virtio_disk.c:186-197 | the loop frees the three descriptors of the chain and stops |
| Virtio.NewChain | Random(G26)_Project1_xv6CustomizeSystemCalls/kernel/virtio_disk.c:235-269 | a chain formatted on three free descriptors keeps all chains disjoint and readable |
| Virtio.CloseChain | Random(G26)_Project1_xv6CustomizeSystemCalls/kernel/virtio_disk.c:186-197 | freeing a seen request's chain keeps all other chains |
| Virtio.RingPush | Random(G26)_Project1_xv6CustomizeSystemCalls/kernel/virtio_disk.c:271-277 | with 16-bit indices, an entry added at the end of a ring that is not full overwrites none in use |
| Virtio.RingPop | Random(G26)_Project1_xv6CustomizeSystemCalls/kernel/virtio_disk.c:312-323 | the entry at the other index is the oldest one |
| Virtio.WrapSlot | Random(G26)_Project1_xv6CustomizeSystemCalls/kernel/virtio_disk.c:271-277 | 16-bit wrap is harmless because NUM divides 65536 |
| ShellGrammar.AcceptsIff | Random(G26)_Project1_xv6CustomizeSystemCalls/user/sh.c:334-348 | for every line, with any spacing and redirections anywhere among the words: the parser accepts it if and only if its tokens derive from the grammar |
| ShellGrammar.Meaning | Random(G26)_Project1_xv6CustomizeSystemCalls/user/sh.c:334-348 | and the command is then what any derivation of it means: | binds tighter than & and ;, | and ; group to the right, redirections wrap in order |
| ShellGrammar.SameTokensSameCommand | Random(G26)_Project1_xv6CustomizeSystemCalls/user/sh.c:272-348 | two lines with the same tokens, however spaced, are the same command or are both refused |
| ShellGrammar.LineDerived | Random(G26)_Project1_xv6CustomizeSystemCalls/user/sh.c:351-365 | whatever parseline accepts at a place in a line is a derivation of the tokens that it consumes |
| ShellGrammar.LineParsed | Random(G26)_Project1_xv6CustomizeSystemCalls/user/sh.c:351-365 | a derivation followed by the end or by a closing parenthesis is parsed to its end, wherever it stands |
| ShellGrammar.RoundTrip | Random(G26)_Project1_xv6CustomizeSystemCalls/user/sh.c:272-452 | parsing the text of any derivation gives the command it means |
| ShellGrammar.SpellMeans | Random(G26)_Project1_xv6CustomizeSystemCalls/user/sh.c:351-452 | every command tree with at most 9 words per command has a derivation that means it |
| ShellGrammar.EveryCommand | Random(G26)_Project1_xv6CustomizeSystemCalls/user/sh.c:334-348 | so parsing the text of any such command gives that command back |
| ShellParser.Gettoken | Random(G26)_Project1_xv6CustomizeSystemCalls/user/sh.c:272-314 | the scanning loops compute the token and its ends as specified, for every line |
| ShellParser.Peek | Random(G26)_Project1_xv6CustomizeSystemCalls/user/sh.c:317-326 | skips spaces and looks at the next character |
| ShellParser.Parseredirs | Random(G26)_Project1_xv6CustomizeSystemCalls/user/sh.c:381-403 | the loop computes the specified redirections, and ends on every line |
| ShellParser.Words | Random(G26)_Project1_xv6CustomizeSystemCalls/user/sh.c:435-448 | the loop computes the specified words and redirections, and ends on every line |
| ShellParser.Parseexec | Random(G26)_Project1_xv6CustomizeSystemCalls/user/sh.c:422-452 | computes the specified command, and ends on every line |
| ShellParser.Parseblock | Random(G26)_Project1_xv6CustomizeSystemCalls/user/sh.c:406-419 | computes the specified command, and ends on every line |
| ShellParser.Parsepipe | Random(G26)_Project1_xv6CustomizeSystemCalls/user/sh.c:368-378 | computes the specified command, and ends on every line |
| ShellParser.Parseline | Random(G26)_Project1_xv6CustomizeSystemCalls/user/sh.c:351-365 | computes the specified command, and ends on every line |
| ShellParser.LineAreWords | Random(G26)_Project1_xv6CustomizeSystemCalls/user/sh.c:351-452 | every argument and file name of a parsed command is a whole word of the line |
| ShellParser.Nulterminate | Random(G26)_Project1_xv6CustomizeSystemCalls/user/sh.c:456-499 | the buffer changes exactly at the ends of the words, to NUL |
| ShellParser.TerminatedWords | Random(G26)_Project1_xv6CustomizeSystemCalls/user/sh.c:456-499 | although ends are overwritten in place, every word still reads as it did |
| ShellParser.Parsecmd | Random(G26)_Project1_xv6CustomizeSystemCalls/user/sh.c:334-348 | parses the buffer; on success every argument and file name is a C string equal to its word, on a syntax error the buffer is unchanged |
| Grep.MatchesSubstring | Random(G26)_Project1_xv6CustomizeSystemCalls/user/grep.c:73-82 | accepting means that some substring, a suffix under a final $, is in the pattern's language |
| Grep.HereStar | Random(G26)_Project1_xv6CustomizeSystemCalls/user/grep.c:85-106 | a starred character followed by the rest matches here exactly when some run of fitting characters is followed by a match of the rest |
| Grep.HereLit | Random(G26)_Project1_xv6CustomizeSystemCalls/user/grep.c:85-96 | a character followed by the rest matches here exactly when it fits the first character and the rest matches after it |
| Grep.MatchHere | Random(G26)_Project1_xv6CustomizeSystemCalls/user/grep.c:85-96 | true exactly when a prefix of the text, all of it under a final $, is in the pattern's language |
| Grep.MatchStar | Random(G26)_Project1_xv6CustomizeSystemCalls/user/grep.c:99-106 | the loop tries exactly the runs of fitting characters |
| Grep.Match | Random(G26)_Project1_xv6CustomizeSystemCalls/user/grep.c:73-82 | true exactly when the pattern's meaning says so, for every pattern and text |
| Grep.AppendLines | Random(G26)_Project1_xv6CustomizeSystemCalls/user/grep.c:12-35 | selecting lines is independent of how the input is cut into pieces |
| Grep.Scan | Random(G26)_Project1_xv6CustomizeSystemCalls/user/grep.c:21-29 | the line loop prints exactly the matching complete lines of the buffer and leaves the rest |
| Grep.ReadsAllIff | Random(G26)_Project1_xv6CustomizeSystemCalls/user/grep.c:12-35 | all input is read if and only if no newline-free run fills the buffer before the input ends |
| Grep.NothingLostIff | Random(G26)_Project1_xv6CustomizeSystemCalls/user/grep.c:12-35 | every pattern gets all its lines if and only if no line ends at or after the end of a newline-free run that fills the buffer |
| Grep.CompleteIff | Random(G26)_Project1_xv6CustomizeSystemCalls/user/grep.c:12-35 | one pattern gets all its lines if and only if it selects none of those left in the buffer or never read |
| Grep.LongLineIsLost | Random(G26)_Project1_xv6CustomizeSystemCalls/user/grep.c:12-35 | a matching line of 1023 characters is not printed |
| Grep.Grep | Random(G26)_Project1_xv6CustomizeSystemCalls/user/grep.c:12-35 | whatever the read sizes, the output is the matching complete lines of the input up to the first place where a line fills the buffer; it is that of all the input if and only if no matching complete line lies beyond that place |

## Left out

- FileSystem.FileSystem.Writei: bytes stored by a copy that fails are shown as they stand in the cached block; they were not logged, and are gone once the buffer is recycled.
- FileSystem.FileSystem.Filewrite: operations on several inodes are modelled one after another; inode locks are not modelled.
- Bio.Cache.Bget: runs under the cache lock as one step; waiting for a buffer's sleep lock is the subject of SleepLock.
- Bio.Cache.Bread: of device 0, of which binit labels every buffer block 0, only that the buffer is the block's and valid.
- Bio.Cache.Bunpin: for a buffer that is pinned.
- CommitCache.FullCommitReachable: the reference counts are those that bpin has given; which other blocks are cached is left open.
- Vm.Vm.Kfree: pages are frame numbers, so misaligned addresses do not arise; the fill with 1 is not visible in a free page.
- Vm.Vm.Mappages: a page mapped below TRAPFRAME is one its caller holds, as every user mapping is.
- Vm.Vm.Uvmunmap: with do_free, for a range of user pages; the trampoline and the trap frame are not the page table's to free.
- Vm.Vm.Uvmalloc: for sizes up to TRAPFRAME, which growproc and sbrk check before the call.
- Vm.Vm.Vmfault: a page table other than the process's is asked about but not written, as in the code; exec itself is not modelled.
- Vm.Vm.Freewalk: a leaf without read, write and execute permission, which the code takes for a table, is not covered; the same holds for the leaves beyond the size in Uvmfree.
- Vm.Vm.Uvmfree: for sizes up to TRAPFRAME.
- Vm.Vm.Copyin: the number of free pages that suffices is a bound, not the least one; the same holds for Copyout, Uvmalloc and Uvmcopy.
- Vm.Vm.Copyout: as for Copyin.
- ExitWait.RunKeeps: exit status, killed flags, open files and memory are not modelled; a kill is a wakeup that can come at any time.
- Umalloc.Allocator.Malloc: the address at which sbrk's memory starts is a parameter; nothing is said of calls after one that has recorded units outside memory.
- Virtio.Disk.Alloc3: the loop of three rounds is written out.
- ShellParser.Parsecmd: the messages of the syntax errors are not told apart; words are positions in the line, as the C pointers are.
- Grep.Grep: input without NUL characters.
- kvmmake: the kernel page table.
- Directories, path names, inode allocation and reference counts (fs.c, sysfile.c), exec, copyinstr.
- spinlock.c, the scheduler, traps and all assembly: acquire and release are steps.
- kthread_create, signals, and the mutex and thread system calls.
- uart, plic, start-up, console, printf, string.c, and the device register set-up of virtio_disk_init.
- The utilities of the second project and all test programs.
