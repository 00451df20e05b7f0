# xv6 verification

A Dafny model of the hard parts of the xv6 kernel and of two of its user programs, with proofs.
`dafny verify dfyconfig.toml` checks all of it.

| files | part |
|---|---|
| `Log`, `LogAtomicity`, `LogCode` | the crash-safe redo log: a transition system with crashes at every durable write, its refinement of an atomic disk, and the code as a run of that system |
| `Fs`, `FsCode`, `Storage`, `StorageImage` | the block allocator, the block map, file contents and the chunked write, and how they sit on the log |
| `BufferCache` | the block cache and its list |
| `Dirs`, `Paths`, `Links`, `LinksCode`, `TreePaths` | directories, path names, the current directory and link counts |
| `Heap`, `HeapCode` | the user heap: blocks on values, and the circular list of headers in memory |
| `PageTable`, `Vm`, `VmLife`, `VmSystem` | Sv39 page tables over a page pool (section 4.4 of the RISC-V Privileged Architecture) |
| `SleepLock`, `SleepLockRuns`, `ExitWait`, `ExitWaitRuns` | blocking, and the life of processes, over all interleavings |
| `Virtqueue`, `VirtqueueCode`, `VirtqueueRuns` | the disk driver and its device (sections 2.6 and 5.2 of VIRTIO 1.1) |
| `Pipe`, `PipeSleep`, `PipeRuns`, `Console` | ring buffers, and who sleeps on a pipe |
| `Counters` | wrapping counters and the slots they lead to |
| `Shell`, `ShellGrammar`, `ShellCode`, `Grep` | the command parser and the pattern matcher |

How the code is modelled: an object with fields becomes a class, and each of its methods is
proved against a function or an invariant on values.  Where processes interleave, a method or a
step is one stretch of code under one lock, and the theorems are about every sequence of steps.
Spinlocks are atomic mutual exclusion.  A `bwrite` is one durable step.  Failures that come from
outside (a bad user address, a device or `sbrk` that refuses, a kill) are parameters; whether there
is memory or disk space is computed.

Properties that the code does not have without a condition, each stated with that condition:

- `log_write` tests for a full log before it tests for absorption, so "ten distinct blocks per
  operation" is not enough; unused budget is (`RewriteCanPanic`, `BudgetNeverPanics`, `FullLogExactly`).
- `morecore` passes its byte count through an `int` (`MorecoreOwnsItsBlock`).
- `lock_destroy` wakes nobody (`DestroyLosesWakeup`, `DestroyBreaks`, `DestroyExactly`),
  `lock_acquire` does not test for the owner, and `exit` does not look at user locks
  (`RelockDeadlocks`, `ExitStrands`, `SleepersHaveAnOwner`).
- The teardown of a thread frees no page, also not those it got for itself (`ThreadLeaks`,
  `ThreadConservesExactly`); its shrinking frees pages it shares (`SharedShrink`, `ShrinkAndFree`);
  and reaping its parent frees pages it still maps (`ReapedUnderThread`).  `VmSystem.RunExactly`
  says exactly which requests keep the page accounts, and `DisciplineSuffices` which programs do.
- A killed writer may leave a pipe without waking its readers (`KilledWriterStrands`,
  `PipeSleep.StepExactly`), and `kill(0)` marks a slot before its next process is born
  (`BornKilled`, `KilledExactly`).
- Names made inside a removed directory are not counted, and `nlink` has 16 bits (`LostFile`,
  `LostDir`, `CountOverflows`, `RaisedExactly`, `EnterExactly`, `WithFileExactly`, `WithDirExactly`).
- The ".." of a removed directory may name an inode that is free by now, and locking that one
  panics (`RemovedCwdPanics`, `ChainClimbs`, `ClimbHasChain`, `LinkedClimbs`).
- A write whose copy from user memory fails inside a block changes bytes it does not report
  (`SpillOne`, `LandedExactly`).
- The console reader loses the character whose copy to user memory fails (`LosesOne`,
  `LosesExactly`, `FaultExactly`); a pipe reader does not.

## Model

| member | source | states |
|---|---|---|
| `Log.EncodeHeader` | Project_1/xv6-riscv/kernel/log.c:103-115 | Reading back a header block that holds a list of at most LOGBLOCKS block numbers gives that list |
| `Log.ReserveBounds` | Project_1/xv6-riscv/kernel/log.c:127-143 | Every operation's unused budget is within the reserve, and the reserve within what the admission test allows for the operations running |
| `LogAtomicity.InstallKeepsDurable` | Project_1/xv6-riscv/kernel/log.c:66-84 | Copying any one logged block home leaves what recovery makes of the disk unchanged |
| `LogAtomicity.CommitMakesDurable` | Project_1/xv6-riscv/kernel/log.c:103-115 | Once the header is on disk, what recovery makes of the disk is exactly what callers see |
| `LogAtomicity.StepRefines` | Project_1/xv6-riscv/kernel/log.c:66-236 | Every step of every caller, of commit, of recovery, and every crash is one step of a disk that has no log and commits atomically |
| `LogAtomicity.RunIsAtomic` | Project_1/xv6-riscv/kernel/log.c:66-204 | Crash atomicity: wherever a run stops, also inside recovery, the disk means what callers saw at the last commit whose header reached it |
| `LogAtomicity.CommitIsQuiescent` | Project_1/xv6-riscv/kernel/log.c:147-176 | A commit happens only when no operation is outstanding |
| `LogAtomicity.CommitIsAllOrNothing` | Project_1/xv6-riscv/kernel/log.c:194-204 | Cutting end_op anywhere gives all of the group or nothing, by whether the header write got through |
| `LogAtomicity.NoCommitNoChange` | Project_1/xv6-riscv/kernel/log.c:147-204 | A stretch of a run without the commit write changes nothing durable |
| `LogAtomicity.RebootsAgree` | Project_1/xv6-riscv/kernel/log.c:117-124 | However often recovery is cut short and started again, it ends with the same disk |
| `LogAtomicity.BudgetNeverPanics` | Project_1/xv6-riscv/kernel/log.c:215-236 | An operation with unused budget never meets "too big a transaction", whatever the others do |
| `LogAtomicity.FullLogExactly` | Project_1/xv6-riscv/kernel/log.c:215-229 | log_write panics exactly when the log is full, and then every operation has spent its whole budget |
| `LogAtomicity.RewriteCanPanic` | Project_1/xv6-riscv/kernel/log.c:215-229 | From every idle log there is a run where rewriting an already logged block panics, because fullness is tested before absorption |
| `LogCode.LogLayer.BeginOp` | Project_1/xv6-riscv/kernel/log.c:127-143 | Admits exactly when not committing and the reserved space fits; otherwise nothing changes |
| `LogCode.LogLayer.LogWrite` | Project_1/xv6-riscv/kernel/log.c:215-236 | Adds the block or absorbs it; panics exactly on a full log; is one step of the proved system |
| `LogCode.LogLayer.WriteLog` | Project_1/xv6-riscv/kernel/log.c:179-192 | Writes each cached block into its log slot, one durable step per block |
| `LogCode.LogLayer.WriteHead` | Project_1/xv6-riscv/kernel/log.c:103-115 | Writes the in-memory header over the header block as the one durable commit or erase step |
| `LogCode.LogLayer.InstallTrans` | Project_1/xv6-riscv/kernel/log.c:66-84 | Copies every logged block home, one durable step per block |
| `LogCode.LogLayer.ReadHead` | Project_1/xv6-riscv/kernel/log.c:87-98 | Loads exactly the list that the header block encodes |
| `LogCode.LogLayer.RecoverFromLog` | Project_1/xv6-riscv/kernel/log.c:117-124 | Ends with home blocks equal to what the crashed disk meant, and an empty log |
| `LogCode.LogLayer.Commit` | Project_1/xv6-riscv/kernel/log.c:194-204 | Performs the log, header, install and erase steps in that order |
| `LogCode.LogLayer.EndOp` | Project_1/xv6-riscv/kernel/log.c:147-176 | The last operation makes everything callers saw durable; an earlier one leaves the disk alone |
| `Heap.ReleaseSeparated` | Project_1/xv6-riscv/user/umalloc.c:24-44 | Freeing keeps the free list strictly ordered by address with no two adjacent blocks |
| `Heap.ReleaseUnits` | Project_1/xv6-riscv/user/umalloc.c:24-44 | Freeing adds exactly the freed units to the free list |
| `Heap.FreeKeepsInv` | Project_1/xv6-riscv/user/umalloc.c:24-44 | free keeps blocks disjoint, ordered, coalesced and their units conserved |
| `Heap.MallocKeepsInv` | Project_1/xv6-riscv/user/umalloc.c:63-90 | malloc keeps the same, for any free block large enough |
| `Heap.GrowKeepsInv` | Project_1/xv6-riscv/user/umalloc.c:46-61 | A block obtained from sbrk above the heap keeps the same |
| `Heap.GrowThenFree` | Project_1/xv6-riscv/user/umalloc.c:46-61 | After morecore some free block is at least as large as what was asked for |
| `HeapCode.MorecoreOwnsItsBlock` | Project_1/xv6-riscv/user/umalloc.c:46-61 | morecore really gets the memory it hands out if and only if the request is under 2^27 units |
| `HeapCode.Allocator.FindSpot` | Project_1/xv6-riscv/user/umalloc.c:30-32 | The search loop of free ends at the one node after which the block belongs |
| `HeapCode.Allocator.OnlyAtSpot` | Project_1/xv6-riscv/user/umalloc.c:30-32 | No other node of the circle satisfies the loop's exit test |
| `HeapCode.Allocator.Splice` | Project_1/xv6-riscv/user/umalloc.c:33-43 | Linking in with either merge gives exactly the coalesced list |
| `HeapCode.Allocator.Free` | Project_1/xv6-riscv/user/umalloc.c:24-44 | free takes the k-th block in use back into the list, whole and merged |
| `HeapCode.Allocator.Morecore` | Project_1/xv6-riscv/user/umalloc.c:46-61 | Adds the asked-for units when sbrk grants them, and changes nothing when it does not |
| `HeapCode.Allocator.Carve` | Project_1/xv6-riscv/user/umalloc.c:75-84 | Takes the tail end of the found block, or the whole of it, out of the circle |
| `HeapCode.Allocator.Malloc` | Project_1/xv6-riscv/user/umalloc.c:63-90 | Returns a new disjoint block of the right size, or 0; the search terminates and fails only when sbrk does |
| `PageTable.IndicesInjective` | Project_1/xv6-riscv/kernel/riscv.h:371-380 | Page numbers below MAXVA with the same three indices are equal |
| `PageTable.PteRoundTrip` | Project_1/xv6-riscv/kernel/riscv.h:364-369 | A valid or invalid entry stored as a 64-bit word reads back with the same frame number and flags |
| `PageTable.LeafBits` | Project_1/xv6-riscv/kernel/vm.c:266-270 | An entry is a leaf exactly when its word has one of the bits R, W and X that freewalk tests |
| `PageTable.SetLeafIsLocal` | Project_1/xv6-riscv/kernel/vm.c:97-115 | Changing the leaf entry of one page changes the flat map of one table at one page and no other |
| `PageTable.SetLeafKeepsTrees` | Project_1/xv6-riscv/kernel/vm.c:145-212 | Leaf changes keep the tables a set of disjoint three-level trees |
| `PageTable.HangKeepsTrees` | Project_1/xv6-riscv/kernel/vm.c:97-115 | A table page that walk adds keeps the tables disjoint trees |
| `PageTable.HangIsInvisible` | Project_1/xv6-riscv/kernel/vm.c:97-115 | A table page that walk adds changes no lookup in any table |
| `PageTable.UnmappedHasNoLeaves` | Project_1/xv6-riscv/kernel/vm.c:262-278 | A table whose flat map is empty holds no leaf entry, so freewalk cannot panic |
| `PageTable.ForgetTree` | Project_1/xv6-riscv/kernel/vm.c:262-288 | Removing one whole tree leaves every other table's map as it was |
| `Vm.FillUndone` | Project_1/xv6-riscv/kernel/vm.c:216-258 | Unmapping and freeing what was filled restores the maps and the data pages |
| `Vm.SharedUndone` | Project_1/xv6-riscv/kernel/vm.c:330-355 | Undoing a partial uvmshare restores the maps and returns no page |
| `VmLife.LifeLives` | Project_1/xv6-riscv/kernel/proc.c:258-278 | Whatever an address space does between its making and its teardown (sbrk, page faults, stores, shrinking), other address spaces keep their maps and every frame taken meanwhile is mapped in it |
| `VmLife.ThreadTeardown` | Project_1/xv6-riscv/kernel/proc.c:228-239 | After any life of a thread the frames in use are exactly those in use both before it was cloned and at its end, and those it got for itself; one that is missing was given back by a shrinking; other maps are untouched |
| `VmLife.LifeSplits` | Project_1/xv6-riscv/kernel/proc.c:258-278 | An address space that never shrinks below the pages it shares keeps those as they were, and every other page has a frame of its own that was not in use before |
| `VmLife.ThreadConservesExactly` | Project_1/xv6-riscv/kernel/proc.c:160-172 | For a thread that never shrinks below the size it was cloned with, the frames left over are those of the pages it mapped since; the frames are conserved if and only if it ends with exactly the pages mapped that it started with |
| `VmLife.ThreadLeaks` | Project_1/xv6-riscv/kernel/proc.c:228-239 | A thread that grows by a page and exits leaves a frame in use that no address space maps |
| `VmLife.GrowAndExit` | Project_1/xv6-riscv/kernel/proc.c:337-392 | That run through uvmshare, uvmalloc and the teardown of a thread, on the code |
| `VmLife.SharedShrink` | Project_1/xv6-riscv/kernel/proc.c:260-278 | A thread that shrinks below that size frees its parent's frames: the parent still maps each page to the frame it had, and the frame is unused if and only if the page is at or above the thread's new size |
| `VmLife.ShrinkAndFree` | Project_1/xv6-riscv/kernel/vm.c:246-258 | That through uvmshare and uvmdealloc; when the parent's teardown frees such a page, the free list holds its frame twice |
| `VmLife.ProcessConserves` | Project_1/xv6-riscv/kernel/proc.c:282-330 | From uvmcopy over any life to the teardown of a process, exactly the frames in use before are in use after, and other maps are untouched |
| `VmSystem.StepExactly` | Project_1/xv6-riscv/kernel/proc.c:158-330 | Each fork, clone, growth, fault, shrinking or reaping by any address space keeps the page accounts (every mapped page in use, every user page in use mapped) if and only if its guard holds |
| `VmSystem.RunExactly` | Project_1/xv6-riscv/kernel/proc.c:158-330 | Over every run of all address spaces the accounts are good throughout if and only if every guard holds |
| `VmSystem.DisciplineSuffices` | Project_1/xv6-riscv/kernel/proc.c:337-392 | If threads keep their size and processes neither shrink nor are reaped while they have threads, no page leaks and none is freed while mapped, however the requests interleave |
| `VmSystem.ProcessesAreSafe` | Project_1/xv6-riscv/kernel/proc.c:282-330 | Runs without clone keep good accounts, whatever the processes ask for |
| `VmSystem.ReapedUnderThread` | Project_1/xv6-riscv/kernel/proc.c:160-172 | A process reaped while a thread it cloned still runs leaves the thread mapping pages that are free |
| `VmSystem.SoundOwns` | Project_1/xv6-riscv/kernel/vm.c:192-212 | With good accounts every address space owns its frames, which is what unmapping with freeing needs |
| `VmSystem.Kernel.Kfork` | Project_1/xv6-riscv/kernel/proc.c:282-300 | Is the fork request: the child has copies in frames of its own, or nothing changed; it fails if and only if the free frames are fewer than the parent's mapped pages and the tables the child is missing for them |
| `VmSystem.Kernel.Kclone` | Project_1/xv6-riscv/kernel/proc.c:337-358 | Is the clone request: the thread maps the same frames, or nothing changed; it fails if and only if the free frames are fewer than the tables the thread is missing |
| `VmSystem.Kernel.Growproc` | Project_1/xv6-riscv/kernel/proc.c:258-278 | Growing fails if and only if the address space or the free frames do not suffice for the new pages and their tables, and keeps the accounts; shrinking keeps them if and only if nobody else maps what goes; zero, or a size below zero, changes nothing |
| `VmSystem.Kernel.Freeproc` | Project_1/xv6-riscv/kernel/proc.c:158-182 | Keeps the accounts if and only if a thread leaves nothing of its own behind and a process nothing that others map |
| `Vm.Memory.Kalloc` | Project_1/xv6-riscv/kernel/kalloc.c:68-82 | Gives a page that was free, or fails exactly when none is |
| `Vm.Memory.Kfree` | Project_1/xv6-riscv/kernel/kalloc.c:46-63 | Puts the page on the free list, which still holds exactly the unused pages, each once, if and only if the page was in use |
| `Vm.Memory.UvmCreate` | Project_1/xv6-riscv/kernel/vm.c:176-187 | A new table that maps nothing, or failure exactly when no frame is free; no other table and no data page changes |
| `Vm.Memory.Walk` | Project_1/xv6-riscv/kernel/vm.c:97-115 | Finds the leaf table of a page, allocating exactly the tables that are missing on the way; fails if and only if there are fewer free frames than that; no mapping changes |
| `Vm.Memory.MapPages` | Project_1/xv6-riscv/kernel/vm.c:145-174 | Maps exactly the pages asked for, in order, up to the first failure; runs out of memory exactly when the tables missing up to there are more than the free frames; no other lookup changes |
| `Vm.Memory.UvmUnmap` | Project_1/xv6-riscv/kernel/vm.c:192-212 | Unmaps exactly the range and frees exactly its pages, when asked to |
| `Vm.Memory.UvmAlloc` | Project_1/xv6-riscv/kernel/vm.c:216-240 | Success adds fresh zeroed pages and takes exactly their frames and their missing tables; it fails if and only if those are not all there, and restores every map and data page |
| `Vm.Memory.UvmDealloc` | Project_1/xv6-riscv/kernel/vm.c:246-258 | Removes and frees exactly the pages above the new size |
| `Vm.CopyBound` | Project_1/xv6-riscv/kernel/vm.c:296-355 | Three free frames for each page are always enough to copy an address space, two to share it |
| `PageTable.CostIs` | Project_1/xv6-riscv/kernel/vm.c:97-115 | What a range of mappings takes is one frame for each page and one for each distinct table that is missing |
| `PageTable.WalkedIs` | Project_1/xv6-riscv/kernel/vm.c:97-115 | A walk adds to a root the tables of the page walked to and no other |
| `Vm.Memory.UvmCopy` | Project_1/xv6-riscv/kernel/vm.c:296-324 | Success gives equal contents and permissions on fresh disjoint pages; it fails if and only if the free frames are fewer than the mapped pages and the child's missing tables, and restores everything |
| `Vm.Memory.UvmShare` | Project_1/xv6-riscv/kernel/vm.c:330-355 | Success maps the same physical pages; it fails if and only if the free frames are fewer than the child's missing tables, and restores every map; no data page changes hands |
| `Vm.Memory.Freewalk` | Project_1/xv6-riscv/kernel/vm.c:262-278 | Frees exactly the table pages of the tree, and panics exactly when a leaf is left |
| `Vm.Memory.UvmFree` | Project_1/xv6-riscv/kernel/vm.c:282-288 | Returns every user page and table page of the tree once, and nothing else |
| `Vm.Memory.ProcFreePagetable` | Project_1/xv6-riscv/kernel/proc.c:220-239 | Teardown of a process returns its pages; of a thread, its table pages only |
| `Fs.GetSet` | Project_1/xv6-riscv/kernel/fs.c:405-444 | A word stored in an indirect block is read back, and its neighbours are untouched |
| `Fs.AttachSound` | Project_1/xv6-riscv/kernel/fs.c:405-444 | Attaching a fresh block keeps exact ownership: set bits are the metadata and each block is named by one slot |
| `Fs.PutByteAt` | Project_1/xv6-riscv/kernel/fs.c:528-562 | Writing into one file's block changes those bytes of that file and no byte of any other |
| `Fs.WriteIsOverwrite` | Project_1/xv6-riscv/kernel/fs.c:528-562 | The chunk writes together overwrite or extend one byte sequence, cut to the count that is reported |
| `FsCode.LandedExactly` | Project_1/xv6-riscv/kernel/fs.c:539-551 | When only part of the source can be read, the write leaves the bytes it reports and no others if and only if the rest of the readable part falls beyond the end of the file or changes nothing |
| `FsCode.FileSystem.SpillOne` | Project_1/xv6-riscv/kernel/fs.c:545-548 | writei of two bytes of which the second cannot be read reports 0 and has changed the file |
| `Fs.TruncatedSound` | Project_1/xv6-riscv/kernel/fs.c:448-476 | A truncated file is empty, ownership stays exact and other files are untouched |
| `Fs.FreedNext` | Project_1/xv6-riscv/kernel/fs.c:92-106 | Each block itrunc frees is marked in use at that moment, so "freeing free block" cannot happen |
| `Fs.OverwriteTwice` | Project_1/xv6-riscv/kernel/file.c:148-173 | Consecutive overwrites compose to one |
| `FsCode.ChunkFits` | Project_1/xv6-riscv/kernel/file.c:148-160 | A chunk of filewrite logs at most MAXOPBLOCKS distinct blocks, wherever it starts |
| `FsCode.AccountBound` | Project_1/xv6-riscv/kernel/fs.c:528-562 | Before the inode is written, the distinct blocks a write has logged are under the bound for its offset and length |
| `FsCode.FileSystem.Balloc` | Project_1/xv6-riscv/kernel/fs.c:66-89 | Takes the first free block and zeroes it, or fails exactly when the disk is full |
| `FsCode.FileSystem.Bfree` | Project_1/xv6-riscv/kernel/fs.c:92-106 | Clears the bit, and panics exactly when it is clear already |
| `FsCode.FileSystem.Bmap` | Project_1/xv6-riscv/kernel/fs.c:405-444 | Returns the block of the n-th page of the file, attaching fresh ones, and 0 only on a full disk |
| `FsCode.FileSystem.Readi` | Project_1/xv6-riscv/kernel/fs.c:494-519 | Returns exactly the slice of the file's bytes and allocates nothing; fails exactly when a needed copy to user memory fails, having delivered a prefix |
| `FsCode.FileSystem.Writei` | Project_1/xv6-riscv/kernel/fs.c:528-562 | Overwrites or extends the file by the bytes that can be read, cut to the whole chunks among them, unless a new block is needed on a full disk; other files stay, the log bound holds, and every changed block is logged but for a chunk that failed |
| `FsCode.FileSystem.Itrunc` | Project_1/xv6-riscv/kernel/fs.c:448-476 | Frees exactly the blocks the file owned, without a panic, and logs every changed block |
| `FsCode.FileSystem.FileWrite` | Project_1/xv6-riscv/kernel/file.c:148-173 | The chunked loop writes a prefix of the data at the offset, and every log_write of every chunk finds fewer than MAXOPBLOCKS blocks logged by it |
| `Storage.ChunkNeverPanics` | Project_1/xv6-riscv/kernel/file.c:148-173 | Whatever other processes do in between, an operation that follows a chunk's trail of log_writes never panics in the log |
| `Storage.WordsAgree` | Project_1/xv6-riscv/kernel/fs.h:28-45 | The indirect block read as bytes and as 32-bit words is the same |
| `StorageImage.EveryStateHasADisk` | Project_1/xv6-riscv/kernel/fs.h:8-51 | Every file system state that fits the layout is what some disk holds: bytes, bitmap bits and inodes are stored and read back |
| `StorageImage.OneStatePerDisk` | Project_1/xv6-riscv/kernel/fs.h:8-51 | No disk holds two states that differ in a bit, an inode or a data block |
| `Storage.CrashKeepsSound` | Project_1/xv6-riscv/kernel/log.c:66-204 | Wherever the machine stops, the bitmap, inode and data blocks that recovery leaves read as a file system in which every block has one owner and every file all its blocks |
| `Storage.SavedAtCommit` | Project_1/xv6-riscv/kernel/log.c:194-204 | That file system is the one after the last operation that had ended at the last commit |
| `Storage.ChunkOp` | Project_1/xv6-riscv/kernel/file.c:148-173 | A chunk of filewrite is such an operation: all it changes is in the blocks it logs |
| `Storage.TruncOp` | Project_1/xv6-riscv/kernel/fs.c:448-476 | So is itrunc |
| `Grep.DenotesCons` | Project_1/xv6-riscv/user/grep.c:85-106 | A pattern's language is its first atom's words followed by the rest's |
| `Grep.HereIsBegins` | Project_1/xv6-riscv/user/grep.c:85-96 | matchhere's recursion accepts exactly the texts that begin with a word of the pattern |
| `Grep.StarIsBegins` | Project_1/xv6-riscv/user/grep.c:99-106 | A starred atom is tried for every run length |
| `Grep.MatchStar` | Project_1/xv6-riscv/user/grep.c:99-106 | The loop computes the recursive definition |
| `Grep.MatchHere` | Project_1/xv6-riscv/user/grep.c:85-96 | The code computes the recursive definition |
| `Grep.Match` | Project_1/xv6-riscv/user/grep.c:72-82 | True if and only if some substring is in the pattern's language, with the ^ and $ anchors |
| `Grep.ReadableWhenLinesFit` | Project_1/xv6-riscv/user/grep.c:11-35 | When every line fits the buffer, what the loop can see of the input has the same matching lines |
| `Grep.Scan` | Project_1/xv6-riscv/user/grep.c:21-29 | Prints exactly the matching complete lines in the buffer |
| `Grep.Round` | Project_1/xv6-riscv/user/grep.c:18-34 | One read and its scan keep the buffer equal to the unscanned tail of the input |
| `Grep.GrepLoop` | Project_1/xv6-riscv/user/grep.c:11-35 | The output is the same for every way the reads split the input |
| `SleepLock.StepKeepsInv` | Project_1/xv6-riscv/kernel/proc.c:669-714 | Every step of any process, a kill, a create, and a destroy of an idle lock keep lock ownership and the accounting of sleepers |
| `SleepLock.MutualExclusion` | Project_1/xv6-riscv/kernel/sleeplock.c:21-41 | After any interleaving, also of processes that acquire a lock they have, at most one process has the sleep lock |
| `SleepLock.NoLostWakeup` | Project_1/xv6-riscv/kernel/proc.c:669-714 | After any interleaving, a free lock whose spinlock is free has nobody asleep on it or about to be |
| `SleepLockRuns.AcquireAcquires` | Project_1/xv6-riscv/kernel/syslock.c:54-79 | However the others interleave, when acquire returns the caller has the lock and nobody else does; if the lock is not in use, nobody does |
| `SleepLockRuns.AcquireStep` | Project_1/xv6-riscv/kernel/sleeplock.c:21-31 | acquire returns if and only if it finds the lock free or, at the first test, unused; it goes to sleep if and only if it finds it held |
| `SleepLockRuns.ReleaseReleases` | Project_1/xv6-riscv/kernel/sleeplock.c:33-41 | An owner that has called release and is outside again without a new acquire does not have the lock |
| `SleepLockRuns.ReleaseWakesAll` | Project_1/xv6-riscv/kernel/syslock.c:83-110 | When the release of the owner returns, the lock is free and everybody who slept on it, or was about to, has been woken |
| `SleepLockRuns.WokenExactly` | Project_1/xv6-riscv/kernel/proc.c:700-742 | A sleeper is woken by kkill and by the wakeup of a release, and by nothing else |
| `SleepLockRuns.HandOver` | Project_1/xv6-riscv/kernel/sleeplock.c:21-41 | From every good state with an owner outside and a process asleep, there is a run, without a further call, kill or exit, in which the release of the one gives the other the lock |
| `SleepLock.NeverStuck` | Project_1/xv6-riscv/kernel/sleeplock.c:21-41 | While a process is inside the protocol some process can take a step |
| `SleepLock.SleepersHaveAnOwner` | Project_1/xv6-riscv/kernel/syslock.c:54-110 | If only sleepers are left inside, some process owns the lock, and it is outside and able to release it if and only if no process acquired the lock again while it had it and none exited with it |
| `SleepLock.RelockDeadlocks` | Project_1/xv6-riscv/kernel/syslock.c:54-82 | A process that acquires a user lock twice sleeps on a lock it owns and nothing can move |
| `SleepLock.ExitStrands` | Project_1/xv6-riscv/kernel/proc.c:453-493 | A process that exits with a user lock leaves a sleeper that nothing but a kill can move, without anybody relocking |
| `SleepLock.DestroyExactly` | Project_1/xv6-riscv/kernel/syslock.c:113-134 | Destroying a user lock keeps mutual exclusion and the wakeups in everything that follows if and only if no running process has it, sleeps on it or is on the way back from sleep |
| `SleepLock.DestroyBreaks` | Project_1/xv6-riscv/kernel/syslock.c:113-134 | Otherwise some run after it has two holders or a sleeper on a free lock |
| `SleepLock.DestroyLosesWakeup` | Project_1/xv6-riscv/kernel/syslock.c:113-134 | A run after which a destroyed lock is free and a process sleeps on it |
| `ExitWait.StepKeepsInv` | Project_1/xv6-riscv/kernel/proc.c:282-542 | Every step of fork, clone, exit, reparent, wait, join and kill keeps the whole invariant |
| `ExitWait.ParentsRun` | Project_1/xv6-riscv/kernel/proc.c:436-493 | After any interleaving every process but init has a parent, and every parent is running |
| `ExitWait.NoZombieBehindSleeper` | Project_1/xv6-riscv/kernel/proc.c:452-542 | When wait_lock is free nobody sleeps in kwait or waitx over a zombie child, or in kjoin over a zombie thread |
| `ExitWait.FreedOnceByParentOrInit` | Project_1/xv6-riscv/kernel/proc.c:497-542 | Each exited process is freed at most once, by the process that forked it or by init |
| `ExitWait.ZombieUntilFreed` | Project_1/xv6-riscv/kernel/proc.c:452-542 | An exited process stays a zombie in its slot under its own pid until the one event that frees it |
| `ExitWait.NoKidsMeansNone` | Project_1/xv6-riscv/kernel/proc.c:398-432 | A scan that found no child means there is none |
| `ExitWaitRuns.WaitReturnsExactly` | Project_1/xv6-riscv/kernel/proc.c:497-542 | A wait returns if and only if it frees a zombie child (thread, for kjoin), its copyout fails, or at the end of the table it is killed or has no child (thread) at all; in every other case at the end of the table it sleeps, and from nowhere else |
| `ExitWaitRuns.WaitFreesExactly` | Project_1/xv6-riscv/kernel/proc.c:506-530 | The pass that meets a zombie child frees that child and records it; every other pass goes on by one slot and frees nothing |
| `ExitWaitRuns.WokenExactly` | Project_1/xv6-riscv/kernel/proc.c:700-742 | A process asleep in wait is woken by kkill, by a child that exits, and init by an orphan; by nothing else |
| `ExitWaitRuns.KilledSleeperReturns` | Project_1/xv6-riscv/kernel/proc.c:719-742 | A process killed while it sleeps in wait does not sleep again before the wait returns |
| `ExitWaitRuns.ForkMakesChild` | Project_1/xv6-riscv/kernel/proc.c:282-331 | When fork or clone returns the child runs and has not run before, has the caller as parent and a pid nobody had, and is a thread exactly if clone made it |
| `ExitWaitRuns.CallEnds` | Project_1/xv6-riscv/kernel/proc.c:282-542 | Whatever the others do, a call of fork, exit, wait or join that goes on has taken no more steps of its own than a bound that only the table size decides |
| `ExitWaitRuns.WaitEnds` | Project_1/xv6-riscv/kernel/proc.c:398-542 | Within n + 4 steps of its own, in a table of n slots, a wait has returned or fallen asleep |
| `ExitWaitRuns.ExitEnds` | Project_1/xv6-riscv/kernel/proc.c:452-493 | exit does not return: the caller stays in it until it is a zombie, within a bounded number of steps of its own |
| `ExitWaitRuns.ReapRun` | Project_1/xv6-riscv/kernel/proc.c:282-542 | A run from boot: init forks and sleeps in wait, the child exits, init wakes up, frees it and returns |
| `ExitWaitRuns.PidsExactly` | Project_1/xv6-riscv/kernel/proc.c:124-160 | Every fork that finds a slot takes the next process identifier, also one that then fails |
| `ExitWait.KilledExactly` | Project_1/xv6-riscv/kernel/proc.c:719-742 | A slot's killed flag is set if and only if kkill hit the slot since it was last freed, in use or not |
| `ExitWait.BornKilled` | Project_1/xv6-riscv/kernel/proc.c:719-742 | After kkill(0) the next process in that slot is killed before it has run |
| `ExitWait.NeverStuck` | Project_1/xv6-riscv/kernel/proc.c:436-542 | While a process is inside the protocol and awake some process can take a step |
| `Dirs.CNamePad` | Project_1/xv6-riscv/kernel/fs.c:623-625 | A name field filled by strncpy reads back as the name |
| `Dirs.NameCmp` | Project_1/xv6-riscv/kernel/fs.c:566-570 | The comparison over at most DIRSIZ characters is equality of names |
| `Dirs.LookupIs` | Project_1/xv6-riscv/kernel/fs.c:574-598 | In a directory with distinct names every live entry is found under its name |
| `Dirs.DirLookup` | Project_1/xv6-riscv/kernel/fs.c:574-598 | The loop finds the first live entry with the name, or proves there is none |
| `Dirs.DirLink` | Project_1/xv6-riscv/kernel/fs.c:602-629 | A new name is refused exactly when it is taken or there is no space; otherwise it goes into the first free entry |
| `Dirs.BindIsLocal` | Project_1/xv6-riscv/kernel/fs.c:602-629 | The new entry changes the meaning of its own name alone and keeps names distinct |
| `Paths.SkipElem` | Project_1/xv6-riscv/kernel/fs.c:645-668 | Takes the first maximal run of non-slashes off the path, cut to DIRSIZ |
| `Paths.Namex` | Project_1/xv6-riscv/kernel/fs.c:674-707 | Resolves the elements of the path one by one, for nameiparent all but the last; a path that begins with a slash from the root whatever the current directory is, any other as if a path of the current directory stood in front; panics exactly where an element is looked up in a free inode |
| `Paths.ElementsJoin` | Project_1/xv6-riscv/kernel/fs.c:645-668 | The elements of two paths joined by a slash are those of the one and then those of the other |
| `Paths.RelativeIsAbsolute` | Project_1/xv6-riscv/kernel/fs.c:679-682 | A relative path means what the absolute one means that has any path of the current directory in front |
| `Paths.RelativeToCwd` | Project_1/xv6-riscv/kernel/fs.c:679-682 | On well-named trees, in particular with the path that getcwd gives |
| `Paths.ClimbResolves` | Project_1/xv6-riscv/kernel/sysfile.c:488-598 | The round trip: a path built for a directory resolves from the root to that directory, on any directory graph with proper, distinct names in each directory |
| `Paths.ChainClimbs` | Project_1/xv6-riscv/kernel/sysfile.c:508-574 | Where a chain of parents reaches the root getcwd succeeds, and where one reaches an inode whose ".." is free it panics, exactly when the path so far fits |
| `Paths.ClimbHasChain` | Project_1/xv6-riscv/kernel/sysfile.c:508-574 | There is no other way: a success has a chain to the root, a panic one to such an inode, so on a cycle it fails |
| `Paths.ClimbMono` | Project_1/xv6-riscv/kernel/sysfile.c:508-574 | More room never changes a path or a panic |
| `Paths.ClimbLoop` | Project_1/xv6-riscv/kernel/sysfile.c:503-574 | The right-to-left buffer holds exactly that path, its index never goes negative, and the loop ends |
| `Paths.GetCwd` | Project_1/xv6-riscv/kernel/sysfile.c:488-598 | Succeeds exactly when there is a path that fits, and the path names the current directory; panics exactly when the climb does |
| `TreePaths.ResolveIsSafe` | Project_1/xv6-riscv/kernel/fs.c:674-707 | Over a tree with exact link counts, no path from a linked directory makes namei or nameiparent panic, and what they find is allocated |
| `TreePaths.LinkedHasChain` | Project_1/xv6-riscv/kernel/sysfile.c:508-574 | There every linked directory has a chain of parents to the root |
| `TreePaths.LinkedClimbs` | Project_1/xv6-riscv/kernel/sysfile.c:508-574 | There sys_getcwd never panics in a linked directory, succeeds if and only if the path fits the buffer, and the path resolves to the directory |
| `TreePaths.RemovedClimbs` | Project_1/xv6-riscv/kernel/sysfile.c:519-556 | In a removed directory it fails while the parent is linked and panics once the parent is free |
| `TreePaths.RemovedCwdPanics` | Project_1/xv6-riscv/kernel/sysfile.c:534-534 | mkdir a; mkdir a/b; chdir a/b; unlink a/b; unlink a: every count stays exact, and sys_getcwd then panics in ilock |
| `Links.RaisedExactly` | Project_1/xv6-riscv/kernel/sysfile.c:138-147 | Counting a link keeps all counts exact, links on their way included, if and only if the count fits 16 bits |
| `Links.EnterExactly` | Project_1/xv6-riscv/kernel/sysfile.c:149-157 | Entering the name of a counted link keeps all counts exact if and only if the directory is itself linked |
| `Links.DroppedKeeps` | Project_1/xv6-riscv/kernel/sysfile.c:163-169 | The failure path takes the count back and keeps all counts exact |
| `Links.WithFileExactly` | Project_1/xv6-riscv/kernel/sysfile.c:245-302 | A new file keeps all counts exact if and only if its directory is linked |
| `Links.WithDirExactly` | Project_1/xv6-riscv/kernel/sysfile.c:245-302 | mkdir keeps all counts exact if and only if the directory is linked and its count has room |
| `Links.Adrift` | Project_1/xv6-riscv/kernel/sysfile.c:245-302 | mkdir in a removed directory makes the count of what its ".." names too small |
| `Links.NamedByLinked` | Project_1/xv6-riscv/kernel/fs.c:574-598 | What a linked directory names is allocated, and linked if it is a directory |
| `Links.NamedHasLink` | Project_1/xv6-riscv/kernel/sysfile.c:211-216 | What a live entry names has a link, so unlink's panic cannot happen |
| `Links.WithoutFileKeeps` | Project_1/xv6-riscv/kernel/sysfile.c:188-243 | Removing a file's name keeps all counts exact |
| `Links.EmptyHasOne` | Project_1/xv6-riscv/kernel/sysfile.c:173-186 | An empty directory has exactly one link |
| `Links.WithoutDirKeeps` | Project_1/xv6-riscv/kernel/sysfile.c:188-243 | Removing an empty directory keeps all counts exact, its parent's too, and leaves the parent linked |
| `Links.PutKeeps` | Project_1/xv6-riscv/kernel/fs.c:337-364 | Freeing an inode without links keeps all counts exact |
| `Links.LostFile` | Project_1/xv6-riscv/kernel/sysfile.c:245-302 | A concrete file made in a removed directory whose count is 1 while no name counts |
| `Links.LostDir` | Project_1/xv6-riscv/kernel/sysfile.c:245-302 | A concrete directory made in a removed directory after which the root's count is too small |
| `Links.CountOverflows` | Project_1/xv6-riscv/kernel/sysfile.c:145-147 | At 32767 links one more makes the count negative |
| `Links.WithFileNamed` | Project_1/xv6-riscv/kernel/sysfile.c:245-302 | A new file keeps the names in every directory proper and distinct, in a removed one too |
| `Links.WithDirNamed` | Project_1/xv6-riscv/kernel/sysfile.c:245-302 | So does mkdir |
| `Links.UnlinkedNamed` | Project_1/xv6-riscv/kernel/sysfile.c:188-243 | So does unlink |
| `LinksCode.IsDirEmpty` | Project_1/xv6-riscv/kernel/sysfile.c:173-186 | True exactly when every entry after the first two is free |
| `LinksCode.FileTree.Ialloc` | Project_1/xv6-riscv/kernel/fs.c:199-221 | The first free inode, or none when all are taken |
| `LinksCode.FileTree.LinkStart` | Project_1/xv6-riscv/kernel/sysfile.c:138-147 | Refuses a directory; otherwise counts the link, exactly unless the count overflows |
| `LinksCode.FileTree.LinkEnter` | Project_1/xv6-riscv/kernel/sysfile.c:149-157 | Whatever happened since, enters the name unless it is taken or there is no space; exact exactly in a linked directory |
| `LinksCode.FileTree.LinkUndo` | Project_1/xv6-riscv/kernel/sysfile.c:163-169 | Takes the count back and puts the inode, keeping the counts exact |
| `LinksCode.FileTree.Link` | Project_1/xv6-riscv/kernel/sysfile.c:123-170 | The three together: fails exactly when it should and then only puts the inode; otherwise adds one name and one to the count |
| `LinksCode.FileTree.Unlink` | Project_1/xv6-riscv/kernel/sysfile.c:188-243 | Always keeps the counts exact; removes exactly the named entry or changes nothing |
| `LinksCode.FileTree.Create` | Project_1/xv6-riscv/kernel/sysfile.c:245-302 | Makes the inode exactly when it can, else returns the existing file or 0 and changes nothing; panics exactly when the name leads to a free inode; a success is exact exactly in a linked directory with room |
| `LinksCode.FileTree.Ireclaim` | Project_1/xv6-riscv/kernel/fs.c:374-393 | Afterwards every allocated inode has a link, and linked ones are untouched |
| `Virtqueue.AtMostTwo` | Project_1/xv6-riscv/kernel/virtio_disk.c:201-213 | At most two requests are in flight, since chains are disjoint and take three descriptors each |
| `Virtqueue.HoldsPush` | Project_1/xv6-riscv/kernel/virtio_disk.c:271-277 | Adding to a ring that is not full overwrites no entry the other side has yet to read |
| `Virtqueue.SeenAll` | Project_1/xv6-riscv/kernel/virtio_disk.c:312-324 | The driver's 16-bit test for new completions is exact across wrap-around |
| `Virtqueue.CompleteDoes` | Project_1/xv6-riscv/kernel/virtio_disk.c:235-269 | What the device finds in a chain is the request that was posted |
| `Virtqueue.PhaseMoves` | Project_1/xv6-riscv/kernel/virtio_disk.c:215-327 | A request is posted, taken, completed, seen and finished in that order, each by its own step |
| `VirtqueueRuns.ReturnsServed` | Project_1/xv6-riscv/kernel/virtio_disk.c:215-327 | Over every run, between the posting of a request and the return of virtio_disk_rw the device completed that request exactly once, with status 0; a read returns with the block, a write has stored the buffer |
| `Virtqueue.RunKeepsGood` | Project_1/xv6-riscv/kernel/virtio_disk.c:156-327 | Over every run chains stay disjoint, rings intact and at most two requests in flight |
| `VirtqueueCode.VirtioDisk.AllocDesc` | Project_1/xv6-riscv/kernel/virtio_disk.c:156-166 | Takes the first free descriptor, or fails exactly when none is free |
| `VirtqueueCode.VirtioDisk.FreeDesc` | Project_1/xv6-riscv/kernel/virtio_disk.c:169-182 | Clears and frees one descriptor that is in use |
| `VirtqueueCode.VirtioDisk.Alloc3Desc` | Project_1/xv6-riscv/kernel/virtio_disk.c:201-213 | Takes three distinct free descriptors, or changes nothing when fewer are free |
| `VirtqueueCode.VirtioDisk.FreeChain` | Project_1/xv6-riscv/kernel/virtio_disk.c:185-197 | Frees exactly the three descriptors of the chain |
| `VirtqueueCode.VirtioDisk.Start` | Project_1/xv6-riscv/kernel/virtio_disk.c:215-281 | Posts the request on a fresh chain, or reports that it must wait |
| `VirtqueueCode.VirtioDisk.IntrTurn` | Project_1/xv6-riscv/kernel/virtio_disk.c:312-324 | Sees the oldest completed request, and panics exactly when the device reported failure |
| `VirtqueueCode.VirtioDisk.Intr` | Project_1/xv6-riscv/kernel/virtio_disk.c:294-327 | While the device adds nothing every completed request is seen, or one of them failed |
| `VirtqueueCode.VirtioDisk.End` | Project_1/xv6-riscv/kernel/virtio_disk.c:283-291 | Runs only after the device completed this very request, and frees its chain without a panic |
| `VirtqueueCode.VirtioDisk.DeviceTake` | Project_1/xv6-riscv/kernel/virtio_disk.c:271-277 | A conforming device finds the oldest posted request intact |
| `VirtqueueCode.VirtioDisk.DeviceComplete` | Project_1/xv6-riscv/kernel/virtio_disk.c:235-269 | A conforming device carries out the chain it finds and reports it in the used ring |
| `Pipe.WrapTests` | Project_1/xv6-riscv/kernel/pipe.c:88-113 | The 32-bit tests for full and empty are exact |
| `Pipe.PipeBuffer.Write` | Project_1/xv6-riscv/kernel/pipe.c:76-103 | Appends a prefix of the source, blocks only when 512 bytes are pending, and fails exactly when nobody can read or the writer is killed, keeping what it appended |
| `Pipe.PipeBuffer.Read` | Project_1/xv6-riscv/kernel/pipe.c:105-134 | Delivers the oldest unread bytes, so all bytes read are a prefix of all bytes written |
| `Pipe.CloseEndsStream` | Project_1/xv6-riscv/kernel/pipe.c:58-74 | After the write end is closed, any series of reads delivers what was pending, in order, without blocking, and every read after that reports 0 |
| `Pipe.CloseRefusesWrites` | Project_1/xv6-riscv/kernel/pipe.c:58-103 | After the read end is closed, whatever anybody does, nothing more gets into the pipe and every write fails |
| `Pipe.StreamIsExact` | Project_1/xv6-riscv/kernel/pipe.c:58-134 | First in, first out: over any series of calls, what was pending and what the writes put in is, byte for byte, what the reads hand out and what is then pending |
| `Pipe.StreamIsKept` | Project_1/xv6-riscv/kernel/pipe.c:76-134 | Over any series of calls what was written stays, and what was read is a prefix of it at most 512 bytes behind |
| `PipeSleep.StepExactly` | Project_1/xv6-riscv/kernel/pipe.c:76-134 | Each turn of any process, also a kill, keeps "no reader sleeps on pending bytes or a closed write end, no writer on room or a closed read end" if and only if it is not a killed writer walking away from a sleeping reader |
| `PipeSleep.RunExactly` | Project_1/xv6-riscv/kernel/pipe.c:58-134 | So over whole runs |
| `PipeSleep.SleepersHaveReason` | Project_1/xv6-riscv/kernel/pipe.c:76-134 | After such runs sleepers have a reason to sleep, and never on both sides |
| `PipeSleep.NeverStuck` | Project_1/xv6-riscv/kernel/pipe.c:76-134 | While somebody is inside and awake, somebody can go on |
| `PipeRuns.WriteReturnsExactly` | Project_1/xv6-riscv/kernel/pipe.c:76-104 | A write returns if and only if it is done, the read end is closed, it is killed or its copyin fails; it sleeps if and only if there is more to write and the pipe is full |
| `PipeRuns.ReadReturnsExactly` | Project_1/xv6-riscv/kernel/pipe.c:106-134 | A read returns if and only if it is killed at an empty open pipe, has copied all it wants or all there is, or its copyout fails; it sleeps if and only if the pipe is empty and open and it is not killed |
| `PipeRuns.WokenExactly` | Project_1/xv6-riscv/kernel/pipe.c:58-134 | A sleeper is woken by kkill, by the wakeup or the close of the other side, and by nothing else |
| `PipeRuns.BytesConserved` | Project_1/xv6-riscv/kernel/pipe.c:76-134 | At every moment of every run the bytes pending are those written less those read |
| `PipeRuns.WriteFeedsReader` | Project_1/xv6-riscv/kernel/pipe.c:76-134 | From every good state a sleeping reader gets the next byte that anybody writes, and returns |
| `PipeRuns.ReadFreesWriter` | Project_1/xv6-riscv/kernel/pipe.c:76-134 | A writer asleep on a full pipe goes on as soon as anybody has read a byte |
| `PipeRuns.CloseEndsReader` | Project_1/xv6-riscv/kernel/pipe.c:58-134 | Closing the write end makes a sleeping reader return |
| `PipeRuns.CloseEndsWriter` | Project_1/xv6-riscv/kernel/pipe.c:58-104 | Closing the read end makes a sleeping writer return |
| `PipeRuns.CallMoves` | Project_1/xv6-riscv/kernel/pipe.c:76-134 | Within a call the bytes it has moved and those it has left make up what it was asked for |
| `PipeSleep.KilledWriterStrands` | Project_1/xv6-riscv/kernel/pipe.c:82-88 | The run: a writer killed after one byte of two leaves a reader asleep on a pending byte |
| `Console.ConsoleBuffer.Intr` | Project_1/xv6-riscv/kernel/console.c:141-185 | Editing keys change only the uncommitted line; a full buffer is committed; indices stay within 128 modulo 2^32 |
| `Console.ConsoleBuffer.KillLine` | Project_1/xv6-riscv/kernel/console.c:150-156 | Control-U empties the line, which never holds a newline |
| `Console.ConsoleBuffer.Read` | Project_1/xv6-riscv/kernel/console.c:85-133 | Delivers committed characters in order and takes exactly those out, the one whose copy fails and an end-of-file mark that comes first |
| `Console.ReadsALine` | Project_1/xv6-riscv/kernel/console.c:85-133 | What is delivered is at most a line without end-of-file marks, and the read stops for the right reason |
| `Console.FaultExactly` | Project_1/xv6-riscv/kernel/console.c:116-119 | A read stops at a failed copy if and only if the user buffer ends before the line, the mark, the request and the input do |
| `Console.LosesExactly` | Project_1/xv6-riscv/kernel/console.c:116-119 | A character is lost if and only if a copy fails |
| `Console.LosesOne` | Project_1/xv6-riscv/kernel/console.c:116-119 | A concrete read that delivers one character and takes two |
| `BufferCache.FrontLinked` | Project_1/xv6-riscv/kernel/bio.c:126-134 | Moving a buffer to the front keeps the list a cycle both ways |
| `BufferCache.FrontPlaced` | Project_1/xv6-riscv/kernel/bio.c:126-134 | It keeps every buffer in the list exactly once |
| `BufferCache.FrontOrdered` | Project_1/xv6-riscv/kernel/bio.c:126-134 | It keeps the list in order of last release |
| `BufferCache.Cache.constructor` | Project_1/xv6-riscv/kernel/bio.c:36-53 | Builds the cycle over all buffers |
| `BufferCache.Cache.FindCached` | Project_1/xv6-riscv/kernel/bio.c:64-73 | The forward scan finds the block if any buffer holds it |
| `BufferCache.Cache.FindUnused` | Project_1/xv6-riscv/kernel/bio.c:75-87 | The backward scan finds the unused buffer released longest ago |
| `BufferCache.Cache.Bget` | Project_1/xv6-riscv/kernel/bio.c:58-89 | Finds the block's one buffer or recycles the unused one released longest ago, never a pinned one; panics exactly when there is neither |
| `BufferCache.Cache.Fill` | Project_1/xv6-riscv/kernel/bio.c:92-103 | A locked buffer ends up with valid contents, read from disk only if it had none |
| `BufferCache.Cache.Bwrite` | Project_1/xv6-riscv/kernel/bio.c:106-112 | Writes the buffer's own block and makes no other buffer stale |
| `BufferCache.Cache.Unlock` | Project_1/xv6-riscv/kernel/bio.c:116-122 | Unlocked buffers equal the disk unless pinned |
| `BufferCache.Cache.Brelse` | Project_1/xv6-riscv/kernel/bio.c:124-137 | Whatever others did since the unlock, the reference goes, and the last one moves the buffer to the front |
| `BufferCache.Cache.Bpin` | Project_1/xv6-riscv/kernel/bio.c:139-144 | A pin is a reference |
| `BufferCache.Cache.Bunpin` | Project_1/xv6-riscv/kernel/bio.c:146-151 | The holder gives the pin back |
| `Shell.RenderTokens` | Project_1/xv6-riscv/user/sh.c:284-327 | The tokens of a rendered command are its spelling |
| `Shell.LineSpell` | Project_1/xv6-riscv/user/sh.c:363-465 | Parsing a spelled command gives the command and leaves what follows |
| `Shell.RoundTrip` | Project_1/xv6-riscv/user/sh.c:346-465 | Every tree over proper words parses back from its text with all parentheses; exactly those with more than nine arguments are refused |
| `ShellGrammar.WrapIs` | Project_1/xv6-riscv/user/sh.c:393-416 | One node for each redirection, the first of the line innermost, each with its own file and mode |
| `ShellGrammar.GrammarParses` | Project_1/xv6-riscv/user/sh.c:346-465 | Every line of words, redirections before, between and after them, blocks, pipelines, & and ; parses to its meaning; exactly those with more than nine words to a command are refused |
| `ShellGrammar.ParsesExactly` | Project_1/xv6-riscv/user/sh.c:346-465 | And no other line is accepted: the parser accepts exactly the lines of the grammar |
| `ShellGrammar.TokensSplit` | Project_1/xv6-riscv/user/sh.c:284-327 | The tokens of a text are those of its parts wherever it is cut outside a word and a >>; white space counts for nothing |
| `ShellGrammar.TypedParses` | Project_1/xv6-riscv/user/sh.c:346-465 | A line over proper words, typed with no parentheses but its own, parses to its meaning |
| `ShellCode.GetToken` | Project_1/xv6-riscv/user/sh.c:284-327 | Takes exactly the first token, with the place of a word |
| `ShellCode.Peek` | Project_1/xv6-riscv/user/sh.c:329-339 | Tests the first token and skips only white space |
| `ShellCode.ParseRedirs` | Project_1/xv6-riscv/user/sh.c:393-416 | Collects, in order, the redirections the grammar has here |
| `ShellCode.ParseArgs` | Project_1/xv6-riscv/user/sh.c:434-465 | Agrees with the grammar, with the limit on arguments |
| `ShellCode.ParseTheExec` | Project_1/xv6-riscv/user/sh.c:434-465 | Agrees with the grammar: a block or a simple command |
| `ShellCode.ParseTheBlock` | Project_1/xv6-riscv/user/sh.c:418-432 | Agrees with the grammar |
| `ShellCode.ParseThePipe` | Project_1/xv6-riscv/user/sh.c:380-391 | Agrees with the grammar |
| `ShellCode.ParseTheLine` | Project_1/xv6-riscv/user/sh.c:363-378 | Agrees with the grammar; the mutual recursion ends because the rest of the line shrinks |
| `ShellCode.ParseTheCmd` | Project_1/xv6-riscv/user/sh.c:346-361 | Accepts a line if and only if its tokens are those of a line of the grammar, and gives that line's meaning |
| `ShellCode.NulTerminate` | Project_1/xv6-riscv/user/sh.c:468-512 | Puts a NUL after every word and writes inside none |
| `ShellCode.ReadsAs` | Project_1/xv6-riscv/user/sh.c:468-512 | Afterwards every word reads as exactly its token |

## Left out

- HeapCode.Allocator.Malloc: requests whose units times 16 do not fit an `int`; `MorecoreOwnsItsBlock` says what happens to them.
- FsCode.FileSystem.Writei: blocks have one content, seen through the cache; bytes that a failed copy left in a buffer without logging it are not told apart from the disk's.
- BufferCache.Cache.Unlock: the client has left the buffer as the disk has it or in the log; a failed copy in writei does not.
- LinksCode.FileTree.Create: device numbers; a device node counts as a file.
- Paths.GetCwd: the copy of the path to user memory.
- SleepLock.MutualExclusion: for a user lock id, runs whose destroys find the lock idle; `DestroyExactly` is about the others.
- VmLife.ThreadTeardown: other address spaces stand still meanwhile; `VmSystem` lets them all act.
- VmSystem.RunExactly: exec, which replaces a whole address space, and the trapframe pages, which count as the kernel's.
- Storage.CrashKeepsSound: operations of the file system that overlap in time; in the log itself they do.
- Vm.Memory.Kalloc: the free list is a sequence of page numbers, not links inside the pages.
- ExitWait.StepKeepsInv: wrap-around of process identifiers and the timing fields of waitx.
- VirtqueueCode.VirtioDisk.DeviceComplete: a request that fails moves no data; the interrupt handler then panics.
- copyin, copyout and copyinstr of kernel/vm.c: thin loops over walk; the lazy page fault is a one-page growth in `VmLife`.
- iget, ilock and the reference counts of the inode table: the model frees an inode when told that nobody holds it.
- PipeSleep.RunExactly: file reference counts, so either end may be closed at any time.
- User files in kernel/file.c other than the write loop: reference counting only.
- kernel/exec.c, kernel/trap.c, kernel/syscall.c, kernel/sysproc.c: dispatch and format plumbing.
- kernel/sysshm.c: attachments outside the process size, with a table that overflows silently.
- kernel/spinlock.c: memory ordering and interrupts.
- kernel/virtio_disk.c device discovery and queue set-up, kernel/uart.c, kernel/plic.c, assembly: hardware registers.
- mkfs/mkfs.c: a well-formed image is the starting point.
- user/sh.c runcmd and the other user programs; all of Project_2: thin loops over system calls.
