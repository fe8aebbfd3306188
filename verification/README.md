# Verification of the systems-lab programs

Models and proofs for six programs of the repository: the SFS file system with its
checker and its baseline variant, the segregated-fit allocator, the cache simulator, the
cache-friendly transposes, the caching proxy's object cache and the tiny shell's job
control.  `dafny verify dfyconfig.toml` checks everything.

## SFS

An image is a sequence of blocks with headers (`prev`, `next`, type), data and directory
entries.  `SfsChains` says what a well-formed list is and that all blocks are partitioned
into the free list, the directory chain and one chain per file; it proves that every way
the code takes lists apart and joins them keeps that.  `SfsContents` and `SfsTransfer` lay
byte strings out over 500-byte blocks.  `SfsSpec` is the abstract file system: named slots,
files as byte strings, descriptors with positions.  `SfsRep` and the `...Steps` modules
relate the two, and the class `Disk` in `SfsDisk` is the imperative code, each operation
proved to compute the abstract one.  `SfsEffects` says what each abstract operation does
without the functions that compute it: which bytes, positions, names, blocks and codes there
are afterwards, for every state and argument, and so for every run.  `SfsRuns`, `SfsLaws`, `SfsNames` and `SfsListing` prove
what users rely on; `SfsFsck`, `SfsImage` and `SfsSession` add the checker, mounting and
whole runs.

`SfsThreads` models any number of threads as a state machine whose steps lie between lock
operations, with chains that a thread has allocated and not yet linked.  The locks a thread
holds follow from where it is.  `SfsThreadLocks`, `SfsThreadChains`, `SfsInterleaving` and
`SfsDeadlock` prove exclusion, ownership, protection and freedom from deadlock.

`SfsSerial` is about what the threads read and write: bytes, sizes and positions, moved in
pieces of any length under the locks.  `SfsSerialSteps` has the invariant, `SfsSerialOps` the
single operations and `SfsSerialRuns` the result: reading, writing, seeking, truncating and
asking by any number of threads is linearizable with respect to `SfsSpec`.

`SfsBaseline` is the baseline: the same disk, but each descriptor caches its file's first
block and the block of its position.  `SfsCached` says when these are right.  The baseline
opens files in another order than the main implementation: it extends the directory before
it looks for a descriptor.  `SfsBaselineRuns.OpenAgrees` gives the exact case where a caller
can see that.

Four properties one might expect are false.  Each has its exact condition and a run that
reaches the failing case.  An image in use is not always accepted by the checker, as blocks
of unlinked open files look lost (`SfsImage.AcceptedIff`, `SfsCases.OrphanReached`).  The
baseline does not always open files like the main implementation
(`SfsBaselineRuns.OpenAgrees`, `SfsCases.DifferenceReached`).  The shell's `fg` command can
miss the wakeup that eval's wait cannot miss (`ShellWakeups.FgMissesIff`, `FgMissesWakeup`),
and ctrl-C does not always reach the job `fg` waits for (`ShellWakeups.FgSignalsIff`,
`FgSignalsLost`).

## Allocator

`MmBlocks` has the blocks that tile the heap, `MmWords` their headers, footers and rings as
words in memory, `MmRings` the ring updates, `MmLive` the payloads, `MmFit` the search,
`MmSteps` and `MmMoves` the ways the code lays the heap out anew.  The class `Heap` in
`MmHeap` is the code.  Between operations the blocks tile prologue to epilogue, sizes are
multiples of 8 and at least 16, prev-alloc bits and footers are right, no two free blocks
are adjacent, and each free block is in the ring of its class and in no other.  `MmTrace`
runs programs against it.

## Smaller programs

`CacheLru` is a cache as recency lists, with the stack property; `CacheReuse` says which
accesses hit in terms of block numbers alone; `CacheSim` is the simulator with its counters.  `Transpose` works on two matrices.  `ProxyCache` keeps objects in a list
with stamps; threads interleave between its locked phases.  `ShellJobs` is the job table,
`ShellProtocol` the interleaving of main line, SIGCHLD handler and kernel; `ShellWakeups`
says which news reaches whom: eval always, and `fg` exactly when.

## Model

| member | source | states |
|---|---|---|
| `SfsDisk.Disk.AllocateBlocks` | SFS_Lab/sfslab/sfs-disk.c:154-198 | With at least n > 0 free blocks the first n of the free list, in order, become a chain of their own with the new type, and 0 is returned and nothing changes otherwise; all lists stay doubly linked and disjoint |
| `SfsDisk.Disk.FreeBlocks` | SFS_Lab/sfslab/sfs-disk.c:204-235 | The part of a file's chain from its k-th block on, for any k, goes to the front of the free list and is cut off the chain; every list stays doubly linked and correctly tagged |
| `SfsDisk.Disk.FileBlockAt` | SFS_Lab/sfslab/sfs-disk.c:254-263 | The walk ends at the index-th block of the chain |
| `SfsDisk.Disk.BlockForPosition` | SFS_Lab/sfslab/sfs-disk.c:287-295 | The block whose index is ceil(position/500) - 1, the first block for position 0, and 0 for a file without blocks |
| `SfsDisk.Disk.ZeroFileRange` | SFS_Lab/sfslab/sfs-disk.c:265-285 | Exactly the bytes of the range become 0, across block boundaries; every other byte of every block stays |
| `SfsDisk.Disk.CopyOut` | SFS_Lab/sfslab/sfs-disk.c:645-672 | The copying loop yields the bytes of the file from the position on and ends in the block for the end position |
| `SfsDisk.Disk.CopyIn` | SFS_Lab/sfslab/sfs-disk.c:736-780 | The copying loop overwrites exactly the given range of the file, links the reserved chain when it reaches the end of the file's own blocks, and ends in the block for the end position |
| `SfsDisk.Disk.Read` | SFS_Lab/sfslab/sfs-disk.c:607-679 | The block-level read computes the abstract one, and it returns as many bytes as were asked for, or as remain if those are fewer: the file's bytes from the position on; only this descriptor moves, by that number |
| `SfsDisk.Disk.Write` | SFS_Lab/sfslab/sfs-disk.c:681-793 | The block-level write computes the abstract one: overwrite or extend all-or-nothing, -EFBIG and -ENOSPC included, over every split into blocks |
| `SfsDisk.Disk.Ftruncate` | SFS_Lab/sfslab/sfs-disk.c:808-916 | The block-level ftruncate computes the abstract one: a prefix or a zero-padded extension, every descriptor of the file clamped, blocks freed or taken |
| `SfsDisk.Disk.Seek` | SFS_Lab/sfslab/sfs-disk.c:928-952 | Seeking clamps position + delta to [0, size] for every integer delta |
| `SfsDisk.Disk.Fstat` | SFS_Lab/sfslab/sfs-disk.c:795-806 | The size of the descriptor's file, or -EBADF |
| `SfsDisk.Disk.Getpos` | SFS_Lab/sfslab/sfs-disk.c:918-926 | The descriptor's position, or -EBADF |
| `SfsDisk.Disk.FindDirectoryEntry` | SFS_Lab/sfslab/sfs-disk.c:402-451 | The entry of the name, or else the first free entry and the last directory block, over the superblock and the whole directory chain |
| `SfsDisk.Disk.AddOpenFileEntry` | SFS_Lab/sfslab/sfs-disk.c:306-371 | The lowest free descriptor refers to the entry's file at position 0, shared with other descriptors of that file, or -EMFILE; a free open-file slot always exists (the assertion at 342) |
| `SfsRep.OpenFileSlotFree` | SFS_Lab/sfslab/sfs-disk.c:330-342 | Pigeonhole: while a descriptor is free, some open-file slot is free, because every open file has a descriptor of its own |
| `SfsDisk.Disk.HasOpenFiles` | SFS_Lab/sfslab/sfs-disk.c:373-393 | True exactly if some descriptor is open, and then the assertion that no open-file entry is left (388) holds in the other case |
| `SfsDisk.Disk.ExpandDirectory` | SFS_Lab/sfslab/sfs-disk.c:453-467 | One free block becomes the last directory block, with empty slots only; no existing slot moves and no file changes its chain |
| `SfsDisk.Disk.UnlinkDirectoryEntry` | SFS_Lab/sfslab/sfs-disk.c:487-503 | The name goes; an open file keeps its entry privately and its blocks, any other file's blocks are freed; files that remain keep their chains |
| `SfsDisk.Disk.Open` | SFS_Lab/sfslab/sfs-disk.c:510-565 | Opening computes the abstract operation, with the order of its error checks |
| `SfsDisk.Disk.Close` | SFS_Lab/sfslab/sfs-disk.c:567-605 | Closing computes the abstract operation: orphan blocks are freed exactly at the last close |
| `SfsDisk.Disk.Remove` | SFS_Lab/sfslab/sfs-disk.c:954-983 | Removing computes the abstract operation |
| `SfsDisk.Disk.Rename` | SFS_Lab/sfslab/sfs-disk.c:985-1027 | Renaming computes the abstract operation, replacing a file of the new name |
| `SfsDisk.Disk.List` | SFS_Lab/sfslab/sfs-disk.c:1029-1128 | A call reports the first occupied slot from the cookie on if its name fits, and the cookie behind it; with every other status, for each of which the exact condition is given, the cookie is reset |
| `SfsDisk.Disk.Format` | SFS_Lab/sfslab/sfs-support.c:99-162 | Formatting gives n - 1 free blocks in one list, an empty directory and nothing open |
| `SfsDisk.Disk.Unmount` | SFS_Lab/sfslab/sfs-support.c:232-253 | Unmounting succeeds exactly if nothing is open, and changes nothing else |
| `SfsChains.LinkedNoDup` | SFS_Lab/sfslab/sfs-disk.c:204-235 | Back pointers make a doubly linked list acyclic: no block occurs twice |
| `SfsChains.AllocOk` | SFS_Lab/sfslab/sfs-disk.c:154-198 | Taking n blocks off the free list keeps the partition of all blocks into well-formed lists |
| `SfsChains.FreeOk` | SFS_Lab/sfslab/sfs-disk.c:204-235 | Giving back the tail of a chain keeps the partition of all blocks into well-formed lists |
| `SfsChains.MergeOk` | SFS_Lab/sfslab/sfs-disk.c:736-780 | Linking one list behind, or in front of, another keeps the partition |
| `SfsContents.FlatWrite` | SFS_Lab/sfslab/sfs-disk.c:736-780 | Overwriting part of block i overwrites the file at 500*i + offset and nothing else |
| `SfsOpSteps.WriteOk` | SFS_Lab/sfslab/sfs-disk.c:681-793 | The representation relation carries over a write: tables, directory, chains and contents stand for the abstract state after it |
| `SfsOpSteps.ShrinkOk` | SFS_Lab/sfslab/sfs-disk.c:808-916 | The representation relation carries over a shrinking ftruncate |
| `SfsDirSteps.UnlinkOk` | SFS_Lab/sfslab/sfs-disk.c:487-503 | The representation relation carries over unlinking, for open and closed files |
| `SfsDirSteps.CloseOk` | SFS_Lab/sfslab/sfs-disk.c:567-605 | The representation relation carries over closing, with the reference counts |
| `SfsSpecProofs.WriteInv` | SFS_Lab/sfslab/sfs-disk.c:681-793 | Writing keeps the abstract invariant: unique names, positions inside files, sizes and block counts, every file named or open |
| `SfsSpecProofs.RenameInv` | SFS_Lab/sfslab/sfs-disk.c:985-1027 | Renaming keeps the abstract invariant |
| `SfsEffects.ReadEffect` | SFS_Lab/sfslab/sfs-disk.c:607-679 | A read returns r bytes with r equal to len or reaching the end of the file, the bytes from the position on, and moves only its descriptor, by r |
| `SfsEffects.WriteEffect` | SFS_Lab/sfslab/sfs-disk.c:681-793 | A write changes exactly the written bytes, pads nothing, extends the file if it reaches beyond its end, takes the fewest blocks that hold the result, and moves its descriptor; each error code exactly when the size limit or the free space does not allow it |
| `SfsEffects.TruncateEffect` | SFS_Lab/sfslab/sfs-disk.c:808-916 | After ftruncate the file has the given length, its old bytes as far as they go and zeros behind them, the fewest blocks that hold it, and no descriptor is beyond its end; each error code exactly when the size limit or the free space does not allow it |
| `SfsEffects.SeekEffect` | SFS_Lab/sfslab/sfs-disk.c:928-952 | Seeking goes to the position of the file nearest to where delta leads, and getpos then tells it |
| `SfsEffects.OpenEffect` | SFS_Lab/sfslab/sfs-disk.c:510-565 | Which of the error codes in which order, and otherwise the lowest free descriptor at the start of the named file, or of a new empty one in the lowest empty slot, in a new directory block if there is none |
| `SfsEffects.CloseEffect` | SFS_Lab/sfslab/sfs-disk.c:567-605 | The descriptor is free; its file goes, and its blocks become free, exactly if neither a name nor a descriptor refers to it any more |
| `SfsEffects.RemoveEffect` | SFS_Lab/sfslab/sfs-disk.c:954-983 | The name's slot is empty; its file goes exactly if no descriptor refers to it; the error codes exactly |
| `SfsEffects.RenameEffect` | SFS_Lab/sfslab/sfs-disk.c:985-1027 | The old name's slot has the new name, a slot that had the new name is empty, and its file goes exactly if no descriptor refers to it; the error codes exactly |
| `SfsEffects.ListEffect` | SFS_Lab/sfslab/sfs-disk.c:1029-1128 | For every cookie and buffer size: the first used slot from the cookie on, or the status that says why not, and then cookie 0 |
| `SfsEffects.ListSucceeds` | SFS_Lab/sfslab/sfs-disk.c:1029-1128 | Status 0 exactly if the disk is mounted and the first used slot from the cookie on has a name shorter than the buffer |
| `SfsEffects.UnmountEffect` | SFS_Lab/sfslab/sfs-support.c:232-253 | Refused exactly if something is open; otherwise only the disk is no longer mounted |
| `SfsEffects.RunDoes` | SFS_Lab/sfslab/sfs-disk.c:510-1128 | In every run each call has exactly the effect and the reply that the statements above give it |
| `SfsRuns.StepInv` | SFS_Lab/sfslab/sfs-disk.c:510-1128 | Every call keeps the abstract invariant |
| `SfsLaws.FailureChangesNothing` | SFS_Lab/sfslab/sfs-disk.c:607-1027 | A call that reports an error has changed nothing |
| `SfsLaws.OverwriteAt` | SFS_Lab/sfslab/sfs-disk.c:681-793 | Each byte after a write is the new one inside the written range and the old one outside; the length grows as needed |
| `SfsLaws.WriteReadBack` | SFS_Lab/sfslab/sfs-disk.c:607-793 | After a successful write, seeking back by its length and reading gives the written bytes and the same state |
| `SfsLaws.OtherFilesUntouched` | SFS_Lab/sfslab/sfs-disk.c:510-1027 | No call changes the bytes or blocks of a file other than its own; a file disappears only when no name and no descriptor refers to it |
| `SfsNames.RemoveNames` | SFS_Lab/sfslab/sfs-disk.c:954-983 | Removing succeeds exactly on names in the directory, takes just the name, and open descriptors keep their files |
| `SfsNames.RenameNames` | SFS_Lab/sfslab/sfs-disk.c:985-1027 | Renaming rebinds the new name to the old name's file and drops the old name, in one step |
| `SfsNames.OpenNames` | SFS_Lab/sfslab/sfs-disk.c:510-565 | Opening takes the lowest free descriptor, and binds a new name to a new empty file |
| `SfsListing.ListingStable` | SFS_Lab/sfslab/sfs-disk.c:1029-1128 | Whatever other calls come in between, a listing loop reports each file that stays in its slot exactly once |
| `SfsListing.ListingIncreases` | SFS_Lab/sfslab/sfs-disk.c:1029-1128 | The reported slots increase strictly |
| `SfsListing.SlotsStay` | SFS_Lab/sfslab/sfs-disk.c:402-467 | No call moves a file to another slot |
| `SfsListing.ListingAgain` | SFS_Lab/sfslab/sfs-disk.c:1123-1128 | After any call that reports no file, listing with the cookie it left reports every file that stays in its slot exactly once again |
| `SfsListing.RunConserves` | SFS_Lab/sfslab/sfs-disk.c:154-235 | Free blocks, file blocks and grown directory blocks add up to the same number after any run |
| `SfsFsck.CheckBlocklist` | SFS_Lab/sfslab/sfs-fsck.c:297-418 | Status 0 exactly if a well-formed list of unvisited blocks of the wanted type starts at first; then its blocks, and no others, are marked with the tag and counted |
| `SfsFsck.CheckName` | SFS_Lab/sfslab/sfs-fsck.c:494-534 | Reports an error exactly if the name is empty, not terminated, or followed by anything but NULs |
| `SfsFsck.CheckSuperblock` | SFS_Lab/sfslab/sfs-fsck.c:422-468 | Magic number, size, free list and directory chain, checked as parts of every possible partition of the image |
| `SfsFsck.CheckDirectoryEntries` | SFS_Lab/sfslab/sfs-fsck.c:472-608 | Accepted entries of one directory block extend the partition found so far, and a consistent image is never rejected |
| `SfsFsck.CheckForLostBlocks` | SFS_Lab/sfslab/sfs-fsck.c:651-682 | Status 0 exactly if every block was visited |
| `SfsFsck.Fsck` | SFS_Lab/sfslab/sfs-fsck.c:906-951 | Sound and complete: on an arbitrary image the checker terminates, stays inside it, and accepts exactly the images whose blocks are partitioned into well-formed lists with matching sizes and good names |
| `SfsFsck.ListUnique` | SFS_Lab/sfslab/sfs-fsck.c:297-418 | A well-formed list is determined by its first block |
| `SfsImage.AcceptedIff` | SFS_Lab/sfslab/sfs-fsck.c:906-951 | The image of a file system in use is accepted exactly if no block belongs to a file that is open but has no name |
| `SfsCases.OrphanReached` | SFS_Lab/sfslab/sfs-disk.c:487-503 | On a fresh file system, opening a new file, writing a byte and removing the file leaves a block that the checker takes for lost |
| `SfsImage.MountRep` | SFS_Lab/sfslab/sfs-support.c:164-230 | Mounting a consistent image with unique names gives a file system with one file for each occupied slot and nothing open |
| `SfsImage.RemountSame` | SFS_Lab/sfslab/sfs-support.c:164-253 | Unmounting and mounting again keeps every name, byte and block |
| `SfsSession.PerformAll` | SFS_Lab/sfslab/sfs-disk.c:510-1128 | Any sequence of calls on the block-level code is the run of the abstract file system, reply by reply |
| `SfsSession.Perform` | SFS_Lab/sfslab/sfs-disk.c:510-1128 | Each call on the block-level code has exactly the effect and the reply of SfsEffects |
| `SfsSession.CheckDisk` | SFS_Lab/sfslab/sfs-fsck.c:906-951 | Running the checker on a disk in use gives status 0 exactly if there are no orphan blocks |
| `SfsSession.WholeRun` | SFS_Lab/sfslab/sfs-support.c:99-253 | From formatting on, after any calls: unmounting succeeds exactly if nothing is open, and then the checker accepts the image |
| `SfsSession.Mount` | SFS_Lab/sfslab/sfs-support.c:164-230 | Mounting code on any consistent image with unique names reaches the state MountRep describes |
| `SfsSession.Cycle` | SFS_Lab/sfslab/sfs-support.c:164-253 | Unmount and mount, as code: refused exactly when something is open, and otherwise the same files |
| `SfsThreadLocks.GoLocks` | SFS_Lab/sfslab/sfs-disk.c:95-125 | Acquiring and releasing locks keeps all locks of different threads compatible |
| `SfsThreadLocks.CloseSeen` | SFS_Lab/sfslab/sfs-disk.c:567-605 | Closing one descriptor never removes the open-file entry that another thread reaches through a locked descriptor |
| `SfsThreadChains.LinkChains` | SFS_Lab/sfslab/sfs-disk.c:736-780 | Linking a chain in flight to its file keeps the partition of blocks |
| `SfsInterleaving.StepInv` | SFS_Lab/sfslab/sfs-disk.c:510-1128 | Every step of any thread keeps lock exclusion, the threads' knowledge, the tables' reference counts and the partition of blocks with chains in flight |
| `SfsInterleaving.RunInv` | SFS_Lab/sfslab/sfs-disk.c:510-1128 | All reachable states of any number of interleaved threads satisfy the invariant |
| `SfsInterleaving.BlocksOwned` | SFS_Lab/sfslab/sfs-disk.c:154-235 | At any moment of any interleaving every block is in exactly one list: free, directory, one known file, or in flight with one thread |
| `SfsInterleaving.DescriptorProtected` | SFS_Lab/sfslab/sfs-disk.c:607-793 | While a thread holds the lock of a live descriptor, no step of another thread frees that descriptor or its open file |
| `SfsInterleaving.ChainProtected` | SFS_Lab/sfslab/sfs-disk.c:607-916 | While a thread holds an open file's lock, no step of another thread changes the file's chain or its headers |
| `SfsInterleaving.Exclusive` | SFS_Lab/sfslab/sfs-disk.c:95-125 | In every reachable state the locks of two threads are compatible |
| `SfsDeadlock.InOrder` | SFS_Lab/sfslab/sfs-disk.c:95-125 | What a thread waits for ranks above every lock it holds: directory, table, descriptors by number, file |
| `SfsDeadlock.Waits` | SFS_Lab/sfslab/sfs-disk.c:115-125 | A waiting thread can go on unless another thread holds a lock of the rank it waits for |
| `SfsDeadlock.NoDeadlock` | SFS_Lab/sfslab/sfs-disk.c:510-1128 | In every reachable state with an unfinished operation some thread in the middle of an operation can make a step |
| `SfsSerialSteps.GoLocks` | SFS_Lab/sfslab/sfs-disk.c:607-952 | Taking the locks of a data operation, one at a time or for all descriptors of a file, keeps the locks of different threads apart |
| `SfsSerialRuns.NextInv` | SFS_Lab/sfslab/sfs-disk.c:607-952 | Every step of any thread keeps the invariant: wherever no operation is under way memory shows the abstract state, and each operation under way has as much left to do as makes it so |
| `SfsSerialRuns.Serial` | SFS_Lab/sfslab/sfs-disk.c:607-952 | Linearizability: at any moment of any interleaving of data operations there is an order of those that have taken effect in which the abstract file system, one whole operation after the other, gives every reply that a thread gives |
| `SfsSerialRuns.RealTime` | SFS_Lab/sfslab/sfs-disk.c:607-952 | The order respects real time: an operation that has returned comes before every one called later |
| `SfsSerialRuns.QuietMemory` | SFS_Lab/sfslab/sfs-disk.c:607-952 | When no operation is under way, the bytes, sizes, positions and number of free blocks are what the operations in that order make of the initial state |
| `SfsSerialRuns.RepliesRight` | SFS_Lab/sfslab/sfs-disk.c:607-952 | Every reply in an interleaving is, in the state where its operation takes effect, the one SfsEffects gives: so many bytes read, these bytes, this position |
| `SfsBaseline.Baseline.Read` | SFS_Lab/sfslab/sfs-baseline-ref.c:520-598 | Reading from the cached block gives the result of the recomputing version and leaves every cached pointer equal to what walking the chain yields |
| `SfsBaseline.Baseline.Write` | SFS_Lab/sfslab/sfs-baseline-ref.c:600-726 | Writing from the cached block, the adoption of a first block by all descriptors included, gives the result of the recomputing version and keeps the caches coherent |
| `SfsBaseline.Baseline.Ftruncate` | SFS_Lab/sfslab/sfs-baseline-ref.c:740-853 | Truncating gives the result of the recomputing version and keeps the caches of all descriptors of the file coherent |
| `SfsBaseline.Baseline.AddOpenFileEntry` | SFS_Lab/sfslab/sfs-baseline-ref.c:272-332 | A new descriptor caches the first block of its file, 0 for a file without blocks |
| `SfsBaseline.Baseline.Open` | SFS_Lab/sfslab/sfs-baseline-ref.c:420-487 | Opening computes OpenSpec and keeps the caches coherent; a file that cannot be opened is withdrawn from its slot |
| `SfsBaseline.Baseline.Close` | SFS_Lab/sfslab/sfs-baseline-ref.c:489-518 | Closing computes the abstract operation and keeps the other descriptors' caches coherent |
| `SfsBaseline.Baseline.Remove` | SFS_Lab/sfslab/sfs-baseline-ref.c:873-919 | Removing computes the abstract operation and keeps the caches coherent, also of the unlinked file |
| `SfsBaseline.Baseline.ClampAll` | SFS_Lab/sfslab/sfs-baseline-ref.c:828-848 | The last loop of ftruncate clamps positions and looks up the block of each moved descriptor in what is left of the chain |
| `SfsCached.GrowCoherent` | SFS_Lab/sfslab/sfs-baseline-ref.c:658-720 | Blocks appended to a file move no cached pointer, and the first blocks of an empty file are the start of all its descriptors |
| `SfsCached.CutCoherent` | SFS_Lab/sfslab/sfs-baseline-ref.c:828-848 | Cutting a file leaves pointers in front of the cut right, and recomputed ones right behind it |
| `SfsBaselineRuns.OpenAgrees` | SFS_Lab/sfslab/sfs-baseline-ref.c:441-487 | Baseline and recomputing version open alike exactly unless a new name meets full descriptors and a full directory |
| `SfsBaselineRuns.OpenCrowded` | SFS_Lab/sfslab/sfs-baseline-ref.c:441-487 | In that case the baseline reports the lack of space, or adds one block of empty slots and then reports the lack of descriptors |
| `SfsBaselineRuns.RunsAgree` | SFS_Lab/sfslab/sfs-baseline-ref.c:441-853 | Call by call, the two implementations have the same states and replies exactly if no opening meets that case |
| `SfsCases.DifferenceReached` | SFS_Lab/sfslab/sfs-baseline-ref.c:441-487 | Once as many names as there are directory slots have been opened on as many descriptors as there are, the two implementations still agree, and opening one new name more they differ |
| `SfsBaselineRuns.PerformAll` | SFS_Lab/sfslab/sfs-baseline-ref.c:441-1011 | After any run of the baseline all cached pointers are coherent and the replies are those of BaselineRun, and of the recomputing version where RunsAgree says so |
| `MmWords.ClassMonotone` | Malloc_Lab/malloclab-handout/mm.c:119-135 | Larger blocks have no smaller class |
| `MmWords.ClassBegins` | Malloc_Lab/malloclab-handout/mm.c:119-135 | Class k, for k from 1 on, begins at 5 + 16 * 2^(k-1) bytes |
| `MmHeap.Heap.FindIndex` | Malloc_Lab/malloclab-handout/mm.c:119-135 | The shifting loop computes the class |
| `MmHeap.Heap.Round` | Malloc_Lab/malloclab-handout/mm.c:96-110 | The doubling loop gives the least of 16, 32, 64, 128, 256 and 512 that holds the size; sizes up to 16 and above 512 are kept |
| `MmWords.RoundPayloadIs` | Malloc_Lab/malloclab-handout/mm.c:96-110 | The least class that holds the size is unique and is what the doubling computes |
| `MmHeap.Heap.InsertNode` | Malloc_Lab/malloclab-handout/mm.c:140-156 | The free block enters the ring of its class; all rings stay circular and doubly linked and no payload changes |
| `MmHeap.Heap.RemoveNode` | Malloc_Lab/malloclab-handout/mm.c:161-174 | The free block leaves its ring; all rings stay well formed and no payload changes |
| `MmHeap.Heap.Place` | Malloc_Lab/malloclab-handout/mm.c:180-197 | The free block becomes live, split if 16 bytes remain; every other live block and its data stay |
| `MmHeap.Heap.Coalesce` | Malloc_Lab/malloclab-handout/mm.c:203-240 | Merging with free neighbours restores that no two free blocks are adjacent, with all footers, prev-alloc bits and rings right |
| `MmHeap.Heap.ExtendHeap` | Malloc_Lab/malloclab-handout/mm.c:246-263 | A new free block at the end, merged with a free last block, or NULL exactly if memory is exhausted |
| `MmHeap.Heap.FindFit` | Malloc_Lab/malloclab-handout/mm.c:269-301 | NULL exactly if no free block of the whole heap fits; otherwise a smallest fitting one of the whole heap |
| `MmFit.SearchHit` | Malloc_Lab/malloclab-handout/mm.c:269-301 | The best fit of the first class that has one is the best fit of the whole heap |
| `MmHeap.Heap.Init` | Malloc_Lab/malloclab-handout/mm.c:306-330 | A well-formed heap with nothing live, or -1 exactly if memory is too small |
| `MmHeap.Heap.Sbrk` | Malloc_Lab/malloclab-handout/memlib.c:58-69 | The break moves exactly if the memory allows |
| `MmHeap.Heap.Malloc` | Malloc_Lab/malloclab-handout/mm.c:336-366 | NULL exactly if size is 0 or neither a free block nor an extension will do, and then nothing changes; otherwise one new live block, best fit where one fits, less than 16 bytes larger than needed, the heap extended only if nothing fits, all other data kept |
| `MmHeap.Heap.Free` | Malloc_Lab/malloclab-handout/mm.c:371-384 | Exactly that block is not live any more; all other payloads keep their data |
| `MmHeap.Heap.Realloc` | Malloc_Lab/malloclab-handout/mm.c:395-559 | NULL exactly for size 0, where mm_malloc fails for no block, or where ReallocFails says so, with nothing changed in the latter cases; otherwise the block keeps its data as far as it fits, goes where Lands says, and no other payload changes; a block that was large enough is cut to less than 16 bytes more than needed and what was behind is free, a grown one has less than 32 bytes more |
| `MmHeap.Heap.Shrink` | Malloc_Lab/malloclab-handout/mm.c:424-435 | The block has exactly the size needed, and the block behind it is free |
| `MmHeap.Heap.GrowNext` | Malloc_Lab/malloclab-handout/mm.c:470-486 | Growing into the free block behind it keeps the data where it is; 32 spare bytes or more stay free |
| `MmHeap.Heap.GrowPrev` | Malloc_Lab/malloclab-handout/mm.c:489-517 | Moving down into the free block before it, an overlapping move, keeps the data; 32 spare bytes or more stay free |
| `MmHeap.Heap.GrowBoth` | Malloc_Lab/malloclab-handout/mm.c:520-547 | Growing into both neighbours keeps the data; 32 spare bytes or more stay free |
| `MmHeap.Heap.GrowAtEnd` | Malloc_Lab/malloclab-handout/mm.c:444-470 | Growing the last block, or the last but a free one, with the heap; NULL exactly if the break cannot move |
| `MmHeap.Heap.MoveBlock` | Malloc_Lab/malloclab-handout/mm.c:550-557 | Copying elsewhere keeps the data; called only with a copy size below the requested one, so the clamp at 553 never shortens the copy |
| `MmRings.InsertOk` | Malloc_Lab/malloclab-handout/mm.c:140-156 | Splicing a block into its ring keeps the whole heap well formed |
| `MmRings.RemoveOk` | Malloc_Lab/malloclab-handout/mm.c:161-174 | Unsplicing a block keeps the whole heap well formed |
| `MmWords.RelaidOk` | Malloc_Lab/malloclab-handout/mm.c:180-240 | Laying a stretch of the heap out anew, with header, footer and prev-alloc bit updates, keeps the heap well formed |
| `MmLive.LiveDisjoint` | Malloc_Lab/malloclab-handout/mm.c:336-559 | Live payloads are 8-aligned, lie inside the heap and are disjoint |
| `MmTrace.Program.Resize` | Malloc_Lab/malloclab-handout/mdriver.c:628-666 | A resized block holds what it held, as far as it fits, and all other blocks hold what they held |
| `MmTrace.Program.PerformAll` | Malloc_Lab/malloclab-handout/mdriver.c:577-685 | After any sequence of requests and writes the program's blocks are aligned, inside the heap and pairwise disjoint, and hold what the requests say |
| `CacheSim.Simulator.Manipulate` | Cache_Lab/cachelab-handout/csim.c:31-75 | One access keeps every counter at 2 plus the accesses to the set since the line's last use, and the simulator equal to the recency lists |
| `CacheSim.Simulator.Evict` | Cache_Lab/cachelab-handout/csim.c:103-128 | The line with the largest counter is the one used longest ago |
| `CacheSim.Simulator.Insert` | Cache_Lab/cachelab-handout/csim.c:78-100 | A free line is filled or one is evicted, and the counts follow |
| `CacheSim.OldestLine` | Cache_Lab/cachelab-handout/csim.c:103-128 | The largest counter belongs to the last tag of the recency stack that is resident |
| `CacheSim.Simulator.Run` | Cache_Lab/cachelab-handout/csim.c:149-178 | The hits of a trace are exactly the accesses that reuse their block before E others of its set are used; hits and misses together are the loads, the stores and twice the modifications; misses less evictions are what is resident; all three are those of the recency-list simulator |
| `CacheLru.SimulateIsStack` | Cache_Lab/cachelab-handout/csim.c:31-146 | What is resident in a set is the top E of the set's recency stack, after any accesses |
| `CacheLru.Inclusion` | Cache_Lab/cachelab-handout/csim.c:31-146 | What E lines hold, E + 1 lines hold as well |
| `CacheLru.HitsMonotone` | Cache_Lab/cachelab-handout/csim.c:31-146 | More lines never give fewer hits |
| `CacheLru.CountsAddUp` | Cache_Lab/cachelab-handout/csim.c:31-128 | Hits and misses add up to the accesses |
| `CacheReuse.BlockParts` | Cache_Lab/cachelab-handout/csim.c:33-34 | A block's number is its tag times the number of sets plus its set, and the set is below that number |
| `CacheReuse.SameBlock` | Cache_Lab/cachelab-handout/csim.c:33-34 | Two blocks have the same set and tag exactly if they are the same |
| `CacheReuse.HitIff` | Cache_Lab/cachelab-handout/csim.c:31-75 | An access hits exactly if its block was used before and fewer than E other blocks of its set since |
| `CacheReuse.HitsAreReuses` | Cache_Lab/cachelab-handout/csim.c:31-75 | The hits of any sequence of accesses are those accesses, and no others |
| `CacheReuse.MissesStayOrGo` | Cache_Lab/cachelab-handout/csim.c:78-128 | Misses are evictions plus what is resident |
| `CacheReuse.SetFill` | Cache_Lab/cachelab-handout/csim.c:78-128 | A set holds as many blocks as were asked of it, up to E |
| `CacheSim.AddressIs` | Cache_Lab/cachelab-handout/csim.c:33-34 | Tag, set index and offset are the parts of the address, from its high bits to its low ones |
| `CacheSim.AccessTimes` | Cache_Lab/cachelab-handout/csim.c:149-178 | A block is accessed once for each of its loads and stores and twice for each modification |
| `CacheSim.AccessesJoin` | Cache_Lab/cachelab-handout/csim.c:149-178 | The accesses of a trace come in the order of its lines |
| `Transpose.ParkUpperHalf` | Cache_Lab/cachelab-handout/trans.c:161-171 | The upper half of A's block is copied, its right quadrant parked in the wrong place |
| `Transpose.RepairQuadrants` | Cache_Lab/cachelab-handout/trans.c:177-183 | The parked quadrant moves to its place and the lower left one replaces it, row by row |
| `Transpose.ParkedBlock` | Cache_Lab/cachelab-handout/trans.c:150-199 | The three phases transpose one 8x8 block and touch nothing else of B |
| `Transpose.Transpose64` | Cache_Lab/cachelab-handout/trans.c:150-199 | B is the transpose of A for all dimensions that are multiples of 8 |
| `Transpose.TransposeRagged` | Cache_Lab/cachelab-handout/trans.c:86-101 | The 16-blocked loop transposes for all dimensions |
| `Transpose.Submit` | Cache_Lab/cachelab-handout/trans.c:23-102 | B is the transpose of A for all dimensions, whichever loop is chosen |
| `Transpose.Transpose32` | Cache_Lab/cachelab-handout/trans.c:110-137 | With the diagonal element written last, B is the transpose for all multiples of 8 |
| `ProxyCache.Cache.LookUp` | Proxy_Lab/proxylab-handout/proxy.c:177-192 | A hit exactly if the key is cached, and it returns the bytes stored under the key |
| `ProxyCache.Cache.Touch` | Proxy_Lab/proxylab-handout/proxy.c:194-205 | The key, if it is still there, comes first, and the others stay in their order |
| `ProxyCache.Cache.EvictLru` | Proxy_Lab/proxylab-handout/proxy.c:239-260 | The object used longest ago goes |
| `ProxyCache.Cache.MakeRoom` | Proxy_Lab/proxylab-handout/proxy.c:226-227 | The eviction loop ends with the longest prefix of the recency list that leaves enough room |
| `ProxyCache.Cache.Insert` | Proxy_Lab/proxylab-handout/proxy.c:207-237 | A known key is only refreshed; a new one comes first, followed by the longest prefix of the others that there is room for, by all of them if they fit; the size stays the sum of the object sizes and within the limit |
| `ProxyCache.OldestIsLast` | Proxy_Lab/proxylab-handout/proxy.c:239-250 | The smallest stamp belongs to the least recently used object |
| `ProxyCache.NothingInvented` | Proxy_Lab/proxylab-handout/proxy.c:177-237 | Every cached entry was stored under its key earlier and is unchanged |
| `ProxyCache.RecencyOrder` | Proxy_Lab/proxylab-handout/proxy.c:177-260 | After any phases of any threads the cached entries stand in the order of their last use |
| `ProxyCache.ShortenedKeeps` | Proxy_Lab/proxylab-handout/proxy.c:226-227 | What remains is the longest prefix that leaves enough room |
| `ProxyCache.PutPuts` | Proxy_Lab/proxylab-handout/proxy.c:207-237 | What storing does, for every list, key and data, refused sizes included |
| `ProxyCache.Serve` | Proxy_Lab/proxylab-handout/proxy.c:177-237 | Any interleaving of the lock-delimited phases of any threads behaves as the recency list, and a hit returns what some earlier phase stored under that key |
| `ShellJobs.JobTable.AddJob` | Shell_Lab/shlab-handout/tsh.c:492-515 | The job takes the first free slot and the number that was next, all other slots stay, and the next number is one more, or 1 behind the last; refused exactly for pid 0 or a full table |
| `ShellJobs.JobTable.DeleteJob` | Shell_Lab/shlab-handout/tsh.c:518-533 | The slot of the pid is cleared, all others stay, and the next number exceeds every number left by exactly one over the largest |
| `ShellJobs.JobTable.ForegroundPid` | Shell_Lab/shlab-handout/tsh.c:536-543 | The pid of the first foreground job, 0 if there is none |
| `ShellProtocol.NextInv` | Shell_Lab/shlab-handout/tsh.c:170-418 | Every statement of main line, handler or kernel keeps the protocol's invariant |
| `ShellProtocol.SlotsAreChildren` | Shell_Lab/shlab-handout/tsh.c:182-208 | Between updates the occupied slots are exactly for the forked, unreaped children |
| `ShellProtocol.OneForeground` | Shell_Lab/shlab-handout/tsh.c:170-418 | At most one job is in the foreground |
| `ShellProtocol.HandlerFindsJob` | Shell_Lab/shlab-handout/tsh.c:375-418 | The handler always finds the job of a stopped child |
| `ShellProtocol.NoLostWakeup` | Shell_Lab/shlab-handout/tsh.c:196-208 | While eval is suspended, its job is a foreground child that still runs, or a SIGCHLD is pending |
| `ShellWakeups.ScanShrinks` | Shell_Lab/shlab-handout/tsh.c:375-418 | Each step of a running handler brings the end of its loop nearer: the children with news get fewer |
| `ShellWakeups.NewsReachesEval` | Shell_Lab/shlab-handout/tsh.c:351-418 | From every reachable state in which eval is suspended and its child has ended or stopped, the run can go on until the handler has collected the news and eval is back at the prompt with the job no longer in the foreground |
| `ShellProtocol.SignalsReachForeground` | Shell_Lab/shlab-handout/tsh.c:196-208 | While eval waits for a job and it is still in the foreground, the job that the ctrl-C and ctrl-Z handlers look up is that one |
| `ShellWakeups.FgSignalsIff` | Shell_Lab/shlab-handout/tsh.c:425-454 | While fg waits for a job and it is still in the foreground, the handlers look up that job exactly if no free slot in front of it is marked as foreground |
| `ShellWakeups.FgSignalsLost` | Shell_Lab/shlab-handout/tsh.c:332-362 | A run in which such a slot is left over, fg waits for a later job, and the handlers find no foreground job |
| `ShellWakeups.FgMissesIff` | Shell_Lab/shlab-handout/tsh.c:332-362 | For all runs: fg sleeps with its job ended, stopped or out of the foreground and no signal pending exactly if the handler has got news of the job since fg's last successful test and no SIGCHLD is pending |
| `ShellWakeups.FgMissesWakeup` | Shell_Lab/shlab-handout/tsh.c:332-362 | A run in which the handler collects the job's end between fg's test and its suspension, and fg sleeps with no child left |

## Left out

- SFS block layout: data and directory entries of a block are separate arrays, where the code reads the same 500 bytes as either; no operation uses one block as both.
- SFS `Disk` is sequential; under threads, locks, tables and block ownership are one state machine (`SfsThreads`) and bytes, sizes and positions another (`SfsSerial`); names and listing are proved for sequential runs only.
- SfsSerial: descriptors refer to the same files throughout a run, so open, close, remove and rename are not among its steps; a file is the bytes of its blocks without block numbers and chains, and blocks it takes are attached at once; the table locks are left out, which only adds interleavings.
- SFS threads: the body of allocateBlocks and freeBlocks under the allocation lock is one step, and so is a table update under the table lock; acquiring and releasing all other locks are steps of their own.
- SFS open tables are arrays of values indexed by number in place of pointers to malloc'd records; failures of malloc and pthread_mutex_init are not modelled.
- SFS superblock: magic number and size match are two Booleans of an image, as the code only compares them; mapping, syncing and unmapping files are not modelled.
- SfsFsck.Fsck: file tags are unbounded numbers, where the code's tags are of type size_t and an internal error is reported when they run out, which takes more files than an image has room for; messages and the dump functions are left out.
- SfsBaseline: getpos, seek and rename of the baseline return -ENOSYS and are left out; its single lock makes it sequential; cached pointers are two sequences indexed by descriptor.
- SfsBaseline.Baseline.Open: on -EMFILE the new entry is cleared by the steps of removal, which search the open files once more than the code does.
- MmHeap: memory is one cell per byte address with a word in every fourth one, NULL is 0 and the heap starts at an aligned address; words are unbounded, so requests are required to be too small for the sizes to wrap.
- MmHeap: speed and utilisation, and the consistency checks of the driver, are left out; true disjointness is proved where the driver's own range test is weaker.
- CacheSim: a set is one sequence of lines that starts out empty in place of memory allocated at first use; traces are short enough for the 32-bit counters; option parsing, printing and s of 31 bits or more are left out.
- Transpose: numbers of misses depend on one cache geometry and are not modelled; array cells are unbounded integers, as they are only copied.
- ProxyCache: the linked list is a sequence, the clock does not wrap around, and sockets, parsing and forwarding are left out.
- ShellProtocol: command lines, printing and the choice of job numbers are left out of the protocol; fork succeeds and the table has a free slot; job numbers may repeat, so their uniqueness is not claimed.
- ShellWakeups.NewsReachesEval: says that the run can go on in this way, not that the kernel schedules it within bounded time.
- bits.c, tiny.c, csapp.c and the driver programs are not modelled: loop-free word arithmetic, network plumbing and timing.
