# Verified models of the systems labs

Dafny models of five components of the repository, with proofs of what each one is for. Each component
has a specification layer of functions on values, about which the properties are proved, and a layer of
classes whose methods change their fields as the C code does and are proved to follow the specification
(or, for the file system and the upload, are specified directly by what they promise).
`dafny verify dfyconfig.toml` checks everything.

**Virtual memory** (`ideal_indirection`). `Tlb` and `TlbList` are the translation buffer, `Frames` and
`PhysicalKernel` the frame allocator with its swap directory, `Mmu` and `MmuDevice` the operations, `Segments`
and `Areas` the legal addresses, as bounds and as ranges. The number of frames is arbitrary. The buffer keeps
references to page table entries, not frame numbers, and `MmuSteps` shows why it therefore survives evictions.
`MmuCounters` says what the statistics count. `FlatMemory` holds the main results. A removed
process leaves its swap files behind, because they are stored under one name and removed under another
(`kernel.c:59` and `kernel.c:91`). They show through when a page table is later put into the frame of the
table that they belonged to: the machine agrees with a flat memory throughout a run exactly when that
never happens with a page that is visible and not zero (`FlatMemory.CleanRun`). `StaleSwap` is a run in
which it happens; a run that removes only processes none of whose pages was swapped out is always clean.
Ownership and coherence hold in every run, and only a lack of unreserved frames ends one.

**File system** (`finding_filesystems`). `MinixDisk` says who owns which block, `MinixContent` what a file
contains, `MinixFs` is the file system in place. `MinixFiles` is what it promises of whole runs: files as
byte sequences, and plain files without any blocks; `MinixStore` proves it. Block numbers in an indirect
block are four bytes of the same disk that holds the data. A write that finds the disk full takes the
blocks that are left and fills them, but it has raised the size already. A run goes on after that: its
replies are still determined, it goes like a run on plain files exactly when these always fit, and the
blocks in use are always those that the files hold. Allocating ahead can give a file more blocks than
freeing gives back; `MinixLeak` is such a run. `MinixEntries` and `MinixDirectory` are a directory of one
block.

**Parallel make** (`Parallel_Make`). `Graph` and `CycleCheck` are cycle detection with its shared vector;
`Worker`, `WorkerHistory` and `ParallelMake` the worker thread, for one worker. Success of commands and
modification times are oracles. The thread may be told to stop at any time once all goals are decided.

**Scheduler** (`savvy_scheduler`). `StableInsert` and `PriQueue` are the priority queue for any comparer,
`SchedModel` and `SchedPolicy` the scheduler, its policies and its runs, `Scheduler` the library with mutable
job metadata. Times are real numbers, quantum times integers that increase from 0 on.

**Upload** (`nonstop_networking`). `UploadModel` and `Upload` are one session that receives an upload, or the
beginning of one, in arbitrary chunks, and what it makes of the other requests.

Where code and documentation disagree, the code is followed:

- Files hold 22 blocks, because the limit counts the direct blocks twice (`minixfs.c:175`), not the blocks
  that an indirect block could list.
- Both bounds belong to a segment (`segments.c:32-38`), also the end of the segments that grow upwards.
- The stack of a new process has no address, because it grows downwards and its end is above its start
  (`mmu.c:185-189`).
- Swap files are not removed with their process (`kernel.c:57-61`).
- A write beyond the limit, or one that fills the disk, returns -1, but the latter has moved the offset and
  raised the size by then (`minixfs.c:195-256`).
- A header that arrives in two chunks is refused if the first one ends behind its third byte
  (`server.c:260-271`).

## Model

| member | source | states |
|---|---|---|
| Address.MasksAreDivisions | ideal_indirection/mmu.c:33-56 | The masks and shifts that split a 32-bit virtual address are division and remainder by page and table size |
| Address.KeyFixesIndices | ideal_indirection/mmu.c:33-58 | Two addresses have the same translation-buffer key exactly when they have the same directory and table index |
| Address.FrameRoundTrip | ideal_indirection/kernel.c:115-127 | A frame is found again through the 20-bit base field for every page-aligned base of physical memory, modulo 2^32 |
| Tlb.ListIsRecency | ideal_indirection/tlb.c:7-68 | After any sequence of uses of non-zero pages the list is the at most 16 most recently used distinct pages in recency order, the initial node last while it fits |
| Tlb.HitExactlyWhenRecent | ideal_indirection/tlb.c:7-68 | A page hits exactly when it was used before and fewer than 16 distinct other pages were used since |
| TlbList.List.Search | ideal_indirection/tlb.c:20-37 | The slow and fast pointers stop around the first node with the key, or at the end |
| TlbList.List.Promote | ideal_indirection/tlb.c:29-31 | Relinking moves exactly one node to the front and keeps the order of the others |
| TlbList.List.GetPte | ideal_indirection/tlb.c:7-40 | The linked list after a lookup, and the entry found, are those of the list specification |
| TlbList.List.CountNodes | ideal_indirection/tlb.c:44-53 | The walk counts the nodes (one as two) and stops at the last node but one |
| TlbList.List.AddPte | ideal_indirection/tlb.c:42-68 | An add drops the least recently used node when there are sixteen, then pushes the new one in front of the others |
| TlbList.List.Flush | ideal_indirection/tlb.c:70-80 | After a flush only the zeroed initial node is left |
| Segments.Find | ideal_indirection/segments.c:28-45 | The first segment that covers the address, both bounds included; none exactly when no segment covers it |
| Segments.FindSegment | ideal_indirection/segments.c:28-45 | The index loop finds that segment |
| Areas.NewReadable | ideal_indirection/mmu.c:185-229 | A new process may read exactly 0x1000 to 0x3000, 0x0804_8000 to 0x0807_2000 and 0xC07F_E000; no other address lies in any segment |
| Areas.NewWritable | ideal_indirection/mmu.c:185-229 | It may write those but the text, whose last address belongs to the data; it may execute the text but for that address, and 0xC07F_E000 |
| Areas.GrownCovers | ideal_indirection/segments.c:4-12 | Growing a segment makes exactly the bytes of that many pages behind its end legal, in the direction in which it grows |
| Areas.ShrunkCovers | ideal_indirection/segments.c:14-22 | Shrinking it takes them away |
| Areas.ResizedSegments | ideal_indirection/segments.c:4-22 | Through any growing and shrinking a segment is the range of addresses from its fixed bound that its net size gives, modulo 2^32 |
| Areas.PermitAlike | ideal_indirection/segments.c:28-45 | The segments permit an access exactly when the first of those ranges that reaches the address does |
| PhysicalKernel.Memory.FindFree | ideal_indirection/kernel.c:19-28 | The first loop stops at the first free frame |
| PhysicalKernel.Memory.FindEvictable | ideal_indirection/kernel.c:35-36 | The second loop stops at the first frame that is neither reserved nor the asker's, or at the end |
| PhysicalKernel.Memory.WriteToDisk | ideal_indirection/kernel.c:80-99 | The page of the entry is stored under the .bin name of the entry |
| PhysicalKernel.Memory.ReadFromDisk | ideal_indirection/kernel.c:101-113 | The page of the entry is overwritten by its swap file if there is one |
| PhysicalKernel.Memory.PageOut | ideal_indirection/kernel.c:36-41 | Eviction writes the page, clears presence and base, and frees the frame |
| PhysicalKernel.Memory.AskForFrame | ideal_indirection/kernel.c:18-49 | The two loops and the retry yield the frame and the state of the allocation function |
| PhysicalKernel.Memory.AttachFrame | ideal_indirection/mmu.c:63-69 | A frame is asked for and the entry is made to name it, with its present, read-write and user flags set |
| PhysicalKernel.Memory.ReturnFrame | ideal_indirection/kernel.c:51-55 | The frame becomes free, nothing else changes |
| PhysicalKernel.Memory.RemoveSwap | ideal_indirection/kernel.c:57-61 | Only a file without the .bin suffix is removed |
| MmuInvariant.EvictKeeps | ideal_indirection/kernel.c:35-45 | Evicting any page keeps frame ownership, and every entry still shows the page it showed |
| MmuInvariant.MakeRoomKeeps | ideal_indirection/kernel.c:18-49 | Allocation fails exactly when every frame is reserved; otherwise it yields a free frame, keeps ownership and what every entry shows |
| MmuSteps.AttachTableKeeps | ideal_indirection/mmu.c:43-51 | A new page table gets a frame of its own with no entry present; the new table shows what the disk holds under the names of its entries, all other memory is kept; it fails exactly when all frames are reserved |
| MmuSteps.PageInKeeps | ideal_indirection/mmu.c:60-72 | Bringing a page in shows the page that its swap file holds, or zeros, and fails exactly when all frames are reserved |
| MmuSteps.NeedTableKeeps | ideal_indirection/mmu.c:39-52 | Making sure of a page table keeps ownership, and all visible memory but what a new table shows; it fails exactly when a table is missing and all frames are reserved |
| MmuSteps.MissKeeps | ideal_indirection/mmu.c:35-59 | After a miss the buffer holds the entry that a walk of the tables reaches, and stays coherent |
| MmuSteps.FindEntryKeeps | ideal_indirection/mmu.c:32-59 | The entry found is the one the tables hold, whether the buffer hit or missed |
| MmuSteps.ResolveKeeps | ideal_indirection/mmu.c:32-72 | A translation ends with a present entry that the tables reach, changes no memory but by a new table, and fails exactly when fewer frames are unreserved than it needs for a missing table and a missing page |
| MmuOperations.SwitchKeeps | ideal_indirection/mmu.c:22-26 | A context switch keeps ownership, coherence and all memory |
| MmuOperations.ReadKeeps | ideal_indirection/mmu.c:14-85 | A read faults exactly when the segments forbid it, otherwise yields the bytes of the process's page; memory changes only by a new page table; it runs out of frames exactly when too few are unreserved |
| MmuOperations.WriteKeeps | ideal_indirection/mmu.c:87-159 | A write that faults changes memory only by a new page table; any other changes in addition exactly the bytes it covers, in one page of one process; it runs out of frames exactly when too few are unreserved |
| MmuCounters.ReadCounts | ideal_indirection/mmu.c:14-85 | A read outside all segments counts one segmentation fault; any other counts a page fault for a missing table, one for a missing page, a miss unless the buffer has the page for the current process, and a segmentation fault exactly when it is refused; a page that was read is present and marked accessed |
| MmuCounters.WriteCounts | ideal_indirection/mmu.c:87-159 | The same for a write, which also marks the page dirty |
| MmuCounters.OthersCount | ideal_indirection/mmu.c:173-280 | No other operation counts anything |
| MmuProcesses.AddProcessKeeps | ideal_indirection/mmu.c:173-248 | Adding a process keeps ownership and the memory of the others; the new one reads zeros, but for what the disk holds under the names of its first table's uncleared entries; it fails exactly with fewer than three unreserved frames |
| MmuCounters.AddedPages | ideal_indirection/mmu.c:230-247 | The first table of a new process has its third entry present, and no other but perhaps the second, whose page may have made room for it |
| MmuProcesses.AddedCoherent | ideal_indirection/mmu.c:173-248 | The buffer stays coherent when a process is added |
| MmuProcesses.ReturnedIsOwned | ideal_indirection/mmu.c:254-271 | The frames that removal returns are exactly those that belong to the process |
| MmuProcesses.RemoveKeeps | ideal_indirection/mmu.c:250-280 | Removal keeps ownership, coherence and other processes' memory in every case; if every swap file belonged to a live table, that remains so exactly when none of the process's pages has one |
| FlatMemory.StepKeeps | ideal_indirection/mmu.c:14-280 | Every operation keeps frame ownership and buffer coherence; it runs out of frames exactly when fewer are unreserved than it needs; swap files stay with live tables unless a process with such files is removed |
| FlatMemory.GoodOwnsFrames | ideal_indirection/kernel.c:13-55 | A frame is held for an entry exactly when that is a present entry of a live table naming it, and reserved exactly when it is a live directory or table |
| FlatMemory.ReachableStates | ideal_indirection/mmu.c:14-280 | Frame ownership and buffer coherence hold in every state that any run reaches, removals included; a run completes exactly when every operation finds the unreserved frames it needs |
| FlatMemory.StepAgrees | ideal_indirection/mmu.c:14-280 | From a state that agrees with flat memory, any operation, removals of swapped-out processes included, leads to one that agrees exactly when it puts no page table where the disk holds a page that would show through; the reply is the flat memory's exactly unless it is a read of bytes that show through |
| FlatMemory.FlatMemoryRefinement | ideal_indirection/mmu.c:14-280 | In every run from boot, also one that runs out of frames, machine and flat zero-initialised memory, which has its own ranges of legal addresses, hold the same bytes after every operation exactly when every such step is clean; all replies before the first unclean operation, segmentation faults included, are those of the flat memory, its own one exactly unless it shows a page of an earlier table, whatever was evicted, paged in, hit or switched |
| FlatMemory.SparingRunsAgree | ideal_indirection/mmu.c:250-280 | A run that removes processes only while none of their pages was swapped out always agrees with flat memory |
| FlatMemory.NewProcessFaults | ideal_indirection/mmu.c:14-159 | In numbers, which reads and writes of a process with unchanged segments are segmentation faults |
| StaleSwap.RemovalLeaks | ideal_indirection/kernel.c:57-61 | A run on four frames in which a second process reads a byte that only a removed process wrote |
| StaleSwap.FlatReadsZero | ideal_indirection/kernel.c:57-61 | Flat memory answers the last read of that run with zero |
| StaleSwap.RunIsUnclean | ideal_indirection/kernel.c:57-61 | That run fails the exact condition, and machine and flat memory differ in it |
| MmuDevice.Device.constructor | ideal_indirection/mmu.c:8-12 | A new unit is the boot state: an empty buffer, no process, every frame free |
| MmuDevice.Device.SwitchTo | ideal_indirection/mmu.c:23-26 | The fields after a context switch |
| MmuDevice.Device.NeedTable | ideal_indirection/mmu.c:39-52 | The in-place page-directory fault gives the state of the step function |
| MmuDevice.Device.Miss | ideal_indirection/mmu.c:35-59 | Miss counting, walk and buffer fill give the state of the step function |
| MmuDevice.Device.FindEntry | ideal_indirection/mmu.c:32-59 | Buffer lookup with in-place promotion, then the walk on a miss |
| MmuDevice.Device.PageIn | ideal_indirection/mmu.c:60-72 | The page fault in place: frame, flags, swap file |
| MmuDevice.Device.Resolve | ideal_indirection/mmu.c:32-72 | The whole translation in place |
| MmuDevice.Device.Read | ideal_indirection/mmu.c:14-85 | The whole read in place ties state and reply to the read function, and keeps the invariant |
| MmuDevice.Device.Write | ideal_indirection/mmu.c:87-159 | The whole write in place ties state and reply to the write function, and keeps the invariant |
| MmuDevice.Device.FreePages | ideal_indirection/mmu.c:258-266 | The inner removal loop frees exactly the present pages of one table |
| MmuDevice.Device.FreeTables | ideal_indirection/mmu.c:255-269 | The outer removal loop frees exactly the pages and tables of the process |
| MmuDevice.Device.RemoveProcess | ideal_indirection/mmu.c:250-280 | Removal in place is the removal function |
| MmuDevice.Device.AddProcess | ideal_indirection/mmu.c:173-248 | Addition in place is the addition function |
| MmuDevice.Device.Resize | ideal_indirection/segments.c:4-22 | Growing and shrinking move the end of one segment, modulo 2^32 |
| MmuRuns.Perform | ideal_indirection/mmu.c:14-280 | Each operation of the unit in place has the reply and the state of the step function |
| MmuRuns.Execute | ideal_indirection/mmu.c:14-290 | A run of a new unit in place, of any kind: it ends early exactly when frames run out, its replies are those of the step functions, and up to the first unclean operation those of flat memory |
| MinixBlocks.DecodeEncode | finding_filesystems/minixfs.h:39-41 | A block number is stored in four bytes, lowest first, -1 as four bytes of 255, and is read back from them |
| MinixBlocks.EntryRoundTrip | finding_filesystems/minixfs.c:154-162 | Writing an entry of an indirect block puts those bytes at four times its index, sets that entry and leaves all others |
| MinixDisk.UsedIsDisjointUnion | finding_filesystems/minixfs_utils.c:77-85 | A block is marked used exactly when a live inode lists it, and then only one does, in one place |
| MinixDisk.AssignedKeeps | finding_filesystems/minixfs_provided.c:14-75 | Putting a free block into an empty slot keeps exact ownership |
| MinixDisk.AddDirectAssigns | finding_filesystems/minixfs_provided.c:14-32 | Filling a direct slot lists one more block and changes no other slot |
| MinixDisk.AddIndirectAssigns | finding_filesystems/minixfs_provided.c:54-75 | A new indirect block lists nothing and changes no other slot |
| MinixDisk.AddEntryAssigns | finding_filesystems/minixfs_provided.c:34-52 | Filling an entry of the indirect block lists one more block and changes no other slot |
| MinixDisk.PutKeeps | finding_filesystems/minixfs.c:253 | Writing data bytes changes no block list |
| MinixDisk.FreedKeeps | finding_filesystems/minixfs_utils.c:56-71 | Freeing gives back exactly the blocks of the inode and keeps exact ownership |
| MinixDisk.FreeLeaksNothingIff | finding_filesystems/minixfs_utils.c:56-71 | Freeing leaks no block if and only if the indirect block lists nothing beyond its first eleven entries |
| MinixLeak.FreedCount | finding_filesystems/minixfs_utils.c:56-71 | Freeing gives back the first 22 blocks of a file and its indirect block, and no more |
| MinixLeak.LimitIsFreed | finding_filesystems/minixfs.c:174-180 | A packed file of a given length lists a block that freeing does not give back exactly when it is longer than 360448 bytes |
| MinixLeak.RefusedWhenKept | finding_filesystems/minixfs.c:174-180 | A write whose blocks are free is refused exactly when a packed file that long would list a block that freeing does not give back |
| MinixLeak.Leak | finding_filesystems/minixfs_provided.c:77-121 | On a new disk, a file made more than 22 blocks long and then freed leaves exactly the blocks beyond the twenty-second marked used, with no inode in use |
| MinixContent.UntouchedContent | finding_filesystems/minixfs.c:164-265 | What a write leaves untouched keeps the bytes and the blocks of every other file |
| MinixContent.NextBlock | finding_filesystems/minixfs_provided.c:14-52 | The next block of a file is one more held and one less free |
| MinixContent.FreeAndHeld | finding_filesystems/minixfs_utils.c:77-85 | Every block is free or held by one live file: the free blocks and those that the files hold add up to the disk |
| MinixContent.PutContent | finding_filesystems/minixfs.c:253 | Bytes written to one slot change exactly those bytes of that file |
| MinixFs.WritingStops | finding_filesystems/minixfs.c:203-264 | The loop of a write ends in one of two ways, told apart by the free blocks alone: with the buffer laid over the bytes, or with every block taken and filled |
| MinixFs.CoveredWrote | finding_filesystems/minixfs.c:195-264 | After a write to a file that its blocks cover they cover it still exactly when the write succeeded; the content is then the old one with the buffer laid over it |
| MinixFs.InitKeeps | finding_filesystems/minixfs_utils.c:165-181 | A new inode is an empty file that owns nothing |
| MinixFs.GrownContent | finding_filesystems/minixfs_provided.c:77-121 | Allocating blocks ahead changes no content |
| MinixFs.FileSystem.FirstUnusedData | finding_filesystems/minixfs_utils.c:108-126 | Any free block, or -1 exactly when every block is used |
| MinixFs.FileSystem.SetDataUsed | finding_filesystems/minixfs_utils.c:77-85 | One flag changes, none when the number is out of range |
| MinixFs.FileSystem.AddDataBlockToInode | finding_filesystems/minixfs_provided.c:14-32 | The first empty direct slot gets a free block; 0 when there is none, -1 when the disk is full |
| MinixFs.FileSystem.AddDataBlockToIndirectBlock | finding_filesystems/minixfs_provided.c:34-52 | The first empty entry gets a free block; 0 when there is none, -1 when the disk is full |
| MinixFs.FileSystem.AddSingleIndirectBlock | finding_filesystems/minixfs_provided.c:54-75 | The inode gets an indirect block with every entry unassigned, and a link count of 1, unless it has one |
| MinixFs.FileSystem.GetNthIndirectBlock | finding_filesystems/minixfs.c:154-162 | The block in the n-th entry, or -1 |
| MinixFs.FileSystem.Write | finding_filesystems/minixfs.c:164-265 | A write that ends beyond byte 360448 changes nothing and returns -1; otherwise a write succeeds exactly when enough blocks are free, and then the buffer is laid over the bytes; a full disk leaves the size raised and the blocks that were left filled up to the returned offset; ownership and all other files are kept in every case |
| MinixFs.FileSystem.Read | finding_filesystems/minixfs.c:269-326 | The stored bytes from the offset on, at most the count and up to the size, across all block borders, and the new offset |
| MinixFs.FileSystem.FirstUnusedInode | finding_filesystems/minixfs_utils.c:95-106 | The first inode after the root without links, or -1 |
| MinixFs.FileSystem.InitInode | finding_filesystems/minixfs_utils.c:165-181 | The inode becomes an empty file; no other file changes |
| MinixFs.FileSystem.FreeInode | finding_filesystems/minixfs_utils.c:56-71 | The two loops give back exactly the blocks of the first 22 slots and the indirect block |
| MinixFs.FileSystem.MinBlockcount | finding_filesystems/minixfs_provided.c:77-121 | The file has at least the given number of blocks, new ones cleared and old ones unchanged, or the disk is full |
| MinixStore.WriteFile | finding_filesystems/minixfs.c:164-265 | A write moves the disk from holding a map of files to holding the map after the write; count, -1 and offset are those of the map, where a write fails beyond byte 360448 or when fewer blocks are unheld than it needs, and in no other case |
| MinixStore.DeleteFile | finding_filesystems/minixfs_utils.c:56-71 | Freeing an inode removes one file from the map that the disk holds |
| MinixStore.ReadFile | finding_filesystems/minixfs.c:269-326 | A read within the readable bytes of a file of the map, also after a full disk, returns those bytes and the new offset |
| MinixStore.FreeIsRoom | finding_filesystems/minixfs_utils.c:77-85 | The number of free blocks is that of the disk less what the files of the map hold |
| MinixFiles.FitsExactly | finding_filesystems/minixfs.c:164-265 | A run has the replies of plain byte sequences exactly when after every operation the blocks these need, one more beyond eleven, add up to at most the disk |
| MinixFiles.WriteFits | finding_filesystems/minixfs.c:164-265 | One write answers like a plain file exactly when the plain files fit afterwards |
| MinixStore.RoomLeft | finding_filesystems/minixfs.c:164-265 | After a successful write a longer file fits exactly when it would have fitted before |
| MinixStore.Run | finding_filesystems/minixfs.c:164-326 | In every run of creations, writes, reads and deletions on a new disk, full disks included, all replies (inode numbers, counts, offsets, bytes, -1) are those of files as byte sequences; they are those of plain files exactly when these fit after every operation; the blocks in use are those that the files hold, none without files |
| MinixStore.NoFilesNoBlocks | finding_filesystems/minixfs_utils.c:56-85 | Nothing leaks: without files every block is free |
| MinixStore.WriteChunks | finding_filesystems/minixfs.c:164-265 | Consecutive writes of chunks are one write of all their bytes |
| MinixStore.ReadChunks | finding_filesystems/minixfs.c:269-326 | Consecutive reads return the same bytes as one read |
| MinixStore.RoundTrip | finding_filesystems/minixfs.c:164-326 | Any chunking of the writes, of up to 360448 bytes, followed by any chunking of the reads gives back the bytes, if the disk has a block for every 16384 bytes begun and, beyond eleven, one more |
| MinixStore.LargestFile | finding_filesystems/minixfs.c:164-326 | On a new disk a file of 360448 bytes is written and read back if there are 23 blocks; with fewer the write returns -1 after filling them all, one of them as a list if there are more than eleven; one of 360449 bytes is refused on every disk |
| MinixEntries.NumberRoundTrip | finding_filesystems/minixfs_utils.c:250-270 | Inode numbers below 2^31 are read back from the eight hexadecimal digits they are printed as |
| MinixEntries.PrintedDigits | finding_filesystems/minixfs_utils.c:264-270 | Which of the digits stands for which power of 16 |
| MinixEntries.NameRoundTrip | finding_filesystems/minixfs_utils.c:250-267 | A name shorter than 248 bytes is read back from its padded field |
| MinixEntries.AppendPrints | finding_filesystems/minixfs_utils.c:264-270 | Printing an entry into the next slot leaves all earlier entries readable, although the terminator falls into the slot after it |
| MinixEntries.MovePrints | finding_filesystems/minixfs_provided.c:207-216 | Moving the later slots down removes exactly one entry and keeps the order of the others |
| MinixEntries.WithoutBinding | finding_filesystems/minixfs_provided.c:203-230 | Removing one entry removes exactly one binding |
| MinixDirectory.Directory.PrintEntry | finding_filesystems/minixfs_utils.c:264-270 | The name, zeros up to byte 248, eight digits of 0-9 and a-f from the highest on, and a zero land at the slot; no other byte changes |
| MinixDirectory.Directory.EntryAt | finding_filesystems/minixfs_utils.c:250-262 | Parsing the slot of the k-th entry yields that entry's name and number, and never the failure of a number 0 |
| MinixDirectory.Directory.FindInodeNamed | finding_filesystems/minixfs_utils.c:183-213 | The inode that the map binds the name to, or none |
| MinixDirectory.Directory.Create | finding_filesystems/minixfs.c:66-119 | Adds exactly one binding unless the name is bound |
| MinixDirectory.Directory.MoveDown | finding_filesystems/minixfs_provided.c:210-212 | The bytes after the removed slot move down by one slot |
| MinixDirectory.Directory.RemoveInode | finding_filesystems/minixfs_provided.c:199-230 | The entry of the inode is removed, the others keep their order |
| MinixDirectory.Directory.Unlink | finding_filesystems/minixfs_provided.c:192-233 | The binding of the name is removed, or nothing changes when there is none |
| MinixDirectory.Run | finding_filesystems/minixfs_provided.c:192-233 | In every run of additions, removals and searches, whatever the block held before, all replies are those of a map |
| CycleCheck.VisitedLoops | Parallel_Make/parmake.c:222-228 | A rule found in the visited vector reaches a cycle, even if a failed search left it there |
| CycleCheck.HasCycle | Parallel_Make/parmake.c:222-242 | Answers yes exactly when a cycle is reachable from the rule, whatever rules earlier failed searches left behind, and terminates |
| CycleCheck.SetUp | Parallel_Make/parmake.c:267-288 | With the shared vector, exactly the goals that lead into a cycle are reported and all others are queued, in order |
| Worker.SucceedsByDependencies | Parallel_Make/parmake.c:169-217 | A rule succeeds exactly when its own decision and all its dependencies do |
| Worker.SucceedsMeans | Parallel_Make/parmake.c:117-141 | A rule succeeds exactly when every rule below it has commands that succeed, or a file, a dependency with a time, and no dependency with a later time than its own |
| Worker.OutcomeIsRight | Parallel_Make/parmake.c:59-141 | One pull decides its target rightly: failed with a failed dependency, otherwise by its own commands |
| Worker.StepKeepsSound | Parallel_Make/parmake.c:41-165 | No pull loses a waiting target or a goal, and every decided rule is decided as the recursive meaning says |
| Worker.NeverStuck | Parallel_Make/parmake.c:41-165 | With acyclic goals the queue is never empty while a target waits |
| Worker.StepDecreases | Parallel_Make/parmake.c:41-165 | Every pull decreases the lexicographic measure, so the worker comes to an end |
| WorkerHistory.StepKeepsLogged | Parallel_Make/parmake.c:117-141 | A rule is run or found up to date only after all its dependencies were |
| WorkerHistory.StepKeepsNeeded | Parallel_Make/parmake.c:63-86 | Nothing is queued or run that no goal needs |
| WorkerHistory.StepCounts | Parallel_Make/parmake.c:41-165 | A pull moves its target between queue, pending list and log or fails it, and gives a place exactly to the untouched dependencies that it asks for |
| WorkerHistory.StepRuns | Parallel_Make/parmake.c:117-141 | Of the rules that are decided with all dependencies done, exactly those run their commands whose file is missing, that have no dependency with a time, or that have one with a later time |
| WorkerHistory.CompleteRuns | Parallel_Make/parmake.c:41-165 | All of that for the whole run, each as often as it is decided |
| WorkerHistory.EndCounts | Parallel_Make/parmake.c:41-165 | In the whole run every rule is decided once for being a goal and once for being asked for while untouched; each time it is run or found up to date if all its dependencies succeed, and fails for them otherwise |
| WorkerHistory.RunsOnceIff | Parallel_Make/parmake.c:41-165 | No rule is run or found up to date twice exactly when no goal whose dependencies all succeed is asked for while it is untouched |
| WorkerHistory.IndependentAskOnce | Parallel_Make/parmake.c:63-86 | When no goal is needed for another, no pull asks for a goal |
| WorkerHistory.RunsTwice | Parallel_Make/parmake.c:41-165 | Queued behind the goal that needs it, a goal is decided twice |
| WorkerHistory.RunsOnce | Parallel_Make/parmake.c:41-165 | Queued in front of it, it is not, although one goal is needed for the other |
| ParallelMake.Make.ScanDependencies | Parallel_Make/parmake.c:59-86 | The scan marks and queues exactly the untouched dependencies, in order, and tells whether one failed or one is undecided |
| ParallelMake.ScanMeans | Parallel_Make/parmake.c:63-86 | Rule by rule: the scan fails with a failed dependency, waits with an untouched or waiting one, marks the untouched ones as waiting and, if it fails, the target as failed |
| ParallelMake.UntouchedInOrder | Parallel_Make/parmake.c:71-78 | The untouched dependencies are queued in the order of the list |
| ParallelMake.Make.NewestDependency | Parallel_Make/parmake.c:118-126 | The modification time of the youngest dependency, or -1 |
| ParallelMake.Make.Decide | Parallel_Make/parmake.c:117-141 | The commands are not run exactly when the file exists, some dependency has a time above -1, and every time of a dependency is at most that of the target; the target is done in that case or if they succeed |
| ParallelMake.Make.Flush | Parallel_Make/parmake.c:96-105 | All pending targets are queued again, the youngest first |
| ParallelMake.Make.Pull | Parallel_Make/parmake.c:48-161 | One round of the loop is one step of the worker |
| ParallelMake.Make.Work | Parallel_Make/parmake.c:41-165 | The loop terminates with every goal decided and all invariants kept; what it logged is the beginning of the whole run's log, and all of it unless the thread was stopped first |
| ParallelMake.Parmake | Parallel_Make/parmake.c:244-318 | The program with one worker: cyclic goals are reported, every other goal is decided exactly as its dependencies determine, dependencies first, nothing needless; the commands of a rule whose dependencies are done run unless its file exists, some dependency has a time and none a later one; nothing is decided twice if, and for a thread that is not stopped early only if, no goal that can be run is asked for while it waits |
| ParallelMake.MakeGoals | Parallel_Make/parmake.c:41-165 | The same for the thread alone on goals that reach no cycle |
| ParallelMake.RunsBelowStep | Parallel_Make/parmake.c:169-217 | The commands that run for a goal are those of its dependencies and its own if it is not up to date |
| ParallelMake.ParmakeH | Parallel_Make/parmake.c:169-217 | The recursive form computes the same outcome, runs the commands of exactly the rules below the goal whose dependencies all succeed and that are not up to date by the times, and its recursion is bounded by the number of rules |
| ParallelMake.Agree | Parallel_Make/parmake.c:41-217 | Worker and recursive form agree on every acyclic goal |
| StableInsert.InsertIsStable | savvy_scheduler/libpriqueue/libpriqueue.c:16-52 | For every total preorder and sorted list, insertion is sorted, keeps all elements, and places the new one behind all equal ones |
| StableInsert.InsertAtEnd | savvy_scheduler/libpriqueue/libpriqueue.c:16-52 | The new element goes to the end exactly when no element is greater |
| PriQueue.Queue.Walk | savvy_scheduler/libpriqueue/libpriqueue.c:32-50 | The walk stops at the place of the specification, for any list |
| PriQueue.Queue.LinkAfter | savvy_scheduler/libpriqueue/libpriqueue.c:37-46 | Linking behind an entry inserts at its position and changes nothing else |
| PriQueue.Queue.Offer | savvy_scheduler/libpriqueue/libpriqueue.c:16-52 | The job is inserted at the returned index, which is the place the comparer determines |
| PriQueue.Queue.Poll | savvy_scheduler/libpriqueue/libpriqueue.c:59-68 | The head leaves the queue, or null when it is empty |
| SchedModel.ComparerIsPreorder | savvy_scheduler/libscheduler.c:77-135 | All six comparers are total preorders |
| SchedModel.StepKeeps | savvy_scheduler/libscheduler.c:139-183 | Arrivals, quanta and completions keep the queue sorted, lose no job and keep the time accounts exact |
| SchedModel.RunKeeps | savvy_scheduler/libscheduler.c:139-183 | All of that in every run |
| SchedModel.QuantumSteps | savvy_scheduler/libscheduler.c:155-173 | A quantum is a charge and a requeue followed by a dispatch, or just a charge without preemption |
| SchedPolicy.HeadIsTaken | savvy_scheduler/libscheduler.c:168-172 | A free processor takes the head of the queue, which starts now if it has all of its running time left |
| SchedPolicy.RunningGoesOn | savvy_scheduler/libscheduler.c:157-163 | Under FCFS, PRI and SJF the running job is charged for the time since the last quantum and goes on, and the queue stays |
| SchedPolicy.EvictedGoesOnOrWaits | savvy_scheduler/libscheduler.c:157-172 | Under PPRI, PSRTF and RR the running job is charged and evicted, and goes on or changes places with the head of the queue |
| SchedPolicy.LeastRemainingRuns | savvy_scheduler/libscheduler.c:107-115 | Under PSRTF the dispatched job has the least time remaining of all that are ready, the evicted one after its charge included, and the earliest arrival among those with equal time; the evicted one goes on only if it is strictly before all |
| SchedPolicy.LeastPriorityRuns | savvy_scheduler/libscheduler.c:92-105 | Under PPRI it has the least priority, and the earliest arrival among those with equal priority; the evicted one goes on only if it is strictly before all |
| SchedPolicy.LongestWaitingRuns | savvy_scheduler/libscheduler.c:117-125 | Under RR it was evicted longest ago or never, and the evicted one goes on exactly when no other is ready |
| SchedPolicy.FreeProcessorTakes | savvy_scheduler/libscheduler.c:81-135 | When the processor is free, FCFS dispatches the earliest arrival, PRI the least priority and SJF the least running time, the latter two the earliest arrival among equals |
| SchedPolicy.ArrivalWaits | savvy_scheduler/libscheduler.c:139-153 | A new job is put somewhere into the queue with its running time, priority and arrival, all of its time remaining, never started and never run; nothing else changes but the count |
| SchedPolicy.KeepsProcessor | savvy_scheduler/libscheduler.c:161-163 | Without preemption a job stays on the processor until it is done, in every run |
| SchedPolicy.EvictedGoesLast | savvy_scheduler/libscheduler.c:164-167 | Under round robin an evicted job goes to the end of the queue |
| SchedPolicy.QuantumTurns | savvy_scheduler/libscheduler.c:155-173 | Under round robin each quantum turns the circle of ready jobs by one |
| SchedPolicy.BoundedWaiting | savvy_scheduler/libscheduler.c:155-173 | Under round robin a job in place k is dispatched within k + 1 quanta plus one for each arrival meanwhile |
| SchedPolicy.FullTurn | savvy_scheduler/libscheduler.c:155-173 | Without arrivals, between two dispatches of a job every waiting job is dispatched exactly once, in order |
| SchedPolicy.RunAccounts | savvy_scheduler/libscheduler.c:139-183 | In every run: arrived = queued + running + finished; remaining = running time less processor time given; start = first dispatch |
| SchedPolicy.AveragesAgree | savvy_scheduler/libscheduler.c:175-204 | The averages are those of the finished jobs; average wait = average turnaround less average running time, and at least average response if each finished job got its running time |
| Scheduler.Library.NewJob | savvy_scheduler/libscheduler.c:139-153 | Every field of the metadata, and the queue, after an arrival |
| Scheduler.Library.QuantumExpired | savvy_scheduler/libscheduler.c:155-173 | State, evicted job and next job after a quantum are those of the model; without preemption the evicted job is the next one, otherwise the next one comes before all jobs left in an ordered queue by the field that its policy names, then by arrival; only the evicted and the next job change |
| Scheduler.Library.JobFinished | savvy_scheduler/libscheduler.c:175-183 | The four totals after a completion |
| Scheduler.Play | savvy_scheduler/gthreads/gthreads.c:170-186 | Under the thread library's calling discipline the library follows the model through every run |
| Scheduler.Simulate | savvy_scheduler/libscheduler.c:38-204 | A whole run dispatches in the order of the model and reports the averages of the finished jobs |
| UploadModel.ParsePut | nonstop_networking/server.c:254-284 | What the parsers make of every prefix of an upload: wait, refuse, or accept with the name |
| UploadModel.FeedReceives | nonstop_networking/server.c:286-399 | A chunk that does not end within the header behind its third byte advances the upload by exactly its bytes |
| UploadModel.FeedRefuses | nonstop_networking/server.c:260-271 | A chunk that ends there makes the server refuse the request and touch no file |
| UploadModel.FeedAllReceives | nonstop_networking/server.c:286-399 | All chunks of an upload, in any number |
| UploadModel.DecodesDigits | nonstop_networking/server.c:373 | The eight size bytes, taken as digits to base 256 with the lowest first, are the declared number |
| UploadModel.UploadDecided | nonstop_networking/server.c:254-399 | For every length r of what arrives before the close: a split within the header behind its third byte is refused, as is an end before the size is complete, and nothing is stored; for every other split the file is stored exactly as sent, and accepted exactly when its length is the number n whose base-256 digits, lowest first, are the size bytes; otherwise file and listing are removed |
| UploadModel.SplitsAgree | nonstop_networking/server.c:254-399 | Two splits of one message that do not cut the header end alike |
| UploadModel.RequestsAnswered | nonstop_networking/server.c:254-328 | LIST, GET and DELETE followed by a newline, or a space, a name and a newline, are answered, however the bytes before arrived, and nothing else changes |
| UploadModel.OtherRequestsRefused | nonstop_networking/server.c:254-328 | The server waits exactly while fewer bytes are there than the command has that begins with the first of them; everything but the four requests is refused then |
| Upload.BufferIsString | nonstop_networking/server.c:254-274 | Behind the received bytes the buffer is zero, so C string functions see exactly what was received |
| Upload.Connection.ReadInput | nonstop_networking/server.c:288-298 | The rest of the chunk is appended to the input |
| Upload.Connection.TryParse | nonstop_networking/server.c:254-284 | The parser on the zero-filled buffer is the parser of the model |
| Upload.Connection.ReadSize | nonstop_networking/server.c:371-392 | The declared size is the sum of the eight bytes behind the header times the powers of 256, lowest first; the bytes behind them are the first of the file |
| Upload.Connection.ContinueReadingPut | nonstop_networking/server.c:358-399 | One chunk in the two upload states |
| Upload.Connection.ContinueReadingHeader | nonstop_networking/server.c:286-328 | One chunk while the header is read, for all four commands |
| Upload.Connection.Receive | nonstop_networking/server.c:581-613 | A chunk from the socket has the effect of the model |
| Upload.Connection.CloseConnection | nonstop_networking/server.c:953-976 | The decision at the end: accepted exactly with as many bytes as declared, removed with more or fewer, refused without a size, no answer in any other state |
| Upload.ShortNamesAreRoomy | nonstop_networking/server.c:358-371 | The input buffer has room for every chunk if the name has at most 8180 bytes |
| Upload.ServeUpload | nonstop_networking/server.c:907-976 | The first r bytes of an upload over one connection, in chunks that the buffers can hold, and the close: stored and listed exactly with n bytes of contents, n being the number whose base-256 digits are the size bytes; otherwise removed, or refused with files and listing unchanged |

## Left out

Virtual memory

- FlatMemory.FlatMemoryRefinement: of replies after the first unclean operation nothing is said, since memories differ then
- Running out of frames: the code then uses address 0; a run of the model ends there
- Frame contents are pages of bytes or tables of entries, so overlaying one on the other is not modelled; frames are numbered, and Address holds the address arithmetic
- Swap files are a map; reading and writing them always succeeds
- The entries' caching and size bits, which nothing reads

File system

- MinixFs.FileSystem.Read: asks that the range read has blocks, because the code reads block -1 otherwise
- MinixFs.FileSystem.Write: content is stated for offsets within the bytes that can be read or at their end; ownership for all offsets
- MinixStore.Run: its reads and writes begin within those bytes or at their end, and reads stay within them; what a block holds before it is written to is whatever it held before
- MinixStore.CreateFile: asks for an unused inode, because the code takes inode -1 otherwise (minixfs.c:101-103)
- Directory and files are proved apart; runs over names, in which entry, inode and blocks move together, are not modelled
- MinixDirectory.Directory.Create: asks for a free slot that is not the last one of the block, because the printed terminator would leave the block
- MinixDirectory.Directory.RemoveInode: asks that the inode has an entry, which the lookup before it ensures
- The random choice of a free block is a choice of any free block; that the loop ends is a matter of probability
- Path resolution, permissions, times, links, virtual files, and directories of several blocks
- The number parser accepts signs, spaces and a prefix in C; no printed number has them

Parallel make

- Several workers: rule states are read and set without the lock
- Repeated goals, for which the main thread would wait for a lock that nobody opens
- Parsing of makefiles; rules are a closed graph whose dependency lists have no repetitions
- Worker.SucceedsByDependencies: success is an oracle per rule, so commands that change each other's outcome are not modelled

Scheduler

- Rounding of doubles, and times beyond the range of an int
- Context switches, alarms and the main thread; only their calls of the scheduler are modelled
- SchedPolicy.AveragesAgree: average wait is compared with average response only if the jobs got their running times; otherwise a job that finished early can have a negative wait

Upload

- Upload.ServeUpload: for names beyond 8180 bytes, asks that the chunk with the size fits into the input buffer behind the header, because the code writes past its end otherwise
- Effects of LIST, GET and DELETE beyond their answers, other sessions, sockets, events and failing writes
- Whether the file can be opened is an oracle; paths are not modelled, nor that the code cuts off a path longer than its buffer
