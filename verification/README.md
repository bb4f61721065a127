# KyleOS kernel: verified model

A Dafny model of the stateful core of the KyleOS kernel, with proofs of what that core promises.

**Virtual memory** (`Words`, `PageTree`, `Pmem`, `FlatMap`, `Paging`, `Teardown`, `Blocks`, `Vmm`, `Memory`, `Fork`,
`KernelMemory` in `Kernel.dfy`, `EagerMemory` in `Eager.dfy`, `Processes`, `Elf`). Frames are byte arrays; page tables are
512 eight-byte words *inside* frames; `PhysMem` changes an allocation bitmap of 64-bit words, a 16-bit reference-count array and
the frames in place. Beside them stands a ghost tree of which frame is which table or leaf of which address space. `Sound` ties
the two together: every present word is a tree edge, counts are numbers of tree nodes plus what the kernel holds, and nothing is
shared that may be written. The class `Processes.Kernel` is the system: its operations are fork, page fault, user load and store,
block reservation, attaching a file, populating a page and exit. It keeps a ghost log of the events that mean something to a
process (page faults are not among them). `Valid()` says that every process's memory, as the page tables, counts, blocks and the
backing file make it up, equals `Eager(log)`, a function that copies at fork and loads at exec. So the invariant of that class is
the refinement theorem for every interleaving of its methods.

**FAT32 over the ATA read cache** (`Disk`, `FatTable`, `FatFiles`, `Fat`, `FatStore`). The disk is one byte array under a
direct-mapped sector cache; the allocation table is an array mirrored in each on-disk copy, and may have more entries than the
volume has clusters; a file is a chain of clusters whose bytes past its size are zero. `FatFs` reads, writes, truncates and
removes in place and is proved against plain byte sequences. `FatStore.Store` holds all open files: its invariant keeps their
chains apart and their directory entries in step, and its operations are those of a map from files to bytes.

**Pipes, sleep and poll** (`Pipes`, `Wakeup`). `PipeData` is the ring buffer under its lock. `Wakeup` is a transition system of
any number of tasks and pipes in which every locked region, every step of publishing a sleep, every generation bump and every
single task a wakeup looks at is a step of its own, interleaved at will.

**Kernel heap** (`Heap`), **line discipline** (`Pty`), **signals** (`Signal`), **task selection** (`Sched`), **terminal**
(`Vt100`, `Terminals` in `Terminal.dfy`) and **consoles on the screen** (`Console`): each an imperative class proved against
functions on values, and laws of those functions.

Where the code does not meet a law, the model keeps the code and states exactly when it does:

- The page tables look at 48 bits of an address, while `exec` accepts segments up to the kernel's. So two accepted segments
  can share page-table entries (`Elf.NonCanonicalSegmentsAlias`). `Elf.SegmentsToldApart`: accepted segments are told apart
  by the page tables if and only if their spans are disjoint on the circle of 48-bit addresses and none is longer than it,
  which can be read off the program headers. `Vmm.FilledSeenAt` says where a page filled above 48 bits can be read.
- `Signal.RangeChecksWrap`: for sixteen small stack pointers the range checks on a signal frame are met by a wrap-around; the
  checks alone are right if and only if the stack pointer is not one of them (populating the page then refuses).
- The alternate screen gives the primary one back, but not after ESC c. `Vt100.GivesBackExactly`: a text that does not leave
  the alternate screen gives every screen back if and only if no byte of it resets the terminal.
- Mounting a FAT volume takes the first table copy for granted: memory and disk agree if and only if the copies do
  (`Fat.FatFs.constructor`).

## Model

| member | source | states |
|---|---|---|
| Processes.Kernel.Refinement | mm/vmm.c:298-353 | in every state, a page is in the eagerly copied and loaded memory exactly when a block covers it, with that block's permission, and holds what its frame, the file or zero filling gives |
| Processes.Kernel.Conservation | mm/pmem.c:181-236 | in every state a frame's count is the number of entries naming it over all processes, plus one for a page table, plus what the kernel took for itself, whatever that was; it is free exactly at zero; a frame some entry may write has count one |
| Processes.Kernel.ForkTask | sched/sched.c:545-632 | fork gives the child the parent's eager memory and changes no one else's, over the three shared sections |
| Processes.Kernel.ShareWith | sched/sched.c:566-568 | the sharing part of fork, as one Copy event on eager memory |
| Processes.Kernel.PageFault | mm/paging.c:446-487 | a handled fault leaves an entry that allows the access, only where eager memory permits it, and changes no process's memory; a true fault is refused only if eager memory forbids the access or frames run low |
| Processes.Kernel.TryCow | mm/paging.c:419-442 | a resolved copy-on-write fault makes the page writable without changing any process's memory; failure changes nothing |
| Processes.Kernel.TryDemand | mm/vmm.c:298-353 | a filled page is permitted by eager memory and filling it is invisible to every process |
| Processes.Kernel.Load | mm/paging.c:446-487 | a user load returns the byte of eager memory, or the task is killed, which happens only if eager memory forbids the load or frames run low |
| Processes.Kernel.Store | mm/paging.c:446-487 | a user store changes that byte of that process's eager memory and no other process's, or the task is killed for the same reasons only |
| Processes.Kernel.StoreMapped | mm/paging.c:9-14 | a store through a writable entry is one Write event |
| Processes.Kernel.ExitTask | mm/vmm.c:32-43 | exit removes that process's memory and no other's |
| Processes.Kernel.NewMap | mm/vmm.c:15-30 | a new map is an empty memory, or no frame is free and nothing changes |
| Processes.Kernel.ReserveMapping | mm/vmm.c:187-215 | an anonymous block makes its pages appear as zeroes in eager memory; size 0 is refused |
| Processes.Kernel.ReserveFileMapping | mm/vmm.c:246-280 | refused exactly without a file, for size 0, or on overlap with any block; else the file's bytes appear in eager memory |
| Processes.Kernel.SetBackingFile | mm/vmm.c:217-223 | the file is set exactly when there was none, and no memory changes |
| Processes.Kernel.PopulatePage | mm/vmm.c:355-369 | the page is made writable where eager memory permits it, invisibly; refused only otherwise or when frames run low |
| EagerMemory.WritesArePrivate | mm/vmm.c:88-132 | a write by one process leaves every other process's memory as it was |
| EagerMemory.ReserveSeen | mm/vmm.c:187-215 | reserving a block makes exactly its pages appear, with their initial contents |
| EagerMemory.KernelReserve | mm/vmm.c:246-280 | the same over all processes: the images after reserving are one step of eager memory |
| KernelMemory.FrameConservation | mm/pmem.c:181-236 | count = entries naming the frame + page-table use + kernel's, at most one table, free iff zero |
| KernelMemory.MappedFrame | mm/vmm.c:88-132 | a mapped frame's count is between one and the number of processes, and one if any entry may write it, so 16 bits suffice |
| KernelMemory.KernelFault | mm/vmm.c:320-352 | a demand fault keeps the invariant and every process's memory |
| KernelMemory.KernelCow | mm/paging.c:419-442 | resolving copy-on-write keeps the invariant and every process's memory, and happens only in writable blocks |
| KernelMemory.KernelStore | mm/paging.c:419-442 | a store through a writable entry changes one page of one process and nothing else |
| KernelMemory.KernelFork | mm/vmm.c:88-145 | after sharing every block, the child's memory is the parent's and all others are unchanged |
| KernelMemory.KernelExit | mm/vmm.c:32-43 | tearing one space down leaves all other memory as it was |
| KernelMemory.ExitReturns | mm/paging.c:210-270 | every frame loses exactly the references the space had to it |
| Memory.FaultPreserves | mm/vmm.c:298-353 | a filled page keeps the space in order and its image unchanged |
| Memory.CowPreserves | mm/paging.c:419-442 | a resolved fault keeps the space in order and its image unchanged |
| Memory.StoreSeen | mm/paging.c:9-14 | a page stored through a writable entry changes that page of the image only |
| Fork.SharePage | mm/vmm.c:100-124 | one present page: both entries lose write permission and gain the copy-on-write bit if it was writable, the frame is retained, the pages shared so far grow by it |
| Fork.ShareBlock | mm/vmm.c:88-132 | a whole block is shared, its copy equals it, and the page total counts the child's leaves |
| Fork.ShareSection | mm/vmm.c:134-145 | a section's blocks are shared in order, with the backing file cloned once |
| Fork.ShareAll | sched/sched.c:566-568 | the three sections together share every page the parent has mapped |
| Fork.ForkPreserves | mm/vmm.c:88-145 | the parent's image is unchanged and the child's equals it, with both spaces in order |
| Fork.ForkOther | mm/vmm.c:88-145 | a third process's space and image are unchanged |
| Fork.CountBound | mm/pmem.c:204-209 | a frame is referred to at most once by each space, so retaining cannot overflow |
| Fork.FrameLeft | mm/paging.c:165-190 | with as many free frames as the parent has tables, a missing table of the child always finds one |
| Vmm.FindBlock | mm/vmm.c:282-296 | the first block over stack, text and data lists that contains the address |
| Vmm.RangeOverlaps | mm/vmm.c:225-244 | true exactly when the range wraps or meets a block of any section |
| Vmm.HandlePageFault | mm/vmm.c:298-353 | for any address, success fills exactly the faulting page with its block's initial contents and counts it; refusal changes no mapping, and has one of the handler's reasons |
| Vmm.FilledSeenAt | mm/paging.c:9-14 | a filled page can be read at exactly the addresses that agree with it in 48 bits, and all other pages are as before |
| Vmm.FillFromFile | mm/vmm.c:325-343 | the file part of a page is copied over zeroes; for blocks in order no offset, wrap or short-read rejection can happen |
| Paging.MapRange | mm/paging.c:151-208 | on success the pages translate to consecutive frames with the flags and all others as before; when tables run out, so does the part done |
| Paging.Walk | mm/paging.c:385-417 | the leaf table is found exactly when it exists, and its entry is the page's translation |
| Paging.ResolveCow | mm/paging.c:419-442 | a copy is made only of a shared frame, the old frame is released, the contents carry over; failure changes nothing and means no frame was free |
| Paging.NextTable | mm/paging.c:162-180 | the next table is the one there or a fresh zeroed one linked in; 0 only when memory is exhausted |
| Paging.Descend | mm/paging.c:160-200 | the tables down to the leaf exist afterwards and no translation changed, also on failure |
| FlatMap.PathEqual | mm/paging.c:9-14 | two page numbers use the same entries exactly when they agree in 36 bits |
| FlatMap.PteMeaning | mm/paging.c:385-417 | a present translation names exactly the frame of that page's leaf; an absent one is 0 |
| Teardown.FreePgTbl | mm/paging.c:210-270 | freeing an address space releases each of its leaves and tables once, and nothing of any other |
| Pmem.PhysMem.FindFirstFree | mm/pmem.c:107-116 | the lowest free page, or 0 exactly when none is free |
| Pmem.PhysMem.FindFirstChunk | mm/pmem.c:118-139 | the lowest run of free pages, or 0 when there is none |
| Pmem.PhysMem.TryAllocPage | mm/pmem.c:223-236 | the lowest free page becomes used with count one, or memory is exhausted and unchanged |
| Pmem.PhysMem.AllocBlock | mm/pmem.c:181-193 | the lowest free run becomes used with counts one, or there is none and nothing changes |
| Pmem.PhysMem.FreeBlock | mm/pmem.c:195-202 | one reference goes; at zero the page is free; a page without references is refused |
| Pmem.PhysMem.RetainPage | mm/pmem.c:204-209 | one reference more, refused exactly on unreferenced pages and at the 16-bit limit |
| Pmem.PhysMem.PageRefcount | mm/pmem.c:211-216 | the count is the number of tree nodes at the frame plus what the kernel holds |
| Words.ReadAfterWrite | mm/paging.c:9-14 | writing one 64-bit entry of a table's bytes changes that entry and no other |
| Blocks.FilledPage | mm/vmm.c:325-343 | the clipped file range copied over a zeroed page is the file's bytes in the range and zero elsewhere |
| Blocks.FindSpec | mm/vmm.c:282-296 | the search finds a containing block exactly when there is one |
| Elf.CheckHeader | sched/exec.c:33-43 | accepted exactly when magic, entry size and header table bounds are right |
| Elf.CheckSegment | sched/exec.c:82-100 | the 64-bit checks accept exactly the segments in order |
| Elf.AcceptedBlock | sched/exec.c:82-111 | an accepted segment's block covers exactly the pages it touches, is backed by its bytes of the file, and is one the fault handler can fill: its offset, wrap and short-read rejections cannot fire |
| Elf.SegmentsToldApart | sched/exec.c:82-100 | accepted segments have page-table entries of their own if and only if their spans are disjoint on the circle of 48-bit addresses and none is longer than it |
| Elf.NonCanonicalSegmentsAlias | sched/exec.c:82-100 | two accepted disjoint segments that the page tables translate through the same entries |
| Elf.SegmentContents | mm/vmm.c:320-344 | for every accepted segment, on-demand filling gives file[off+(a-vaddr)] within the file part and zero elsewhere in the segment's pages |
| Elf.MapSegments | sched/exec.c:55-117 | the loop succeeds exactly when all segments are in order, no two touch a page, and the entry is in an executable one; then one block each is reserved |
| Elf.LoadedSegments | sched/exec.c:55-117 | reserving the blocks gives the memory eager loading would: every byte of every segment, and no other page |
| Elf.Exec | sched/exec.c:20-139 | succeeds exactly on loadable files (unless no root table can be had), undoes everything on failure, and leaves the new process the loaded segments |
| Pipes.PipeData.ReadRegion | fs/pipe.c:6-43 | takes the oldest bytes there are up to the count, wakes writers exactly then, and sleeps exactly when empty with a writer and no signal |
| Pipes.PipeData.WriteRegion | fs/pipe.c:45-80 | appends what fits to the ring, in order; broken exactly without readers |
| Pipes.PipeData.CloseRegion | fs/pipe.c:82-114 | drops one reference, clears the flags of the other side when the last one goes, frees exactly when none is left |
| Pipes.PipeData.AddRef | fs/pipe.c:116-126 | one reference more on that side |
| Pipes.PipeData.Status | fs/pipe.c:128-146 | what poll sees of a pipe's end, in terms of its contents and references |
| Pipes.RegionsKeepPipe | fs/pipe.c:6-126 | after every locked region read_wait means empty with a writer, write_wait full with a reader, and got + buffered = put |
| Wakeup.StepKeepsInv | sched/sched.c:76-185 | every step of every task keeps the protocol's invariant |
| Wakeup.RunInv | sched/sched.c:76-185 | the invariant holds at the end of every run |
| Wakeup.NoLostWakeup | sched/sched.c:148-185 | in every reachable state a sleeper's condition still holds, or a wakeup has yet to look at it, or a notification is still to be made |
| Wakeup.QuietSleepersWait | sched/ps.c:127-189 | with no wakeup or notification pending, a blocked reader's pipe is empty, a blocked writer's is full, and a blocked poll has no ready descriptor |
| Wakeup.PipesAreFifo | fs/pipe.c:6-80 | over every run, bytes read followed by bytes buffered are the bytes written |
| Wakeup.PendingWakeupArrives | sched/sched.c:76-109 | whatever the other tasks do meanwhile, once the waking task has made as many steps as it owes, every task it was still to look at has been runnable |
| Disk.Ata.ReadSec | block/ata.c:545-574 | a successful read returns the disk's sector, cached or not |
| Disk.Ata.ReadSectors | block/ata.c:526-543 | a successful read of 1 to 255 sectors returns the disk's bytes and every valid cache entry still equals its sector |
| Disk.Ata.WriteSectors | block/ata.c:506-519 | success writes exactly the range; after any outcome, even one that changed part of the range, the cache agrees with the disk |
| FatTable.ChainUnique | fs/fat.c:66-69 | a table has one chain at most from a given first cluster |
| FatTable.ExtendChain | fs/fat.c:218-241 | linking a free cluster to the end makes the chain longer by it |
| FatTable.EntrySetKeeps | fs/fat.c:181-207 | setting an entry in memory and in every disk copy keeps them equal in 28 bits, the top 4 bits, and all file data |
| FatTable.LowestFree | fs/fat.c:209-216 | the lowest free entry is a cluster of the volume whenever any cluster of the volume is free, though the table has entries past it |
| FatFiles.OtherFileKept | fs/fat.c:453-558 | a file with a chain apart from the written one keeps its chain, its zero tail and every byte |
| FatFiles.HoldingEnd | fs/fat.c:453-558 | the clusters' bytes at the end of the write loop are the old contents with the range replaced and the gap zero |
| FatFiles.FreedClusters | fs/fat.c:577-586 | freeing releases exactly the chain's clusters |
| FatFiles.RunBytes | fs/fat.c:359-451 | adjacent clusters on the disk are a contiguous part of the file |
| Fat.FatFs.constructor | fs/fat.c:79-97 | mounting takes the first table copy into memory; memory and disk agree exactly when the copies do |
| Fat.FatFs.WriteFatPtr | fs/fat.c:181-207 | the entry is set in memory and in every copy, keeping the top 4 bits on disk; no data byte changes |
| Fat.FatFs.FindFree | fs/fat.c:209-216 | the lowest free entry, in the volume if any of its clusters is free; 0 exactly when no entry is |
| Fat.FatFs.NewCluster | fs/fat.c:218-241 | a free cluster becomes a zeroed end of chain and no other cluster changes |
| Fat.FatFs.AddLink | fs/fat.c:218-241 | the chain being written grows by a zeroed cluster, the write so far intact |
| Fat.CommandFits | fs/fat.c:417-440 | a coalesced command covers 1 to 255 sectors, all on the disk and within the file |
| Fat.FatFs.Coalesce | fs/fat.c:417-436 | the clusters counted are adjacent on the disk, no longer run fits the limit, and the walk continues after the last |
| Fat.FatFs.Skip | fs/fat.c:379-386 | the walk ends at the cluster that holds the position |
| Fat.FatFs.ReadRun | fs/fat.c:417-447 | one command returns the file's bytes at the position, however long the run |
| Fat.FatFs.ReadFile | fs/fat.c:359-451 | exactly file[pos .. pos+min(count, size-pos)) for any chain layout |
| Fat.FatFs.WriteNext | fs/fat.c:469-536 | one turn of the write loop extends what is written by at least a byte, keeping everything else |
| Fat.FatFs.WriteAll | fs/fat.c:469-542 | the loop writes all bytes, and the inode's first cluster and size follow |
| Fat.FatFs.Reach | fs/fat.c:496-508 | the cluster at the position is reached, the chain extended by zeroed clusters as needed |
| Fat.FatFs.FillCluster | fs/fat.c:510-533 | one cluster's part of the data is put in place and nothing else changes |
| Fat.FatFs.WriteFile | fs/fat.c:453-558 | the file becomes the old contents with the range replaced and the gap zero, its size the larger one, the directory entry in step, all other chains and bytes unchanged, new clusters taken from free ones |
| Fat.FatFs.UpdateEntry | fs/fat.c:543-555 | first cluster and size are in the entry, and no other byte of the directory cluster changes |
| Fat.FatFs.FreeChain | fs/fat.c:577-586 | terminates on every table, even a cyclic one, and only frees; on a chain it frees exactly that chain |
| Fat.FatFs.TruncateFile | fs/fat.c:563-606 | the file is empty, its chain free, its entry zeroed, everything else unchanged; refused exactly without a directory entry |
| Fat.FatFs.MarkDeleted | fs/fat.c:628-635 | the record and the long-name records right before it are marked unused, and nothing else |
| Fat.FatFs.RemoveFile | fs/fat.c:608-653 | the entry and its long-name records are marked, the chain is freed, everything else unchanged; refused exactly on unused entries |
| FatStore.Store.Write | fs/fat.c:453-558 | over all files of the volume: the map from files to bytes changes at this file only, to the written contents; all chains stay apart and all directory entries in step |
| FatStore.Store.Read | fs/fat.c:359-451 | the bytes the map has for the file, and nothing changes |
| FatStore.Store.Truncate | fs/fat.c:563-606 | the map changes at this file only, to no bytes |
| FatStore.Store.Remove | fs/fat.c:608-653 | the file leaves the map and no other changes, exactly when its entry is in use |
| FatStore.Store.Open | fs/vfs.c:202-242 | a file whose chain and entry are its own joins the map with its bytes, and nothing else changes |
| FatStore.WriteKeepsAll | fs/fat.c:453-558 | a write to one file keeps every file in order, apart from all others, and in step with its entry |
| FatStore.TruncateKeepsAll | fs/fat.c:563-606 | the same for truncation |
| FatStore.RemoveKeepsAll | fs/fat.c:608-653 | the same for removal, whose marks on long-name records touch no other entry's fields |
| Heap.KernelHeap.Kmalloc | mm/mm.c:59-86 | takes the lowest free block that is big enough, splitting it when the rest can hold a block; fails exactly when there is none; live and peak counts follow |
| Heap.KernelHeap.Kfree | mm/mm.c:88-107 | releases the block and merges it with free neighbours; refuses pointers outside the heap and free blocks |
| Heap.KernelHeap.SplitBlock | mm/mm.c:29-45 | the linked headers after splitting are the list with the block split |
| Heap.KernelHeap.MergeWithNext | mm/mm.c:47-57 | the linked headers after merging are the list with the two blocks joined |
| Heap.TakeTiled | mm/mm.c:59-86 | allocation keeps blocks tiling the heap, sizes multiples of 16 and at least 64, no two free neighbours, and adds its size to what is live |
| Heap.ReleaseTiled | mm/mm.c:88-107 | freeing keeps all that and takes the size off |
| Heap.ReleaseUndoesTake | mm/mm.c:29-107 | freeing what was just allocated gives the same block list back |
| Heap.AllFreeIsInitial | mm/mm.c:136-161 | with nothing in use the heap is its single initial block, whatever the order of frees |
| Heap.Apart | mm/mm.c:59-86 | blocks never overlap and stay in the heap |
| Pty.Terminal.WriteRegion | fs/pty.c:112-249 | one locked region takes exactly the bytes up to the first the editor refuses, or up to a signal character; every byte taken was acceptable at its time |
| Pty.Terminal.Write | fs/pty.c:112-249 | region after region, a write takes exactly the bytes up to the first the editor refuses, and what the slave sees is the pure editor applied to them |
| Pty.Terminal.AcceptByte | fs/pty.c:148-226 | a byte is accepted exactly when the editor has room, and then the queues are the editor's next state |
| Pty.Terminal.FlushCanonical | fs/pty.c:45-50 | the whole line goes to the slave's queue; no byte is dropped |
| Pty.Terminal.ReadRegion | fs/pty.c:52-110 | the slave gets the oldest bytes, or the end of file exactly when there are none and one is due |
| Pty.EditKeepsRoom | fs/pty.c:148-226 | line plus readable bytes never exceed 4096 |
| Pty.SplitWrites | fs/pty.c:112-249 | a write of a + b takes what a write of a and then one of b take, and leaves the same editor, wherever the text is cut |
| Pty.RegionThenRest | fs/pty.c:129-249 | a region ended by a signal character leaves the rest to the next one; any other region is the whole write |
| Pty.TypedLine | fs/pty.c:148-226 | a line of plain characters reaches the slave whole, and only when it ends |
| Pty.EraseUndoes | fs/pty.c:148-226 | the erase character takes back exactly the last character |
| Signal.HandlerRestores | sched/signal.c:348-383 | returning from a handler, after any nest of signals inside it, restores registers, result and mask, and the stack above |
| Signal.RunKeepsStack | sched/signal.c:272-383 | any nest of deliveries and returns leaves the stack above its bound alone |
| Signal.FramePlace | sched/signal.c:281-293 | the handler starts with RSP = 8 mod 16 and the frame lies below the interrupted RSP, on the stack |
| Signal.RangeChecksWrap | sched/signal.c:281-290 | the range checks put the frame on the stack exactly outside sixteen stack pointers, for which it lands at 0 |
| Signal.RangeChecksWrapAt | sched/signal.c:281-290 | such a stack pointer |
| Signal.FramePages | sched/signal.c:291-293 | the two pages populated are all the pages the frame touches |
| Signal.FramesDisjoint | sched/signal.c:281-285 | in every run, while a handler's frame is on the stack, every frame delivered inside it, at any depth, lies below it |
| Signal.FramesBelow | sched/signal.c:281-290 | all frames of a run lie on the stack below the run's bound |
| Signal.HandlerMaskBits | sched/signal.c:301-303 | the handler's mask bit by bit: old, the action's and the signal itself, never KILL or STOP |
| Signal.Task.Prepare | sched/signal.c:272-309 | the frame, mask and registers are those of a delivery; refused exactly when the frame does not fit or its pages cannot be had, with nothing changed |
| Signal.Task.SigReturn | sched/signal.c:348-383 | the saved registers, result and mask are restored; refused exactly on a frame that is not in place or has no magic |
| Signal.Task.SetMask | sched/signal.c:229-250 | the mask bit by bit for each way of setting it, never KILL or STOP |
| Signal.Task.Next | sched/signal.c:262-270 | the lowest pending unmasked signal, or 0 exactly when there is none |
| Signal.Task.DeliverNext | sched/signal.c:311-346 | the lowest deliverable signal that is not ignored gets its reaction (handler, stop, kill, or SIGSEGV when its frame cannot be placed); exactly it and the ignored ones below leave the pending set |
| Sched.Scheduler.UpdateTimers | sched/sched.c:1042-1060 | every slot's state after its timer is looked at |
| Sched.Scheduler.FindNext | sched/sched.c:1017-1040 | the first runnable slot going round from the current one; none exactly when nothing can run |
| Sched.Scheduler.Select | sched/sched.c:1062-1160 | terminates; dispatches the nearest runnable task, the idle task only if no other can run, panics exactly when nothing can; no other slot's state changes |
| Sched.ChoiceUnique | sched/sched.c:1090-1126 | the slot to dispatch is determined by the slots and where the search starts |
| Sched.RoundCloser | sched/sched.c:1090-1126 | every dispatch of another task brings the search closer to a waiting one |
| Sched.BoundedWaiting | sched/sched.c:1017-1126 | a task that stays runnable is dispatched within 1024 dispatches |
| Vt100.AlternateRoundTrip | output/vt100.c:238-276 | entering the alternate screen, any text that neither leaves it nor resets, and leaving, restores all cells, cursor, saved cursor, colours, attributes and modes |
| Vt100.FedKeepsAside | output/vt100.c:344-388 | no byte other than those two touches what is set aside |
| Vt100.GivesBackExactly | output/vt100.c:238-276 | a text that does not leave the alternate screen gives every screen back if and only if no byte of it resets the terminal |
| Vt100.ResetForgets | output/vt100.c:363-363 | after a text with a reset in it, the cells after leaving do not depend on what was on the screen before |
| Vt100.FedAside | output/vt100.c:344-388 | every byte that does not change screens does the same whatever is set aside, and leaves it there |
| Vt100.WrittenReads | output/vt100.c:344-388 | how a text is understood does not depend on what is on the screen |
| Vt100.WrittenInParts | output/vt100.c:390-396 | how a text is cut into writes makes no difference |
| Vt100.EnterIs | output/vt100.c:313-318 | the eight bytes of ESC [ ? 1049 h, through the parser, switch the screen |
| Vt100.LeaveIs | output/vt100.c:313-318 | likewise ESC [ ? 1049 l |
| Terminals.Terminal.Write | output/vt100.c:390-396 | writing in place does what the value functions say, and a row not marked dirty has unchanged cells |
| Terminals.Terminal.Feed | output/vt100.c:344-388 | the same for one byte; cursor and parameter indices stay in bounds |
| Terminals.Terminal.ExecuteCsi | output/vt100.c:278-320 | the same for a control sequence |
| Terminals.Terminal.PutCharacter | output/vt100.c:322-342 | the same for a character, with the wrap that is due |
| Terminals.Terminal.ScrollUp | output/vt100.c:85-95 | any number of one-row scrolls is the grid moved up with blank rows, all rows marked |
| Terminals.Terminal.ScrollDown | output/vt100.c:97-107 | likewise down |
| Terminals.Terminal.InsertLines | output/vt100.c:186-198 | the rows from the cursor moved down in place, blank ones inserted; the rows above unchanged |
| Terminals.Terminal.DeleteLines | output/vt100.c:200-212 | the rows from the cursor moved up in place, blank ones at the end |
| Terminals.Terminal.InsertCharacters | output/vt100.c:214-224 | the cells from the cursor moved right within their row |
| Terminals.Terminal.DeleteCharacters | output/vt100.c:226-236 | the cells from the cursor moved left within their row |
| Terminals.Terminal.EraseDisplay | output/vt100.c:136-149 | the erased part is blank, the rest unchanged, changed rows marked |
| Terminals.Terminal.AlternateScreen | output/vt100.c:238-276 | saving and restoring in place is the value function, and marks what changed |
| Console.Screen.ConsoleWrite | output/vga.c:127-139 | after drawing only marked rows and the cursor, the screen is a full drawing of the active console; only the written console changes |
| Console.Screen.SwitchConsole | output/vga.c:148-166 | the screen becomes a full drawing of the chosen console, no console's contents change; refused exactly for bad numbers |
| Console.Screen.ClearActive | output/vga.c:103-114 | the active console is cleared and the screen is a full drawing of it |
| Console.Screen.FramebufferReady | output/vga.c:116-125 | once there is a framebuffer the screen is a full drawing of the active console |
| Console.Screen.Redraw | output/vga.c:82-91 | exactly the marked rows are drawn, or all, and the marks are gone |

## Left out

- Physical addresses are frame numbers relative to the managed region; `base_addr` and the boot-time carving of the bitmaps are not modelled, a reserved prefix with page 0 is assumed.
- TLB flushes, CR3 switches and hardware accessed/dirty bits: a user access is "look at the entry, fault if needed, then access".
- `vmm_add_new_mapping` and `vmm_copy_*` (`mm/vmm.c:58-81`, `147-185`) have no callers and are not modelled.
- The kernel's own mappings (`mm/paging.c:53-149`, `303-383`) appear only as frames the kernel holds.
- Failing `kmalloc` inside the memory manager, the file system and fork.
- Paging.ResolveCow: the old frame is released after the entry is rewritten, not before; no other step can come between.
- Paging.MapRange: requires the pages to be unmapped, as all callers ensure.
- Processes.Kernel.ReserveMapping: requires the new anonymous block to be within 48-bit addresses and to meet no other block, since the code does not test it.
- Processes.Kernel.ReserveFileMapping: requires the new block to be within 48-bit addresses and its bytes to exist in the file, as `exec` sees to, the first for the reason given at Elf.Exec.
- Elf.MapSegments: as Elf.Exec.
- Processes.Kernel.ForkTask: enough free frames for the child's tables; what the code does when they run out in the middle is not modelled. Descriptors, signals and registers of the child are not part of this model.
- Elf.Exec: segments of the file that pass the checks end within 48-bit addresses, since above them a process's memory is not what its blocks say (Vmm.FilledSeenAt); the stack, heap and argument set-up after the loop is not modelled; the file does not change while it is mapped.
- Teardown.FreePgTbl: the four `paging_free_*` functions are one method recursive in the level.
- Pmem.PhysMem.FreeBlock: a caller releases only references the kernel holds for it; references inside page tables are released through the tree.
- Pmem.PhysMem.RetainPage: page tables are never shared, so a frame that is one is not retained.
- Processes.Kernel.ShareWith: as Processes.Kernel.ForkTask, and Fork.ShareAll likewise.
- Disk.Ata.WriteSectors: DMA, PIO and timeouts are one command that succeeds or fails after changing any part of its range.
- Fat.FatFs.WriteFile: disk commands succeed, enough clusters of the volume are free, one open description per file, and directory and file clusters are apart; file creation, renaming, 8.3 names and directory listing are not modelled.
- Fat.FatFs.ReadFile: disk commands succeed.
- Pipes.PipeData.CloseRegion: the memory of a pipe without references stays in the protocol model.
- Wakeup.StepKeepsInv: the I/O generation is unbounded; a wakeup looks at one task atomically; timeouts of poll are a choice of the environment.
- Heap.KernelHeap.Kfree: a pointer inside the heap is one `kmalloc` returned; the interrupt lock is not modelled.
- Pty.Terminal.WriteRegion: fixed mode, non-blocking writes; what is echoed, foreground-group checks and changes of mode are not specified.
- Signal.Task.SigReturn: the frame address is a multiple of 8, and stack memory is an array of words.
- Signal.Task.Prepare: whether memory suffices to populate the two pages is a parameter; what populating does is Processes.Kernel.PopulatePage.
- Signal.Task.DeliverNext: comes back where the task is stopped, and is called again when it is continued; scheduling a stopped or killed task is not modelled, nor is sending signals.
- Sched.Scheduler.Select: the time does not change during one selection; saving contexts and switching stacks is left out; if the slot the search starts at has lost its task, it is finished and its timer is not running.
- Vt100.AlternateRoundTrip: integers are unbounded, so a parameter never overflows; a wrap due before entering is not due after leaving.
- Console.Screen.ConsoleWrite: a cell's place on the screen is one value (character, colours, underline, cursor bar), not pixels; the legacy text buffer is left out.
- `ramfs.c`, the virtual file system's path walking, process groups and sessions, adoption by PID 1, drivers, GUI, games and user programs.
