# A Dafny model of the Shmily kernel

Shmily is a 32-bit microkernel: a small kernel with a priority scheduler and rendezvous message passing, and
servers for memory, files and the network. This project models the parts whose correctness depends on several
functions together and proves what they promise for every input, every run and every reachable state.

| component | modules | main results |
|---|---|---|
| memory manager | `Bitmaps`, `DoublebitMaps`, `Paging`, `PageManager`, `PremappedPool`, `Slab`, `Heap`, `Swar` | the 2-bit map always parses to the live allocations; page tables edited through their own self-map give every live page its own frame; frames, blocks and pages are conserved; live blocks and runs never overlap |
| kernel | `Kernel`, `KernelObject`, `Fairness`, `StrandedSender`, `Delivery`, `Turns`, `Semaphores` | ready lists and sender chains in every reachable state; what each call does to sender and receiver, and that nobody waits for a message that is there; round robin within a level; schedule always finds a process; of the levels that stay ready exactly the first two are served; every message has been delivered exactly once or is still held by its blocked sender; mutual exclusion without lost wake-ups |
| network | `Tcp`, `Acknowledgements`, `Checksums`, `Dns`, `RingBuffers` | over a network that loses, duplicates and reorders, both sides synchronise only by the three-way handshake and receive a prefix of what was sent, and acknowledge exactly that prefix; Internet checksum; DNS names decode to what was encoded |
| file system | `Layouts`, `FileSystem`, `FileSystemObject`, `DirectoryEntries`, `Space`, `StaleBlockRun` | disk layout; one ownership invariant over every run of mkdir, rmdir, mkfile, rmfile, cp, mv and file writes; what each call does to names and contents; "." and ".." in every directory; exactly which calls lose space |
| shared | `CycleLists`, `Options` | the sentinel list refines a sequence |

`dafny verify dfyconfig.toml` checks the whole project.

Code that updates objects step by step is modelled by classes (`KernelObject.Processor`, `FileSystemObject.Partition`,
`PageManager.MemoryManager`, `Heap.Allocator`, `Tcp.TcpSocket`, `DoublebitMaps.DoublebitMap` and others) whose methods
are proved to do what functions on values say; the properties of whole runs are proved about those functions.

## Where the code does not do what it seems to

The model follows the code. Where a natural property of what is modelled fails, the failing case is a lemma and the exact
condition is proved, and both are named below; the other entries say how the model reads the code.

- `receive` for a sender in mid-chain (kernel/ipc.cc:144-156) unlinks that sender but wakes the one before it. The
  queue invariants survive a receive if and only if this branch is not taken (`Kernel.ReceiveInvIff`,
  `Kernel.MidMatchBreaks`); the unlinked sender never runs again (`StrandedSender.StrandedForEver`), and six steps from
  boot are enough to get there (`StrandedSender.MidMatchRun`). Runs are over receives that do not take it.
- Round budgets do not keep low priorities from starving. A budget is spent only when the caller's own level is picked
  (kernel/process.cc:167-170), so if two levels stay ready the second one's budget is never spent, and all levels below
  it together get at most one more turn (`Fairness.BelowSecondAtMostOnce`, `Fairness.ServedIff`, `Fairness.InitStarves`).
- `unblock_proc` overwrites the status before testing it for WAITING_MID (kernel/process.cc:300-302): the test never
  fires and is not modelled.
- `get_elem` does not advance (lib/cycle_list.cc:73), so the slab allocator only ever looks at the head page.
- The reclaim and promote branches of `free` (mm/memory.cc:234-241) can never run (`Slab.ReclaimNeverRuns`), so a slab
  page is never given back.
- kernel/page.cc:30 maps 16 pages of the pool before the memory manager starts, and `map_vir_phy` leaves a present
  entry alone, so pages and frames can part company. First fit hides this for two such pages and no more
  (`PremappedPool.SafeIffAtMostTwo`, `PremappedPool.FourCallsLoseAFrame`). The page tables themselves are modelled, in
  `PageManager`, from a pool in which no page is mapped.
- `vaddr2pte` has no return statement (mm/memory.cc:77-82); it is modelled as returning `pte`.
- `memset` in mm/doublebit_map.cc:13 has value and count exchanged and clears nothing; the map is taken to start free.
- The first loop of `bitmap_scan` reads one byte past a full map before it tests the length (lib/bitmap.cc:32); the
  model tests first.
- The block bitmap can miss more than one data sector; `Layouts.CoversAllButOneIff` says on which partitions, and
  `Layouts.AtMostOneUncovered` that it takes more than 2^24 free sectors. The inode bitmap offers numbers beyond the
  inode table (`Layouts.InodeInTableIff`).
- A directory that grows keeps whatever its new block held (fs/dir.cc:201-203); `FileSystem.GrowthIff` says exactly when
  that is harmless, and `StaleBlockRun.StaleRunDangles` shows a run after which it is not. Runs are over blocks that read
  as empty.
- `mv` of a file onto itself destroys it (fs/file.cc:387-395): `FileSystem.MoveKeepsFileIff`.
- Space is lost, though nothing becomes inconsistent, by mkfile, mkdir, cp and mv onto an existing name (the inode just
  made, and for cp and mv the destination's old blocks), by mkfile and mkdir in a full directory (the inode, the block),
  and by rmdir (the directory's block).
  `Space.TightIff` says exactly when, `Space.CopyOntoLoses` and `Space.MoveOntoLoses` which blocks, and
  `Space.LosingRun` shows a run.
- write_file in mode APPEND counts sectors from the last sector of the file but frees from its first
  (fs/file.cc:110-111, 147-153): appending to a file of 512 bytes or more gives back sectors of the file, its last one
  included (`FileSystem.AppendKeepsIff`).
- For an odd length the checksum adds the byte after the packet (net/ip.cc:42-43, `Checksums.OddLength`).
- `real_len` counts non-zero bytes (net/tcp.cc:256-259, `Tcp.WholeChunkIff`), a full ring yields no buffer, and `connect`
  never gives the socket's ring buffers (`Tcp.LostIff`, `Tcp.ClientBuffersNothing`). The prefix property needs none of
  these excluded for the bytes acknowledged; for the bytes buffered it says when a chunk was lost.
- `recv` drops the rest of a chunk longer than the length asked for (net/tcp.cc:312-313): `Tcp.HandedOver`.

## Model

| member | source | states |
|---|---|---|
| `Bitmaps.Bitmap.VerifyBit` | lib/bitmap.cc:10-15 | reads element idx of the bit sequence the bytes stand for |
| `Bitmaps.Bitmap.SetBit` | lib/bitmap.cc:17-26 | changes exactly bit idx of that sequence, whatever the other seven bits of its byte |
| `Bitmaps.Bitmap.Scan` | lib/bitmap.cc:29-44 | returns the lowest clear bit, or -1 if and only if every bit is set |
| `CycleLists.CycleList.constructor` | lib/cycle_list.cc:10-16 | a list of two fresh sentinels stands for the empty sequence |
| `CycleLists.CycleList.Append` | lib/cycle_list.cc:18-26 | refines adding at the end; next and prev stay mutually inverse from sentinel to sentinel |
| `CycleLists.CycleList.Push` | lib/cycle_list.cc:28-36 | refines adding at the front |
| `CycleLists.CycleList.Remove` | lib/cycle_list.cc:38-42 | refines deleting position k in any list; the removed element keeps its own, now stale, pointers |
| `CycleLists.CycleList.Pop` | lib/cycle_list.cc:44-50 | refines taking the first element |
| `CycleLists.CycleList.IsEmpty` | lib/cycle_list.cc:52-55 | true exactly for the empty sequence |
| `CycleLists.CycleList.GetLength` | lib/cycle_list.cc:57-65 | terminates with the length of the sequence |
| `CycleLists.CycleList.GetElem` | lib/cycle_list.cc:67-76 | every index in range yields the first element, because the loop does not advance |
| `CycleLists.CycleList.NextElem` | lib/cycle_list.cc:78-84 | the cyclic successor of a linked element |
| `CycleLists.CycleList.RemoveThenNext` | kernel/process.cc:147-168 | following the stale pointer of an element just unlinked still gives its cyclic successor, which is linked, as long as the list is not empty |
| `CycleLists.Move` | mm/memory.cc:193-196 | moving an element from one list to another leaves both well linked and disturbs no other element |
| `RingBuffers.IndirectRingBuffer.constructor` | lib/indirect_ring_buffer.cc:18-25 | an empty ring over ten buffers |
| `RingBuffers.IndirectRingBuffer.GetFirstFreeBuffer` | lib/indirect_ring_buffer.cc:38-47 | one produce step of the ring, null exactly when it is full |
| `RingBuffers.IndirectRingBuffer.GetFirstUsedBuffer` | lib/indirect_ring_buffer.cc:50-59 | one consume step of the ring, null exactly when it is empty |
| `RingBuffers.RunShape` | lib/indirect_ring_buffer.cc:27-59 | in every interleaving head and tail are the numbers of buffers handed out modulo 10, at most nine apart |
| `RingBuffers.FirstInFirstOut` | lib/indirect_ring_buffer.cc:27-59 | in every interleaving the slots consumed are a prefix of the slots produced and at most nine are outstanding |
| `RingBuffers.ConsumersSlotIsSafe` | lib/indirect_ring_buffer.cc:50-59 | the slot consumed last is not handed to the producer by any number of further produce calls, although tail has moved past it |
| `DoublebitMaps.FieldOfWithField` | mm/doublebit_map.cc:16-33 | writing a 2-bit field of a byte and reading back gives the new value there and the old value in the other three fields |
| `DoublebitMaps.DoublebitMap.constructor` | mm/doublebit_map.cc:8-14 | all slots free (the memset of the source has its arguments in the wrong order; the cleared map is taken as the start state) |
| `DoublebitMaps.DoublebitMap.GetSlotStatus` | mm/doublebit_map.cc:16-22 | reads slot idx of the slot sequence |
| `DoublebitMaps.DoublebitMap.SetSlotValue` | mm/doublebit_map.cc:24-33 | changes exactly slot idx of the slot sequence |
| `DoublebitMaps.DoublebitMap.Sync` | mm/doublebit_map.cc:35-48 | writes SINGLE, or START SINGLE* END, over the run and changes no other slot |
| `DoublebitMaps.DoublebitMap.FindFreeSlots` | mm/doublebit_map.cc:50-71 | the lowest start of cnt consecutive free slots, -1 if and only if there is none; 0 slots always fail |
| `DoublebitMaps.DoublebitMap.GetFreeSlots` | mm/doublebit_map.cc:50-71 | first fit, and the map afterwards is the old one with the run written at the result, or unchanged on failure |
| `DoublebitMaps.DoublebitMap.FreeSlots` | mm/doublebit_map.cc:73-95 | frees a single slot or everything from START to the next END and returns how many; any other slot is refused with 0 and no change |
| `DoublebitMaps.AllocateThenFree` | mm/doublebit_map.cc:50-95 | get_free_slots(n) followed by free_slots of the result returns n and restores the map |
| `DoublebitMaps.RepresentsIffParsed` | mm/doublebit_map.cc:35-48 | a map represents a set of allocations if and only if the grammar FREE, SINGLE, START SINGLE* END parses it to exactly that set, so no map is ambiguous |
| `DoublebitMaps.StampRepresents` | mm/doublebit_map.cc:35-48 | writing a run over free slots adds exactly that allocation, and erasing it restores the map |
| `DoublebitMaps.EraseRepresents` | mm/doublebit_map.cc:73-95 | free_slots of a live start finds the length it was allocated with and removes exactly that allocation |
| `DoublebitMaps.EveryRun` | mm/doublebit_map.cc:50-95 | after every run of allocations and of releases of live starts the map parses to exactly the live allocations |
| `Paging.MasksAreQuotients` | mm/memory.cc:70-88 | for every 32-bit word the masks and shifts of the source, as numbers, are the directory index, table index, page and offset of the address it stands for |
| `Paging.EntryBits` | mm/memory.cc:96-108 | the low bits of every entry written are those of a present, writable user page |
| `Paging.SelfMapWalk` | mm/memory.cc:70-82 | for every address v and any table contents with a self-referencing last directory entry, walking the address of vaddr2pde(v) ends at the directory word of v, and that of vaddr2pte(v) at the table word of v if the directory word is present and nowhere otherwise |
| `Paging.InstallPage` | kernel/page.cc:14-33 | directory: first table, self-reference, nothing between; table: the first 528 entries map page i to frame i, the others unchanged |
| `Paging.InstalledIdentity` | kernel/page.cc:28-33 | walking any address below 528 pages in that directory ends at the same physical address |
| `PageManager.TakeInv` | mm/memory.cc:58-68 | taking a clear frame keeps the pool invariant |
| `PageManager.MapPageInv` | mm/memory.cc:90-101 | entering a taken frame for an unmapped page keeps it: every mapped page has its own frame, tables have theirs, and the bitmap marks exactly the frames in use |
| `PageManager.MakeTableInv` | mm/memory.cc:102-108 | making a new page table keeps it |
| `PageManager.UnmapInv` | mm/memory.cc:124-146 | freeing a page's frame and clearing the present bit keeps it |
| `PageManager.UserStoreInv` | mm/memory.cc:90-109 | a store by any process into a mapped pool page touches no page table and keeps it |
| `PageManager.Translation` | mm/memory.cc:84-109 | an address of the pool translates exactly when its page is mapped, then to a marked frame that no other page and no table uses |
| `PageManager.Conservation` | mm/memory.cc:90-161 | the number of set frame bits is the number of mapped pages plus the page tables made |
| `PageManager.MemoryManager.constructor` | mm/memory.cc:13-37 | from a directory with only its first table and the self-reference and no pool page mapped, the invariant holds with nothing live |
| `PageManager.MemoryManager.Store` | kernel/page.cc:21-26 | a store lands on the one word that the current tables translate the address to |
| `PageManager.MemoryManager.Load` | kernel/page.cc:21-26 | a load reads the word that the current tables translate the address to |
| `PageManager.MemoryManager.GetPhyPage` | mm/memory.cc:58-68 | takes the lowest clear frame and no other; fails only when no frame is clear |
| `PageManager.MemoryManager.ClearTable` | mm/memory.cc:106-106 | clearing through the window of the self-map zeroes exactly the frame of that page table |
| `PageManager.MemoryManager.NewTable` | mm/memory.cc:102-106 | a new table is entered in the directory and cleared through the self-map, keeping the invariant |
| `PageManager.MemoryManager.SetPte` | mm/memory.cc:96-107 | writing the table word through the self-map maps the page to the frame and changes no other mapping |
| `PageManager.MemoryManager.MapVirPhy` | mm/memory.cc:90-109 | maps an unmapped page to the frame, making a table if and only if its directory entry has none, at the cost of one frame; a mapped page is left alone and the frame stays taken for nothing |
| `PageManager.MemoryManager.MapInTable` | mm/memory.cc:96-101 | the branch for a page whose table exists: mapped if its entry is not present, left alone if it is |
| `PageManager.MemoryManager.MapOne` | mm/memory.cc:115-120 | one round of the loop of malloc_page leaves the frames the remaining rounds need |
| `PageManager.MemoryManager.MapRun` | mm/memory.cc:111-122 | exactly the pages of the run become mapped; mappings and tables already there stay |
| `PageManager.MemoryManager.MallocPage` | mm/memory.cc:111-122 | with the virtual run and the frames available, returns the first fit, adds exactly that allocation, keeps every earlier mapping and table and the invariant |
| `PageManager.MemoryManager.FreeOne` | mm/memory.cc:154-160 | frees the frame the tables say the page has and unmaps the page |
| `PageManager.MemoryManager.UnmapRun` | mm/memory.cc:148-161 | exactly the pages of the run become unmapped |
| `PageManager.MemoryManager.FreePage` | mm/memory.cc:148-161 | removes exactly the live allocation that starts there, keeps all others, the tables and the invariant; a free page or the end of a run is refused and nothing changes |
| `PremappedPool.FourCallsLoseAFrame` | kernel/page.cc:28-33 | with three or more pool pages mapped in advance, malloc_page(1), malloc_page(1), free_page of the first and malloc_page(2), from boot, leave two live pages with one frame or a live page whose frame is the next to be given out |
| `PremappedPool.EveryState` | mm/memory.cc:90-161 | with at most two pages mapped in advance every state of every run is either settled (only live pages are present) or early (page 1 never allocated, page 0 with frame 0), and frames are safe in it |
| `PremappedPool.SafeIffAtMostTwo` | kernel/page.cc:28-33 | with four pool pages or more, every live page has its own marked frame in every state of every run of malloc_page and free_page if and only if at most two pool pages were mapped in advance; install_page maps 16 |
| `Swar.Lanes` | mm/swar.cc:1-12 | the word computation adds up what the same three steps give on each of the four bytes |
| `Swar.SwarCounts` | mm/swar.cc:1-12 | swar of four bytes is the number of their set bits |
| `Swar.CountBytes` | mm/memory.cc:252-256 | adding up bytes counts the true elements of the bit sequence |
| `Swar.CountIsCard` | mm/memory.cc:252-256 | counting true elements is the cardinality of the set of used frames |
| `Swar.UsedPages` | mm/memory.cc:249-256 | the loop over words yields the number of used frames in the whole words of the bitmap, which is all of them for a multiple of 4 bytes |
| `Swar.TotalIsConserved` | mm/memory.cc:249-259 | the total shown is the number of mapped pages plus page tables made, in every state of the memory manager |
| `Slab.CarvedIsBlocks` | mm/small_mem_header.cc:13-22 | carving lists every block of the page once |
| `Slab.BlockInPage` | mm/memory.cc:223-227 | a block lies in its page after the header, is never page-aligned, and masking its address gives the page |
| `Slab.BlocksConserved` | mm/memory.cc:163-246 | on every slab page live blocks plus free_cnts is the capacity, and free_cnts is the length of the free list |
| `Slab.LiveBlocksDisjoint` | mm/memory.cc:163-217 | live blocks hold the bytes asked for, lie inside one page after its header, and never overlap |
| `Slab.ReclaimNeverRuns` | mm/memory.cc:234-241 | division binds tighter than subtraction in the reclaim and promote tests, so neither can hold in any reachable state |
| `Slab.TakeFromHeadInv` | mm/memory.cc:185-196 | handing out a block of the head page, which moves to the tail when full, keeps the slab invariant, and the block was not live |
| `Slab.TakeFromNewInv` | mm/memory.cc:203-211 | handing out the first block of a new page keeps it |
| `Slab.GiveBackInv` | mm/memory.cc:226-229 | returning a live block keeps it |
| `Heap.InstallMemHeader` | mm/small_mem_header.cc:6-23 | the header's size, count and free queue of a freshly carved page |
| `Heap.DescIndex` | mm/memory.cc:175-177 | the doubling loop stops at the smallest of the seven block sizes that fits |
| `Heap.Allocator.constructor` | mm/memory.cc:13-37 | the heap invariant holds with nothing live |
| `Heap.Allocator.FindPage` | mm/memory.cc:179-186 | the search succeeds exactly when the head page of the descriptor has a free block, since get_elem never looks further |
| `Heap.Allocator.TakeBlock` | mm/memory.cc:188-200 | returns a block of the page given that was not live and makes it live; a page that becomes full goes to the end of its list; no page is taken |
| `Heap.Allocator.CarvePage` | mm/memory.cc:203-215 | turns a new page into a slab page at the head of its list and returns a block on it that was not live |
| `Heap.Allocator.MallocSmall` | mm/memory.cc:174-216 | returns a block that was not live; takes one page exactly when the head page is full; live page runs of large requests are untouched |
| `Heap.Allocator.Malloc` | mm/memory.cc:163-217 | null exactly for 0 bytes and for more than 2^32 - 4096; up to 1024 bytes a block that was not live becomes live, on a page of the smallest block size that holds them; above that, at the address returned, a run of exactly the pages the bytes need: k pages with (k - 1) * 4096 < bytes <= k * 4096; nothing else changes and the invariant of all layers is kept |
| `Heap.Allocator.MallocLarge` | mm/memory.cc:168-172 | maps whole pages at the first fit and adds exactly that run; fails only for a page count of 0 |
| `Heap.Allocator.Free` | mm/memory.cc:219-246 | removes exactly the live block or run given; the alignment test always picks the layer it came from |
| `Heap.Allocator.FreeLarge` | mm/memory.cc:224-225 | releases exactly the page run |
| `Heap.Allocator.FreeSmall` | mm/memory.cc:226-245 | gives back exactly the block; no slab page is reclaimed and no descriptor list changes |
| `Heap.SmallLargeDisjoint` | mm/memory.cc:163-246 | a live small block and a live large run never overlap, and only the run is page-aligned |
| `Heap.LargeRunsDisjoint` | mm/memory.cc:168-173 | two live large runs never overlap |
| `Heap.PageCountFits` | mm/memory.cc:168-170 | the 32-bit page count is 0 exactly for 0 bytes and for the last 4095 sizes, and otherwise the least number of pages that holds the bytes |
| `Kernel.PickIsFirst` | kernel/process.cc:155-165 | the scan stops at the first level from max_priority that is not empty and not out of budget; it refills exactly the exhausted budgets it passes |
| `Kernel.ScheduleFinds` | kernel/process.cc:140-193 | schedule always finds a linked process of that level, also when it follows the stale link of a process that has just unlinked itself |
| `Kernel.ScheduleInv` | kernel/process.cc:140-193 | the state after schedule satisfies the whole invariant, with the picked process the only RUNNING one |
| `Kernel.YieldInv` | kernel/process.cc:284-293 | yield and timer tick keep the invariant |
| `Kernel.BlockInv` | kernel/process.cc:263-282 | self_block keeps it, for every blocking status |
| `Kernel.UnblockInv` | kernel/process.cc:296-315 | unblock_proc of a blocked process keeps it; the WAITING_MID test never fires because the status has just been overwritten |
| `Kernel.SendInv` | kernel/ipc.cc:83-109 | every send keeps it, whether the message is delivered or queued |
| `Kernel.ReceiveInvIff` | kernel/ipc.cc:111-166 | receive keeps it if and only if the sender asked for is not in mid-chain |
| `Kernel.MidMatchBreaks` | kernel/ipc.cc:142-158 | in that case the process before the sender asked for is woken and stays linked, and the sender asked for stays SENDING_MSG in no chain |
| `StrandedSender.StrandedForEver` | kernel/ipc.cc:142-158 | whatever steps follow, that sender is in no chain and no ready list, never runs and never leaves SENDING_MSG |
| `StrandedSender.MidMatchRun` | kernel/ipc.cc:142-158 | a run from boot that leads to such a receive: three processes are started, init yields, 2 and 3 send to 4, and 4 asks for 2 |
| `Kernel.NetInterruptInv` | kernel/ipc.cc:71-81 | a network interrupt keeps it |
| `Kernel.StartInv` | kernel/process.cc:99-115 | starting a process keeps it |
| `Kernel.BootInv` | kernel/process.cc:244-261 | the state after init_pm and deal_init_process satisfies it |
| `Kernel.NextInv` | kernel/ipc.cc:63-166 | every step of the system keeps it: send, receive, block, yield, wake-up by a semaphore, network interrupt, start |
| `Kernel.EveryState` | kernel/ipc.cc:63-166 | in every reachable state a process is linked in the ready list of its priority exactly when READY or RUNNING, is in exactly one chain exactly when SENDING_MSG and in none otherwise, lists and chains repeat nothing, and max_priority is at most every ready priority |
| `Kernel.EveryScheduleFinds` | kernel/process.cc:140-193 | in every run every call of schedule picks a linked process of the first eligible level |
| `Kernel.StepCredit` | kernel/process.cc:157-170 | each call of schedule that picks level max_priority uses up one unit of that level's credit; other steps leave it |
| `Kernel.LowerLevelRuns` | kernel/process.cc:155-170 | in every run, among any 12 calls of schedule during which max_priority stays fixed below 3, some call picks a level below max_priority; which one, Fairness says |
| `Fairness.LockedForEver` | kernel/process.cc:155-170 | in every run in which a (below 3) and b stay the first two levels not empty, once b has rounds left and a has too unless it is having its turn, every later call picks a or b, whatever the processes do |
| `Fairness.BelowSecondAtMostOnce` | kernel/process.cc:155-170 | in every such run at most one call picks a level below b: that pick refills both budgets, and no later call picks anything but a and b |
| `Fairness.LockedWithinThirteen` | kernel/process.cc:155-170 | in every such run, from any state, 13 calls are enough to get there |
| `Fairness.ServedIff` | kernel/process.cc:155-170 | from then on the levels picked in any 12 calls or more are exactly a and b |
| `Fairness.OnlyFirstServed` | kernel/process.cc:155-170 | a first level of 3 or more, which has no budget, is picked by every call |
| `Fairness.InitStarves` | kernel/process.cc:155-170 | a run from boot of any length: with a process at level 0 and one at level 1 that only yield, init never runs again |
| `Kernel.EveryWorld` | kernel/ipc.cc:83-166 | in every run the messages sent are exactly the messages delivered together with the messages held by blocked senders |
| `Kernel.ExactlyOnce` | kernel/ipc.cc:83-166 | in every run each message has been delivered exactly once, to the process it was sent to, with its type and context and with the receiver's destination set to its sender, so that reply addresses the sender; or it is still held by its sender, blocked in the chain of its receiver |
| `Kernel.WokenBy` | kernel/ipc.cc:83-93 | a process blocked waiting for S is woken only by S or by a REPLY; waiting for anyone, by any sender or a network interrupt |
| `Delivery.SendLaw` | kernel/ipc.cc:83-109 | a send to a process that waits for anyone, for the sender or, with a REPLY, for whomever, makes it READY at the end of its list with kind, context and sender in its message object, and the sender runs on; any other send leaves the sender SENDING_MSG at the head of the receiver's chain and wakes no one |
| `Delivery.ReceiveInterruptLaw` | kernel/ipc.cc:118-124 | receive(ANY) with an interrupt pending takes the interrupt and changes nothing else |
| `Delivery.ReceiveTakesHead` | kernel/ipc.cc:126-142 | otherwise, for anyone or for the head of the chain, receive takes the head's message, makes that sender READY at the end of its list and runs on |
| `Delivery.ReceiveWaitsLaw` | kernel/ipc.cc:144-166 | otherwise it waits for the sender asked for, which is then nowhere in its chain, and for anyone only if the chain is empty |
| `Delivery.InterruptLaw` | kernel/ipc.cc:71-81 | a network interrupt is counted modulo 256 and wakes its process exactly when that waits for anyone |
| `Delivery.BlockLaw` | kernel/process.cc:263-282 | self_block leaves the caller BLOCKED and out of its list and another process running |
| `Delivery.WakeLaw` | kernel/process.cc:296-315 | unblock_proc makes the process READY, last in its list |
| `Delivery.StartLaw` | kernel/process.cc:99-115 | a started process is READY, last in the list of its level, with nobody in its chain |
| `Delivery.YieldLaw` | kernel/process.cc:284-293 | a yield or a timer tick changes no list, chain, message, count or priority |
| `Delivery.StepMissesNone` | kernel/ipc.cc:83-166 | every step keeps: a process waiting for anyone has an empty chain and no interrupt pending, and one waiting for S does not have S in its chain |
| `Delivery.EveryStateMissesNone` | kernel/ipc.cc:83-166 | hence in every reachable state nobody waits for a message that is there |
| `Turns.NextInLine` | kernel/process.cc:155-172 | when a process of any level yields or blocks, the one behind it in the list of its level is next, the first after the last, if that level is picked again; otherwise the head of the level picked |
| `Turns.RoundRobin` | kernel/process.cc:155-172 | in every run of yields in which one level is picked each time its processes run in the order of the list, and after as many yields as there are processes the first runs again |
| `Turns.PriorityAfter` | kernel/process.cc:99-115 | only starting a process changes priorities, and max_priority becomes the smaller of itself and the new level |
| `Turns.EveryTopPriority` | kernel/process.cc:113-114 | in every reachable state max_priority is the best priority of any process started |
| `KernelObject.Processor.constructor` | kernel/process.cc:25-33 | the object's state is the boot state of the transition system |
| `KernelObject.Processor.AppendReady` | kernel/process.cc:311-312 | the ready list gains the process at its end and every list's links stay right |
| `KernelObject.Processor.RemoveReady` | kernel/process.cc:277-278 | the current process leaves its list; its own link survives and is its old successor |
| `KernelObject.Processor.ScheduleNext` | kernel/process.cc:155-193 | does what the transition system's schedule says, through links instead of sequences |
| `KernelObject.Processor.DoYield` | kernel/process.cc:284-293 | does what Kernel's yield step says and keeps the invariant |
| `KernelObject.Processor.DoSelfBlock` | kernel/process.cc:263-282 | does what Kernel's blocking step says and keeps the invariant |
| `KernelObject.Processor.UnblockProc` | kernel/process.cc:296-315 | does what Kernel's unblock says |
| `KernelObject.Processor.Wake` | kernel/sync.cc:30-44 | the wake-up of a process a semaphore has blocked does what Kernel's unblock step says and keeps the invariant |
| `KernelObject.Processor.Deliver` | kernel/ipc.cc:85-93 | writes the receiver's message object and makes it ready |
| `KernelObject.Processor.DoSend` | kernel/ipc.cc:83-109 | does what Kernel's send step says and keeps the invariant, with chains threaded through next_ready |
| `KernelObject.Processor.Enqueue` | kernel/ipc.cc:98-107 | pushes the sender on the receiver's chain and blocks it |
| `KernelObject.Processor.JoinChain` | kernel/ipc.cc:99-103 | after the two pointer writes the chains spelled out by sendings and next_ready are the old ones with the sender at the head of one |
| `KernelObject.Processor.WaitFor` | kernel/ipc.cc:161-165 | records whom the process waits for and blocks it |
| `KernelObject.Processor.PopSender` | kernel/ipc.cc:125-136 | takes the head's message and unlinks it |
| `KernelObject.Processor.TakeHead` | kernel/ipc.cc:125-140 | does what Kernel's receive says when the head matches |
| `KernelObject.Processor.UnlinkMiddle` | kernel/ipc.cc:144-152 | redirecting one pointer removes exactly the mid-chain sender from its chain |
| `KernelObject.Processor.CutMiddle` | kernel/ipc.cc:144-156 | does what Kernel's receive says for a mid-chain match, wake-up of the wrong process included |
| `KernelObject.Processor.DoReceive` | kernel/ipc.cc:111-166 | does what Kernel's receive step says, and keeps the invariant unless the match is in mid-chain |
| `KernelObject.Processor.TakeInterrupt` | kernel/ipc.cc:118-123 | consumes one pending network interrupt |
| `Semaphores.DoInv` | kernel/sync.cc:13-64 | every action of every process keeps the semaphore invariant |
| `Semaphores.RunInv` | kernel/sync.cc:7-64 | it holds in every state of every interleaving |
| `Semaphores.MutualExclusion` | kernel/sync.cc:7-64 | in every reachable state value plus the processes between wait and signal is 1, whenever value is positive with waiters queued some woken process can recheck, and holder is exactly the process that holds the lock |
| `Semaphores.LastAsleepFirstWoken` | kernel/sync.cc:13-44 | the process that has just gone to sleep is the next one woken, and the others stay queued |
| `Semaphores.Semaphore.constructor` | kernel/sync.cc:7-11 | value 1 and a null pointer for the chain of sleepers |
| `Semaphores.Semaphore.WaitPass` | kernel/sync.cc:13-28 | one pass of the waiting loop is the transition system's wait, with the sleepers chained through next_ready |
| `Semaphores.Semaphore.SignalBy` | kernel/sync.cc:30-44 | signal is the transition system's signal, waking and unlinking the head of the chain |
| `Checksums.NoOverflow` | net/ip.cc:36-43 | up to 65537 words the 32-bit accumulator holds the true sum |
| `Checksums.FoldMod` | net/ip.cc:45-46 | two folds suffice: the result fits 16 bits, is the sum modulo 65535, and is 0 only for 0 |
| `Checksums.ZeroIff` | net/ip.cc:34-48 | a packet's checksum is 0 if and only if its word sum is a positive multiple of 65535 |
| `Checksums.StoredChecksumVerifies` | net/ip.cc:24-31 | storing the checksum in its cleared field makes the checksum of the packet 0 |
| `Checksums.OneWordErrors` | net/ip.cc:34-48 | a changed word of a verifying packet goes unnoticed exactly between 0x0000 and 0xffff, the latter only if another word is not 0 |
| `Checksums.SwappedChecksum` | net/byte_order.cc:4-7 | the checksum of byte-swapped words is the byte-swapped checksum, so storing it unswapped is right |
| `Checksums.GenerateChecksum` | net/ip.cc:34-48 | the loop computes the checksum of all words the packet touches |
| `Checksums.OddLength` | net/ip.cc:42-43 | for an odd length the source adds the byte that follows the packet: the result agrees with the zero padding of RFC 1071 if and only if that byte is 0 |
| `Checksums.FillHeader` | net/ip.cc:12-29 | the header fields in their places, the rest of the packet unchanged |
| `Checksums.FormatPacket` | net/ip.cc:10-32 | the header carries its fields and verifies in either byte order; the rest of the packet is unchanged |
| `Dns.DecodeEncode` | net/dns.cc:9-29 | decoding the encoded name as length-prefixed labels gives exactly the name split at dots if and only if every label has 1 to 63 bytes |
| `Dns.FormatUrl` | net/dns.cc:9-29 | the one-pass loop with its 8-bit counters writes exactly that encoding and nothing after it |
| `Tcp.ReceiveDataOk` | net/tcp.cc:251-271 | a chunk taken in sequence continues the prefix received so far |
| `Tcp.DeliverInv` | net/tcp.cc:159-280 | delivering any segment ever sent, any number of times in any order, keeps the connection invariant |
| `Tcp.AfterInv` | net/tcp.cc:21-336 | so does every event at either host |
| `Tcp.EveryState` | net/tcp.cc:21-336 | the invariant holds in every state of every run |
| `Tcp.PrefixDelivery` | net/tcp.cc:159-280 | until it processes a FIN, what a host has acknowledged is a prefix of what the peer sent, and so is what it has buffered unless a chunk found no buffer |
| `Tcp.ThreeWayHandshake` | net/tcp.cc:172-235 | ESTABLISHED is reached only through SYN, SYN and ACK, ACK |
| `Tcp.InitialAck` | net/tcp.cc:173-203 | the delivery that synchronises a host sets ack_num to the peer's initial number plus one |
| `Acknowledgements.AfterAcked` | net/tcp.cc:159-280 | every event keeps the law of the next row |
| `Acknowledgements.EveryAcknowledged` | net/tcp.cc:159-280 | in every state of every run the numbers in the segments sent and the bytes accepted agree |
| `Acknowledgements.BytesAcknowledged` | net/tcp.cc:173-271 | in every run, until a host has processed a FIN: what it has accepted is acknowledged by an ACK it has sent whose number is one past the last byte accepted, and no ACK or FIN of it has a number beyond; every SYN, ACK carries the client's initial number plus one, and a connected client has sent the ACK that carries the server's plus one |
| `Acknowledgements.StateLaw` | net/tcp.cc:159-250 | the state after a delivery is that of the transition table; where the table has no entry it stays |
| `Acknowledgements.DataLaw` | net/tcp.cc:251-278 | an ACK that changes no state is data: out of sequence nothing changes; in sequence the bytes up to the count of non-zero ones are accepted, buffered exactly if there is room, and one ACK numbered just past them is sent |
| `Acknowledgements.FinLaw` | net/tcp.cc:204-222 | a FIN counts as one number: it is acknowledged by that number plus one, and an established host answers with its own |
| `Acknowledgements.SendLaw` | net/tcp.cc:110-144 | what an application sends goes out with the current numbers and advances seq_num by its length |
| `Acknowledgements.CloseLaw` | net/tcp.cc:80-85 | disconnect sends a FIN with the current numbers, which advances seq_num by one |
| `Tcp.LostIff` | net/tcp.cc:264-268 | an acknowledged chunk is dropped exactly when it is not empty and the ring is full or was never given buffers, as connect leaves it |
| `Tcp.ClientBuffersNothing` | net/tcp.cc:51-78 | in every state of every run a connecting socket has buffered nothing, and has lost data exactly if it has acknowledged any |
| `Tcp.WholeChunkIff` | net/tcp.cc:254-259 | a segment in sequence is accepted whole if and only if no byte of it is zero; padding never counts |
| `Tcp.HandedOver` | net/tcp.cc:305-315 | the chunks recv takes out are a prefix of what the peer sent; the bytes it hands over are all of them exactly when no chunk was cut, are a prefix of what was sent until bytes are handed over after a cut, and from then on are not a prefix of any stream of pairwise different bytes |
| `Tcp.CutLosesBytes` | net/tcp.cc:312-313 | a run of eleven events in which the client sends 1 2 and 3, the server's application reads one byte at a time and gets 1 3 |
| `Tcp.RealLen` | net/tcp.cc:254-259 | counts the bytes that are not zero |
| `Tcp.TcpSocket.Listen` | net/tcp.cc:21-48 | the listening socket, with buffers in its ring |
| `Tcp.TcpSocket.Connect` | net/tcp.cc:51-78 | the connecting socket, its SYN, and a ring without buffers |
| `Tcp.TcpSocket.Transmit` | net/tcp.cc:110-144 | the segment carries the current numbers; seq_num moves past the payload modulo 2^32 |
| `Tcp.TcpSocket.TakeData` | net/tcp.cc:251-278 | does what the state machine's data step says: counts, stores if there is a buffer, acknowledges |
| `Tcp.TcpSocket.OnSyn` | net/tcp.cc:173-189 | does what the state machine says for SYN |
| `Tcp.TcpSocket.OnSynAck` | net/tcp.cc:190-203 | does what the state machine says for SYN and ACK |
| `Tcp.TcpSocket.OnFin` | net/tcp.cc:204-222 | does what the state machine says for FIN in each state |
| `Tcp.TcpSocket.ResolvePacket` | net/tcp.cc:159-280 | socket and segments sent are those of the state machine for every segment and state |
| `Tcp.TcpSocket.Recv` | net/tcp.cc:305-315 | hands out the oldest chunk, cut to the length asked for |
| `Tcp.TcpSocket.Disconnect` | net/tcp.cc:80-85 | sends FIN and ACK and counts it in the sequence space |
| `Layouts.LayoutPartitions` | fs/fs.cc:91-126 | on every partition large enough for its metadata the regions are ordered, not empty, inside the partition, and every sector is in exactly one |
| `Layouts.MetadataSizes` | fs/fs.cc:91-126 | the block bitmap starts at the third sector, the inode bitmap has one, and the inode table 128 beyond 10000 sectors and 8 otherwise |
| `Layouts.BitmapArithmetic` | fs/fs.cc:108-116 | bounds on the block bitmap size the two divisions give |
| `Layouts.InstallUncovered` | fs/fs.cc:108-124 | how many data sectors the block bitmap misses |
| `Layouts.UncoveredExactly` | fs/fs.cc:108-116 | the number missed is the bitmap sectors given up by the second division minus the bits left over in the last one |
| `Layouts.CoversAllButOneIff` | fs/fs.cc:108-116 | for each partition, at most one data sector is missed if and only if that difference, computed from the free sectors, is at most one |
| `Layouts.AtMostOneUncovered` | fs/fs.cc:108-116 | hence at most one is missed for every size up to a limit if and only if the limit is at most 2^24 free sectors |
| `Layouts.OneUncovered` | fs/fs.cc:108-116 | a partition on which it misses one |
| `Layouts.InodeInTableIff` | fs/inode.cc:45-57 | the sector accessed for an inode lies in the table exactly for the inode numbers the table was sized for; the inode bitmap offers more |
| `Layouts.InodeTable.SyncInode` | fs/inode.cc:45-62 | refines assignment to one element of an array indexed by inode number, and touches no other sector |
| `Layouts.InodeTable.Ino2Inode` | fs/inode.cc:64-81 | refines reading that element |
| `FileSystem.LinkInv` | fs/dir.cc:149-213 | create_dir_entry keeps the file system invariant |
| `FileSystem.GrowthIff` | fs/dir.cc:195-212 | when the directory must grow by a block, it keeps the invariant if and only if what the block still holds after its first entry could itself have been linked there |
| `FileSystem.StaleBlockDangles` | fs/dir.cc:195-212 | a leftover entry of a dead inode breaks it |
| `StaleBlockRun.StaleRun` | fs/dir.cc:195-212 | nine calls from a freshly installed partition that lead there: mkfile, two writes, rmfile, and five files that fill the root directory |
| `StaleBlockRun.StaleRunDangles` | fs/dir.cc:195-212 | the next mkfile after that run leaves an entry for an inode not in use |
| `FileSystem.LinkLookup` | fs/dir.cc:149-213 | afterwards the new name resolves to the new inode and every other name in every directory as before |
| `FileSystem.UnlinkInv` | fs/dir.cc:239-289 | remove_dir_entry keeps the invariant |
| `FileSystem.UnlinkUnnames` | fs/dir.cc:239-289 | afterwards nothing names the inode the name stood for |
| `FileSystem.UnlinkLookup` | fs/dir.cc:239-289 | afterwards the name is gone and every other name in every directory resolves as before |
| `FileSystem.MkFileInv` | fs/file.cc:20-52 | mkfile keeps the invariant |
| `FileSystem.MkFileLookup` | fs/file.cc:20-52 | a new name resolves to a new, empty, live inode; an existing name and all others resolve as before |
| `FileSystem.MkFileContents` | fs/file.cc:20-52 | the contents of every other live inode stay as they are |
| `FileSystem.MkDirInv` | fs/dir.cc:23-52 | mkdir keeps the invariant, the block of the new directory included |
| `FileSystem.RmDirInv` | fs/dir.cc:55-84 | rmdir keeps it |
| `FileSystem.RmFileInv` | fs/file.cc:54-83 | rmfile keeps it, although blocks and inode are freed from values read before the entry went |
| `DirectoryEntries.MkDirSlots` | fs/dir.cc:23-52 | slot by slot: the new directory holds its own two entries and nothing else, the parent gains one entry of kind directory in a free slot or none, and every other slot is as before |
| `DirectoryEntries.MkDirLookup` | fs/dir.cc:215-236 | a new name that gets a slot resolves to the first free inode, now a live directory, in which "." resolves to itself, ".." to the parent and no other name to anything; every other name in every directory resolves as before |
| `DirectoryEntries.MkDirRefused` | fs/dir.cc:156-213 | a name that is taken or gets no slot changes what no name resolves to |
| `DirectoryEntries.UnlinkGivesBack` | fs/dir.cc:265-283 | a sector of the directory that held nothing but the entry removed is given back and its block freed |
| `DirectoryEntries.UnlinkBits` | fs/dir.cc:239-289 | of the block bits exactly those of blocks the directory no longer has are cleared |
| `DirectoryEntries.RmFileRemoves` | fs/file.cc:54-83 | rmfile of an existing file: the name is gone, its inode and no other is free, and the bits cleared are exactly those of the file's blocks and of a block its directory gives back; of an absent name nothing changes |
| `DirectoryEntries.RmFileKeeps` | fs/file.cc:54-83 | every other name in every directory and the inode and contents of every other live inode but the directory stay as they are |
| `DirectoryEntries.RmDirRemoves` | fs/dir.cc:55-84 | rmdir of a directory that holds nothing: the name is gone, its inode and no other is free and nothing but a block the parent gives back is cleared; of any other directory nothing changes |
| `DirectoryEntries.RmDirKeeps` | fs/dir.cc:55-84 | every other name and the contents of every other inode stay as they are |
| `DirectoryEntries.ResizeKeepsContents` | fs/file.cc:114-157 | the sector loops of write_file change the contents of no other inode and of no sector of the file that stays |
| `DirectoryEntries.AfterRight` | fs/dir.cc:23-289 | every call keeps: "." of a directory names it, ".." names the directory that holds its entry (the root for the root), and an entry has kind directory exactly when it names one |
| `DirectoryEntries.EveryEntryRight` | fs/dir.cc:215-236 | hence this holds in every state of every run from a freshly installed partition |
| `FileSystem.CopyFileInv` | fs/file.cc:334-365 | cp keeps it, given blocks for the copy |
| `FileSystem.CopyContents` | fs/file.cc:352-361 | every sector of the source ends up, with its contents, in a block of the copy's own; no other live inode's contents change |
| `FileSystem.CopyFileCopies` | fs/file.cc:334-365 | the destination of cp has the source's size and, in blocks of its own, its contents, and the source keeps its contents, also when cp is onto itself |
| `FileSystem.MoveFileInv` | fs/file.cc:368-396 | mv keeps the invariant, although for a moment two inodes hold the same sector numbers |
| `FileSystem.MoveFileMoves` | fs/file.cc:368-396 | to another name: the destination of mv holds what the source held, the source's name is gone and its inode free, and the destination's name resolves to the destination |
| `FileSystem.SameFileIff` | fs/file.cc:371-377 | once the destination has been made, the two names stand for one inode if and only if they are one name |
| `FileSystem.SelfMoveDestroys` | fs/file.cc:368-396 | mv of a file onto itself removes its name and frees its inode |
| `FileSystem.MoveKeepsFileIff` | fs/file.cc:368-396 | after mv the destination's name stands for a live file if and only if it is not the source's own name |
| `FileSystem.ResizeInv` | fs/file.cc:114-157 | the two sector loops of write_file, in either mode, keep the invariant |
| `FileSystem.ResizeSectors` | fs/file.cc:114-157 | afterwards each sector from start to last has a block, the ones at or before last that were there stay, and none is left after last; for COVER these are the sectors of the text |
| `FileSystem.AppendKeepsIff` | fs/file.cc:106-157 | after an append every sector of the file has a block if and only if the file was shorter than 512 bytes; then its old sectors stay, and otherwise the sector of its new last byte has none |
| `FileSystem.WriteDataInv` | fs/file.cc:129-144 | writing a block of a file changes no directory |
| `FileSystem.InstalledInv` | fs/fs.cc:130-160 | a freshly installed partition satisfies the invariant |
| `FileSystem.AfterInv` | fs/dir.cc:23-289 | every call keeps it |
| `FileSystem.EveryState` | fs/dir.cc:23-289 | it holds in every state of every run of calls from a freshly installed partition |
| `FileSystem.OwnershipSafety` | fs/file.cc:20-83 | in every such state no block belongs to two live inodes or two sectors of one, every block in use is marked, and every ordinary entry names a live inode |
| `Space.MkFileTightIff` | fs/file.cc:20-52 | mkfile loses no space if and only if the name is new and gets a slot; otherwise the inode it made has no entry |
| `Space.MkDirTightIff` | fs/dir.cc:23-52 | mkdir likewise |
| `Space.RmFileTight` | fs/file.cc:54-83 | rmfile never loses space |
| `Space.RmDirTightIff` | fs/dir.cc:55-84 | rmdir loses no space if and only if the directory is not empty and so stays; the block of a removed one stays marked |
| `Space.CopyTightIff` | fs/file.cc:334-365 | cp loses no space if and only if the destination is new |
| `Space.MoveTightIff` | fs/file.cc:368-396 | mv likewise |
| `Space.CopyOntoLoses` | fs/file.cc:352-361 | each block of an existing destination that cp replaces stays marked and no live inode has it, also for cp of a file onto itself |
| `Space.MoveOntoLoses` | fs/file.cc:387-395 | so does every block of an existing destination of mv, and of a file moved onto itself |
| `Space.ResizeTight` | fs/file.cc:114-157 | the sector loops of write_file lose nothing |
| `Space.WriteTight` | fs/file.cc:129-144 | nor does writing a block |
| `Space.TightIff` | fs/dir.cc:23-289 | from a state in which every marked block belongs to a live inode and every live inode but the root has an entry, a call leads to another such state if and only if it is frugal: a new name that gets a slot for what is made, a directory that is not empty for rmdir, no condition for the rest |
| `Space.TightRunIff` | fs/dir.cc:23-289 | from a freshly installed partition no space is ever lost if and only if every call is frugal |
| `Space.LosingRun` | fs/file.cc:20-52 | making the same file twice loses an inode |
| `FileSystemObject.Partition.constructor` | fs/fs.cc:166-181 | the mounted partition as read from disk |
| `FileSystemObject.Partition.Scan` | lib/bitmap.cc:29-44 | the lowest clear bit |
| `FileSystemObject.Partition.SearchSector` | fs/dir.cc:357-365 | the first entry with the name in a sector |
| `FileSystemObject.Partition.FindDirEntry` | fs/dir.cc:342-371 | the inode of the first entry with that name over the nine sectors, or none |
| `FileSystemObject.Partition.SearchDirectory` | fs/dir.cc:156-179 | whether the name is taken, and otherwise the first free slot |
| `FileSystemObject.Partition.CreateDirEntry` | fs/dir.cc:149-213 | does what the specification of linking says |
| `FileSystemObject.Partition.GrowDirectory` | fs/dir.cc:195-212 | adds a block with the entry in its first slot |
| `FileSystemObject.Partition.ClearSector` | fs/dir.cc:252-268 | empties the entries with the name in one sector and tells whether there was one and whether all are free now |
| `FileSystemObject.Partition.RemoveDirEntry` | fs/dir.cc:239-289 | does what the specification of unlinking says |
| `FileSystemObject.Partition.FreeInodeSectors` | fs/file.cc:233-244 | clears exactly the bits of the sectors given |
| `FileSystemObject.Partition.CreateInode` | fs/inode.cc:10-34 | takes the first free inode number and gives it an inode without sectors |
| `FileSystemObject.Partition.SysMkfile` | fs/file.cc:20-52 | does what the specification of mkfile says and keeps the invariant |
| `FileSystemObject.Partition.SysMkdir` | fs/dir.cc:23-52 | does what the specification of mkdir says and keeps the invariant |
| `FileSystemObject.Partition.SysRmfile` | fs/file.cc:54-83 | does what the specification of rmfile says and keeps the invariant |
| `FileSystemObject.Partition.CheckEmpty` | fs/dir.cc:86-112 | tells whether the directory has no entry beyond its own two |
| `FileSystemObject.Partition.SysRmdir` | fs/dir.cc:55-84 | does what the specification of rmdir says and keeps the invariant |
| `FileSystemObject.Partition.CopyContents` | fs/file.cc:342-364 | the loop, which writes the inode once at the end, does what the specification says sector by sector |
| `FileSystemObject.Partition.SetSectors` | fs/file.cc:114-157 | the two sector loops of write_file do what the specification says |
| `FileSystemObject.Partition.SysCopy` | fs/file.cc:334-365 | does what the specification of cp says and keeps the invariant |
| `FileSystemObject.Partition.SysMove` | fs/file.cc:368-396 | does what the specification of mv says and keeps the invariant |

## Left out

- PageManager.MemoryManager.MallocPage: requires the virtual run and the frames to be available; with either exhausted the source goes on with null addresses and maps page 0.
- Heap.Allocator.Malloc: requires memory to be available for the same reason; the zero-filling of the block and the layout of the header words inside the page are not in the memory model, headers and lists are values.
- PageManager.MemoryManager.FreePage: excludes a page inside a run, and Heap.Allocator.Free anything that is not live; freeing those corrupts the maps in the source too. Stale translations in the TLB are not modelled (`invlpg` is commented out).
- Heap.Allocator.MallocSmall: requires a page to be available when the head page is full, for the same reason.
- Heap.Allocator.MallocLarge: requires the run and the frames, for the same reason.
- DoublebitMaps.DoublebitMap.FreeSlots: excludes a SEQ_START with no SEQ_END after it, where the source runs past the map; no reachable map has one.
- Bitmaps.Bitmap.Scan: covers requests for one bit, the only ones in the repository; the loop for more bits is not modelled.
- Kernel.EveryState: the disk interrupt's pseudo-sender (kernel/ipc.cc:95-97) is not a step, because pushing its one pcb twice links it to itself; network interrupts are steps.
- Kernel.NextInv: the same holds for the single step.
- KernelObject.Processor.AppendReady: ready lists carry the next links that schedule follows; prev links and sentinels are modelled in CycleLists only.
- KernelObject.Processor.RemoveReady: likewise, so the element before the removed one is found in the sequence and not through prev.
- StrandedSender.StrandedForEver: after the broken receive a sender may come to stand in two chains, which one next_ready pointer cannot hold; the later steps are those of the transition system, where chains are sequences.
- PremappedPool.SafeIffAtMostTwo: the table words of the pool are kept as a sequence of frames and present bits instead of in memory.
- KernelObject.Processor.DoSend: each process has one message object in the model; the source lets a process use several, one at a time.
- FileSystem.EveryState: runs need existing parent directories, ordinary names, space, and no file open across the call (open descriptors keep stale copies of inodes); file or directory kind is chosen by the call.
- FileSystem.ResizeInv: of write_file the sectors taken and given back are modelled, and that data blocks change; positions within sectors are not, nor are ranges beyond the nine sectors, which overrun the inode in the source. The inode fields for owner, mode and times are left out.
- FileSystem.CopyFileInv: requires blocks for the copy; on a full disk the source sets bit -1 and goes on with an undefined block number, as it does in write_file.
- FileSystemObject.Partition.SysRmdir: requires that the name exists and is a directory; on a missing path the source goes on with inode number -1.
- Dns.FormatUrl: requires a name of 1 to 254 bytes; for the empty name the source reads before the string, and beyond 254 its 8-bit position wraps.
- Tcp.PrefixDelivery: speaks of the time before a FIN is processed; teardown after that, and retransmission, which the source lacks, are not covered. Ports and other connections are left out: there is one client and one server.
- Tcp.TcpSocket.Recv: requires a chunk in the ring; on an empty ring the source reads through a null pointer.
- Tcp.TcpSocket.Transmit: the byte order of the header fields is not modelled, so swap_double_word is left out.
- Layouts.LayoutPartitions: requires a partition at least as large as its metadata; on a smaller one the unsigned subtraction wraps.
- Boot, context switch, TSS, interrupt entry, port I/O, keyboard, disk and network drivers: hardware effects.
- Path splitting and normalisation, permissions, the descriptor table, read_file, cat and ls: string handling and output. Paths are taken as resolved to a directory and a name.
- Terminal, user accounts, hashing, time conversion, ARP, ICMP, UDP and Ethernet formatting, the TCP checksum's pseudo header, syscall wrappers and dispatch loops: they would add only easy members.
