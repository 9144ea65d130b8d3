# OS32 verified

A Dafny model of the parts of the OS32 kernel whose correctness does not show in any one function: the
buddy page allocator, the two-level page table with its reference counts, the semaphore and re-entrant
lock, the round-robin scheduler on its intrusive ring, the slab object list and heap, the keyboard
decoder with its queue, and the formatted print routine.

`dafny verify dfyconfig.toml` checks everything.

## How it is built

Each component has a model on values (`BuddyModel`, `VmModel`, `LockModel`, `SchedModel`, `SlabModel`,
`HeapModel`, `KmemModel`, `KbdModel`, `PrintkModel`, and the first half of `IoQueue`), where runs, invariants and
meanings are stated and proved, and a class or set of methods with the kernel's own fields and loops (`Buddy`, `Vmm`,
`KLock`, `Sched` over `Ring`, `SlabHeader`, the allocator over `KmemCache` lists, `RingQueue`, `Kbd`, `Printk`), where
every method is proved to do to its fields what the model says. `Chains` is the theory of the `next`/`prev` chains
threaded through the page records, `BuddyMerging` and `BuddyReturn` say how complete coalescing is, `ImageModel` says
where the kernel image lies against the pages handed out, `VmWords` what `map` and `unmap` write word by word,
`LockOrder` in which order waiters are woken, `SchedSlices` what each thread gets of the processor, `PrintkRead` what a
reader makes of formatted output, `LockSched` joins lock and scheduler as written, `Bits` is the arithmetic of single
address bits, `Common` a few shared definitions.

| files | source |
|---|---|
| `BuddyModel`, `BuddyMerging`, `BuddyReturn`, `Chains`, `Buddy`, `Bits` | `src/pmm/buddy.c`, `src/pmm/pmm.c` |
| `Image` | `tools/kernel.ld`, `src/pmm/buddy.c`, `libs/pmm.h` |
| `VmModel`, `VmWords`, `Vmm` | `src/vmm/vmm.c` |
| `LockModel`, `LockOrder`, `Lock`, `LockSched` | `src/sync/sync.c` |
| `Ring`, `SchedModel`, `SchedSlices`, `Sched` | `libs/list.h`, `src/sched/sched.c`, `src/thread/thread.c`, `src/driver/timer.c` |
| `SlabModel`, `HeapModel`, `Slab`, `KmemModel`, `Kmem` | `src/pmm/slab.c` |
| `IoQueue`, `KbdModel`, `Keyboard` | `src/driver/ioqueue.c`, `src/driver/keyboard.c` |
| `PrintkModel`, `PrintkRead`, `Printk` | `src/libs/kstdio.c`, `src/libs/kstring.c` |

## Readings of the source

Where the code departs from its evident intent, the model follows the code; where a property needs the
intent, the model has both readings and says what each gives.

- **Buddy test** (`src/pmm/buddy.c:326`): `==` binds tighter than `^`, so as written the test accepts the first
  block of every non-empty list. `Reading` is `AsWritten` or `Intended`. Conservation, chain shape and table
  bounds are proved for both. Contiguity through coalescing is proved for `Intended`; for `AsWritten` a
  run is exhibited that scrambles a block, and `FreeAsWrittenExact` says for every state whether one free
  keeps all blocks consecutive. `AsWritten` also has a property of its own: no list ever holds two
  blocks, hence allocation never fails for fragmentation.
- **Blend bit** (`src/pmm/buddy.c:438-439`): the order is incremented before the blend, so the code tests one
  bit too high. `AsWritten` does that, `Intended` tests the bit in which the pair differs.
- **Size of the image** (`src/pmm/buddy.c:64`): `kern_start` and `kern_end` are arrays of `uint` (`libs/pmm.h:24-25`), so
  their difference counts words; and both lie behind the entry code (`tools/kernel.ld:4-22`), whose size is not counted.
  `Reading` has this slip too. **Every result under `VmInv` assumes `Machine.Clear`**: the first page lies behind the
  kernel's text, data and bss, so that no page handed out is part of the page records or of the static page tables.
  `ImageModel.BaseClearsExactly` says when the address computed does: counting words, for no image within the 8 MB
  mapped at entry; counting bytes, iff the debugging sections are at least as large as the entry code. In neither case
  does it lie behind the whole image. `VmModel.TableWipesCounts` shows what the word count leads to.
- **Null tail** (`src/pmm/buddy.c:186-192`): when the lower list is empty the code writes the link through a null
  pointer and reads it back. Address 0 is mapped and writable in this kernel, so the next statement finds
  what was written: the walk goes on at the block.
- **Inner split loop** (`src/pmm/buddy.c:247`): its guard compares a half block with twice the whole one and is
  false on arrival. One split happens, and the caller may get far more than it asked for; the exact size is stated.
- **Head links** (`src/pmm/buddy.c:352-364`): `prev` of a chain's first page is stale at times. The invariant says
  nothing about it; the code never follows it except where it tests for the first block.
- **thread_block** (`src/sched/sched.c:49-63`, marked TO DO): `schedule` acts only on an expired slice and requeues
  its caller, so as written a blocked thread goes on running or stays queued. `SchedModel` proves that, and
  what `thread_unblock` then does. The lock proofs use the meaning declared in `libs/thread.h:69-73`: a
  blocked thread runs again only after it was unblocked. `LockSched` says what a P on a taken lock does as written:
  its own retest fails the assertion, or the caller's one list node is linked onto two rings.
- **Interrupt brackets** (`src/segmm/intr.S:337-345`): save and restore do not nest. The lock proofs take each
  bracket, and each retest after a wakeup, as one atomic step. Every other test, assertion and write of the lock's
  fields is a step of its own.
- **Lock nesting** (`src/sync/sync.c:74`): the count is a `uint`; runs keep nesting below 2^32, and
  `NestingRoundTrip` shows that exactly one more would break the matching release.
- **Panics** become failing results (`None`, `AssertFails`, `Panics`, `false`), and runs are proved free of
  them or the condition is given.
- **The page at 512 MB**: the boot scan (`src/pmm/buddy.c:67`) takes a page that starts at `MAXSIZE`, but the direct map
  (`src/vmm/vmm.c:31-45`) ends below it; seen through `PAGE_OFFSET` that page is the start of the heap. The model
  admits such machines. A page table made of that page would not be cleared and is a failing result; every other
  page is within reach. `VmModel.AnyPageWillDo` says when a table can be had, and `VmModel.LastPageLost` which machines
  fail on their first one.
- **No page at all**: the boot loop (`src/pmm/buddy.c:94-133`) still puts record 0, all zero, on list 0. The model
  carries it as a page at address 0.
- **Slab lists** (`src/pmm/slab.c:130-214`, `385-436`): a slab moves to the partial list only when that list is empty, so
  no list ever holds two, and the loops over them make one round. `full_slabs` never gets a head: when the listed slab is
  full, kmalloc looks for the end of that list through a null pointer, which is a failing result here. kfree takes the
  slab off the partial list whether or not other objects in it are live (line 420), and puts it nowhere if some are.
- **Thread creation** (`src/thread/thread.c:46-73`): the source remarks that interrupts should be off and does not turn
  them off; a tick inside `list_add_tail` would find the ring half linked. Creation is one step here.
- **Unsigned page sums**: page counts are below 2^17 (`libs/pmm.h:7-8`) and addresses at most 512 MB, so the
  allocator's arithmetic does not wrap. Slab address arithmetic does, and is modelled modulo 2^32.

## Model

| member | source | states |
|---|---|---|
| BuddyModel.NeedOrderIsCeiling | src/pmm/buddy.c:213-217 | the starting order is the least whose blocks hold the request, and is in the table iff the request is at most 2^16 pages |
| BuddyModel.AllocMeaning | src/pmm/buddy.c:209-284 | allocation fails iff every order from the ceiling of log2 n up is empty; otherwise the caller gets the whole first block of that order, or the upper half of the first block of the first non-empty higher order, never fewer than n pages |
| BuddyModel.OnePageMeaning | src/pmm/buddy.c:209-275 | a request for one page succeeds iff some list is non-empty, and its first page is read off the first block of the first such list |
| BuddyModel.AllocKeeps | src/pmm/buddy.c:148-284 | allocation keeps block sizes and the multiset of pages, and no run of consecutive pages is broken |
| BuddyModel.AllocTakesFree | src/pmm/buddy.c:221-275 | page by page, what is handed out leaves the free lists and joins the held pages |
| BuddyModel.FindBuddyFirst | src/pmm/buddy.c:320-371 | the search stops at the first block, in list order, that passes the buddy test |
| BuddyModel.CoalesceSafe | src/pmm/buddy.c:433-457 | below 2^17 pages coalescing never indexes past the last list, ends, keeps block sizes and adds exactly the freed pages, under either reading |
| BuddyModel.BlendFits | src/pmm/buddy.c:436-441 | two order-16 blocks cannot exist to be blended |
| BuddyModel.FreeSafe | src/pmm/buddy.c:406-459 | freeing any held block succeeds and keeps conservation and shape, under either reading |
| BuddyModel.StepSafe | src/pmm/buddy.c:148-459 | every allocation or free keeps the invariant and stays in the table |
| BuddyModel.RunSafe | src/pmm/buddy.c:148-459 | over every run of allocations and frees: no index out of the table, block sizes 2^i, free plus held pages are exactly those placed at boot |
| BuddyModel.InvIsPartition | src/pmm/buddy.c:148-459 | in every such state each placed page is on exactly one chain exactly once, and no other page on any |
| BuddyModel.BlendContiguous | src/pmm/buddy.c:376-403 | blocks whose start addresses differ in bit 12+i alone are adjacent whatever their alignment, and the intended blend puts them in order |
| BuddyModel.CoalesceContiguous | src/pmm/buddy.c:433-457 | coalescing as intended keeps every free block a run of ascending consecutive pages |
| BuddyModel.RunContiguous | src/pmm/buddy.c:148-459 | every free or held block stays consecutive: over all runs as intended, over allocation-only runs as written |
| BuddyModel.AsWrittenMatchesAll | src/pmm/buddy.c:326 | as written the buddy test accepts any block |
| BuddyModel.FreeAsWrittenExact | src/pmm/buddy.c:406-459 | as written a free keeps all blocks consecutive iff the first block of each list passed on the way up lies right beside the block built so far, on the side the tested bit puts it |
| BuddyModel.AsWrittenScrambles | src/pmm/buddy.c:326-441 | as written, on four pages, one allocation of two pages and its release leave a consecutive block iff bit 14 of the first page's address is clear; otherwise, as at 0x1E4000, the pages come back as 2, 3, 0, 1 |
| BuddyModel.RunAtMostOne | src/pmm/buddy.c:326-457 | as written no list ever holds more than one block |
| BuddyModel.AllocSucceedsByCount | src/pmm/buddy.c:209-459 | as written, after any run from boot a request of any size succeeds iff at least 2^ceil(log2 n) pages are free, wherever they lie |
| BuddyMerging.CoalesceNoPairs | src/pmm/buddy.c:433-457 | as intended, coalescing leaves no list with two blocks that pass the buddy test, if there was none before |
| BuddyMerging.RunMergesAll | src/pmm/buddy.c:148-459 | as intended, after any run from boot no list holds two blocks whose start addresses differ in bit 12+i alone: nothing is left unmerged |
| BuddyMerging.HalvesAreBuddies | src/pmm/buddy.c:184-205 | the halves of a split block pass the intended buddy test iff bit 11+i of its start address is clear |
| BuddyMerging.SplitReunitesExactly | src/pmm/buddy.c:148-459 | as intended, an allocation by a split and its release leave the block whole at the end of its list if that bit is clear, and its halves apart on the list below if not, nothing else changing |
| BuddyMerging.TwoPageMachine | src/pmm/buddy.c:94-459 | as intended, on two pages, after one was allocated and released, a request for both is met iff memory starts at a multiple of 8 KB |
| BuddyReturn.CoalesceParts | src/pmm/buddy.c:433-457 | as intended, if the boot blocks are aligned, coalescing never joins across two of them: every free block stays an aligned, consecutive part of one |
| BuddyReturn.AllReturns | src/pmm/buddy.c:94-459 | as intended, if the boot blocks are aligned, every run from boot that ends with nothing held ends with exactly the lists of boot |
| BuddyReturn.PieceLeft | src/pmm/buddy.c:94-459 | if a tested bit of a boot block's start address is set, there is a run that gives everything back and leaves a piece of that block unmerged |
| BuddyReturn.ReturnsExactly | src/pmm/buddy.c:94-459 | for every page count: all runs that give everything back restore the lists of boot iff bits 12 to 11+i of the start address of each boot block of order i are clear |
| BuddyModel.InitTiles | src/pmm/buddy.c:94-133 | the blocks placed at boot on orders i and up are exactly the pages below the page count with its low i bits cleared |
| BuddyModel.InitInv | src/pmm/buddy.c:94-133 | boot establishes the invariant with all but an odd last page placed, every block consecutive |
| BuddyModel.FirstPageAtBoot | src/pmm/buddy.c:94-133 | the first single page handed out after boot is the last page iff the page count is 2 modulo 4, or 1 |
| BuddyModel.FirstPageLast | src/pmm/buddy.c:94-275 | of 2^k pages at boot, the first one is what request number k + 1 for a single page gets, all others being held by then |
| BuddyAllocator.ComputeLog2 | src/pmm/buddy.c:15-25 | the doubling loop computes the floor of the logarithm |
| BuddyModel.Log2Bounds | src/pmm/buddy.c:15-25 | 2^log2(x) is the largest power of two not above x |
| BuddyAllocator.ComputePow2 | src/pmm/buddy.c:27-35 | the product loop computes the power of two |
| BuddyAllocator.PagesFor | src/pmm/buddy.c:213-214 | kilobytes are rounded up to the least sufficient number of pages |
| BuddyAllocator.Buddy.CountPages | src/pmm/pmm.c:22-32 | the walk counts the records of the chain |
| BuddyAllocator.Buddy.CheckFreePages | src/pmm/buddy.c:38-50 | true iff no page of the chain is referenced |
| BuddyAllocator.Buddy.FindPageIndex | src/pmm/buddy.c:461-471 | the first record starting at the address, or -1 when none does |
| Chains.CutChain | src/pmm/buddy.c:164-166 | clearing the two links at a cut leaves two well-formed chains |
| Chains.JoinChains | src/pmm/buddy.c:400-401 | setting the two links between disjoint chains leaves their concatenation |
| Chains.UnlinkLinked | src/pmm/buddy.c:328-366 | taking a middle, first or last stretch out leaves the stretch and the rest as chains |
| Chains.OthersLinked | src/pmm/buddy.c:148-459 | relinking inside one list and two held blocks leaves every other list and block a well-formed chain |
| BuddyAllocator.Buddy.CutFirst | src/pmm/buddy.c:224-239 | the first block comes off a list, in links, table and state |
| BuddyAllocator.Buddy.SplitBlock | src/pmm/buddy.c:148-206 | the lower half of the first block joins the tail of the list below, the upper half is returned, and every chain is well formed again |
| BuddyAllocator.Buddy.SplitDown | src/pmm/buddy.c:242-267 | exactly one split, whatever the order |
| BuddyAllocator.Buddy.TakeBlock | src/pmm/buddy.c:215-275 | finds and cuts off what the allocation function says, or changes nothing; says exactly when the first list looked at lies past the table |
| BuddyAllocator.Buddy.AllocBuddy | src/pmm/buddy.c:209-284 | for a request of any size the pointer code computes the allocation function, marks the pages busy, keeps every chain, table entry, flag and reference count right; above 2^18 KB it would read past the table, and the result says so |
| BuddyAllocator.Buddy.MarkBusy | src/pmm/buddy.c:277-282 | exactly the block's pages become busy |
| BuddyAllocator.Buddy.MarkFree | src/pmm/buddy.c:413-418 | exactly the block's pages become free |
| BuddyAllocator.Buddy.SearchBuddy | src/pmm/buddy.c:316-371 | the page-by-page walk tests just the blocks' first pages and finds the first match |
| BuddyAllocator.Buddy.CutOut | src/pmm/buddy.c:328-366 | a first, middle or last block leaves its list, the list staying one chain |
| BuddyAllocator.Buddy.FindBuddyBlock | src/pmm/buddy.c:314-373 | the buddy leaves its list and is returned, or nothing changes and NULL is |
| BuddyAllocator.Buddy.BlendBlk | src/pmm/buddy.c:376-403 | the two chains become one in the order the tested bit says, and the next order is in the table |
| BuddyAllocator.Buddy.InsertBlock | src/pmm/buddy.c:443-457 | a block joins the tail of its list, empty or not |
| BuddyAllocator.Buddy.CoalesceUp | src/pmm/buddy.c:433-457 | the loop computes the coalescing function and ends |
| BuddyAllocator.Buddy.FreeBuddy | src/pmm/buddy.c:406-459 | nothing changes if a page of the block is referenced, from the given page on; otherwise, freed by its first page, the state becomes that of the freeing function, with all chains, flags and counts right |
| BuddyAllocator.Buddy.constructor | src/pmm/buddy.c:53-79 | records for the consecutive pages from the start address on, unreferenced and free, zeroed records behind them |
| BuddyAllocator.Buddy.LinkRun | src/pmm/buddy.c:104-117 | the inner boot loop links a run of records into one chain |
| BuddyAllocator.Buddy.PlaceBlock | src/pmm/buddy.c:101-121 | one round of boot places one block on its order and accounts for its pages |
| BuddyAllocator.Buddy.InitBuddy | src/pmm/buddy.c:82-134 | boot ends and leaves the lists the boot function gives, for every page count from 0 to 2^17 - 1 |
| ImageModel.ScanTakes | src/pmm/buddy.c:67-77 | the scan takes the pages that start below the memory's end, the one at 512 MB included |
| ImageModel.BaseClearsExactly | src/pmm/buddy.c:64-65 | the first page never lies behind the whole image; behind text, data and bss iff, counting bytes, the debugging sections are as large as the entry code, or, counting words, several times everything else, which no image within the 8 MB mapped at entry is |
| ImageModel.ClearOfRecords | tools/kernel.ld:22-40 | behind text, data and bss no page holds a byte of the page records or of the static page tables |
| ImageModel.RecordsAmongPages | src/pmm/buddy.c:64-77 | as written, a page record's reference count lies in a page the scan takes iff it lies from the first page on and memory reaches it, and the last record's does lie from the first page on |
| VmModel.GetMappingIsLookup | src/vmm/vmm.c:245-262 | getmapping is lookup in the finite map from virtual pages to frames |
| VmModel.MapRefines | src/vmm/vmm.c:172-212 | in every state of a run map adds one pair to the finite map and changes no other page's translation, also when it allocates and clears a table; getmapping then gives the frame |
| VmModel.UnmapRefines | src/vmm/vmm.c:214-238 | unmap removes one page from the finite map and nothing else |
| VmWords.MapWrites | src/vmm/vmm.c:172-202 | the address's entry holds the frame and exactly the flags given; the page's record counts one more and carries the address; a table that had to be made has a directory word of its address with bits 0 and 1, and its page's record counts one more and carries the direct-map address; every other entry, directory word and record is as before |
| VmWords.UnmapWrites | src/vmm/vmm.c:214-235 | with no table nothing changes; otherwise the entry becomes 0 and the record of the page it named counts one less and carries address 0, all others as before |
| VmWords.MapMarksExactly | src/vmm/vmm.c:180-200 | mapping an allocated page keeps every table's direct-map address in its record iff the page is not itself a table, or is mapped at just that address |
| VmWords.UnmapMarksExactly | src/vmm/vmm.c:214-235 | unmapping keeps them iff the entry named no table |
| VmWords.RunTables | src/vmm/vmm.c:172-238 | over every run the directory word of each table in use outside the boot-time slots is present, writable and has no other low bit; and while clients map no table page, each table's record carries its direct-map address |
| VmWords.BootTables | src/vmm/vmm.c:172-190 | with no table yet outside the boot-time slots, all of that holds |
| VmModel.EntryKeepsFrame | src/vmm/vmm.c:186-196 | or-ing flags below bit 12 into an entry leaves its frame address intact |
| VmModel.FreePagesUnmapped | src/vmm/vmm.c:180-234 | outside the boot-time slots a page on a free list is named by no entry and is no page table |
| VmModel.MapInv | src/vmm/vmm.c:172-212 | mapping an unmapped address to an allocated page keeps counts equal to names plus tables, and fails iff a table is missing and the free lists have none to offer within reach |
| VmModel.UnmapInv | src/vmm/vmm.c:214-238 | unmapping, mapped or not, keeps the counts and never indexes outside the page records |
| VmModel.DirectMapReaches | src/vmm/vmm.c:31-45 | the address the code uses for a page leads to that page iff it starts below 512 MB; for the page at 512 MB it is the heap's first address |
| VmModel.EnsureTableInv | src/vmm/vmm.c:178-190 | a missing table is made iff the page read off the free lists exists and is within reach of the direct map; it was free, and no translation changes |
| VmModel.LastPageLost | src/vmm/vmm.c:180-189 | on a machine whose last page starts at 512 MB the first table after boot cannot be made, so that map fails, iff the first page starts 12 KB above a multiple of 16 KB |
| VmModel.AnyPageWillDo | src/vmm/vmm.c:180-189 | a table can be had iff the next page handed out is not the one at 512 MB; without that page, iff any free list is non-empty |
| VmModel.ClearingIsHarmless | src/vmm/vmm.c:189 | in every state of a run, clearing a page the allocator manages changes no reference count and no static table |
| VmModel.TableWipesCounts | src/vmm/vmm.c:180-189 | as written, with a 4 MB image and memory up to 258 MB, request 17 for a single page gets the first page, and making it a table zeroes the reference counts of pages 21846 to 22015 and no others |
| VmModel.AllocInv | src/pmm/buddy.c:209-284 | allocation keeps counts, tables and held pages |
| VmModel.FreeInv | src/pmm/buddy.c:406-418 | freeing an unreferenced block gives back no mapped page and no table |
| VmModel.CountsSurviveIffUnmapped | src/vmm/vmm.c:196-200 | entering a mapping keeps the counts right iff the address was unmapped: mapping over one never drops the old reference |
| VmModel.VmStepInv | src/vmm/vmm.c:172-238 | every allocation, free, map and unmap keeps the invariant; the only failure is a missing table for which the free lists have no page within reach |
| VmModel.VmRunInv | src/vmm/vmm.c:172-238 | over every run, outside the boot-time slots, a frame's reference count is the number of entries naming it plus one if it is a table; no free page is mapped there and no allocation hands out a page mapped there |
| VmModel.BootInv | src/vmm/vmm.c:172-190 | the invariant holds with an empty address space outside the direct map, all tables of the boot-time slots lying below the end of bss |
| PageTables.Vmm.GetMapping | src/vmm/vmm.c:245-262 | the walk through directory and table gives the model's answer |
| PageTables.Vmm.NeedTable | src/vmm/vmm.c:178-195 | a cleared table within reach exists afterwards, or the result is false; with no page to allocate nothing changed |
| PageTables.Vmm.Map | src/vmm/vmm.c:172-212 | for any arguments the code writes directory, table, count and address as the model says, or reports that it cannot; the invariant is kept when the address was unmapped and the page allocated |
| PageTables.Vmm.EnterEntry | src/vmm/vmm.c:196-201 | the table being there, one entry, one count and one address change, also when the address was mapped before |
| PageTables.Vmm.Unmap | src/vmm/vmm.c:214-238 | for any address the code clears entry, count and address as the model says, or reports an entry that names no page; outside the boot-time slots it always succeeds and keeps the invariant |
| LockModel.TryPInv | src/sync/sync.c:34-50 | taking or missing the semaphore keeps the invariant and fires no assertion |
| LockModel.DoVInv | src/sync/sync.c:12-32 | giving the semaphore back keeps the invariant and fires no assertion |
| LockModel.LocalInv | src/sync/sync.c:59-91 | each single test, assertion and write on holder and count keeps the invariant and fires no assertion |
| LockModel.RunInv | src/sync/sync.c:12-94 | the invariant holds in every interleaving of any number of threads |
| LockModel.MutualExclusion | src/sync/sync.c:12-94 | from lock_init on: value plus threads between P and V is 1, at most one such thread, the count is the holder's depth, no assertion fires, and whenever the lock is free with threads waiting a woken one has yet to retest |
| LockModel.NestingRoundTrip | src/sync/sync.c:71-86 | a nested request and its release cancel out iff the count does not wrap; if it wraps the release fails its assertion |
| LockOrder.WakesFirst | src/sync/sync.c:12-32 | a V wakes the thread at the head of the waiters and no other, takes it off, and leaves holder and count alone |
| LockOrder.JoinsLast | src/sync/sync.c:34-50 | a thread that misses the semaphore waits behind everybody; one that gets it leaves the waiters alone |
| LockOrder.FirstComeFirstWoken | src/sync/sync.c:12-50 | over every interleaving, the threads waiting at first followed by those that began to wait, in order, are those woken, in order, followed by those waiting still |
| LockOrder.WokenInTurn | src/sync/sync.c:12-50 | in every interleaving the waiter at position k is woken by exactly the (k+1)-th V, and until then waits one place further up for each V |
| Locks.KLock.constructor | src/sync/sync.c:52-57 | an initialised lock is free, with value 1 and nobody waiting |
| Locks.KLock.SemaTryDown | src/sync/sync.c:36-48 | one pass of the loop takes the semaphore or joins the tail of the waiters |
| Locks.KLock.DownAndTake | src/sync/sync.c:65-69 | from the semaphore on, first time or woken: the thread holds the lock with count 1, or waits last in line with holder and count untouched; each access is a step of the machine |
| Locks.KLock.ReqLock | src/sync/sync.c:59-76 | the holder counts up, anyone else gets the lock iff its value is 1, and waits last in line otherwise |
| Locks.KLock.SemaUp | src/sync/sync.c:12-32 | the first waiter, if any, leaves the list and is woken, and the value is given back, both assertions holding |
| Locks.KLock.LockRelease | src/sync/sync.c:78-94 | an inner release counts down; the outermost clears holder and count, gives the value back and wakes the first waiter, no assertion firing |
| LockAsWritten.TakenLockExactly | src/sync/sync.c:34-50 | with thread_block as written, a P on a taken lock fails its own assertion iff the slice is not used up or nobody else is ready; otherwise the caller is both waiting and READY in the queue |
| LockAsWritten.SemaDownTaken | src/sync/sync.c:38-45 | the same on the rings: the retest finds the caller listed, or the caller's node is on the ready ring and the waiters' ring is a ring no longer |
| Ring.ListInit | libs/list.h:20-24 | a lone head is the empty ring |
| Ring.AddTail | libs/list.h:26-35 | appends, touching three nodes; a null head is ignored |
| Ring.AddHead | libs/list.h:37-46 | prepends, touching three nodes; a null head is ignored |
| Ring.AddAfter | libs/list.h:49-55 | inserts behind any node of the ring, the head included |
| Ring.AddBefore | libs/list.h:58-64 | inserts in front of any node of the ring, the head included |
| Ring.Remove | libs/list.h:66-72 | takes one element out and clears its links |
| Ring.Pop | libs/list.h:74-83 | takes out and returns the first element, or null |
| Ring.Front | libs/list.h:85-92 | the first element, or null |
| Ring.Empty | libs/list.h:94-101 | true iff the ring has no element |
| Ring.Find | libs/list.h:103-115 | ends, and is true iff the node is an element |
| Ring.NotShared | libs/list.h:14-18 | two rings with different heads share no element |
| Ring.Untouched | libs/list.h:20-115 | a ring none of whose nodes changed is the same ring |
| SchedModel.RunInv | src/sched/sched.c:50-74 | over every run of ticks, creations and blocks, the running and the queued threads are each live thread once, the queued ones READY with full slices |
| SchedModel.TickShortensWait | src/driver/timer.c:7-14 | one tick brings a queued thread one tick nearer, and at distance one runs it |
| SchedModel.ExactWait | src/sched/sched.c:50-74 | the thread at ready position k runs after exactly Q(current.ticks) plus the sum of Q(prio) of those ahead, with Q(0) = 256: never earlier, never later |
| SchedModel.WaitBounded | src/sched/sched.c:50-74 | no queued thread waits more than 256 ticks per thread before it |
| SchedModel.RunsWithin | src/sched/sched.c:50-74 | over any run of ticks, creations and blocks with at least that many ticks, the thread at ready position k has run, and within that many ticks: a block never sets a queued thread back |
| SchedModel.BlockKeepsCallerRunnable | src/thread/thread.c:77-88 | as written thread_block takes nobody out: the caller keeps running, or is requeued READY |
| SchedModel.UnblockNeverRestores | src/thread/thread.c:90-114 | as written, after any run thread_unblock on a live thread fails its assertion, or queues the running thread a second time |
| SchedSlices.CreateGives | src/thread/thread.c:46-74 | a created thread is last in line, READY, with the next id and a full slice of the priority given, as an `uchar` |
| SchedSlices.TickExactly | src/sched/sched.c:50-74 | a tick counts down, 0 as 256; the last one of a slice turns the queue by one, or gives a lone thread its next slice, and who runs then has as many ticks as its priority |
| SchedSlices.BlockExactly | src/thread/thread.c:77-88 | within its slice the caller is marked and runs on; on an expired slice it is marked with a new slice if alone, else it is last in line, READY, the mark lost |
| SchedSlices.UnblockExactly | src/thread/thread.c:90-114 | fails its assertion iff the thread is not marked blocked; what gets through is the running thread, made READY and first in line as well |
| SchedSlices.PrioritiesKept | src/thread/thread.c:46-74 | over every run the live threads with their priorities are those at the start and those created, each with the priority it was created with |
| Scheduler.Sched.constructor | src/sched/sched.c:24-47 | the boot thread runs and nothing is queued |
| Scheduler.Sched.KthreadCreate | src/thread/thread.c:39-75 | a new thread with the next id and a full slice joins the tail of the ready ring |
| Scheduler.Sched.SwitchThread | src/sched/sched.c:10-22 | the other thread runs, the old one is READY |
| Scheduler.Sched.Schedule | src/sched/sched.c:50-74 | on an expired slice the ring rotates by one, or a lone thread gets a new slice; otherwise nothing happens |
| Scheduler.Sched.TimerCallback | src/driver/timer.c:7-14 | one tick, wrapping at 0, then schedule |
| Scheduler.Sched.ThreadBlock | src/thread/thread.c:77-88 | marks the caller and schedules |
| Scheduler.Sched.ThreadUnblock | src/thread/thread.c:90-114 | requeues at the front, fails its assertion or panics, as the model says |
| SlabModel.LayoutFits | src/pmm/slab.c:67 | header, index table and objects fit the slab, and one object more would not |
| SlabModel.SlabPagesExact | src/pmm/slab.c:60-138 | keeping only the logarithm of the page number loses nothing for any cache the kernel makes |
| SlabModel.KmallocSlabs | src/pmm/slab.c:233-258 | every cache's slab holds 1 to 119 objects, exactly 1 from 4 KB on |
| SlabModel.GetInv | src/pmm/slab.c:101-115 | hands out a free id, which becomes live, at that object's address; null iff all are live |
| SlabModel.PutInv | src/pmm/slab.c:118-127 | any address inside a live object frees that id, which is the next one handed out |
| SlabModel.IdOfInside | src/pmm/slab.c:120-121 | an address inside object i is traced back to i under 32-bit wrap-around |
| SlabModel.AcceptsExactly | src/pmm/slab.c:120-121 | an address is accepted iff it lies in this slab's object area |
| SlabModel.PutRightExactly | src/pmm/slab.c:118-127 | giving back an accepted address keeps the list right iff its object was live |
| SlabModel.LiveDisjoint | src/pmm/slab.c:101-115 | live objects of a slab lie in its object area, and different ones share no byte |
| SlabModel.RunInv | src/pmm/slab.c:92-127 | over every run of gets and frees of live objects, the index table past `active` lists exactly the free ids, each once, and `active` counts the live ones |
| HeapModel.ReleaseTiled | src/pmm/slab.c:324-339 | only the slab at the heap's top is ever released, and the rest still tile the heap |
| HeapModel.ContentInside | src/pmm/slab.c:82-96 | in a cache's slab the objects start right behind header and index table and end inside the slab's range, with ids that fit the index entries |
| HeapModel.PoolRunInv | src/pmm/slab.c:72-339 | over every run of slab creation and release, gets and frees put to every slab, the slabs tile the heap and each slab's list of free ids is right |
| HeapModel.OneAccepts | src/pmm/slab.c:118-127 | the slabs' ranges are disjoint and at most one slab accepts an address |
| HeapModel.OwnerFound | src/pmm/slab.c:118-127 | an address inside a live object is accepted by its own slab alone, in whatever order slabs are asked, and traced back to that object |
| HeapModel.LiveApart | src/pmm/slab.c:101-127 | different live objects, of one slab or of two, share no byte and lie in the heap |
| HeapModel.ClearOfTables | src/pmm/slab.c:82-96 | a live object starts behind its slab's header and index table and shares no byte with those of any slab |
| HeapModel.HeapSafe | src/pmm/slab.c:72-127 | after any run of slab creation and release, gets and frees, from the empty heap: live objects share no byte with each other or with any slab's header or index table, and a FreeObj put to every slab with any address inside one frees exactly that object |
| Slabs.SlabHeader.constructor | src/pmm/slab.c:82-96 | a new slab lists every id as free |
| Slabs.SlabHeader.GetObj | src/pmm/slab.c:101-115 | returns the address of an object that was not live, or null with nothing changed when all are |
| Slabs.SlabHeader.FreeObj | src/pmm/slab.c:118-127 | true iff the address is in the object area; then the slab changes as the model says, a live object stops being live, and with nothing live the write before the list is reported |
| KmemModel.KmallocExactly | src/pmm/slab.c:130-214 | kmalloc from a cache fails iff the slab on its partial list is full, or it has none and the heap is used up; otherwise it hands out one object more of the listed, the spare or a new slab, which is listed then, and changes nothing else |
| KmemModel.HandedIsNew | src/pmm/slab.c:130-214 | the address returned is the start of an object that was not live before and is live now, its bytes clear of every slab's header and index table |
| KmemModel.KfreeExactly | src/pmm/slab.c:385-450 | kfree of an address inside a live object succeeds iff the object's slab is on a partial list; it frees that object alone and unlists the slab, which is released if empty and on top, kept as the spare one if empty, and otherwise on no list any more |
| KmemModel.KmemRunInv | src/pmm/slab.c:130-450 | over every run of kmalloc and kfree the lists name slabs of the right size, each once, and an unlisted slab with live objects stays as it is |
| KmemModel.FreedOncePerSlab | src/pmm/slab.c:411-427 | once an object has been freed from a slab in which another is live, kfree of the other panics, whatever calls come in between |
| KmemModel.ThreeThenTwo | src/pmm/slab.c:411-450 | three objects from a fresh cache of any size with three to a slab: kfree of one succeeds, of a second panics |
| KmemModel.OneAtATime | src/pmm/slab.c:158-178 | a fresh cache with one object to a slab serves one kmalloc and fails at the second |
| Kmems.KmemCache.constructor | src/pmm/slab.c:52-69 | a new cache has empty lists and keeps the logarithm of its page number |
| Kmems.Allocator.ApplySlab | src/pmm/slab.c:72-98 | a new slab, linked to nothing, lies on top of the heap, every id free |
| Kmems.Allocator.NeedSlab | src/pmm/slab.c:134-156 | the partial list has one slab afterwards: the one there, the spare one, or a new one |
| Kmems.Allocator.AllocFrom | src/pmm/slab.c:130-214 | list heads, links, slabs and heap top change as the model says and the address is the model's, or it reports the failure |
| Kmems.Allocator.MoveOffPartial | src/pmm/slab.c:301-321 | head, tail or middle by what the links say, with the links each case leaves |
| Kmems.Allocator.CheckFree | src/pmm/slab.c:324-339 | the heap top moves down iff it does not lie beyond the slab |
| Kmems.Allocator.TakeOff | src/pmm/slab.c:417-425 | the slab leaves its list and, if empty, is released or becomes the free list |
| Kmems.Allocator.FreeIn | src/pmm/slab.c:385-436 | one cache is asked: its slab accepts the address and all changes as the model says, or nothing changes |
| Kmems.Allocator.Free | src/pmm/slab.c:438-451 | the caches are asked in order; the outcome is the model's, and false, its panic, leaves everything as it was |
| IoQueue.FullEmptyExact | src/driver/ioqueue.c:16-24 | full iff 1023 characters wait, empty iff none does |
| IoQueue.PutContents | src/driver/ioqueue.c:69-70 | a character put is appended to those waiting |
| IoQueue.GetContents | src/driver/ioqueue.c:50-51 | the character got is the oldest waiting |
| IoQueue.RunConsistent | src/driver/ioqueue.c:40-76 | over every run of puts and gets, the characters out are a prefix of those in, and the lag is the circular distance, at most 1023 |
| IoQueue.RingQueue.constructor | src/driver/ioqueue.c:4-9 | a new queue is empty |
| IoQueue.RingQueue.Full | src/driver/ioqueue.c:16-19 | true iff 1023 characters wait |
| IoQueue.RingQueue.Empty | src/driver/ioqueue.c:21-24 | true iff none waits |
| IoQueue.RingQueue.Getchar | src/driver/ioqueue.c:50-58 | takes the oldest character out of a non-empty queue |
| IoQueue.RingQueue.Putchar | src/driver/ioqueue.c:69-75 | appends a character to a queue that is not full |
| KbdModel.KeyMapSplits | src/driver/keyboard.c:11-72 | the scancodes listed as ignoring caps lock are the right ones: all keys with two different characters but the letters; the shifted letters are the capitals; only modifiers and key 0 type nothing |
| KbdModel.KeyRows | src/driver/keyboard.c:11-22 | the digit keys type their digits, the letter and sign keys what stands on them row by row, and shift the upper signs |
| KbdModel.StepMeans | src/driver/keyboard.c:23-125 | one interrupt is one key event: modifiers follow press and release, caps lock toggles on presses, a press types at most one character |
| KbdModel.Decodes | src/driver/keyboard.c:23-125 | for every byte stream: shift, control and alt say whether the last event of that modifier was a press, caps lock is the parity of its presses, and the output is what the key events type, letters by shift xor caps lock, other keys by shift; the key map is never indexed out of range |
| KbdModel.NothingLostExactly | src/driver/keyboard.c:94-103 | over every interleaving of interrupts and reads, what is read is a prefix of what was queued, and no typed character is lost iff typing never ran more than 1023 characters ahead of the reader |
| Keyboard.Kbd.BreakCode | src/driver/keyboard.c:47-61 | a release clears exactly its modifier |
| Keyboard.Kbd.Column | src/driver/keyboard.c:65-91 | shift alone for the listed scancodes, shift xor caps lock for the others |
| Keyboard.Kbd.ModifierMake | src/driver/keyboard.c:104-119 | a modifier press sets its flag, caps lock toggles |
| Keyboard.Kbd.Handler | src/driver/keyboard.c:23-125 | the handler does to flags and queue what the model's step says, dropping the character when the queue is full |
| PrintkModel.TextEvaluates | src/libs/kstdio.c:31-85 | decimal and hexadecimal digits evaluate back to the number, without a leading zero |
| PrintkModel.WordTextFits | src/libs/kstdio.c:31-92 | ten decimal or eight hexadecimal digits are enough, so the 32-byte scratch array is never overrun |
| PrintkModel.NegativeTextMirrors | src/libs/kstdio.c:7-29 | given a negative number the digit loop emits each digit as far below '0' as it should be above |
| PrintkModel.SignedReadsBackExactly | src/libs/kstdio.c:116-129 | what %d and %l print reads back as the number iff it is not the minimum integer |
| PrintkModel.RenderNul | src/libs/kstdio.c:87-177 | the rendered text contains a NUL iff some %c was given a zero low byte |
| PrintkModel.PrintedExactly | src/libs/kstdio.c:178-186 | what the console prints, up to the first NUL, is the whole render iff no %c printed a NUL |
| PrintkRead.RenderAccepted | src/libs/kstdio.c:87-177 | a reader that walks format and output accepts what is rendered: %u and %x read back in base 10 and 16 without needless zeros, %d and %l as the signed number, but for the minimum, whose garbled text is given, %s is the string, %c the low byte, and every other character itself |
| PrintkRead.RenderExactly | src/libs/kstdio.c:87-177 | for every defined format and arguments the reader accepts a text iff it is the one rendered |
| PrintkRead.Append | src/libs/kstdio.c:98-176 | formats one behind the other print one behind the other, and their counts add up |
| PrintkRead.CountsOfOne | src/libs/kstdio.c:98-176 | the count leaves out a plain character and the sign of a negative number, and nothing of any other conversion or escaped character |
| Printk.Strlen | src/libs/kstring.c:71-81 | the position of the first NUL |
| Printk.Memset | src/libs/kstring.c:11-18 | every cell holds the value |
| Printk.Strcat | src/libs/kstring.c:54-69 | the source text and a NUL go where the destination's text ended, and nothing else changes |
| Printk.ReverseDigits | src/libs/kstdio.c:21-26 | the swap loop reverses the digits in place and leaves the rest alone |
| Printk.Itoa | src/libs/kstdio.c:7-29 | leaves the number's digits, most significant first, and a NUL, with C's rounding for negative numbers |
| Printk.Utoa | src/libs/kstdio.c:31-53 | leaves the unsigned number's decimal digits and a NUL |
| Printk.ToHex | src/libs/kstdio.c:55-85 | leaves the number's upper-case hexadecimal digits and a NUL |
| Printk.Formatter.PutSigned | src/libs/kstdio.c:116-129 | a minus sign if negative, then the digits; the count leaves the sign out |
| Printk.Formatter.Convert | src/libs/kstdio.c:105-168 | each conversion appends its argument's text |
| Printk.Formatter.Sprintk | src/libs/kstdio.c:87-177 | for every defined call the buffer holds exactly the recursive render of format and arguments, zeros behind it; the count is its length less plain characters and minus signs |

## Left out

Stated weaker than the code allows:

- PageTables.Vmm.Map: where the result is false the code goes on with a wild index or a table out of reach; nothing is promised from there.
- PageTables.Vmm.Unmap: the same for an entry of a boot-time slot that names no page.
- BuddyAllocator.Buddy.AllocBuddy: above 2^18 KB only the read past the table is reported, not what the code finds there; within four bytes of 2^32 its logarithm loop overflows, which unbounded numbers do not show.
- BuddyAllocator.Buddy.FreeBuddy: a caller that frees an unreferenced rest of a block, by a page inside it, is not covered; `move_slab_to_free` does pass such a page (`src/pmm/slab.c:77-83`, `328`), but its pages are still mapped, so the free is refused.
- BuddyModel.RunSafe: every free of a run is of a block by its first page.
- VmModel.VmRunInv: assumes the first page behind the kernel's text, data and bss (`Machine.Clear`), which the address computed as written does not give.
- LockModel.MutualExclusion: holds for `thread_block` as declared; with the one written a contended P goes wrong as `LockAsWritten.TakenLockExactly` says.
- SchedModel.ExactWait: runs of ticks and creations only; a thread that calls thread_block on an expired slice (a slice of 0) gives way early.
- HeapModel.PoolRunInv: the heap stays below 4 GB, clients free live objects only, and a slab is released only when nothing in it is live.
- HeapModel.HeapSafe: its free asks every slab; kfree asks listed slabs only, and what that means is `KmemModel.KfreeExactly`.
- Kmems.Allocator.Free: clients free live objects, or addresses no listed slab accepts.
- Kmems.Allocator.AllocFrom: where the result is false the code panics or goes on through a null pointer; nothing is promised from there.
- Slabs.SlabHeader.FreeObj: after a write before the list nothing is promised.
- Locks.KLock.SemaTryDown: waiters are kept as a sequence of threads; the ring they sit on is `Ring`, proved once.
- Printk.Formatter.Sprintk: formats ending in a lone `%`, missing arguments and output of 1024 characters or more are undefined in the source and excluded.

Not modelled:

- The branches for lists of two and more slabs, and all moves off and onto the full list (`src/pmm/slab.c:143-149`, `162-212`, `279-298`, `349-382`, `390-410`): never reached, or reached only past a null pointer.
- The mapping loop of apply_slab (`src/pmm/slab.c:77-81`): `map` overwrites the page pointer on each round; a slab's range is taken as given memory.
- The dead body of the inner split loop (`src/pmm/buddy.c:247-265`): never entered.
- Swapping, clock replacement and page-fault handling (`src/vmm/swapmm.c`, `src/vmm/vmm.c:64-162`): the disk functions are stubs.
- getpte and memory regions (`src/vmm/vmm.c:268-352`), page insertion and deletion in an address space (`426-462`), and set_page_attr (`src/pmm/buddy.c:136-145`): unfinished, or loops that do not advance. Callers are assumed not to relink pages of a block they hold.
- The blocking paths of the queue (`src/driver/ioqueue.c:43-48`, `63-68`): they sleep while holding the lock; the callers modelled test first.
- The register switch, TLB flushes, interrupt stubs, port I/O and the memory-map scan: hardware. Page count and first address are inputs.
- Console drawing, messages printed inside other functions, and stack traces: diagnostics.
- Choice of a cache by size in kmalloc and the list of caches (`src/pmm/slab.c:241-276`), symbol lookup and slab counters: single scans.
- A null thread passed to thread_unblock (`src/thread/thread.c:92-95`): returns at once.
- The signedness of `char` in `%c`: the low byte is taken as a character code.
