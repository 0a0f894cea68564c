# WeensyOS memory: allocators, page tables, processes

A model in Dafny of the memory side of WeensyOS and of the two allocators that run on
it, with proofs. The model follows the `c/final` copy of the kernel and of the C
allocator, and the Rust allocator in `rust/final`.

## What is modelled

**Heaps** (`Blocks`, `BlockLemmas`, `Placement`, `Coalescing`, `HeapSpec`, `HeapSteps`,
`HeapRuns`). A heap is a sequence of blocks that the headers in a byte-addressed memory
tile. malloc, calloc, free, realloc, defrag and heap_info are relations between heaps;
the relations take the header format as a parameter, so the C and the Rust allocator are
two implementations of one specification. The theorems about whole runs
(`HeapRuns.RunRefinesBuffers` above all) hold for both.

**The two allocators** (`Malloc`, `MallocBytes`, `RustMalloc`, with `HeapSort`, `Sorting`,
`UsedBlocks` and `HeapInfoSpec` for heap_info). Classes over an array of bytes. Headers, payloads,
result arrays and sort scratch are all bytes of that one array, little-endian as on
x86-64; the ghost block sequence is tied to the bytes by the invariant. C's malloc is
modelled for every 64-bit size, also where the block size wraps around (`MallocBytes`).
The system call is the arithmetic of `Sbrk`, which `Kernel.SbrkAsAllocatorsSeeIt` shows to
be what the kernel does. A defrag or a sort is proved against a specification that a reader can
check without the code: the coalesced sequence is characterised by an if-and-only-if,
the stable sort is unique.

**Page tables** (`PageTables`, `VirtualMemory`, `KernelTables`). Tables are frames of
512 little-endian entries in physical memory, named by frame number (0 is NULL).
`Tree` says that interior entries are absent or name a table and grant P, W and U, and
that no table is reached twice; virtual_memory_init establishes it. virtual_memory_lookup
is described on every tree, well-formed or not: it masks each level's W and U with the
complement of the level before, so its answer is not the conjunction over the levels that
section 4.6 of the Intel 64 and IA-32 Architectures Software Developer's Manual, Volume
3A, asks for. `VirtualMemory.LookupMatchesProcessor` says exactly when the two agree, and
`VirtualMemory.LookupMissesTopLevel` builds tables on which they do not; on a `Tree` they
do.

**Processes** (`KernelState`, `KernelSteps`, `KernelHeap`, `KernelMemory`,
`KernelChecks`, `KernelBoot`, `Scheduling`, `Kernel`, `KernelRuns`, `KernelFrames`,
`KernelTraps`, `KernelTouch`, `KernelSetup`).
The state is physical memory, the pageinfo array and the process table, with real page
tables inside that memory. The invariant `Inv` is established at boot and kept by brk,
sbrk, user page faults, exit and user stores by any process, and it holds of a process
that has just been set up with a program; it implies every assertion of
check_virtual_memory, of set_pagetable and of run. `KernelRuns` proves that each process
has a private memory: every step acts on it as on a map from addresses to bytes, and no
other process's step touches it; a process that never lowers its break sees flat memory,
which is what the allocators take for granted. No process changes the kernel's own
memory. `KernelTraps` ties the kernel's traps to those runs, and proves that a process
that stays runnable has its turn within 16 timer interrupts or yields. `KernelTouch` says
when the first touch of a heap page succeeds, `KernelSetup` when a program can be set up
and booted: exactly when the frames suffice. `KernelFrames` proves that frames are neither shared, leaked nor freed while in
use.

**Loader** (`LoaderSteps`, `Loader`, `ElfLayout`): an executable's headers are decoded
from its bytes and its segments put in memory. **Formatted output** (`Numbuf`, `Printf`,
`PrintfGrammar`, `PrintfStandard`): the grammar of a directive with its round trip, what
the code prints, and when that is what the C standard asks for.

Wherever a method changes state, its postcondition names the relation between the old
and the new state, and the lemmas about that relation say what it means.

## Where the code and its documentation part

- malloc.c:28-29 says that `slop` is the padding between the requested and the usable
  size. Where a free block is taken whole it is only what is left beyond the rounded
  size, so the usable size recorded there is the rounded size. `Placement.RecordedSize`
  says when it is the request, `Placement.RecordedSizeNotRequest` gives one that it is not.
- malloc(sz) is an allocation exactly when the request is supported (rounded size plus the
  heap in use stays below 2^64) or refused: `MallocBytes.AllocatesExactly`. Beyond the
  bound, up to 2^64 - 16, the kernel is asked for a negative amount and grants it
  (`MallocBytes.BreakMovesDown`); between 2^64 - 16 and 2^64 - 8 the block size wraps to 0
  and a free block's header gets the size 0, which no walk gets past
  (`MallocBytes.ZeroSizeBlock`); above, it wraps to 8, and the request is refused only on a
  full heap with no free block (`HeapSpec.KeepsBeyond`).
- k-loader.c:79-81 says that the segment's bytes are copied to its address. They are
  copied to that address rounded down to a page, and that many more bytes of the file
  are copied: `Loader.LoadedInPlaceIfAligned`. The section on program headers of the
  System V gABI, chapter 5, asks for the segment's own address.
- vsnprintf returns the number of characters stored. C11, section 7.21.6.12, asks for the
  number that would have been stored. The two are equal exactly when the output is shorter
  than the buffer (`Printf.Vsnprintf`).
- A precision of 0 prints the digit 0 for the value 0, a negative precision argument counts
  as 0, and a negative width argument as none, where section 7.21.6.1 of C11 asks for no
  digit, for no precision and for left justification; and the character NUL is not printed.
  `PrintfStandard` defines what the standard prints, gives an input for each of the first
  three, and proves that the two agree exactly when `PrintfStandard.Conforms` holds: a
  negative width shows only where it would pad, and a negative precision only where it lets
  the 0 flag pad or keeps a string that is more than padding.
- The Rust heap_info measures free space before it places its result arrays, the C one
  after (`HeapInfoSpec.Measured`).

## Model

| member | source | states |
|---|---|---|
| Malloc.Allocator.Malloc | c/final/uspace/malloc.c:66-111 | for every 64-bit size: the pointer, the memory and the break afterwards are those of `MallocBytes.EffectOf`, byte for byte, with block sizes that wrap; for every request that is supported or refused: NULL with nothing changed, or the block that the abstract placement names (first fit, split, or growth), headers still tiling the heap, and no byte of any payload in use changed |
| MallocBytes.AllocatesExactly | c/final/uspace/malloc.c:66-111 | for every size and every heap: those bytes are an allocation if and only if the request is supported or refused; otherwise no heap state makes the returned pointer a malloc step |
| HeapSpec.KeepsBeyond | c/final/uspace/malloc.c:71-104 | beyond the bound a request is refused exactly when its block size wraps to no more than a header, no block is free and the break is within one request of its limit (C and Rust) |
| HeapSpec.NoBlockBeyond | c/final/uspace/malloc.c:66-111 | beyond the bound no step that hands out a block is possible, in C or in Rust |
| HeapSpec.RefusedStep | c/final/uspace/malloc.c:102-104 | a refused request is malloc's failure, with nothing changed |
| MallocBytes.BreakMovesDown | c/final/uspace/malloc.c:72-110 | every request beyond the bound up to 2^64 - 16 is negative for the kernel: the break moves down into the heap and the block is above it |
| MallocBytes.ZeroSizeHeader | c/final/uspace/malloc.c:78-98 | a request between 2^64 - 16 and 2^64 - 8 for which a block is free makes the size in that block's header 0 |
| MallocBytes.ZeroSizeBlock | c/final/uspace/malloc.c:76-100 | no blocks are described by the headers after that: the walk does not get past it |
| Malloc.TakeBlock | c/final/uspace/malloc.c:78-97 | the bytes written over a free block are those of `MallocBytes.Taken`, for every block size that fits, also 0 |
| MallocBytes.TakenTiled | c/final/uspace/malloc.c:78-97 | for a block size that did not wrap, those bytes tile exactly the block's old extent, as one or two blocks by the 16-byte rule |
| Malloc.Allocator.FindFit | c/final/uspace/malloc.c:76-100 | the header walk stops at the lowest-addressed free block that fits, or at last_valid_address |
| Malloc.Allocator.Grow | c/final/uspace/malloc.c:102-110 | NULL with nothing changed, or one header at the old break, whatever the kernel made of the request |
| Malloc.Allocator.Calloc | c/final/uspace/malloc.c:115-128 | for every num and sz whose product overflows or is kept by malloc: NULL on overflow of the true product, else malloc of it with every byte zero |
| Malloc.OverflowCheck | c/final/uspace/malloc.c:119-121 | the division test is exactly overflow of the product |
| Malloc.Allocator.Free | c/final/uspace/malloc.c:132-137 | one block leaves the set of blocks in use; the others, their bytes and the tiling stay |
| Malloc.Allocator.Realloc | c/final/uspace/malloc.c:144-162 | the first min(old usable, sz) bytes move to a new block, the old one is freed, all others are kept; on failure nothing changes |
| Malloc.Allocator.Defrag | c/final/uspace/malloc.c:168-187 | the blocks become the coalesced sequence, in place, with every payload in use untouched |
| Malloc.Allocator.HeapInfo | c/final/uspace/malloc.c:284-345 | succeeds if and only if malloc was called before and the caller has no block or both result arrays can be placed; the reported pairs are a descending permutation of the caller's blocks, in arrays that are the only new blocks; free space and largest chunk are those at the second pass; on failure no block in use changed |
| Malloc.Allocator.FillPass | c/final/uspace/malloc.c:315-333 | index ends equal to num_allocs, the arrays hold the caller's blocks in address order, the totals are the free bytes and the largest free block |
| Malloc.Allocator.SortDescending | c/final/uspace/malloc.c:246-273 | stable sort when both scratch arrays fit, a sort in any case; the scratch blocks are gone afterwards and no other block changed |
| HeapSort.MergeSortDescending | c/final/uspace/malloc.c:229-237 | in memory, cells [lo, hi) become the stable descending sort and no other cell of the arrays changes |
| HeapSort.MergeToScratch | c/final/uspace/malloc.c:197-222 | the three filling loops put the merge of the two halves in the scratch arrays |
| HeapSort.SelectionSort | c/final/uspace/malloc.c:254-269 | in place, a descending permutation |
| Malloc.Allocator.SysSbrk | c/final/kernel/kernel.c:181-202 | the system call as the process sees it: old break or -1 |
| Placement.PlaceLive | c/final/uspace/malloc.c:66-111 | a placement adds one block in use, big enough, at an address that was not in use, changes no other, and accounts for every byte |
| Placement.CarveGood | c/final/uspace/malloc.c:80-96 | in C and in Rust the block is less than 16 bytes bigger than the request needs and the rest of the extent is free; in C usable size is between sz and sz rounded up to 8, and exactly sz when the block was split; slop fits its byte |
| Placement.RecordedSize | c/final/uspace/malloc.c:28-29 | the usable size that the header records is the request when the block was split and the rounded request when it was not; so it is the request if and only if the block was split or the request is a multiple of 8 |
| Placement.RecordedSizeNotRequest | c/final/uspace/malloc.c:28-29 | malloc(1) in a free block of 24 bytes records 8 |
| Placement.FreshGood | c/final/uspace/malloc.c:105-110 | the same for a block on fresh memory, where in C usable size is sz; the heap grows by the block in C, and in Rust by the fewest whole pages that hold it |
| Placement.LeftoverServes | rust/final/uspace/malloc/src/lib.rs:65-74 | what is left over of an extent serves the next request that fits there, without growth |
| HeapSpec.LeftoverIsUsed | rust/final/uspace/malloc/src/lib.rs:80-100 | so, in C and in Rust, a second request that fits beside the first does not move the break |
| HeapSpec.TwoSmallBlocks | rust/final/uspace/malloc/src/lib.rs:65-100 | on an empty Rust heap malloc(8) and malloc(8) return HEAP_START + 16 and HEAP_START + 40, in one page of which 4048 bytes are free |
| Placement.PlaceFirstFit | c/final/uspace/malloc.c:76-110 | the new block is in the lowest-addressed free block that fits; the heap grows only when none does |
| Blocks.FirstFitUnique | c/final/uspace/malloc.c:76-100 | the first fit is the only index with no fit before it |
| HeapSpec.MallocMeaning | c/final/uspace/malloc.c:66-111 | a successful malloc: an 8-aligned new block with room for sz, less than 16 bytes bigger than the request needs, nothing else moved, free bytes conserved |
| HeapSpec.FreeMeaning | c/final/uspace/malloc.c:132-137 | exactly one block goes out of use |
| HeapSpec.ReallocMeaning | c/final/uspace/malloc.c:144-162 | malloc, copy and free compose to realloc's promise |
| HeapSpec.ReallocEffect | c/final/uspace/malloc.c:144-162 | with size 0 the block is gone and NULL returned; on success it is gone and a new block has room for the size and the old contents; on failure nothing changed; the other blocks are as before in any case |
| HeapSpec.DisjointBlocks | c/final/uspace/malloc.c:26-32 | blocks in use never overlap |
| HeapSpec.LiveFacts | c/final/uspace/malloc.c:26-32 | payloads in use are 8-aligned and inside the heap |
| BlockLemmas.TilingUnique | c/final/uspace/malloc.c:76-100 | one memory has only one reading as blocks between two addresses |
| BlockLemmas.LargestFreeIsMax | c/final/uspace/malloc.c:325-330 | the running maximum is the largest free block |
| Coalescing.CoalesceCharacterised | c/final/uspace/malloc.c:168-187 | a block sequence is the coalesced one if and only if it has the same blocks in use, the same length and no two adjacent free blocks |
| Coalescing.CoalesceKeepsLive | c/final/uspace/malloc.c:168-187 | every block in use keeps its address and header |
| Coalescing.CoalesceMaximalRuns | c/final/uspace/malloc.c:172-183 | each free block of the result is a maximal run of old free blocks |
| Coalescing.CoalesceSeparates | c/final/uspace/malloc.c:168-187 | no two adjacent free blocks remain |
| Coalescing.CoalesceFreeBytes | c/final/uspace/malloc.c:168-187 | free bytes are conserved |
| Coalescing.CoalesceGrowsLargest | c/final/uspace/malloc.c:168-187 | the largest free block never shrinks |
| Coalescing.CoalesceIdempotent | c/final/uspace/malloc.c:168-187 | a second defrag changes nothing |
| HeapSpec.SupportedExactly | c/final/uspace/malloc.c:72-104 | for every 64-bit request, in C and in Rust: what is asked of sbrk is the rounded size, and sbrk adds that many bytes if it accepts, exactly when rounded size plus heap in use stays below 2^64 |
| HeapSpec.SmallSupported | c/final/uspace/malloc.c:72-110 | every request up to 2^63 - 16 is within that bound, whatever the heap |
| HeapSpec.SizesFit | c/final/uspace/malloc.c:31-31 | no 32-bit size field loses bits |
| Sorting.SortDescCorrect | c/final/uspace/malloc.c:229-237 | the merge sort sorts, permutes and keeps equal sizes in order |
| Sorting.StableSortUnique | c/final/uspace/malloc.c:229-237 | a stable descending sort is unique |
| Sorting.SortedSizesUnique | c/final/uspace/malloc.c:246-273 | merge sort and selection sort give the same size array |
| UsedBlocks.UsedListExact | c/final/uspace/malloc.c:319-332 | the reported list holds a pair if and only if it is the usable size and address of a caller's block |
| HeapInfoSpec.ReportedFreeSpace | c/final/uspace/malloc.c:288-340 | C reports the free bytes less those that the result arrays took, Rust those that there were |
| HeapInfoSpec.ReportedSame | c/final/uspace/malloc.c:284-333 | the library's own blocks do not change the report |
| HeapRuns.RunWellFormed | c/final/uspace/malloc.c:66-345 | in every state of every run, C or Rust, the headers tile the heap |
| HeapRuns.StepKeepsBlock | c/final/uspace/malloc.c:66-345 | no call moves, resizes or frees a block it was not asked to release |
| HeapRuns.RunRefinesBuffers | c/final/uspace/malloc.c:66-345 | over any run a block that is not released holds exactly what the program wrote to it: the allocator refines independent buffers |
| HeapRuns.FreshPointerApart | c/final/uspace/malloc.c:66-111 | in any run a new pointer names no block in use and its block overlaps none |
| HeapRuns.SpaceAccounted | c/final/uspace/malloc.c:66-345 | in every state free and used bytes add up to the heap |
| RustMalloc.Allocator.Malloc | rust/final/uspace/malloc/src/lib.rs:80-100 | for every request that is supported or refused: the same abstract step as in C, with 16-byte headers and growth in pages; the heap stays a whole number of pages |
| RustMalloc.SplitOrUse | rust/final/uspace/malloc/src/lib.rs:65-74 | the bytes of the free block are conserved, as one or two blocks, by the rule that `Placement.CarveGood` bounds |
| RustMalloc.Allocator.GrowHeap | rust/final/uspace/malloc/src/lib.rs:50-63 | one free block of whole pages at the old end, or nothing, as the kernel decides on the wrapped number of pages |
| RustMalloc.Allocator.HeapBounds | rust/final/uspace/malloc/src/lib.rs:30-36 | initialises at most once, changing nothing a caller sees |
| RustMalloc.Allocator.Calloc | rust/final/uspace/malloc/src/lib.rs:102-109 | as in C |
| RustMalloc.Allocator.Free | rust/final/uspace/malloc/src/lib.rs:113-116 | as in C |
| RustMalloc.Allocator.Realloc | rust/final/uspace/malloc/src/lib.rs:120-131 | the first min(old, new) bytes are kept, others untouched, nothing changes on failure |
| RustMalloc.Allocator.Defrag | rust/final/uspace/malloc/src/lib.rs:134-152 | the same coalesced sequence as in C |
| RustMalloc.Allocator.HeapInfo | rust/final/uspace/malloc/src/lib.rs:168-227 | succeeds if and only if the caller has no block or both result arrays can be placed; a descending permutation of the caller's blocks; free space and largest chunk are those before the result arrays were placed |
| RustMalloc.Allocator.FillPass | rust/final/uspace/malloc/src/lib.rs:206-217 | stopping when the arrays are full loses no block |
| PageTables.PageIndexDigits | c/final/shared/x86-64.h:29-37 | the four indices are the base-512 digits of the page number, despite the truncation to int |
| PageTables.PageIndexInjective | c/final/shared/x86-64.h:29-37 | two addresses share all four indices if and only if they are on the same page |
| PageTables.MaskBits | c/final/kernel/vm.c:194-198 | what one masking step does to the address and to each permission bit |
| VirtualMemory.VirtualMemoryLookup | c/final/kernel/vm.c:192-206 | the loop computes the masked walk of the tree, on every tree whose tables are in memory |
| VirtualMemory.LookupRights | c/final/kernel/vm.c:194-204 | on every tree: W (and U) is reported if and only if the last level grants it and not (the third level grants and the second does not) |
| VirtualMemory.LookupMatchesProcessor | c/final/kernel/vm.c:194-204 | exactly when that agrees with the processor's rule, which needs all four levels |
| VirtualMemory.LookupMissesTopLevel | c/final/kernel/vm.c:194-204 | tables on which they differ: W at levels two to four and not at level one, and W is reported |
| VirtualMemory.TreeLookup | c/final/kernel/vm.c:192-206 | on a well-formed tree the lookup is the last-level entry, flags and all |
| VirtualMemory.LookupL4Pagetable | c/final/kernel/vm.c:145-185 | for every walk on which no present entry names frame 0: an assertion fails if and only if a present interior entry names no table or lacks a right asked for; otherwise the last-level table, or NULL where there is none |
| VirtualMemory.DeniedExactly | c/final/kernel/vm.c:171-178 | which entries those are: beyond the 512 frames of memory, or without W or U where it is asked for |
| VirtualMemory.TreeGrants | c/final/kernel/vm.c:171-177 | on a well-formed tree none of those assertions fails, whatever the rights asked for |
| VirtualMemory.CachedTable | c/final/kernel/vm.c:118-123 | the table cached between iterations is the one a fresh walk returns |
| VirtualMemory.VirtualMemoryMap | c/final/kernel/vm.c:98-137 | exactly the pages of the range change; on -1 exactly a prefix that ends at a 2 MB boundary has been mapped |
| KernelTables.MapRefinesFlatUpdate | c/final/kernel/vm.c:98-137 | seen through lookup, for every address: mapping is update of a flat page map |
| PageTables.LeafWrite | c/final/kernel/vm.c:124-129 | writing a last-level entry changes no walk to a table and one page's entry |
| KernelTables.VirtualMemoryInit | c/final/kernel/vm.c:22-52 | physical memory is mapped at its own addresses with all rights and nothing else is; the closing assertions hold, those of set_pagetable too; other memory is untouched |
| KernelTables.SetPagetable | c/final/kernel/vm.c:60-73 | true if and only if the four lookups find the kernel's code and both tables at their own addresses, on any tables whose walks stay in memory |
| Sbrk.AcceptsExactly | c/final/kernel/kernel.c:181-188 | for every 64-bit difference: accepted if and only if the mathematical sum is a legal break, despite wrap-around; the sign is the direction |
| Sbrk.BrkReachesAddress | c/final/kernel/kernel.c:326-333 | an accepted brk(addr) makes the break addr, and addr is accepted exactly when legal |
| Kernel.Kernel.Sbrk | c/final/kernel/kernel.c:181-202 | refused without effect, or the break moves and, downwards, exactly the present pages above it are unmapped and freed; the system invariant is kept |
| Kernel.Kernel.FreeHeapPages | c/final/kernel/kernel.c:190-200 | the loop unmaps the present pages of the range, frees their frames, and leaves untouched pages and their metadata alone |
| Kernel.Kernel.SysBrk | c/final/kernel/kernel.c:326-333 | 0 with the break at addr, or -1 with nothing changed |
| Kernel.Kernel.SysSbrk | c/final/kernel/kernel.c:335-343 | the old break, or -1 with nothing changed |
| Kernel.SbrkAsAllocatorsSeeIt | c/final/kernel/kernel.c:335-343 | the kernel's answer is the one both allocators assume |
| Kernel.Kernel.PageFault | c/final/kernel/kernel.c:363-402 | a process survives a fault if and only if the address is in its heap, the page not present, some frame free and the page's table there; a kernel fault panics |
| KernelMemory.FaultServedExactly | c/final/kernel/kernel.c:370-385 | the same of the step, and that the page is then mapped with P, W and U to a frame that was free |
| KernelTouch.FirstTouch | c/final/kernel/kernel.c:370-385 | over any run, for a process whose tables cover user memory at the start: its first touch of a heap page succeeds if and only if a frame is free |
| KernelTouch.FirstTouchStores | c/final/kernel/kernel.c:370-385 | and then the process can store at the address and reads back what it stored |
| Kernel.Kernel.SysExit | c/final/kernel/kernel.c:152-154 | every frame of the process is free, no other is touched |
| Kernel.Kernel.Exception | c/final/kernel/kernel.c:251-416 | in every state that satisfies the invariant: no assertion of check_virtual_memory fails, the invariant is kept, no assertion of set_pagetable or run fails; after a timer interrupt or a yield the next runnable process runs, after any other trap the current one if it still can; nothing runs if and only if no process can |
| KernelTraps.ExceptionSwitches | c/final/kernel/kernel.c:356-416 | who has the turn after an exception, as the next row takes it |
| KernelTraps.ServedInTurn | c/final/kernel/kernel.c:345-433 | in any history of exceptions a process that stays runnable has its turn within 16 timer interrupts or yields, whatever the others do |
| Kernel.Kernel.Run | c/final/kernel/kernel.c:442-451 | a runnable process becomes current; the assertions hold |
| KernelChecks.InvInstallable | c/final/kernel/vm.c:60-73 | under the invariant no assertion of set_pagetable fails for a table of the kernel or of a process |
| KernelTraps.HandledIsStep | c/final/kernel/kernel.c:279-402 | every trap the kernel handles is a step of the runs below, or changes nothing |
| KernelTraps.HistoryIsRun | c/final/kernel/kernel.c:251-416 | any history of traps and user stores is such a run, and ends in the same state |
| Kernel.Kernel.CheckInvariants | c/final/kernel/kernel.c:556-584 | check_virtual_memory passes |
| Kernel.Kernel.constructor | c/final/kernel/kernel.c:80-91 | the boot sequence establishes the invariant |
| KernelSetup.ProcessSetup | c/final/kernel/kernel.c:117-127 | succeeds if and only if the file has the magic number and the free frames are at least the segments' pages and six; then the process satisfies the invariant, holds every segment of its executable (when no two share a page), a writable stack page and tables for all of user memory, and its heap is empty above the program |
| KernelSetup.ReadyCovers | c/final/kernel/kernel.c:117-127 | so it is one of the processes that `KernelTouch.FirstTouch` speaks of |
| KernelSetup.LoadedPrepared | c/final/kernel/k-loader.c:42-75 | a program loaded into new tables, in user memory, leaves the kernel's pages as they were and no heap page present |
| KernelSetup.StartKeeps | c/final/kernel/kernel.c:126-126 | a process prepared by changing nothing but its own frames is live once it is marked runnable, and the invariant holds |
| KernelSetup.Boot | c/final/kernel/kernel.c:80-109 | the kernel boots into the invariant with the program as its running process, if and only if the magic number is right and the segments' pages and those up to the end of the kernel's image are at most 472 |
| KernelSetup.BootFrames | c/final/kernel/kernel.c:464-482 | how many frames are free at boot |
| KernelSetup.BootEmpty | c/final/kernel/kernel.c:80-109 | a state of the invariant with a live process is always reached |
| KernelBoot.PageinfoInit | c/final/kernel/kernel.c:464-482 | frame by frame, in numbers: which are the hardware's, the kernel's and free, with counts 1 and 0 |
| KernelBoot.BootInv | c/final/kernel/kernel.c:80-91 | after virtual_memory_init and pageinfo_init the invariant holds |
| KernelChecks.CheckVirtualMemory | c/final/kernel/kernel.c:556-584 | true if and only if the quantified assertions hold, on any tables whose walks for the kernel's pages stay in memory |
| KernelChecks.CheckPageTableMappings | c/final/kernel/kernel.c:487-509 | true if and only if the lookup finds the kernel's pages at their own addresses, writable where they must be, on any such tables |
| KernelChecks.TreePagesSeen | c/final/kernel/kernel.c:487-509 | on a well-formed tree that is what the last-level entries say |
| KernelChecks.CheckPageTableOwnershipLevel | c/final/kernel/kernel.c:535-549 | the recursion computes the recursive ownership predicate, on any memory |
| KernelChecks.OwnershipMeansPrivate | c/final/kernel/kernel.c:519-549 | on a well-formed tree that recursion passes if and only if every reachable table is the owner's alone |
| KernelChecks.CheckedExactly | c/final/kernel/kernel.c:556-584 | what check_virtual_memory catches: for well-formed tables it passes if and only if process 0 is not used, every tree is its owner's alone with the kernel's pages in place, and no frame in use belongs to a process that is not |
| KernelChecks.InvChecked | c/final/kernel/kernel.c:556-584 | the invariant implies every assertion |
| KernelHeap.ShrinkStep | c/final/kernel/kernel.c:190-202 | giving heap pages back keeps the invariant and every other process's state |
| KernelHeap.GrowStep | c/final/kernel/kernel.c:187-188 | so does growing |
| KernelHeap.NewPageStep | c/final/kernel/kernel.c:374-379 | so does mapping a faulted page |
| KernelHeap.ReleaseStep | c/final/kernel/kernel.c:152-154 | so does freeing a process |
| KernelRuns.RunKeeps | c/final/kernel/kernel.c:181-402 | the invariant holds throughout every run of any processes |
| KernelRuns.KernelMemoryKept | c/final/kernel/kernel.c:181-402 | over any run no process changes a byte of the kernel's image, its stack or the hardware's frames (but the console), nor whose they are |
| KernelRuns.KernelFrameNeverGiven | c/final/kernel/kernel.c:374-375 | palloc gives none of those frames out |
| KernelRuns.StepMemory | c/final/kernel/kernel.c:181-402 | every step acts on each process's memory as on a private map from addresses to bytes |
| KernelRuns.StaysMapped | c/final/kernel/kernel.c:181-402 | over any run a mapped page stays mapped while its process lives and its break does not pass down over it |
| KernelRuns.ReadsItsOwnWrites | c/final/kernel/kernel.c:181-402 | over any run such a page's bytes read as last stored by its process |
| KernelRuns.FlatMemory | c/final/kernel/kernel.c:181-402 | to a process that lives on and never lowers its break, memory is flat: every byte of every page it has once touched holds what it last stored there |
| KernelRuns.Isolation | c/final/kernel/kernel.c:181-402 | over any run of the others a process's memory and descriptor stay as they were |
| KernelFrames.HeapPageIsPrivate | c/final/kernel/kernel.c:363-402 | a present heap page lies in [original_break, ROUNDUP(program_break)), in a frame of the process's own with refcount 1 |
| KernelFrames.MappedFrameInUse | c/final/kernel/kernel.c:363-402 | no frame that a user page maps to is free: it is the process's own, or the console |
| KernelFrames.HeapFrameIsNoTable | c/final/kernel/kernel.c:519-549 | that frame is no process's page table and not the kernel's |
| KernelFrames.HeapFramesInjective | c/final/kernel/kernel.c:363-402 | (process, heap page) to frame is injective |
| KernelFrames.ShrinkFreesExactly | c/final/kernel/kernel.c:190-202 | a shrink frees as many frames as pages had been faulted in, exactly those, all in use before |
| KernelFrames.FaultTakesOne | c/final/kernel/kernel.c:374-379 | a served fault takes exactly one free frame |
| KernelFrames.RunConserves | c/final/kernel/kernel.c:181-402 | nothing leaks: frames held minus present heap pages is constant over any run |
| Kernel.Kernel.Schedule | c/final/kernel/kernel.c:423-433 | the next runnable process in cyclic order becomes current, if and only if one exists |
| Scheduling.PicksOne | c/final/kernel/kernel.c:423-433 | there is only one such process |
| Scheduling.NoStarvation | c/final/kernel/kernel.c:423-433 | a process that stays runnable is chosen within as many calls as it is places behind, at most NPROC |
| Scheduling.NoOneTwice | c/final/kernel/kernel.c:423-433 | while it waits no other process is chosen twice |
| Loader.LoadSegment | c/final/kernel/k-loader.c:85-126 | succeeds if and only if every page of the segment has a table and there are as many free frames; then the segment's pages hold its bytes, then zeros, with W exactly for writable segments, and every other page of the process is as it was |
| Loader.ProgramLoad | c/final/kernel/k-loader.c:42-75 | from the bytes of the image: succeeds if and only if the magic number is right, every page of every segment has a table and there are as many free frames; on success the entry point is the header's, the breaks are set, every page outside the segments is mapped as it was and, for page-disjoint segments, all of them are in memory at once |
| ElfLayout.HeaderRead | c/final/shared/elf.h:12-28 | the fields read from a file are the declared ones, for a header laid out field after field |
| ElfLayout.ProgramRead | c/final/shared/elf.h:31-41 | the same for the program headers, 56 bytes apart |
| ElfLayout.FlagBits | c/final/kernel/k-loader.c:115-115 | which types are loaded and which flags make a segment writable |
| Loader.HeapAboveProgram | c/final/kernel/k-loader.c:70-73 | the heap starts on a page boundary at or above every segment, less than a page above the highest |
| Loader.RemapReadOnly | c/final/kernel/k-loader.c:115-122 | a page keeps its frame and loses PTE_W |
| Loader.LoadedInPlaceIfAligned | c/final/kernel/k-loader.c:88-109 | the file's bytes land at p_va, for every file, if and only if p_va is page-aligned: the copy starts at the rounded address; the bytes after them are 0 in any case |
| Numbuf.FillNumbuf | c/final/shared/lib.c:112-128 | for every 64-bit value the buffer holds its numeral and a NUL, in bounds |
| Numbuf.DigitsFit | c/final/shared/lib.c:143-144 | at most 20 digits in base 10 and 16 in base 16, so 24 bytes suffice |
| Numbuf.DigitsLength | c/final/shared/lib.c:123-126 | a value has at most n digits if and only if it is below base^n |
| Numbuf.DigitsValue | c/final/shared/lib.c:123-126 | the digits parse back to the value |
| Numbuf.DigitsCase | c/final/shared/lib.c:112-122 | the digits are all capitals or all small letters, as asked |
| Numbuf.DigitsUnique | c/final/shared/lib.c:123-126 | no other digit string without a leading zero does |
| Printf.PrinterVprintf | c/final/shared/lib.c:142-301 | the output is the rendering of the format: every character and directive in order |
| Printf.ParseDirective | c/final/shared/lib.c:152-246 | what is read is `SpecAt`, which the next two rows tie to the grammar, with the code's width and precision |
| PrintfGrammar.DirectiveRead | c/final/shared/lib.c:152-246 | a directive written from flags, width (digits without a leading 0, or *), precision (digits, none, or *), length modifiers and letter, with anything after it, is read as those flags, those values, that letter and the right arguments, and reading goes on just past it |
| PrintfGrammar.DirectiveWritten | c/final/shared/lib.c:152-246 | and everything read up to a letter is a directive written so |
| PrintfStandard.ShownConforms | c/final/shared/lib.c:163-298 | for every directive that C11 defines and the code interprets, every argument, width and precision: the code prints what section 7.21.6.1 says if and only if `Conforms` holds |
| PrintfStandard.RenderConforms | c/final/shared/lib.c:142-301 | a format whose directives all conform prints as the standard says |
| PrintfStandard.ZeroPrecisionDiffers | c/final/shared/lib.c:274-276 | %.0d of 0 prints 0, the standard nothing |
| PrintfStandard.NegativePrecisionDiffers | c/final/shared/lib.c:182-188 | %05.*d of -5 and 42 prints three spaces and 42, the standard 00042 |
| PrintfStandard.NegativeWidthDiffers | c/final/shared/lib.c:169-172 | %*d of -5 and 42 prints 42, the standard 42 and three spaces |
| PrintfStandard.ArgumentMeaning | c/final/shared/lib.c:197-215 | an argument is its machine word modulo 2^32, or 2^64 after l, ll and z, in the range of its type |
| PrintfStandard.ArgumentTaken | c/final/shared/lib.c:203-237 | every conversion takes one argument, %% none |
| PrintfStandard.HexCase | c/final/shared/lib.c:216-221 | x prints small letters, X capitals |
| PrintfStandard.FlagCharacters | c/final/shared/lib.c:152-161 | which flag each character is |
| PrintfStandard.OtherCharacters | c/final/shared/lib.c:230-245 | a character that names no conversion prints as itself, a % at the end as %, and C nothing |
| Printf.PutField | c/final/shared/lib.c:248-298 | padding, prefix, zeros and data, laid out by one formula |
| Printf.NumberReadsBack | c/final/shared/lib.c:142-298 | whatever the flags, width and precision, a printed number reads back as the number |
| Printf.ConversionReadsBack | c/final/shared/lib.c:197-226 | each numeric conversion, at either length, prints a field that reads back as its argument |
| Printf.RenderPlain | c/final/shared/lib.c:146-150 | text without directives prints as it is |
| Printf.FieldLength | c/final/shared/lib.c:267-298 | a field is as long as its content or its width, whichever is more; a precision gives a number at least that many digits, and the zero flag alone fills the width with zeros |
| Printf.FieldTrimmed | c/final/shared/lib.c:252-298 | without padding a numeric field is prefix, zeros and digits |
| Printf.Vsnprintf | c/final/shared/lib.c:350-368 | stores the longest prefix of the output that fits in size - 1 and a NUL, returns the count stored, which is the length of the output if and only if that is below size (or the output is empty); writes nothing beyond; nothing at all for size 0 |

## Left out

- Malloc.Allocator.Calloc: asks that malloc keeps its promise for the product (`HeapSpec.Keeps`), because otherwise the memset of nearly 2^64 bytes runs past the end of memory.
- Malloc.Allocator.Realloc: asks that malloc keeps its promise for the size, because otherwise the memcpy goes where no block is.
- RustMalloc.Allocator.Malloc: asks for a request that is supported or refused; where it is neither, the code writes a header at a wrapped address, below the heap or inside it, and what that overwrites is not modelled (`HeapSpec.NoBlockBeyond`: it can be no allocation). Arithmetic wraps as in a release build, a debug build would stop instead.
- RustMalloc.Allocator.GrowHeap: asks for the same; so do RustMalloc.Allocator.Calloc and RustMalloc.Allocator.Realloc.
- Malloc.Allocator.Malloc: where the break has moved down, the header is written above it, in an array of bytes that is always there; whether the page is still mapped is the kernel's half of the model.
- Malloc.Allocator.Free: the pointer is NULL or in use; a double free or a foreign pointer is undefined in the original.
- VirtualMemory.VirtualMemoryMap: the range lies in the 48-bit address space, because the index compared with the sentinel -1 is an int and wraps beyond it; the tree is well-formed.
- Kernel.Kernel.PageFault: `missing` is the processor's error code and is taken to be right; what a faulted page holds is left open, as palloc does not say.
- Kernel.Kernel.Palloc: palloc is precompiled in k-vm.o, which is not part of this model; the method takes any free frame, fails only if there is none, and leaves the frame's bytes open.
- Kernel.Kernel.ProcessFree: process_free is precompiled too; the method frees the frames of the process and its slot and leaves memory as it is.
- Kernel.Kernel.Schedule: returns false after one full turn without a runnable process, where the original searches on for ever in the same state.
- KernelSetup.ProcessSetup: process_config_tables, process_load and process_setup_stack are precompiled; what stands in for them takes five free frames in a row for the tables. The registers of the new process are not modelled, beyond the entry point.
- KernelRuns.RunKeeps: fork and page_alloc are precompiled and are no steps of a run; system calls that only report (mapping, getpid, the memory viewer's toggle) are none either.
- Loader.ProgramLoad: asks that the headers are within the file; the table of linked-in programs is a parameter.
- Loader.LoadSegment: asks for filesz at most memsz, a segment inside the address space and a long enough file, which the original takes for granted.
- Printf.PrinterVprintf: an argument of the wrong kind reads as 0 or the empty string where C leaves it undefined; widths and precisions are unbounded integers; colours are skipped, and output to the console is not modelled.
- RustMalloc.Allocator.HeapInfo: the selection sort is the C one, which does not swap a cell with itself; the Rust one does, to no effect.
- A process's heap is an array that is always there for the allocators; that its pages arrive by page faults, and hold what was last stored there, is the kernel's half of the model (`KernelRuns.FlatMemory`).
- PrintfStandard.Defined: conversions and length modifiers that the code does not interpret (o, e, f, g, a, n, h, j, t, L) are left out; the code prints such a letter.
- The accessed and dirty bits, the TLB, hardware set-up, the console and the memory viewers.
- The copies of the same code elsewhere in the repository.
