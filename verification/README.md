# Verified models of the C programs the cores run

This project models the C code behind a RISC-V system's tests and benchmarks and proves what that code is
supposed to do. Each group of files is one program or one component.

| files | what they model |
|---|---|
| `Words`, `Memory`, `HeapLayout`, `FreeList`, `TinyMalloc`, `Allocator` | the boundary-coalescing allocator |
| `Barrier`, `Matrix`, `AeMatmul`, `DmMatmul` | the sense-reversing barrier and two cooperative matrix kernels |
| `SpinLock` | the lock protocol that several harts use around one shared buffer |
| `ListData`, `CoreList` | CoreMark's in-place list, its caching comparators, its mergesort and its benchmark |
| `QuickSort`, `RadixSort` | the two array sorts |
| `BlockedMatrix`, `MatrixKernels`, `MatrixMultiply` | the register-blocked and cache-blocked matrix product |
| `Crc` | CRC-32 and CRC-16 |
| `Towers` | Towers of Hanoi on lists that share one node pool |
| `NumberScanner` | CoreMark's number-scanning state machine and its benchmark |
| `NumberText` | the integer printer against the integer parser |

`dafny verify dfyconfig.toml` checks everything.

**Allocator.** The class `Allocator.TinyAllocator` is the C code: a byte memory, `__malloc_end` and
`__malloc_freelist`, with `size` and `next` words read from and written to that memory. Its meaning is a layout
(`HeapLayout.Heap`): the chunks, live and free, that lie between the start and the end of the heap. `FreeList.Rep`
ties the two together. Every routine of the class ends in the layout that the function of the same name computes,
and every theorem about a layout function is therefore one about the code. `FreeList.Keeps` says that payloads are
unchanged.

**Concurrency.** The barrier, the two kernels and the lock are step systems: a step is one shared access of one
core, and a run is any interleaving of steps. Shared accesses are taken to be sequentially consistent.

**Sorts, lists, matrices, towers, scanner, printer.** These are imperative, on arrays or on sequence fields, with
the loops of the source. Where one C function is too long for one proof it is cut into several methods
(`TakeBlock`, `MergeRuns`, `FindOnce`, `Partition`, `ScatterFour`, `MultiplyTile`, `EmitDigits` and others); each is
a consecutive piece of the original.

What turned out to hold only under a condition:

* `REAL_SIZE` makes room for a request exactly when the request is at most 2^64 - 16 bytes (`HeapLayout.RealSizeCovers`).
* `free` undoes `malloc` exactly, except that space `malloc` had to claim at the end of the heap stays as free space
  (`HeapLayout.FreeUndoesMalloc`), and the same for `memalign` (`HeapLayout.FreeUndoesMemalign`). A failing `memalign`
  may likewise leave the heap longer by one free chunk.
* `memalign` adds sizes in `size_t`. For an alignment above a word it is right on every heap if and only if `REAL_SIZE`
  of the request, the alignment and 16 together are at most 2^64 (`HeapLayout.MemalignExact`), where the comment in the
  source has it fail when the alignment is too large. Beyond that bound a wrapped sum can pass its tests, and the block
  handed out lies outside the heap (`HeapLayout.MemalignWraps`).
* `calloc`'s block has room for all its elements if and only if their total size does not wrap (`HeapLayout.CallocRoom`);
  the comment in the source promises it always.
* A hart's pass over the shared buffer leaves one cyclic alphabet if and only if its unsigned counter does not wrap
  inside the pass (`SpinLock.PassIsCyclic`). Until such a pass nobody ever waits inside the critical section
  (`SpinLock.NeverWaits`); the first such pass is the last that anybody completes (`SpinLock.LastPass`), and some run
  gets there (`SpinLock.SomeRunHangs`).
* `core_bench_list` puts a list back up to the order of nodes with the same `idx` (`CoreList.PutBack`), where the
  comment in the source promises the original list. It comes back if and only if the list that the last sort starts
  from has kept the order of those nodes (`CoreList.RestoredIff`, and `BenchList` for its own list). When the rounds
  find nothing and the sort by content is skipped, that means an even number of rounds or no `idx` twice
  (`CoreList.NothingFound`); `CoreList.NotRestored` is a list that does not come back.
* `core_bench_state` with equal seeds restores its block if and only if no visited byte other than a comma becomes a
  comma (`NumberScanner.FlipTwice`).
* A character rejected in state `CORE_SCIENTIFIC` is counted under `CORE_INVALID`, and one rejected in `CORE_START`
  is counted twice (`NumberScanner.BlockCounts` accounts for both).

## Model

| member | source | states |
|---|---|---|
| `Words.MAlignMeaning` | riscv_riscv-tests/debug/programs/tiny-malloc.c:87-89 | M_ALIGN, a bitwise and of a negated address, is the distance to the next multiple of a power of two |
| `Words.PowerTest` | riscv_riscv-tests/debug/programs/tiny-malloc.c:335-350 | `align & (align - 1)` is zero exactly for powers of two |
| `HeapLayout.RealSizeCovers` | riscv_riscv-tests/debug/programs/tiny-malloc.c:120-125 | REAL_SIZE leaves room for header and request if and only if the request is at most 2^64 - 16 |
| `HeapLayout.RealSizeLeast` | riscv_riscv-tests/debug/programs/tiny-malloc.c:120-125 | REAL_SIZE is the smallest legal chunk size with room for header and request |
| `HeapLayout.MallocCorrect` | riscv_riscv-tests/debug/programs/tiny-malloc.c:132-210 | malloc keeps the tiling; a non-null result heads a new live chunk with room for the request and every other live chunk stays; a null result changes nothing |
| `HeapLayout.MallocFails` | riscv_riscv-tests/debug/programs/tiny-malloc.c:132-210 | malloc returns null if and only if no free chunk is large enough and the heap, counting a free chunk at its end, cannot grow |
| `HeapLayout.MallocPlace` | riscv_riscv-tests/debug/programs/tiny-malloc.c:132-210 | the block is the lowest free chunk that is large enough, cut to the real size if a free-list entry or more is left, and the heap does not grow; if there is none it lies at the end, or in the free chunk there, and the heap grows to just its real size |
| `HeapLayout.MallocExact` | riscv_riscv-tests/debug/programs/tiny-malloc.c:120-210 | malloc keeps every heap tiled if and only if the request is at most 2^64 - 16 |
| `HeapLayout.FreeCorrect` | riscv_riscv-tests/debug/programs/tiny-malloc.c:216-274 | free removes exactly the given chunk from the live ones, and the heap stays tiled with no two free chunks touching and the same end |
| `HeapLayout.FreeUndoesMalloc` | riscv_riscv-tests/debug/programs/tiny-malloc.c:132-274 | free after malloc gives back the same heap, or the same heap with the newly claimed space free at its end |
| `HeapLayout.ReallocCorrect` | riscv_riscv-tests/debug/programs/tiny-malloc.c:276-313 | a failing realloc changes nothing; otherwise the old live chunk is replaced by one with room for the request, less than a free-list entry larger than needed, an old chunk with more to spare is cut to the real size, and no other live chunk changes |
| `HeapLayout.ReallocAnswers` | riscv_riscv-tests/debug/programs/tiny-malloc.c:276-313 | realloc of a live block answers null if and only if the block is too small, no free chunk is large enough and the heap, counting a free chunk at its end, cannot grow; and the same pointer if and only if the block is large enough |
| `HeapLayout.MemalignCorrect` | riscv_riscv-tests/debug/programs/tiny-malloc.c:336-494 | in size_t arithmetic: whenever the call returns without going on with a wrapped sum, and always when it is AlignSafe, the result is aligned, may be freed, and heads a new live chunk with room for the request, and the tiling is kept on success and failure; an alignment that is no power of two fails and changes nothing |
| `HeapLayout.MemalignExact` | riscv_riscv-tests/debug/programs/tiny-malloc.c:336-494 | on every heap the code does what the layout function says if and only if the request is AlignSafe: the alignment is at most a word or no power of two, or REAL_SIZE plus alignment plus 16 is at most 2^64 |
| `HeapLayout.MemalignWraps` | riscv_riscv-tests/debug/programs/tiny-malloc.c:366-437 | a concrete call on an empty heap whose sums wrap to 0: both tests pass, and the block handed out starts at 2^63 |
| `HeapLayout.MemalignFails` | riscv_riscv-tests/debug/programs/tiny-malloc.c:336-437 | without wrapping, memalign returns null if and only if the alignment is no power of two, or no free chunk fits and padding and block would pass the limit from the end, or from the free chunk at the end, on |
| `HeapLayout.MemalignPlace` | riscv_riscv-tests/debug/programs/tiny-malloc.c:366-494 | the block lies behind its padding in the lowest free chunk with room for both, cut to the real size if more than a free-list entry is left, and the heap does not grow; if there is none, at the end or in the free chunk there, and the heap grows to just padding and block |
| `HeapLayout.MemalignNull` | riscv_riscv-tests/debug/programs/tiny-malloc.c:366-437 | exactly when a failing memalign leaves a free chunk at the end, and otherwise changes nothing |
| `HeapLayout.PadLeast` | riscv_riscv-tests/debug/programs/tiny-malloc.c:398-400 | the padding is the least that aligns the payload and leaves in front either nothing or a whole free-list entry |
| `HeapLayout.FreeUndoesMemalign` | riscv_riscv-tests/debug/programs/tiny-malloc.c:336-494 | free after memalign gives back the same heap, pads included, or, where memalign had to grow it, the heap with just that space added, free, at its end |
| `HeapLayout.CallocRoom` | riscv_riscv-tests/debug/programs/tiny-malloc.c:315-326 | the block calloc gets has room for n * elemsize bytes if and only if that product does not wrap |
| `HeapLayout.EveryByteOnce` | riscv_riscv-tests/debug/programs/tiny-malloc.c:132-494 | every byte between start and end of the heap lies in exactly one chunk |
| `HeapLayout.FreeChunksApart` | riscv_riscv-tests/debug/programs/tiny-malloc.c:132-494 | free chunks are in strict address order and never touch |
| `HeapLayout.LiveDisjoint` | riscv_riscv-tests/debug/programs/tiny-malloc.c:132-494 | two live chunks share no byte |
| `HeapLayout.LayoutUnique` | riscv_riscv-tests/debug/programs/tiny-malloc.c:132-494 | the live chunks and the end fix the whole layout: two well-formed heaps that agree on them are equal |
| `HeapLayout.Accounting` | riscv_riscv-tests/debug/programs/tiny-malloc.c:515-559 | free and live bytes add up to the arena, so uordblks is the total size of live chunks |
| `HeapLayout.RunsKeepInv` | riscv_riscv-tests/debug/programs/tiny-malloc.c:132-494 | after any sequence of malloc, free, realloc and memalign calls whose sizes do not wrap, AlignSafe for memalign, the heap is tiled, free chunks do not touch and every chunk has a legal size |
| `Allocator.TinyAllocator.constructor` | riscv_riscv-tests/debug/programs/tiny-malloc.c:79-85 | the initial memory represents the empty heap |
| `Allocator.TinyAllocator.CanAlloc` | riscv_riscv-tests/debug/programs/tiny-malloc.c:110-118 | CAN_ALLOC_P in wrapping arithmetic is the plain comparison against limit and gap |
| `Allocator.TinyAllocator.Malloc` | riscv_riscv-tests/debug/programs/tiny-malloc.c:132-210 | the code's list walk over byte memory ends in the layout and pointer that first fit computes, and changes no live payload |
| `Allocator.TinyAllocator.Free` | riscv_riscv-tests/debug/programs/tiny-malloc.c:216-274 | the code's insertion and both-sided merge end in the layout with the chunk released, and change no live payload |
| `Allocator.TinyAllocator.Realloc` | riscv_riscv-tests/debug/programs/tiny-malloc.c:276-313 | the code ends in the specified layout and answer, keeps the first min(old, new) bytes of the payload, and changes no other payload |
| `Allocator.TinyAllocator.Memalign` | riscv_riscv-tests/debug/programs/tiny-malloc.c:336-494 | with every sum in size_t arithmetic: the code returns exactly when the specification does, and then its padding, splitting and growing end in the layout it gives and change no live payload |
| `Allocator.TinyAllocator.Calloc` | riscv_riscv-tests/debug/programs/tiny-malloc.c:315-326 | malloc of the wrapped product, every returned byte of which is zero; there is room for the unwrapped product if and only if it did not wrap |
| `Allocator.TinyAllocator.Mallinfo` | riscv_riscv-tests/debug/programs/tiny-malloc.c:515-559 | the walk computes total free size, total live size, number of free chunks and the size of a free chunk at the end |
| `Allocator.TinyAllocator.UsableSize` | riscv_riscv-tests/debug/programs/tiny-malloc.c:585-592 | the usable size is the live chunk's size less its header |
| `Barrier.BarrierSafe` | riscv_riscv-tests/benchmarks/common/util.h:44-62 | in every state of every run of any number of rounds no core has left its r-th call before all entered their r-th, cores are at most one round apart, and the count is reset before anyone can enter the next round |
| `Barrier.LeavingNeedsAll` | riscv_riscv-tests/benchmarks/common/util.h:44-62 | the step by which a core leaves its r-th call finds every core in its r-th call or beyond |
| `Barrier.NeverStuck` | riscv_riscv-tests/benchmarks/common/util.h:52-59 | in every invariant state some core has a step other than idle spinning |
| `Barrier.StepProgress` | riscv_riscv-tests/benchmarks/common/util.h:44-62 | each such step releases the round or strictly lowers a rank; idle spinning changes nothing |
| `Barrier.ReleasedInTime` | riscv_riscv-tests/benchmarks/common/util.h:44-62 | any sequence of more than rank such steps releases the round |
| `AeMatmul.NoEarlyRead` | riscv_riscv-tests/mt/ae_matmul.c:34-108 | under every interleaving no entry of BB is read before it is written and every access is in bounds |
| `AeMatmul.Product` | riscv_riscv-tests/mt/ae_matmul.c:34-108 | under every interleaving, when all cores are done C is A times B |
| `AeMatmul.NeverStuck` | riscv_riscv-tests/mt/ae_matmul.c:34-108 | until all cores are done some core has a step that changes the state |
| `AeMatmul.MovesBounded` | riscv_riscv-tests/mt/ae_matmul.c:34-108 | under every interleaving, however long, at most a fixed number of steps per core changes the state |
| `AeMatmul.CanFinish` | riscv_riscv-tests/mt/ae_matmul.c:34-108 | every run can be continued, by steps that change the state, to one in which all cores are done |
| `DmMatmul.NoEarlyRead` | riscv_riscv-tests/mt/dm_matmul.c:14-191 | under every interleaving no entry of B1 is read before it is copied and every access is in bounds |
| `DmMatmul.Product` | riscv_riscv-tests/mt/dm_matmul.c:14-191 | under every interleaving, when all cores are done C is its old contents plus A times B |
| `DmMatmul.NeverStuck` | riscv_riscv-tests/mt/dm_matmul.c:14-191 | until all cores are done some core has a step that changes the state |
| `DmMatmul.MovesBounded` | riscv_riscv-tests/mt/dm_matmul.c:14-191 | under every interleaving, however long, at most a fixed number of steps per core changes the state |
| `DmMatmul.CanFinish` | riscv_riscv-tests/mt/dm_matmul.c:14-191 | every run can be continued, by steps that change the state, to one in which all cores are done |
| `SpinLock.MutualExclusion` | riscv_riscv-tests/debug/programs/multicore.c:26-37 | in every reachable state at most one hart is between get_lock and put_lock |
| `SpinLock.PassIsCyclic` | riscv_riscv-tests/debug/programs/multicore.c:75-85 | what a hart writes is capitals for an odd hart and small letters for an even one, from its letter on, and one cyclic alphabet if and only if its counter does not wrap inside the pass |
| `SpinLock.PassLetters` | riscv_riscv-tests/debug/programs/multicore.c:53-89 | in every run, a hart that completes a pass leaves character i of the buffer at letter i plus its number plus its completed passes, modulo 2^32 and then 26, from A if it is odd and from a if it is even |
| `SpinLock.CountIsPasses` | riscv_riscv-tests/debug/programs/multicore.c:86-87 | the counter of a hart is the number of passes it has completed, modulo 2^32, one behind between put_lock and the increment |
| `SpinLock.FreeBuffer` | riscv_riscv-tests/debug/programs/multicore.c:53-89 | in every reachable state with a free lock and an initialised buffer, the buffer holds the letters of the last completed pass; the first hart to scan finds the capitals from A on |
| `SpinLock.NeverWaits` | riscv_riscv-tests/debug/programs/multicore.c:53-89 | as long as no completed pass has wrapped, every character a hart scans is the expected one, and a free, initialised buffer is one cyclic alphabet |
| `SpinLock.NeverStuck` | riscv_riscv-tests/debug/programs/multicore.c:53-89 | some hart can always make a step that changes the state |
| `SpinLock.DoomedForever` | riscv_riscv-tests/debug/programs/multicore.c:75-80 | a hart that meets an unexpected character holds the lock in every later state |
| `SpinLock.WrapHangs` | riscv_riscv-tests/debug/programs/multicore.c:53-89 | a hart that reads the first character of what a wrapping pass wrote never gives the lock back |
| `SpinLock.LastPass` | riscv_riscv-tests/debug/programs/multicore.c:53-89 | in every run the first completed pass that wraps is the last pass any hart completes |
| `SpinLock.SomeRunHangs` | riscv_riscv-tests/debug/programs/multicore.c:53-89 | for any number of harts some run from the start has a pass that wraps and ends with the lock held for ever, whatever the harts do next |
| `CoreList.ListPool.CalcFunc` | c_sim/benchmarks/coremark/coremark/core_list_join.c:69-114 | the cached value if bit 7 is set; otherwise the value of the benchmark call or of the item, whose low seven bits are cached with bit 7, keeping idx and the upper byte, and which enters the CRC and, the first time, the state or matrix result |
| `CoreList.ListPool.Compare` | c_sim/benchmarks/coremark/coremark/core_list_join.c:120-142 | the difference of the two keys, leaving both items cached, the first before the second, or regenerated, and all others alone |
| `CoreList.ListPool.MergeSort` | c_sim/benchmarks/coremark/coremark/core_list_join.c:499-595 | terminates on every non-empty list and relinks the same nodes, sorted by key and stably, although comparing changes the items; the results structure changes only by calls of calc_func that find nothing cached |
| `CoreList.SortedIsStable` | c_sim/benchmarks/coremark/coremark/core_list_join.c:478-595 | in the result keys ascend and nodes with equal keys keep their order |
| `CoreList.SortedUnique` | c_sim/benchmarks/coremark/coremark/core_list_join.c:478-595 | only one arrangement of the nodes is sorted in that sense |
| `CoreList.AllReady` | c_sim/benchmarks/coremark/coremark/core_list_join.c:69-142 | after sorting two or more nodes every item is cached, or regenerated |
| `CoreList.OnceEach` | c_sim/benchmarks/coremark/coremark/core_list_join.c:69-142 | whatever a sort by content compares, each item that becomes cached was computed exactly once, and the CRC is that of the stream of computed values |
| `CoreList.ListPool.Find` | c_sim/benchmarks/coremark/coremark/core_list_join.c:434-449 | the first node that matches by idx, or by lower data byte when idx is negative, or null when none does |
| `CoreList.FirstMatchMeans` | c_sim/benchmarks/coremark/coremark/core_list_join.c:434-449 | the position meant by the search is that of the first matching node, and the length if there is none |
| `CoreList.ListPool.Reverse` | c_sim/benchmarks/coremark/coremark/core_list_join.c:464-476 | the list of the same nodes in reverse, no other node touched |
| `CoreList.ReversedAt` | c_sim/benchmarks/coremark/coremark/core_list_join.c:464-476 | reversal puts element i where n - 1 - i was |
| `CoreList.ListPool.Remove` | c_sim/benchmarks/coremark/coremark/core_list_join.c:376-389 | the next node is unlinked and its item exchanged with the given node's |
| `CoreList.RemoveUndone` | c_sim/benchmarks/coremark/coremark/core_list_join.c:376-419 | undoing a removal restores every link and every item pointer |
| `CoreList.ListPool.FindOnce` | c_sim/benchmarks/coremark/coremark/core_list_join.c:173-202 | one round of the first loop: the first match, whether there is one, what is added to the score, the order of the list afterwards, and the next pointer of every node |
| `CoreList.MovedOrder` | c_sim/benchmarks/coremark/coremark/core_list_join.c:178-200 | after a round the last node is first, the node in front of the found one second, and all other nodes are in reverse order |
| `CoreList.RoundLinks` | c_sim/benchmarks/coremark/coremark/core_list_join.c:178-200 | the same node by node, as next pointers |
| `CoreList.RoundsLoop` | c_sim/benchmarks/coremark/coremark/core_list_join.c:169-203 | over any number of rounds, the rounds that find something are those for which some node of the original list matches, the others are missed, and the score is the sum of the rounds' bits, each read off an item |
| `CoreList.ListPool.RemoveAndCrc` | c_sim/benchmarks/coremark/coremark/core_list_join.c:207-221 | the checksum over what follows the match in the list without its third node, with links and item pointers as before |
| `CoreList.ListPool.BenchList` | c_sim/benchmarks/coremark/coremark/core_list_join.c:158-235 | same nodes and item pointers, sorted by idx, lower data bytes regenerated from kept upper ones; the original order if and only if the last sort was handed nodes of equal idx in that order; and the answer as ChecksumMeans has it |
| `CoreList.ChecksumMeans` | c_sim/benchmarks/coremark/coremark/core_list_join.c:158-235 | the answer starts from the bits of all rounds, plus four for each that found something, less one for each other; it is the CRC of the stream of the first item once for every item from the match on while the second item is out, and then of the first item of the sorted list once for every other node |
| `CoreList.PutBack` | c_sim/benchmarks/coremark/coremark/core_list_join.c:149-235 | a list that was sorted and regenerated is restored: same items in the nodes, same idx at every place, and the same nodes when no idx occurs twice |
| `CoreList.RestoredIff` | c_sim/benchmarks/coremark/coremark/core_list_join.c:149-235 | whatever list the last sort starts from, a tidy list comes back in its original order if and only if that list has kept the order of the nodes with equal idx |
| `CoreList.NothingFound` | c_sim/benchmarks/coremark/coremark/core_list_join.c:169-202 | when no round finds anything the list is as it was or reversed, and the order of nodes with equal idx, which is what restoring it takes, is kept if and only if the number of rounds is even or no idx occurs twice |
| `CoreList.TiesByContent` | c_sim/benchmarks/coremark/coremark/core_list_join.c:206-227 | the sort by content keeps the order of nodes with equal idx, which is when the list is restored, if and only if they come in order of their cached results, equal results in the order the rounds left |
| `CoreList.NotRestored` | c_sim/benchmarks/coremark/coremark/core_list_join.c:149-202 | a tidy list of three nodes, two with the same idx, that one round which finds nothing leaves reversed and the last sort does not restore |
| `QuickSort.InsertionSort` | riscv_riscv-tests/benchmarks/qsort/qsort_main.c:42-58 | sorts a stretch of the array as a permutation and touches nothing else |
| `QuickSort.MedianOfThree` | riscv_riscv-tests/benchmarks/qsort/qsort_main.c:89-94 | permutes the segment so that its first, second and last elements ascend |
| `QuickSort.Exchanged` | riscv_riscv-tests/benchmarks/qsort/qsort_main.c:103-108 | exchanging the two elements the scans stopped at puts a sentinel ahead of both scans again |
| `QuickSort.Partition` | riscv_riscv-tests/benchmarks/qsort/qsort_main.c:96-112 | the unguarded scans stay in the segment, which ends up permuted into smaller, equal and larger parts |
| `QuickSort.SegmentSplit` | riscv_riscv-tests/benchmarks/qsort/qsort_main.c:96-130 | after partitioning, everything outside the two parts is in its final place relative to the rest |
| `QuickSort.PartsSmall` | riscv_riscv-tests/benchmarks/qsort/qsort_main.c:115-130 | the part in hand is at most half as large as the whole, the part pushed no larger than the whole |
| `QuickSort.StackFits` | riscv_riscv-tests/benchmarks/qsort/qsort_main.c:23-26 | for n + 1 < 12 * 2^24 a segment long enough to be partitioned lies at depth 23 at most, so two more pointers fit in stack[50] |
| `QuickSort.Sort` | riscv_riscv-tests/benchmarks/qsort/qsort_main.c:67-132 | terminates, never overruns its stack, and leaves the array sorted with the same elements |
| `RadixSort.PassStable` | riscv_riscv-tests/benchmarks/rsort/rsort.c:43-95 | elements with the same digit come out of a pass in the order they went in |
| `RadixSort.PassPermutes` | riscv_riscv-tests/benchmarks/rsort/rsort.c:43-95 | a pass keeps the multiset of elements |
| `RadixSort.PassSorts` | riscv_riscv-tests/benchmarks/rsort/rsort.c:43-95 | a pass on the next digit of an array sorted by its low bits sorts it by eight more |
| `RadixSort.Count` | riscv_riscv-tests/benchmarks/rsort/rsort.c:43-58 | the four-way unrolled loop and its remainder count every digit |
| `RadixSort.PrefixSum` | riscv_riscv-tests/benchmarks/rsort/rsort.c:60-67 | afterwards bucket d holds where the group of digit d ends |
| `RadixSort.ScatterFour` | riscv_riscv-tests/benchmarks/rsort/rsort.c:69-87 | four slots taken before four stores do the same as four single placements, also when lanes share a bucket |
| `RadixSort.Scatter` | riscv_riscv-tests/benchmarks/rsort/rsort.c:69-89 | scratch becomes the stable sort of arr by the digit |
| `RadixSort.Sort` | riscv_riscv-tests/benchmarks/rsort/rsort.c:32-99 | arrIn ends sorted with the same elements, so nothing has to be copied back |
| `MatrixKernels.Naive` | riscv_riscv-tests/benchmarks/mm/mm.c:11-31 | the triple loop with four partial sums adds A times B to the window and writes nothing else |
| `MatrixKernels.Kloop` | riscv_riscv-tests/benchmarks/mm/rb.h:3-210 | twenty accumulators over a six-way unrolled and a remainder loop add A times B to the 4-by-5 window and write nothing else |
| `MatrixKernels.RegisterBlocked` | riscv_riscv-tests/benchmarks/mm/mm.c:33-44 | kernels plus leftover columns and rows add A times B to the whole window, for all sizes |
| `MatrixMultiply.Repack` | riscv_riscv-tests/benchmarks/mm/mm.c:46-72 | the window is copied with the new stride and nothing else is written |
| `MatrixMultiply.MultiplyTile` | riscv_riscv-tests/benchmarks/mm/mm.c:98-114 | a packed tile receives the product over the full depth, from packed tiles and from the depth left over |
| `MatrixMultiply.CacheBlocked` | riscv_riscv-tests/benchmarks/mm/mm.c:74-143 | packing, tiles, both kinds of strips and copying back together add A times B to the window and write nothing else |
| `MatrixMultiply.Multiply` | riscv_riscv-tests/benchmarks/mm/mm.c:145-152 | C plus A times B exactly, for all m, n, p and strides with ldc >= n, and nothing outside the m-by-n window changes |
| `MatrixMultiply.ProductUnique` | riscv_riscv-tests/benchmarks/mm/mm.c:11-152 | that statement fixes the whole array, so every path leaves what the triple loop leaves |
| `BlockedMatrix.AddDepth` | riscv_riscv-tests/benchmarks/mm/mm.c:100-135 | adding the product over the first p and then over the next q columns and rows is adding it over p + q |
| `Crc.ReverseTwice` | riscv_riscv-tests/debug/programs/checksum.c:6-13 | reverse is an involution |
| `Crc.ReverseBit` | riscv_riscv-tests/debug/programs/checksum.c:6-13 | bit k of the result is bit 31 - k of the argument |
| `Crc.FeedByte` | riscv_riscv-tests/debug/programs/checksum.c:27-34 | the reflected register after the inner loop is the table-driven update by one byte |
| `Crc.TableIsSteps` | riscv_riscv-tests/debug/programs/checksum.c:27-34 | the table look-up of section 8 of RFC 1952 equals eight single-bit steps of register xor byte |
| `Crc.Crc32a` | riscv_riscv-tests/debug/programs/checksum.c:20-38 | on every message the result is the CRC-32 of section 8 of RFC 1952 |
| `Crc.CheckValue` | riscv_riscv-tests/debug/programs/checksum.c:20-38 | the message of one letter a has its published CRC-32 |
| `Crc.CrcU8` | c_sim/benchmarks/coremark/coremark/core_util.c:164-188 | eight reflected 0xA001 steps of register xor byte |
| `Crc.CrcU32` | c_sim/benchmarks/coremark/coremark/core_util.c:189-207 | the stream CRC of the low and then the high half |
| `Crc.Crc8Linear` | c_sim/benchmarks/coremark/coremark/core_util.c:164-188 | crcu8 is linear over xor in byte and register together |
| `Crc.Crc8Injective` | c_sim/benchmarks/coremark/coremark/core_util.c:164-188 | for a fixed byte crcu8 is injective in the register |
| `Crc.Crc16IsSteps` | c_sim/benchmarks/coremark/coremark/core_util.c:189-195 | feeding two bytes is sixteen steps of register xor word |
| `Crc.StreamIsRemainder` | c_sim/benchmarks/coremark/coremark/core_util.c:164-207 | on every stream and from every start value the running CRC is the remainder of schoolbook division of the message, sixteen zeros appended, by x^16 + x^15 + x^2 + 1 |
| `Crc.OneWordDetected` | c_sim/benchmarks/coremark/coremark/core_util.c:164-207 | two streams that differ at most in one 16-bit word have the same CRC if and only if that word is the same |
| `Towers.HanoiWorks` | riscv_riscv-tests/benchmarks/towers/towers_main.c:140-158 | every move of the recursive solution is legal when its turn comes, and together they move the n top discs |
| `Towers.SolutionLegal` | riscv_riscv-tests/benchmarks/towers/towers_main.c:140-163 | after any number of moves from the start no larger disc lies on a smaller one; after all of them the tower is on peg C |
| `Towers.HanoiLength` | riscv_riscv-tests/benchmarks/towers/towers_main.c:140-163 | the solution has 2^n - 1 moves |
| `Towers.MovesFit` | riscv_riscv-tests/benchmarks/towers/towers_main.c:140-194 | up to 30 discs, and no further, 2^n fits an int, so neither the shift nor the move counter overflows |
| `Towers.Puzzle.constructor` | riscv_riscv-tests/benchmarks/towers/towers_main.c:199-218 | the free list strings together the whole pool and the pegs are empty |
| `Towers.Puzzle.Push` | riscv_riscv-tests/benchmarks/towers/towers_main.c:53-71 | the disc lies on top of the peg, nothing else moved, and every pool node is still on exactly one list |
| `Towers.Puzzle.Pop` | riscv_riscv-tests/benchmarks/towers/towers_main.c:73-93 | the top disc is returned and gone, nothing else moved, and every pool node is still on exactly one list |
| `Towers.Puzzle.Clear` | riscv_riscv-tests/benchmarks/towers/towers_main.c:95-138 | all nodes return to the free list and the tower stands on peg A again with no moves counted |
| `Towers.Puzzle.SolveH` | riscv_riscv-tests/benchmarks/towers/towers_main.c:140-158 | the moves made are those of the recursive solution in that order, 2^n - 1 of them, and the n discs change pegs |
| `Towers.Puzzle.Verify` | riscv_riscv-tests/benchmarks/towers/towers_main.c:165-194 | for at most 30 discs, which of the checks fails first; zero if and only if the tower 1..n stands on peg C, the other pegs are empty and 2^n - 1 moves were counted |
| `Towers.Puzzle.Benchmark` | riscv_riscv-tests/benchmarks/towers/towers_main.c:199-233 | the whole program returns 0 for every number of discs from 1 to 30 |
| `NumberScanner.StatesAreForms` | c_sim/benchmarks/coremark/coremark/core_state.c:217-330 | the machine is in each state exactly on the strings of that state's form; in INT, FLOAT and SCIENTIFIC exactly on the numbers of that grammar |
| `NumberScanner.ScanMeaning` | c_sim/benchmarks/coremark/coremark/core_state.c:217-330 | a scan advances, stops at the terminator, behind a comma or behind the first character that made its token invalid, classifies the token, and counts its state changes plus one if its first character was rejected |
| `NumberScanner.Transition` | c_sim/benchmarks/coremark/coremark/core_state.c:216-330 | the loop and switch read one token, end in its state behind it, and count each place where the machine leaves a state under that state, SCIENTIFIC and a first character that is rejected under INVALID |
| `NumberScanner.BlockCounts` | c_sim/benchmarks/coremark/coremark/core_state.c:65-95 | final counters together count the tokens, transition counters the state changes plus the tokens rejected at their first character |
| `NumberScanner.EachCounter` | c_sim/benchmarks/coremark/coremark/core_state.c:65-95 | for each state, by its position in the enumeration, the final counter is the number of tokens that end in it and the transition counter the number of places where the machine leaves it, what leaves SCIENTIFIC and tokens rejected at once counting under INVALID |
| `NumberScanner.TokensCut` | c_sim/benchmarks/coremark/coremark/core_state.c:65-71 | every NUL-terminated block is cut into tokens, and the scanning loop visits that cut |
| `NumberScanner.CutUnique` | c_sim/benchmarks/coremark/coremark/core_state.c:65-71 | a block is cut into tokens in one way only |
| `NumberScanner.Flip` | c_sim/benchmarks/coremark/coremark/core_state.c:77-103 | exactly the visited bytes other than commas are xored with the seed |
| `NumberScanner.FlippedAt` | c_sim/benchmarks/coremark/coremark/core_state.c:73-83 | the bytes at multiples of the step other than commas are xored with the seed, and no others |
| `NumberScanner.FlipTwice` | c_sim/benchmarks/coremark/coremark/core_state.c:77-104 | with equal seeds the block is restored if and only if no visited byte other than a comma becomes a comma |
| `NumberScanner.BenchState` | c_sim/benchmarks/coremark/coremark/core_state.c:46-111 | the block after both xor passes, and the CRC of the stream of all counters of both scans, each counter counting the tokens or leavings of its own state in the block and in the corrupted block |
| `NumberScanner.CounterStream` | c_sim/benchmarks/coremark/coremark/core_state.c:105-109 | the stream is, for each state, its final and then its transition counter, low half first |
| `NumberText.Number` | c_sim/benchmarks/coremark/ee_printf.c:40-116 | appends a text as Printed has it; null for a base out of range |
| `NumberText.Printed` | c_sim/benchmarks/coremark/ee_printf.c:40-116 | for every base from 2 to 36 and both digit tables: blanks, at most one sign, 0x or 0 if and only if the flag is set with base 16 or 8, digits of that base worth the number, and blanks; minus for a negative signed number, plus or a blank if asked for; and how long each part is |
| `NumberText.PrintedOnce` | c_sim/benchmarks/coremark/ee_printf.c:40-116 | only one text is of that form |
| `NumberText.RenderedLength` | c_sim/benchmarks/coremark/ee_printf.c:40-116 | the output is as long as the larger of the field width and sign, prefix and max(digits, precision) |
| `NumberText.FillTmp` | c_sim/benchmarks/coremark/ee_printf.c:77-85 | the digits, last first, fit in tmp and read backwards are the numeral |
| `NumberText.ParseVal` | c_sim/benchmarks/coremark/coremark/core_util.c:70-118 | optional minus, optional 0x, digits and an optional K or M, modulo 2^32 |
| `NumberText.ReadScaled` | c_sim/benchmarks/coremark/coremark/core_util.c:70-118 | a text of optional minus, optional 0x, digits and another character is worth the number, times 1024 if a K follows and times 1024 * 1024 if an M does, modulo 2^32 |
| `NumberText.SkipAtoi` | c_sim/benchmarks/coremark/ee_printf.c:33-38 | the value of the longest run of decimal digits, and where it ends |
| `NumberText.ReadBack` | c_sim/benchmarks/coremark/ee_printf.c:40-116 | parseval reads back what number prints in base 10, and in lower-case base 16 with its prefix, modulo 2^32, for every precision and width, unless a blank or a plus comes first |
| `NumberText.WidthReadBack` | c_sim/benchmarks/coremark/ee_printf.c:33-38 | skip_atoi's run in a decimal numeral followed by a non-digit is that numeral, with its value |

## Left out

- The allocator is modelled for `MALLOC_DIRECTION > 0`, eight-byte `size_t` and a fixed `MALLOC_LIMIT`; `valloc`, `pvalloc`, `malloc_stats` and `mallopt` add nothing to the list code.
- Words.MAlignMeaning: only for powers of two, the only alignments `memalign` lets through.
- Requests above 2^64 - 16, whose `REAL_SIZE` wraps, are excluded from the allocator's calls; by `HeapLayout.MallocExact` they are exactly those that can break the heap.
- Allocator.TinyAllocator.Memalign: what the code writes once it goes on with a wrapped sum; the method reports the wrap there and stops.
- AeMatmul.Product: elements are exact integers, cores divide lda, 8 divides lda and lda is at most 32, as the kernel assumes.
- DmMatmul.Product: elements are exact integers, cores divide lda, 4 divides lda / cores and lda is at most 32, as the kernel assumes.
- Weak memory ordering: shared accesses of the barrier, the kernels and the lock are sequentially consistent.
- SpinLock.NeverWaits: the timer interrupt handler of multicore.c and its counters are not modelled.
- CoreList.ListPool.CalcFunc: what `core_bench_state` and `core_bench_matrix` return is an arbitrary function of the number of benchmark calls so far, the operand and the CRC; the seeds and blocks they work on are not part of the results structure here.
- CoreList.ListPool.MergeSort: the list must not be empty, because the source dereferences the tail of an empty result; `core_list_init` and `core_list_insert_new` only build lists.
- CoreList.ListPool.BenchList: the list must have three nodes, because the source removes the node behind the second one.
- QuickSort.Sort: for arrays of 12 * 2^24 - 1 elements and more nothing is claimed about `stack[50]`; `selection_sort` is not used by `sort`.
- RadixSort.Sort: the copy-back after the last pass is unreachable with four passes; the two arrays must be different.
- MatrixMultiply.Multiply: rounding and `size_t` overflow in index products are not modelled; C must be a different array from A and B; the alignment of the packed buffers does not matter to the result.
- Crc.Crc32a: messages shorter than 2^31 bytes, beyond which the source's `int` index overflows.
- Towers.Puzzle.Solve: at least one disc, because the source recurses without end on none.
- Towers.Puzzle.Verify: at most 30 discs, because from 31 on the source's `1 << numDiscs` is undefined for an `int`.
- NumberScanner.BenchState: the block must be NUL-terminated before and after corruption and the step positive, or the source's loops leave the block; counters are unbounded until they are fed to the CRC.
- NumberText.ReadBack: numbers padded with leading blanks or written with a plus or an upper-case digit are not in the parser's language.
- `eaddr`, `iaddr`, `ee_vsprintf`'s format loop, and everything in floating point, including `cvt.c`.
- `simple_system.c`, `init.c`, `interrupt.c`, `core_portme.*` and semihosting: assembly, memory-mapped registers and timers.
- The other files in `mt/`: further unrollings of the same product; `cf` and `cm` add to shared sums without synchronisation, and `af` reads past the last row of B.
- `vvadd`, `median`, `multiply`, `spmv` and `core_matrix.c`: single loops or plain loop nests.
- `translate.c` and `pmp.c`: the constants they depend on come from `encoding.h`, which is not part of this model.
- The Python scripts around the debugger, `core_main.c`, Dhrystone, data sets and build files.
