# A verified model of a reentrant OCaml runtime

This project models the core of the C runtime of an OCaml system in which several
contexts, each with a heap of its own, run in one process (directory `byterun`).
It covers the memory manager, marshalling, structural comparison and hashing,
the mailboxes between contexts, function application in the bytecode interpreter
and the emulation of 64-bit integers.  Everything is proved with Dafny for all
inputs, all reachable states or all runs.

| files | source | subject |
|---|---|---|
| `Tricolor`, `MajorGc`, `MajorInv`, `MajorSafety`, `MajorMutator`, `MajorRuns`, `MajorTermination`, `MajorExact`, `MajorSlices` | `major_gc.c`, `memory.h`, `memory.c` | incremental mark and sweep with a mutator |
| `Compact` | `compact.c` | in-place compaction by pointer inversion |
| `FreeList`, `FreeListMerge`, `FreeListSteps`, `FreeListIndex`, `FreeListPick`, `FreeListExamples`, `FreeListTable`, `FreeListRuns`, `FreeListHeaps`, `FreeListOps` | `freelist.c`, `memory.c` | next-fit and first-fit allocation, merging |
| `MinorHeap`, `MinorSteps`, `MinorGc` | `minor_gc.c`, `memory.h`, `memory.c` | copying collection, reference table |
| `MarshalCodec`, `MarshalGraph`, `MarshalRoundTrip`, `MarshalMessage`, `Extern`, `Intern` | `extern.c`, `intern.c` | marshalling |
| `Comparison`, `CompareOrder`, `CompareStack`, `Hashing`, `HashQueue` | `compare.c`, `hash.c` | comparison and hashing |
| `SkipList`, `GlobRoots`, `GenerationalRoots` | `globroots.c` | global roots |
| `PageTable` | `memory.c` | the page table |
| `Mailbox` | `context_split.c`, `context.c` | message passing between contexts |
| `Interp`, `InterpStack` | `interp.c` | application, partial and surplus arguments |
| `Int64`, `Int64Div`, `Int64Text` | `int64_emul.h`, `int64_format.h`, `ints.c` | 64-bit integers on 32-bit words |
| `Mlvalues`, `Blocks` | `mlvalues.h`, `gc.h` | tags, colours, blocks and chunks |

How the parts are built:

- Code that computes a value is a function, and laws about it are lemmas.  Code that
  changes fields, arrays or tables in place is a class or a method with loops; its
  contract ties the new state to the old one, usually through a step relation or a
  specification function about which the laws are proved.
- Addresses are natural numbers that count words.  A heap is a map from the address of
  a header to a block (`Blocks`), or, for compaction, the plain sequence of words.
- 32-bit words are natural numbers below 2^32 with explicit reduction; OCaml integers
  and list lengths are unbounded where the C code cannot overflow.
- What `malloc`, `realloc` and the operating system do is nondeterministic.
- A predicate is written `P(...) == true` in a contract where the verifier is to treat
  it as one fact, not as the conjunction of its parts.

## Findings

Four properties that one would expect turn out to be false of the code.  Each has a
concrete counterexample and the exact condition under which it holds.

1. `compact_allocate_r` (compact.c:131-149) looks at the next chunk as long as the
   present one has at most four words left, without testing for the end of the chunk
   list.  When all chunks are nearly full at the allocation of a live block it reads the
   size of the NULL chunk.  `Compact.FullHeapReadsNull` gives such a heap,
   `Compact.NullChunkIff` the exact condition, and `Compact.SlackSuffices` a simple
   sufficient one (more than four words of garbage in the last chunk).
2. `caml_register_generational_global_root_r` (globroots.c:172-182) puts a root that
   holds a pointer outside the heap in no list, and
   `caml_modify_generational_global_root_r` (globroots.c:199-235) does not add it when
   such a root gets another block.  A young block may then be missed by the next minor
   collection: `GenerationalRoots.LostExample`.  A minor collection that skips a
   forwarding block of static data leaves a root in the same situation:
   `GenerationalRoots.LostAfterScan`.  `GenerationalRoots.ModifyComplete` and
   `GenerationalRoots.StepKeepsInv` have the exact condition.
3. The table of the first-fit policy does not always lead to the first block that is large
   enough.  When entries are put in the place of one that was taken, there may be no room
   for all of them (freelist.c:290-303), and `beyond` is then behind a block that should
   have an entry: `FreeListExamples.OverflowExample`.  And the search behind a full table
   (freelist.c:232-242) leaves `beyond` behind blocks that are larger than the last entry,
   which are missed once the table is no longer full: `FreeListExamples.StaleExample`.
   `FreeListPick.AllocateExact` says exactly which requests leave a table that is not
   exact, `FreeListPick.ExactIff` that all requests are met by first fit if and only if the
   table is exact, and `FreeListRuns.FirstFitWithFewBlocks` that nothing of this happens as
   long as there are at most 1000 free blocks.
4. The buffer of 1000 pointers in which the new entries are collected (freelist.c:263-280)
   can be too small: `FreeListExamples.OverrunExample`, where the table is exact and has two
   entries.  `FreeListPick.OverrunIff` has the exact condition.  What is stated about the
   list, the table and allocations under first fit holds of requests for which the buffer is
   large enough.

## Model

| member | source | states |
|---|---|---|
| `Compact.Heap.DoCompaction` | byterun/compact.c:151-348 | whenever the allocator stays off the NULL chunk, the four in-place passes put every live block, with its tag, its size and its contents, at a place inside a chunk that overlaps no other live block; every root and scanned field denotes the new place of the block that it denoted, and whatever a root or a scanned field denotes is live |
| `Compact.SlideSound` | byterun/compact.c:121-149 | every live block finds room inside a chunk, and its place overlaps neither that of another live block nor a block that is still to be moved |
| `Compact.SlidesDown` | byterun/compact.c:131-149 | the place of a live block is inside a chunk that is its own or an earlier one, and not above its present address in its own chunk |
| `Compact.PlacesDisjoint` | byterun/compact.c:131-149 | two live blocks get disjoint places |
| `Compact.NullChunkIff` | byterun/compact.c:136-141 | the allocator reads the NULL chunk if and only if, before the allocation of some live block, no chunk has more than four words left |
| `Compact.PlanExists` | byterun/compact.c:121-149 | every layout of live and dead blocks determines a sequence of allocations, so that the condition of `DoCompaction` speaks of the heap before the call |
| `Compact.SlackSuffices` | byterun/compact.c:136-141 | it never does when the last chunk has more than four words that are not live |
| `Compact.FullHeapReadsNull` | byterun/compact.c:136-141 | a well-formed heap of one chunk of two pages, all live, on which it does |
| `Compact.Heap.EncodeHeaders` | byterun/compact.c:161-183 | first pass: every header is in its encoded form, all other words are as before |
| `Compact.Heap.InvertPointerAt` | byterun/compact.c:60-112 | one more slot is threaded: the header word of the block that it denotes heads the list of all slots visited so far that denote it, and the encoded header ends that list |
| `Compact.Heap.InvertPointers` | byterun/compact.c:186-226 | second pass: all roots and all fields of scanned blocks are threaded |
| `Compact.Heap.CompactAllocate` | byterun/compact.c:131-149 | the address and the new state of the allocator are those of the first chunk with room |
| `Compact.Heap.RevertPointers` | byterun/compact.c:252-322 | third pass: all threaded slots hold the new address of their block, and headers are decoded, blue for garbage |
| `Compact.Heap.MoveBlocks` | byterun/compact.c:325-348 | fourth pass: although blocks slide over each other, every live block ends up whole at its new place |
| `Tricolor.StaysSafe` | byterun/major_gc.c:116-272 | a block that is black, gray, or reached from a gray block through white ones stays so under every change that respects the colours |
| `Tricolor.SafeWhiteNeedsGray` | byterun/major_gc.c:116-272 | such a white block exists only while some block is gray |
| `MajorSafety.MarkStepOk` | byterun/major_gc.c:116-272 | every iteration of marking keeps the invariant, also when the gray stack overflows and is pruned |
| `MajorSafety.SweepStepOk` | byterun/major_gc.c:281-328 | every iteration of sweeping keeps the invariant, whatever the block before is joined with |
| `MajorSafety.StartSweepOk` | byterun/major_gc.c:261-272 | when the stack is empty and pure and no rescan goes on, sweeping may start |
| `MajorSafety.ReachIsLive` | byterun/major_gc.c:116-328 | in every phase, reachable blocks are in use; while marking they are safe |
| `MajorSafety.MergedIsUnreachable` | byterun/major_gc.c:281-328 | what the sweeper is about to give to the free list is not reachable |
| `MajorMutator.ModifyOk` | byterun/memory.h:133-147 | storing any usable value with the write barrier keeps the invariant in every phase |
| `MajorMutator.InitializeOk` | byterun/memory.c:507-516 | so does initialising a field that holds no heap pointer, without the barrier |
| `MajorMutator.AllocShrOk` | byterun/memory.c:404-450 | so does allocation from any free block, with the colour chosen from phase and sweep position |
| `MajorMutator.ExpandHeapOk` | byterun/memory.c:259-347 | so does a new chunk anywhere in address order |
| `MajorMutator.SetRootsOk` | byterun/major_gc.c:101-114 | so does any change of the roots to usable values |
| `MajorRuns.StepKeepsInv` | byterun/major_gc.c:101-328 | every action of collector or mutator keeps the invariant |
| `MajorRuns.IncrementalSafety` | byterun/major_gc.c:101-328 | over every interleaving of collector and mutator, the invariant holds throughout and no reachable block is ever given to the free list |
| `MajorRuns.InitialInv` | byterun/major_gc.c:480-510 | the initial heap satisfies the invariant |
| `MajorRuns.NoBlackToWhite` | byterun/major_gc.c:116-272 | when sweeping starts no block is gray, black blocks denote black blocks, and all reachable blocks are black |
| `MajorRuns.CollectorProgress` | byterun/major_gc.c:101-328 | the collector always has a next step |
| `MajorRuns.SweepKeepsReachable` | byterun/major_gc.c:281-328 | sweeping keeps every reachable block, its fields included |
| `MajorRuns.StepKeepsReachable` | byterun/major_gc.c:101-328 | whatever the step, reachable blocks keep place, size and tag |
| `MajorRuns.MarkKeepsFields` | byterun/major_gc.c:136-164 | marking changes fields only by short-circuiting forwarding blocks |
| `MajorTermination.MarkStepDecreases` | byterun/major_gc.c:116-272 | every iteration of marking decreases a lexicographic measure, even when the stack is pruned and the heap has to be scanned again |
| `MajorTermination.SweepAdvances` | byterun/major_gc.c:281-328 | every iteration of sweeping moves on in the heap or ends the cycle |
| `MajorTermination.FinishMarking` | byterun/major_gc.c:439-448 | marking always comes to the sweep phase with the invariant intact |
| `MajorExact.FullCycleIsExact` | byterun/major_gc.c:439-448 | after a cycle of the collector alone the blocks in use are exactly those reachable at its start |
| `MajorSlices.Collector.ReallocGrayVals` | byterun/major_gc.c:44-69 | the stack is doubled, or half of it is dropped and it is no longer pure |
| `MajorSlices.Collector.DarkenValue` | byterun/major_gc.c:71-99 | the loop-free darkening of a value, infix pointers included, is the step of the model |
| `MajorSlices.Collector.BeginMarking` | byterun/major_gc.c:101-114 | all roots are darkened in turn and marking starts |
| `MajorSlices.Collector.MarkSlice` | byterun/major_gc.c:116-272 | for every amount of work a slice is a run of marking steps from an invariant state to an invariant state |
| `MajorSlices.BlackFirst` | byterun/major_gc.c:129-166 | blackening a block before its children are marked, as the code does, or after makes no difference |
| `MajorSlices.Collector.SweepSlice` | byterun/major_gc.c:281-328 | for every amount of work a slice is a run of sweeping steps |
| `MajorSlices.Collector.FinishMajorCycle` | byterun/major_gc.c:439-448 | from any phase the loops terminate in the idle phase by a run of the collector; from the idle phase exactly the reachable blocks are left |
| `MajorSlices.Collector.ModifyField` | byterun/memory.h:133-147 | the barrier in place is the mutator step of the model |
| `FreeListOps.FreeBlocks.AllocateBlock` | byterun/freelist.c:98-128 | the block comes from the right end of a listed one; the list, its links, the sum of its sizes and `caml_fl_merge` are right afterwards in each of the three cases |
| `FreeListOps.FreeBlocks.NextFitAllocate` | byterun/freelist.c:142-167 | the search once round finds the first block from `fl_prev` on that is large enough, and fails exactly if there is none |
| `FreeListOps.FreeBlocks.FirstFitAllocate` | byterun/freelist.c:169-307 | the block that is taken, or NULL, the table and `beyond` are those of `FreeListPick.Allocate`; list, links and sum of sizes are right; `overrun` is returned exactly when the buffer is too small, and nothing is claimed then |
| `FreeListOps.FreeBlocks.SearchTable` | byterun/freelist.c:170-180 | the first entry that is large enough, if any |
| `FreeListOps.FreeBlocks.ExtendTable` | byterun/freelist.c:181-218 | the table grows by the records behind it until one is large enough, the list ends or the table is full, and `beyond` and the last block are right in each case |
| `FreeListOps.FreeBlocks.SlowSearch` | byterun/freelist.c:220-244 | behind a full table the first block that is large enough is found; `beyond` is the last block on the way that is smaller than the last entry, and what it skips is smaller than the request, not always than the last entry |
| `FreeListOps.FreeBlocks.RebuildTable` | byterun/freelist.c:246-305 | after words were taken from the block of an inner entry the pointers in memory are those of the specified table, cut to 999 entries if it overflows; `overrun` if and only if more than 1000 entries come in its place |
| `FreeListOps.FreeBlocks.CollectRecords` | byterun/freelist.c:263-280 | the records between two entries are collected; `overrun` if and only if there are more than the buffer has room for |
| `FreeListPick.SplicedRecords` | byterun/freelist.c:262-289 | entries before the changed block, the records collected in its place and the later entries are the first records of the changed list |
| `FreeListPick.LostRecord` | byterun/freelist.c:290-303 | a table of records that overflows is not exact when it has been cut and `beyond` is at its first lost entry |
| `FreeListIndex.RecordIsFirstFit` | byterun/freelist.c:170-180 | the first entry that is large enough is the first block of the whole list that is |
| `FreeListPick.AllocateKeeps` | byterun/freelist.c:169-307 | for every list, table and request the entries stay listed blocks in order, at most 1000, with `beyond` not before the last; the block taken is large enough |
| `FreeListPick.AllocateIsFirst` | byterun/freelist.c:169-307 | when the table is exact the block is the first of the list that is large enough, and NULL means that there is none |
| `FreeListPick.AllocateExact` | byterun/freelist.c:169-307 | an exact table is exact after the request if and only if the entry taken is the last or none, or its new entries have room and the table is full then, or was not full, or `beyond` was right |
| `FreeListPick.ExactIff` | byterun/freelist.c:169-307 | a table of records is exact if and only if every request would be met by first fit |
| `FreeListPick.OverrunIff` | byterun/freelist.c:263-280 | the buffer is too small if and only if an entry but the last is taken and more than 1000 entries come in its place |
| `FreeListPick.FewBlocksExact` | byterun/freelist.c:169-307 | with at most 1000 free blocks an exact table stays exact and the buffer is large enough |
| `FreeListPick.GrownReady` | byterun/memory.c:404-450 | after a failed request and an extension the request succeeds, by first fit and with an exact table afterwards if the table was exact |
| `FreeListExamples.OverflowExample` | byterun/freelist.c:290-303 | from an empty table on, three requests that overflow the table and take a block of 1038 words though one of 1037 comes first |
| `FreeListExamples.StaleExample` | byterun/freelist.c:232-242 | from an empty table on, three requests, the last of which fails although there is a block of its size, without an overflow |
| `FreeListExamples.OverrunExample` | byterun/freelist.c:263-280 | from an empty table on, two requests, the second of which collects 1001 entries |
| `FreeListHeaps.StateWithSizes` | byterun/freelist.c:319-326 | every list of positive sizes is that of the free blocks of a tiled heap with an empty table, in which all invariants hold; so the lists of the examples occur |
| `FreeListOps.FreeBlocks.TruncateTable` | byterun/freelist.c:328-337 | exactly the entries before the changed block stay, and `beyond` if it is before it |
| `FreeListOps.FreeBlocks.MergeBlock` | byterun/freelist.c:360-434 | a dead block is joined with the fragment before it, the free block before it and the free block after it, or becomes a fragment; list, sizes and the sweeper's next block are right |
| `FreeListMerge.MergedLists` | byterun/freelist.c:360-434 | after a merge the list holds exactly the free blocks |
| `FreeListMerge.MergedTotal` | byterun/freelist.c:360-434 | the sum of the sizes grows by exactly the words gained |
| `FreeList.SplitTotal` | byterun/freelist.c:98-128 | an allocation lowers the sum by the words handed out, or by the whole block when it is detached |
| `FreeList.SplitLists` | byterun/freelist.c:98-128 | after an allocation the list holds exactly the free blocks |
| `FreeListOps.FreeBlocks.AddNextFit` | byterun/freelist.c:447-482 | a chunk of one free block goes to its place in the list, at the end or inside |
| `FreeListOps.FreeBlocks.AddFirstFit` | byterun/freelist.c:447-482 | the same with the table: an entry for a block at the end if there is room, and otherwise a cut where the block is |
| `FreeListOps.FreeBlocks.InitMerge` | byterun/freelist.c:319-326 | a sweep starts with the list head as merge point and no fragment |
| `FreeListOps.FreeBlocks.AllocShr` | byterun/memory.c:404-450 | first fit: a step that takes a block, or one that fails, extends the heap and then takes a block; unless the buffer is too small, which is returned exactly then |
| `FreeListOps.FreeBlocks.AllocShrNextFit` | byterun/memory.c:404-450 | next fit: the heap is extended exactly when no listed block is large enough |
| `FreeListOps.FreeBlocks.SweepFirstFit` | byterun/major_gc.c:281-328 | one step of the sweeper, whatever the colour of the block, with the cut of the table |
| `FreeListOps.FreeBlocks.SweepNextFit` | byterun/major_gc.c:281-328 | the same under next fit, and `fl_prev` stays on the list |
| `FreeListSteps.MergePlace` | byterun/freelist.c:371-376 | the assertions at the start of the merge: `caml_fl_merge` is the last listed block before the dead one |
| `FreeListSteps.HandedOut` | byterun/freelist.c:98-128 | the words handed out were free and are in no other block |
| `FreeListSteps.StepKeeps` | byterun/freelist.c:134-482 | every allocation, extension, merge and sweeper step keeps the invariant: chunks tiled by blocks, list sorted and equal to the free blocks, `caml_fl_cur_size` equal to the sum of their sizes, merge point right |
| `FreeListSteps.RunSafe` | byterun/freelist.c:134-482 | in every interleaving of allocations, extensions and sweeping, merges happen at the right place and no word is handed out twice |
| `FreeListRuns.MoveKeeps` | byterun/freelist.c:134-482 | every step of the first-fit policy keeps list, sizes, table and `beyond` right, also when the table is not exact |
| `FreeListRuns.RunTables` | byterun/freelist.c:134-482 | so they are in every state of every run |
| `FreeListRuns.MoveExact` | byterun/freelist.c:134-482 | an exact table is exact after a step if and only if a condition on the state before the step holds, which can fail only when a block is taken |
| `FreeListRuns.FirstFitInRuns` | byterun/freelist.c:169-307 | in every run in which each step so far met the condition of `MoveExact`, an allocation takes the free block of lowest address that is large enough, and the heap is extended only when there is none |
| `FreeListRuns.FirstFitWithFewBlocks` | byterun/freelist.c:169-307 | in particular in every run with at most 1000 free blocks at a time, in which the buffer is always large enough |
| `MinorGc.Collector.OldifyOne` | byterun/minor_gc.c:107-194 | the place is filled with the image of the value, copying the block if need be; loops over one-field blocks and forwarding blocks terminate |
| `MinorGc.Collector.OldifyMopup` | byterun/minor_gc.c:200-224 | the list threaded through the copies is worked off until it is empty |
| `MinorGc.Collector.EmptyMinorHeap` | byterun/minor_gc.c:229-269 | there is an injective map of exactly the reachable young blocks to new blocks of equal header such that roots, major fields and copied fields are the images of what they were, forwarding blocks skipped when allowed; there are no other new blocks, nothing is young, and what the next collection relies on holds |
| `MinorGc.KeepsNow` | byterun/minor_gc.c:157-173 | the test whether a forwarding block must stay has the same result on the half-collected heap as before the collection |
| `MinorHeap.NoYoungPointers` | byterun/minor_gc.c:229-269 | after a collection no root and no scanned field denotes a young block |
| `MinorHeap.CopiedIffReached` | byterun/minor_gc.c:229-269 | a young block is copied if and only if it is reached from a root or a field of the major heap through young blocks, past forwarding blocks |
| `MinorHeap.SourceInTable` | byterun/memory.h:133-147 | the fields of the major heap from which this starts are in the reference table |
| `MinorGc.Collector.Modify` | byterun/memory.h:133-147 | the field goes into the reference table exactly when the test of the barrier says so, which keeps the table complete and valid, and the heap well formed |
| `MinorGc.Collector.Initialize` | byterun/memory.c:507-516 | so does initialisation, with its own test |
| `MinorSteps.StoreReady` | byterun/memory.h:133-147 | the tests of both barriers are enough: every young pointer in the major heap stays in the table, also when the field held a young pointer before |
| `MinorSteps.CollectionReady` | byterun/minor_gc.c:229-269 | the heap after a collection is well formed, with an empty table |
| `MinorSteps.AllocationReady` | byterun/memory.h:106-120 | allocation of a young block, or of a major one without young pointers, keeps everything a collection relies on |
| `MinorSteps.NeverDangles` | byterun/minor_gc.c:229-269 | in every run of allocations, stores through either barrier, root changes and collections, no root or scanned field ever dangles, and a major field with a young pointer is always in the table |
| `MarshalCodec.TokenRoundTrip` | byterun/extern.c:334-551 | every code of the format is read back as it was written, whatever follows it |
| `MarshalGraph.StringPayload` | byterun/alloc.c:78-94 | a stored string has the length and the bytes of the string, for every length |
| `MarshalRoundTrip.TokensRoundTrip` | byterun/intern.c:236-485 | what is rebuilt from the tokens of any value is isomorphic to it, sharing and cycles included, and takes the number of words that was counted |
| `MarshalRoundTrip.NumbersAreFresh` | byterun/intern.c:262-274 | after any stream of tokens every rebuilt object has a number of its own |
| `MarshalMessage.RoundTrip` | byterun/intern.c:640-700 | reading the message of a value, header included, gives an isomorphic graph that fills the allocated space exactly |
| `MarshalMessage.MessageIsReachable` | byterun/extern.c:334-551 | the objects of a message are exactly those reachable from the value |
| `MarshalMessage.RefusalIsReachable` | byterun/extern.c:334-551 | a value whose pointers stay in the heap is refused only if an abstract or custom block is reachable from it |
| `Extern.Marshaller.RecordLocation` | byterun/extern.c:136-161 | the object is marked with its number and what that destroys is in the trail |
| `Extern.Marshaller.ReplayTrail` | byterun/extern.c:107-134 | the heap is restored exactly, whichever objects were marked |
| `Extern.Marshaller.WriteBytes` | byterun/extern.c:269-274 | the bytes are appended, in a new block if need be; the caller's own buffer never overflows |
| `Extern.Marshaller.ExternRec` | byterun/extern.c:334-551 | the explicit-stack traversal writes the tokens of the value in order, or fails with the heap as it was |
| `Extern.Marshaller.ExternValue` | byterun/extern.c:553-603 | on success the output is the message of the value; `Invalid_argument` means that it has none, and failure that it is too big or longer than the caller's buffer; the heap is unchanged in every case |
| `Intern.Unmarshaller.InternRec` | byterun/intern.c:236-485 | the explicit-stack reader rebuilds what the recursive one does from the same bytes, and reports ill-formed input only for bytes that it cannot read |
| `Intern.Unmarshaller.InputFromBlock` | byterun/intern.c:640-700 | the header is checked and the result is the specified one |
| `CompareStack.Examine` | byterun/compare.c:89-247 | one pair of values is settled, replaced by a pair of equal comparison, or replaced by its fields |
| `CompareStack.Comparator.CompareVal` | byterun/compare.c:82-255 | the loop over an explicit stack gives the recursive comparison; out of memory is raised only for a value nested at least 256 deep |
| `CompareStack.Comparator.CompareValues` | byterun/compare.c:257-268 | the sign of the total comparison |
| `CompareStack.Comparator.Test` | byterun/compare.c:270-316 | each of the six operators is its test of the partial comparison |
| `CompareOrder.CompareIsTree` | byterun/compare.c:82-255 | comparison of heap data depends only on the trees that they stand for, not on sharing or forwarding blocks |
| `CompareOrder.Antisymmetric` | byterun/compare.c:71-81 | comparison the other way round gives the opposite number |
| `CompareOrder.Transitive` | byterun/compare.c:71-81 | less or equal is transitive, strictly if one part is strict |
| `CompareOrder.ZeroIsSame` | byterun/compare.c:71-81 | zero means the same data, NaNs being equal to each other |
| `CompareOrder.EqualMeans` | byterun/compare.c:270-276 | `=` holds of the same data without a NaN, and of nothing else |
| `CompareOrder.NeverUnordered` | byterun/compare.c:71-81 | no difference that the code forms overflows or is taken for the code of unordered |
| `CompareOrder.Operators` | byterun/compare.c:270-316 | the operators mirror each other, agree with the total order where values are ordered, and only `<>` holds where they are not |
| `CompareOrder.TotalOrder` | byterun/compare.c:257-268 | `compare` on heap data is a total order whose zero is sameness of data |
| `Hashing.HalvesAgree` | byterun/hash.c:97-123 | after normalisation exactly the doubles that compare equal have the same two halves |
| `Hashing.FoldSmall` | byterun/hash.c:62-80 | an integer that fits in 32 bits is hashed as on a 32-bit machine |
| `Hashing.EqualHashes` | byterun/hash.c:190-278 | data that compares equal, by either comparison, has equal hashes for all limits and seeds |
| `HashQueue.HashString` | byterun/hash.c:153-183 | the loop over words and the switch over the tail mix the specified words and the length |
| `HashQueue.HashValue` | byterun/hash.c:190-278 | the traversal with a bounded queue in an array computes the specified hash of the tree |
| `SkipList.RandomLevel` | byterun/globroots.c:36-50 | the level is the number of pairs of ones that the new seed starts with, and below 17 for every seed |
| `SkipList.ChainInsert` | byterun/globroots.c:85-88 | linking a node in keeps a level chained and sorted, and other levels as they were |
| `SkipList.ChainRemove` | byterun/globroots.c:93-125 | so does linking it out |
| `GlobRoots.RootList.FindPlaces` | byterun/globroots.c:54-72 | the search finds the place of a root at every level |
| `GlobRoots.RootList.Insert` | byterun/globroots.c:54-89 | the set of roots grows by the root, which may be there, and all levels are right |
| `GlobRoots.RootList.Delete` | byterun/globroots.c:93-125 | the root is removed, if it is there, and the level of the list is lowered |
| `GlobRoots.RootList.Iterate` | byterun/globroots.c:129-137 | every root is visited once, in order |
| `GlobRoots.RootList.Empty` | byterun/globroots.c:141-153 | no root is left |
| `GenerationalRoots.RegisterComplete` | byterun/globroots.c:172-182 | registration keeps every young root in the young list and every major root in one of the lists |
| `GenerationalRoots.ModifyComplete` | byterun/globroots.c:199-235 | a change of value keeps that, unless the root held a pointer outside the heap and is not on a list that its new value calls for; then, and only then, it does not |
| `GenerationalRoots.LostExample` | byterun/globroots.c:172-235 | a root for which it fails |
| `GenerationalRoots.LostAfterScan` | byterun/globroots.c:199-266 | another one, after a collection that has skipped a forwarding block |
| `GenerationalRoots.ScanComplete` | byterun/globroots.c:251-266 | after a minor collection no registered root is young and the lists are complete, whatever the young values have become |
| `GenerationalRoots.StepKeepsInv` | byterun/globroots.c:172-266 | every action keeps the lists complete if and only if it does not lose a root |
| `GenerationalRoots.AlwaysComplete` | byterun/globroots.c:172-266 | over every run in which no change of a root met the condition for getting lost, no young root is ever missed |
| `GenerationalRoots.InsideComplete` | byterun/globroots.c:172-266 | in particular when no registered root has held a pointer outside both heaps |
| `GenerationalRoots.Roots.RegisterRoot` | byterun/globroots.c:172-182 | the two skip lists change as in the model |
| `GenerationalRoots.Roots.ModifyRoot` | byterun/globroots.c:199-235 | the two skip lists change as in the model, in all cases |
| `GenerationalRoots.Roots.ScanYoungRoots` | byterun/globroots.c:251-266 | exactly the young list is scanned, once each, and moved to the other list, whatever the young values become |
| `PageTable.Table.constructor` | byterun/memory.c:87-105 | an empty table whose size is a power of two, at least twice the number of pages |
| `PageTable.Table.Lookup` | byterun/memory.c:71-85 | the open-addressing search, which always ends, gives the flags of the page, none if it is not there |
| `PageTable.NotThere` | byterun/memory.c:71-85 | a probe that comes to an empty slot has shown that the page is not in the table |
| `PageTable.Table.Resize` | byterun/memory.c:107-139 | a table of twice the size represents the same map, or nothing has changed |
| `PageTable.Table.Modify` | byterun/memory.c:141-166 | flags of one page are cleared and set and all others kept, whatever collides; nothing changes when the table cannot grow |
| `PageTable.Table.AddRange` | byterun/memory.c:197-206 | exactly the pages of the range get the flags |
| `PageTable.Table.RemoveRange` | byterun/memory.c:208-217 | exactly the pages of the range lose them |
| `Mailbox.StepKeepsInv` | byterun/context_split.c:804-904 | every step of every sender and receiver keeps the invariant |
| `Mailbox.MutualExclusion` | byterun/context_split.c:804-904 | at most one thread is in a critical section |
| `Mailbox.ReceiverFindsMessage` | byterun/context_split.c:882-886 | the assertion of the receiver: there is a message once it has the mutex |
| `Mailbox.FirstInFirstOut` | byterun/context_split.c:804-904 | in every run, what was received is a prefix of what was sent, and the queue holds the rest |
| `Mailbox.HistoryGrows` | byterun/context_split.c:804-904 | sent and received messages stay so |
| `Mailbox.ReceivesNext` | byterun/context_split.c:856-904 | a receive returns the first message that has not been received |
| `Mailbox.StepsUnlessWaiting` | byterun/context.c:138-154 | a thread is stuck only when it waits for the mutex or for a message |
| `Mailbox.NoLostWakeup` | byterun/context_split.c:804-904 | when no thread can step, all wait and every message sent has been received |
| `Mailbox.Queue.Enqueue` | byterun/context_split.c:826-841 | the array of messages, doubled when it is full, has the message at its end |
| `Mailbox.Queue.Dequeue` | byterun/context_split.c:882-895 | the first message is taken and the others move up |
| `Interp.GrabTooFew` | byterun/interp.c:539-557 | with too few arguments a closure is built that holds function and arguments, and the caller gets it |
| `Interp.GrabEnough` | byterun/interp.c:539-557 | with enough arguments the body starts |
| `Interp.RestartApplies` | byterun/interp.c:529-537 | applying a partial application is applying the function to all arguments in order |
| `Interp.Currying` | byterun/interp.c:529-557 | any sequence of partial applications leads to the body, or the next closure, with all arguments in order |
| `Interp.OneApplication` | byterun/interp.c:529-557 | the body starts with the same code pointer, environment, stack and surplus as under one application to all arguments |
| `Interp.ShortApplies` | byterun/interp.c:423-464 | the instructions for one, two and three arguments build the frame under them |
| `Interp.LongApplies` | byterun/interp.c:409-422 | so do pushing the return address and the general instruction |
| `Interp.TailApplies` | byterun/interp.c:466-512 | a tail call applies its callee to its arguments and then to the surplus ones of its caller |
| `Interp.ReturnApplies` | byterun/interp.c:514-527 | a return goes back to the caller or applies the result to the surplus arguments |
| `Interp.SurplusArguments` | byterun/interp.c:514-557 | in a chain of functions of any length, each returned by the one before, every one gets its own arguments in order, and the result of the last goes to the caller of the first |
| `InterpStack.Machine.ApplyInPlace` | byterun/interp.c:423-464 | on the array that holds the stack the effect is that of the model |
| `InterpStack.Machine.AppTerm` | byterun/interp.c:466-512 | the arguments slide over the locals in place, though source and target may overlap |
| `InterpStack.Machine.ReturnInPlace` | byterun/interp.c:514-527 | on the array the effect is that of the model |
| `InterpStack.Machine.RestartInPlace` | byterun/interp.c:529-537 | on the array the effect is that of the model |
| `InterpStack.Machine.GrabInPlace` | byterun/interp.c:539-557 | on the array the effect is that of the model |
| `Int64.UCompareExact` | byterun/int64_emul.h:32-40 | comparison of halves is comparison of unsigned numbers |
| `Int64.CompareExact` | byterun/int64_emul.h:44-52 | comparison of halves is comparison of signed numbers |
| `Int64.NegExact` | byterun/int64_emul.h:54-62 | negation modulo 2^64 |
| `Int64.AddExact` | byterun/int64_emul.h:64-72 | addition modulo 2^64, carry included |
| `Int64.SubExact` | byterun/int64_emul.h:74-82 | subtraction modulo 2^64, borrow included |
| `Int64.MulExact` | byterun/int64_emul.h:84-98 | the four partial products make multiplication modulo 2^64 |
| `Int64Div.UDivMod` | byterun/int64_emul.h:181-205 | shift-and-subtract division gives quotient and remainder, and both loops end |
| `Int64Div.Div` | byterun/int64_emul.h:207-218 | the signed quotient rounded towards zero; the least integer divided by -1 is itself |
| `Int64Div.Mod` | byterun/int64_emul.h:220-231 | the remainder with the sign of the dividend |
| `Int64Div.QuotientExact` | byterun/int64_emul.h:207-231 | quotient and remainder satisfy the division law |
| `Int64Text.Convert` | byterun/int64_format.h:70-78 | the digits of the number, which fit in the buffer for every base |
| `Int64Text.Format` | byterun/int64_format.h:22-104 | the specified text: sign, prefix, padding and digits |
| `Int64Text.AddDigit` | byterun/ints.c:634-638 | the two tests for overflow are exact |
| `Int64Text.ReadInt64` | byterun/ints.c:615-649 | the number that the text denotes, or failure exactly for malformed text and numbers out of range |
| `Int64Text.DecimalRoundTrip` | byterun/ints.c:615-649 | what is printed in decimal is read back, for all 2^64 integers |
| `Int64Text.HexadecimalRoundTrip` | byterun/ints.c:615-649 | so is what is printed in hexadecimal with its prefix |

## Left out

- Major collector: weak arrays, finalisers, ephemeral phases of weak pointers (`Subphase_weak1`, `Subphase_weak2`, `Subphase_final` only change the subphase), the pacing of slices from allocation rates.
- Compact.Heap.InvertPointerAt: infix pointers, which the code threads through the infix headers of a closure.
- `Compact`: weak pointers, infix pointers and closures with several entry points, finalisers, the rebuilding of the free list and the shrinking of the heap after the move.
- FreeListOps.FreeBlocks.AddNextFit: chunks that are split into several free blocks because they exceed the largest block size.
- FreeListOps.FreeBlocks.AddFirstFit: the same.
- FreeListOps.FreeBlocks.AllocShr: sizes above `Max_wosize` and a failing `expand_heap_r`, which only raise exceptions.
- FreeListOps.FreeBlocks.FirstFitAllocate: what memory looks like after the buffer for new entries was too small (see Findings).
- FreeListOps.FreeBlocks.RebuildTable: the same.
- Minor collector: growth of the reference table, custom blocks and their table of finalisers, the arithmetic on `caml_young_ptr`.
- MinorSteps.AllocationReady: the fields of a new block of the major heap hold no young pointer until they are initialised.
- Marshalling: closures and code pointers, custom blocks, infix pointers, forwarding blocks that are not followed, the flags `No_sharing` and `Closures`, floats of the other byte order, channels.
- Intern.Unmarshaller.InputFromBlock: a message that ends early is ill-formed here, where the code reads on; blocks shorter than a header are excluded.
- Extern.Marshaller.ExternValue: when memory runs out is not determined.
- Comparison: custom, abstract and closure blocks other than that they raise, cyclic data, on which the code may not terminate.
- CompareStack.Comparator.CompareVal: terminates on data whose pointers go to blocks of lower rank, that is, on acyclic data.
- HashQueue.HashValue: custom, abstract and closure blocks and pointers outside the heap.
- Hashing.EqualHashes: the same.
- `GenerationalRoots`: removal of generational roots.
- PageTable.Table.constructor: a table for less than one page.
- PageTable.Table.Modify: page 0, which the code takes for an empty slot.
- `PageTable`: the two-level table of 32-bit systems.
- Mailboxes: destruction, blobs being serialised and freed, overflow of the number of messages.
- Interpreter: growth of the stack, exceptions, signals, the instructions that do not apply functions.
- `Int64`: shifts by more than one position, bitwise operations and conversions to and from floats.
- Contexts: creation, splitting, joining and destruction of contexts, global locks and thread support.
