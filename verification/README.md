# BottlerOS: verified models

Dafny models of the state-changing core of BottlerOS, a small x86-64 kernel, with proofs about every
input, run or reachable state.

- **Buddy heap** (`Bits`, `BuddyTree`, `BuddySteps`, `BuddyAllocator`, `BuddyTheorems`): the tag array of
  `memManagerBuddy.c`, updated in place, refines a set of disjoint blocks. Tree height and heap address
  are parameters.
- **FreeRTOS heap_4** (`FrtLayout`, `FrtHeap`, `FrtTheorems`): block headers linked through memory in
  `memManagerFRT4.c` tile the heap; the free list is determined by the live blocks.
- **Scheduler and semaphores** (`Rotation`, `Sched`, `SchedWalk`, `Scheduler`, `SchedInvariants`,
  `SchedEffects`, `Kernel`, `KernelTheorems`, `KernelEffects`, `SemKernel`, `BoundedWait`): `Sched` specifies the operations on values, class
  `Scheduler` refines them on a linked list, `Kernel` is one step machine for scheduler and semaphores,
  class `Semaphores` refines its steps on linked waiter nodes. System calls enter through an interrupt gate, so a
  kernel path is one step up to its `forceTimer`, and what follows is the step `Resume`.
- **Protocols on the semaphores** (`Counting`, `Pipe`, `Philosophers`,
  `PhilosopherRuns`, `TestSync`): the pipe, the dining
  philosophers and the synchronised counter, for any number of processes and any interleaving. Their
  semaphores are the abstract counters that `KernelTheorems.StepIsCounterStep` and
  `KernelTheorems.TakenAtMostPosted` justify.
- **BMFS** (`Bmfs`, `BmfsDisk`, `BmfsTheorems`): the directory of the BareMetal file system, its extent
  allocation, `findfile` and `delete`.

Environment assumptions of the kernel machine (`Kernel.Enabled`): idle makes no system calls and is never
the target of one; processes queued on a semaphore are not killed or unblocked from outside; a DEAD
process is not killed again; there are no sleepers.

Three promises do not hold of the code as it is, and are stated with the exact condition under which they
do: the order of bytes in a pipe whose writers get more than a buffer ahead (`Pipe.NoneLappedIff`, `Pipe.FifoIff`,
`Pipe.FifoIffRoomy`, `Pipe.OverrunLosesBytes`), the wake-up guarantee when a philosopher is added
(`PhilosopherRuns.NextNoticedIff`, `Philosophers.AddNoticedIff`, `PhilosopherRuns.AddCanStrand`), and the safety of BMFS `create` with
deleted records or a full directory (`BmfsTheorems.LayoutKeptIff`, `BmfsTheorems.OthersKeptIff`,
`BmfsTheorems.StaleEndOverlaps`, `BmfsTheorems.FullDirectoryForgets`). The BMFS document promises that
free blocks follow from the files in use and that deleted records are ignored
(`Bootloader/BMFS/BareMetal File System.md`, lines 18-20 and 52); the scan in `create` reads them.

`dafny verify dfyconfig.toml` checks the whole project.

## Model

| member | source | states |
|---|---|---|
| `Bits.IsPowerOfTwoExact` | Kernel/utils/memManagerBuddy.c:35-37 | the mask test accepts exactly 0 and the powers of two |
| `Bits.NextPow2IsLeast` | Kernel/utils/memManagerBuddy.c:39-48 | on every 32-bit word: the least power of two that is not smaller from 1 to 2^31, and 0 for 0 and for every larger word |
| `BuddyAllocator.RequestIsLeast` | Kernel/utils/memManagerBuddy.c:70-80 | the page count searched for is the least power of two that holds the bytes asked for, one page for 0 and for small negative sizes |
| `BuddyAllocator.ZeroPagesIff` | Kernel/utils/memManagerBuddy.c:70-80 | over all ints, the count is 0 if and only if the size is -4096 or at most -8192 |
| `BuddyTree.StartFormula` | Kernel/utils/memManagerBuddy.c:52-54 | the closed form for a node's first page agrees with the tree walk from the root, for any tree height |
| `BuddyTree.InArrayIffDepth` | Kernel/utils/memManagerBuddy.c:81-131 | an index is inside the tag array exactly when its level is inside the tree, so every walk stays in bounds |
| `BuddyTree.BlocksDisjoint` | Kernel/utils/memManagerBuddy.c:56-146 | the blocks a tree stands for never overlap and lie inside the heap |
| `BuddyAllocator.Buddy.constructor` | Kernel/utils/memManagerBuddy.c:29-33 | an initialised heap is consistent and has nothing allocated |
| `BuddyAllocator.Buddy.IndexOffset` | Kernel/utils/memManagerBuddy.c:52-54 | the address computed is that of the node's first page |
| `BuddyAllocator.Buddy.MarkParent` | Kernel/utils/memManagerBuddy.c:56-66 | FULL is propagated exactly as far as it must be: the tree is consistent again and holds the same blocks |
| `BuddySteps.MarkUp` | Kernel/utils/memManagerBuddy.c:57-61 | one round of the upward FULL marking moves the only pending inconsistency to the parent |
| `BuddyAllocator.Buddy.NextSubtree` | Kernel/utils/memManagerBuddy.c:113-128 | the walk moves to the live node that starts where the abandoned one ended, with level and length still matching, or the heap ends there |
| `BuddyAllocator.RuleOut` | Kernel/utils/memManagerBuddy.c:89-112 | a node passed over holds no aligned free run of the requested length |
| `BuddyAllocator.Buddy.PassOver` | Kernel/utils/memManagerBuddy.c:112-129 | passing a node over extends the region known to hold no fitting run; at the end of the heap there is none at all |
| `BuddyAllocator.Buddy.Descend` | Kernel/utils/memManagerBuddy.c:98-109 | splitting an unused node on the way down changes no block |
| `BuddyAllocator.Buddy.Take` | Kernel/utils/memManagerBuddy.c:92-95 | the node served was free and becomes exactly one new block |
| `BuddyAllocator.Buddy.AllocPages` | Kernel/utils/memManagerBuddy.c:81-131 | the non-recursive search terminates and returns the lowest aligned run of free pages, or nothing, with the tags untouched, exactly when no such run exists |
| `BuddyAllocator.Buddy.Alloc` | Kernel/utils/memManagerBuddy.c:68-132 | buddy_alloc refines "take the lowest aligned free run of the least sufficient power of two of pages", for every int size that asks for at least one page |
| `BuddySteps.CombineUp` | Kernel/utils/memManagerBuddy.c:135-145 | coalescing upward keeps the freed block the only one below the current node |
| `BuddySteps.ClearNode` | Kernel/utils/memManagerBuddy.c:137-138 | clearing the coalesced node removes just the freed block |
| `BuddyAllocator.Buddy.Release` | Kernel/utils/memManagerBuddy.c:139-142 | FULL ancestors become SPLIT again exactly as far as needed |
| `BuddyAllocator.Buddy.Combine` | Kernel/utils/memManagerBuddy.c:134-146 | coalescing removes one block and restores consistency |
| `BuddyAllocator.Buddy.Free` | Kernel/utils/memManagerBuddy.c:148-183 | succeeds if and only if an allocated block starts at the pointer's page, for any pointer, and then removes just that block; otherwise nothing changes |
| `BuddyAllocator.DumpExact` | Kernel/utils/memManagerBuddy.c:189-207 | under any live node the dump adds the node's whole span as size and its allocated pages as used |
| `BuddyAllocator.Buddy.Totals` | Kernel/utils/memManagerBuddy.c:189-211 | the dump's total is always the whole heap and its used part every allocated page |
| `BuddyTheorems.UsedIsSumOfBlocks` | Kernel/utils/memManagerBuddy.c:189-207 | the pages counted as used are the sum of the lengths of the live blocks |
| `BuddyTheorems.CanonicalTags` | Kernel/utils/memManagerBuddy.c:56-146 | each live node's tag is determined by the allocated blocks: UNUSED, USED, FULL and SPLIT each hold if and only if its condition on the pages does |
| `BuddyTheorems.SameBlocksSameTags` | Kernel/utils/memManagerBuddy.c:56-146 | two consistent trees with the same blocks have the same live nodes and tags, whatever their history |
| `BuddyTheorems.EmptyMeansUnused` | Kernel/utils/memManagerBuddy.c:134-146 | with nothing allocated the root is UNUSED |
| `BuddyTheorems.Serve` | Kernel/utils/memManagerBuddy.c:68-183 | one call on the tag array is one step of the specification on sets of blocks |
| `BuddyTheorems.ServeAll` | Kernel/utils/memManagerBuddy.c:68-183 | any sequence of calls on a fresh heap leaves exactly the specified blocks, pairwise disjoint |
| `BuddyTheorems.FreeUndoesAlloc` | Kernel/utils/memManagerBuddy.c:68-183 | freeing the block just allocated gives back the same set of blocks |
| `BuddyTheorems.FreeAllInAnyOrder` | Kernel/utils/memManagerBuddy.c:134-183 | freeing blocks in any order, repetitions included, leaves exactly those never named |
| `BuddyTheorems.ServedConcat` | Kernel/utils/memManagerBuddy.c:68-183 | serving one sequence of calls after another is serving both together |
| `BuddyTheorems.ServeThenFreeAll` | Kernel/utils/memManagerBuddy.c:68-183 | after any calls on a fresh heap, freeing every block still allocated in any order leaves the tag array with its root UNUSED |
| `FrtHeap.RoundedExact` | Kernel/utils/memManagerFRT4.c:49-61 | adding the header and aligning never wraps and pads by fewer than 8 bytes |
| `FrtLayout.ChunkAtMostSum` | Kernel/utils/memManagerFRT4.c:63-63 | no request that some chunk can hold exceeds the total of free bytes |
| `FrtHeap.Heap.ChunksWithinTotal` | Kernel/utils/memManagerFRT4.c:63-63 | so the pre-check on the total never changes the answer |
| `FrtLayout.TakeTiles` | Kernel/utils/memManagerFRT4.c:82-100 | cutting a block from a free chunk keeps the heap exactly tiled |
| `FrtLayout.ReleaseTiles` | Kernel/utils/memManagerFRT4.c:221-262 | inserting a freed block with two-sided merging keeps the heap exactly tiled, sorted, with no two free chunks touching |
| `FrtLayout.TakeSum` | Kernel/utils/memManagerFRT4.c:102-102 | free bytes drop by exactly the block taken |
| `FrtLayout.MergedSum` | Kernel/utils/memManagerFRT4.c:146-147 | merging conserves free bytes |
| `FrtLayout.FreeListDetermined` | Kernel/utils/memManagerFRT4.c:123-152 | the live blocks alone determine the free list (history independence) |
| `FrtLayout.EmptyHeapIsOneChunk` | Kernel/utils/memManagerFRT4.c:221-262 | with no live block the free list is the single initial chunk |
| `FrtLayout.FreeUndoesMalloc` | Kernel/utils/memManagerFRT4.c:35-152 | malloc followed by free restores the free list exactly |
| `FrtHeap.Heap.constructor` | Kernel/utils/memManagerFRT4.c:174-217 | before the first allocation the heap is consistent and nothing is live |
| `FrtHeap.Heap.AlignedBounds` | Kernel/utils/memManagerFRT4.c:178-200 | the heap starts at the least multiple of 8 not below ucHeap, and the end marker is at the highest multiple of 8 that leaves room for its header |
| `FrtHeap.Heap.HeapInit` | Kernel/utils/memManagerFRT4.c:174-217 | initialisation leaves one aligned chunk up to the end marker, starts the counters and the minimum from its size, and writes only three headers |
| `FrtHeap.Heap.InsertBlock` | Kernel/utils/memManagerFRT4.c:221-262 | the walk finds the insertion point and the headers then spell out the merged free list |
| `FrtHeap.Heap.LinkIn` | Kernel/utils/memManagerFRT4.c:234-261 | the pointer surgery is right in all four merging cases |
| `FrtHeap.Splice` | Kernel/utils/memManagerFRT4.c:234-261 | rewriting two headers replaces a stretch of the linked list and nothing else |
| `FrtHeap.Heap.FindFit` | Kernel/utils/memManagerFRT4.c:66-75 | the walk stops at the lowest chunk that fits, or at the end marker exactly when none does |
| `FrtHeap.Heap.Unlink` | Kernel/utils/memManagerFRT4.c:82-82 | the chosen chunk leaves the list and no other header changes |
| `FrtHeap.Heap.SplitOff` | Kernel/utils/memManagerFRT4.c:86-99 | the remainder takes the chunk's place in the list |
| `FrtHeap.RemainderStays` | Kernel/utils/memManagerFRT4.c:91-99 | the remainder never merges with a neighbour |
| `FrtHeap.Heap.Detach` | Kernel/utils/memManagerFRT4.c:82-100 | unlinking and splitting together |
| `FrtHeap.Heap.Carve` | Kernel/utils/memManagerFRT4.c:78-112 | taking a block keeps tiling and headers, lowers the free bytes by exactly its size and the minimum-ever value to them if they are less |
| `FrtHeap.AfterTake` | Kernel/utils/memManagerFRT4.c:82-111 | the headers written by malloc lie outside every live payload |
| `FrtHeap.Heap.Malloc` | Kernel/utils/memManagerFRT4.c:35-120 | NULL if and only if the size is 0, has the top bit set, or fits no free chunk; otherwise the lowest chunk that fits, with at most heapMINIMUM_BLOCK_SIZE bytes of slack; no live payload is written; free bytes, minimum-ever and call counters move by exactly the block taken |
| `FrtHeap.AfterRelease` | Kernel/utils/memManagerFRT4.c:143-148 | the headers written by free lie outside every live payload |
| `FrtHeap.Heap.Relink` | Kernel/utils/memManagerFRT4.c:147-147 | inserting the freed block keeps the heap tiled, conserves its bytes and writes no header inside a live payload |
| `FrtHeap.Heap.GiveBack` | Kernel/utils/memManagerFRT4.c:143-148 | the block returns to the free list, merged with whatever it touches; the minimum-ever value is unchanged |
| `FrtHeap.Heap.Free` | Kernel/utils/memManagerFRT4.c:123-152 | frees just that block; NULL, and a pointer whose header does not claim an allocated block, change nothing at all; no live payload is written |
| `FrtTheorems.Scribble` | Kernel/utils/memManagerFRT4.c:110-111 | a client writing anywhere inside its payload cannot disturb the allocator |
| `FrtTheorems.AnswerUnique` | Kernel/utils/memManagerFRT4.c:35-120 | malloc's answer is a function of the free list, the live blocks and the request |
| `FrtTheorems.AnswerInNumbers` | Kernel/utils/memManagerFRT4.c:35-120 | the answer in plain numbers: the lowest chunk that holds header (16 bytes), payload and padding to 8 gives exactly that many bytes and keeps the rest if it is more than 32 bytes, and is handed out whole otherwise; NULL if and only if there is none, or the size is 0 or at least 2^63 |
| `FrtTheorems.BothServed` | Kernel/utils/memManagerFRT4.c:84-100 | a free chunk with room for two requests and 32 bytes more serves both, from any state of the heap |
| `FrtTheorems.SameAnswer` | Kernel/utils/memManagerFRT4.c:35-120 | two heaps with the same live blocks answer alike and stay alike, whatever calls led there |
| `FrtTheorems.SameFreeList` | Kernel/utils/memManagerFRT4.c:123-152 | two heaps with the same live blocks have the same free list |
| `FrtTheorems.FreeAll` | Kernel/utils/memManagerFRT4.c:123-152 | freeing all blocks in any order yields the single initial chunk and equal call counters |
| `FrtTheorems.Perform` | Kernel/utils/memManagerFRT4.c:35-152 | each call moves the minimum to the least of itself and the free bytes |
| `FrtTheorems.MinimumEverIsLeast` | Kernel/utils/memManagerFRT4.c:102-212 | over any run of calls on a new heap xFreeBytesRemaining is the sum of the free chunks and the minimum-ever field the least value that sum has had since initialisation |
| `Sched.FirstReady` | Kernel/utils/scheduler.c:73-92 | the first READY process of the ring |
| `SchedWalk.LapFound` | Kernel/utils/scheduler.c:73-92 | a lap that meets a READY process stops at the first one of the ring |
| `SchedWalk.LapTurn` | Kernel/utils/scheduler.c:77-80 | a lap that meets none has reaped all the dead and wakes idle |
| `SchedWalk.DoneInLapOne` | Kernel/utils/scheduler.c:65-100 | the loop that ends in its first lap computed exactly the specified dispatch |
| `SchedWalk.DoneInLapTwo` | Kernel/utils/scheduler.c:65-100 | and so did the one that ends in its second lap, at idle |
| `SchedWalk.DispatchKeeps` | Kernel/utils/scheduler.c:65-100 | nextProcess keeps the table well-formed and leaves a READY process running |
| `Scheduler.LinkedRemove` | Kernel/utils/scheduler.c:50-63 | unlinking a node keeps head, tail and next pointers spelling out the list without it |
| `Scheduler.LinkedInsert` | Kernel/utils/scheduler.c:302-309 | relinking a node behind the running one does the same |
| `Scheduler.LinkedAppend` | Kernel/utils/scheduler.c:167-171 | and so does appending one |
| `Scheduler.Scheduler.constructor` | Kernel/utils/scheduler.c:108-111 | after initialisation only idle is listed, at the lowest priority |
| `Scheduler.Scheduler.SearchProcess` | Kernel/utils/scheduler.c:214-229 | finds the process and its predecessor, or neither |
| `Scheduler.Scheduler.RemoveProcess` | Kernel/utils/scheduler.c:50-63 | takes exactly that process off the linked list, with the tail right |
| `Scheduler.Scheduler.Expire` | Kernel/utils/scheduler.c:66-72 | a used-up quantum is reset and the walk starts at the successor |
| `Scheduler.Scheduler.WrapStep` | Kernel/utils/scheduler.c:75-76 | wrapping to the head decreases the termination measure |
| `Scheduler.Scheduler.WakeStep` | Kernel/utils/scheduler.c:77-80 | a fruitless lap moves to the second phase of the measure |
| `Scheduler.Scheduler.ReapStep` | Kernel/utils/scheduler.c:81-85 | reaping decreases the measure |
| `Scheduler.Scheduler.SkipStep` | Kernel/utils/scheduler.c:86-91 | passing over decreases the measure |
| `Scheduler.Scheduler.Conclude` | Kernel/utils/scheduler.c:93-98 | idle goes back to sleep when somebody else runs and the choice is counted |
| `Scheduler.Scheduler.NextProcess` | Kernel/utils/scheduler.c:65-100 | terminates on every table in which idle is listed and not DEAD, and computes exactly the dispatch: first READY process of the ring, the dead before it reaped |
| `Scheduler.Scheduler.Block` | Kernel/utils/scheduler.c:252-274 | blocks a live process and dispatches if it is the caller; fails exactly for an absent or DEAD one |
| `Scheduler.Scheduler.Unblock` | Kernel/utils/scheduler.c:276-293 | makes a live process READY, reports failure otherwise |
| `Scheduler.Scheduler.UnblockFirst` | Kernel/utils/scheduler.c:295-333 | moves the target right behind the caller, ends the caller's quantum and dispatches; fails exactly for an absent or DEAD target |
| `Scheduler.Scheduler.Requeue` | Kernel/utils/scheduler.c:302-309 | the list surgery of unblockFirst |
| `Scheduler.Scheduler.Deprive` | Kernel/utils/scheduler.c:341-347 | a listed parent loses a child and is woken with its last one |
| `Scheduler.Scheduler.Kill` | Kernel/utils/scheduler.c:335-371 | the process dies, its parent loses a child and is woken if that was the last; fails exactly for an absent process |
| `Scheduler.Scheduler.Wait` | Kernel/utils/scheduler.c:431-436 | the caller waits only if it has children |
| `Scheduler.Scheduler.QuitCPU` | Kernel/utils/scheduler.c:464-472 | ends the caller's quantum and dispatches; fails exactly before the first dispatch |
| `Scheduler.Scheduler.BlockIO` | Kernel/utils/scheduler.c:241-250 | blocks the caller on input and dispatches; fails exactly when there is none or it is DEAD |
| `Scheduler.Scheduler.UnblockIO` | Kernel/utils/scheduler.c:231-239 | one pass wakes exactly the processes blocked on input |
| `Scheduler.Scheduler.Nice` | Kernel/utils/scheduler.c:417-429 | changes only the priority; succeeds exactly for a listed process and an offset from -20 to 19 |
| `Scheduler.Scheduler.AppendNode` | Kernel/utils/scheduler.c:155-171 | tail insertion |
| `Scheduler.Scheduler.EnqueueProcess` | Kernel/utils/scheduler.c:113-174 | the new process is last, with a fresh pid, and counted by its parent |
| `SchedInvariants.DispatchEffect` | Kernel/utils/scheduler.c:65-100 | what a dispatch does to every single record |
| `SchedEffects.DispatchFollowsNext` | Kernel/utils/scheduler.c:65-100 | for every table: the process left running is the READY one reached first by following next, from the head before the first dispatch, from behind a running process that has used up its 40 minus priority ticks, and from the running process otherwise; idle if there is none; exactly the DEAD processes passed are removed |
| `SchedEffects.BlockEffect` | Kernel/utils/scheduler.c:252-274 | the target is BLOCKED, a blocked caller loses its ticks and the processor, every other record is as before |
| `SchedEffects.UnblockEffect` | Kernel/utils/scheduler.c:276-293 | a live target is READY and nothing else changes |
| `SchedEffects.UnblockFirstEffect` | Kernel/utils/scheduler.c:295-333 | the target is READY and runs, the caller starts its ticks anew, every other record is as before |
| `SchedEffects.KillEffect` | Kernel/utils/scheduler.c:335-371 | a listed target, whether or not its parent is listed, is DEAD or gone and not running; the parent has one child less and is READY if it waited for the last; every other record is as before |
| `SchedEffects.WaitEffect` | Kernel/utils/scheduler.c:431-436 | a caller with children is WAITING and gives up the processor; without children nothing changes |
| `SchedEffects.QuitCPUEffect` | Kernel/utils/scheduler.c:464-472 | the caller stays READY with its ticks at 0, and runs on only if nobody else is READY |
| `SchedEffects.BlockIOEffect` | Kernel/utils/scheduler.c:241-250 | the caller is BLOCKEDIO with its ticks at 0 and gives up the processor |
| `SchedEffects.UnblockIOEffect` | Kernel/utils/scheduler.c:231-239 | exactly the BLOCKEDIO processes become READY |
| `SchedEffects.NiceEffect` | Kernel/utils/scheduler.c:417-429 | an offset from -20 to 19 gives the target 20 minus offset ticks per turn and changes nothing else |
| `SchedEffects.SpawnEffect` | Kernel/utils/scheduler.c:113-174 | the new process is last, READY, a child of the caller, and gets 40 ticks in the foreground or 20 in the background |
| `SchedEffects.BootEffect` | Kernel/utils/scheduler.c:108-111 | idle alone with one tick per turn |
| `SchedInvariants.IdleMeansNobody` | Kernel/utils/scheduler.c:73-96 | idle is picked over nobody: if it was asleep or just ran, no other process is READY |
| `SchedInvariants.IdleDispatch` | Kernel/utils/scheduler.c:77-96 | idle is READY only while it is running |
| `SchedInvariants.IdleOnlyWhenNobody` | Kernel/utils/scheduler.c:73-96 | after the first dispatch idle is chosen only when no other process is READY |
| `SchedInvariants.FamilyDispatch` | Kernel/utils/scheduler.c:81-85 | reaping keeps every children count equal to the number of live children |
| `SchedInvariants.FamilyBury` | Kernel/utils/scheduler.c:343-364 | so does killing a live process, and no waiting parent is left without a live child |
| `SchedInvariants.FamilySpawn` | Kernel/utils/scheduler.c:123-156 | so does creating one |
| `SchedInvariants.Handoff` | Kernel/utils/scheduler.c:295-333 | after unblockFirst(w) by a running READY process the next process dispatched is w |
| `KernelTheorems.HandoffPostInv` | Kernel/utils/sem.c:127-144 | a post that pops a waiter leaves that waiter running with the value at exactly 1 |
| `KernelTheorems.ResumeInv` | Kernel/utils/sem.c:118-124 | the resumed waiter takes the semaphore from 1 to 0 |
| `KernelEffects.SemWaitEffect` | Kernel/utils/sem.c:102-118 | at a positive value the caller takes one and goes on; at 0 it is last in the queue, BLOCKED inside semWait, no longer running, and the value is untouched; nobody else is affected |
| `KernelEffects.SemPostEffect` | Kernel/utils/sem.c:127-138 | the value grows by one modulo 2^32; with waiters the first leaves the queue and runs |
| `KernelEffects.StepCountsExactly` | Kernel/utils/sem.c:102-144 | exactly the posts count as posts, and exactly a semWait at a positive value or the resumption of a waiter completes a wait |
| `KernelEffects.BackOnlyAfterTaking` | Kernel/utils/sem.c:102-125 | over every run, a process that called semWait is back in its own code only after a step of its own that took the semaphore |
| `KernelEffects.CallsAreDone` | Kernel/utils/scheduler.c:65-472 | every other call and interrupt of the machine has the effect its caller wants |
| `KernelEffects.StepLives` | Kernel/utils/scheduler.c:335-371 | of the processes there are, a step ends only the one it kills, and none comes back |
| `KernelEffects.KilledNeverRuns` | Kernel/utils/scheduler.c:335-371 | over every run, a killed process never runs again |
| `KernelTheorems.StepInv` | Kernel/utils/sem.c:102-144 | every event of the machine (ticks, keyboard, semaphores, block, unblock, kill, nice, wait, quit, read, spawn) keeps the whole invariant |
| `KernelTheorems.ReachableInv` | Kernel/utils/sem.c:102-144 | it holds in every state of every run, for any number of processes and semaphores |
| `KernelTheorems.HandoffIsNext` | Kernel/utils/sem.c:102-144 | after such a post the very next step is the waiter's decrement; nothing can happen in between |
| `KernelTheorems.PositiveMeansNobodyWaits` | Kernel/utils/sem.c:102-144 | with no hand-off in flight a positive value means an empty queue; waiters are served in order of arrival; semLock is free at every switch |
| `KernelTheorems.StepIsCounterStep` | Kernel/utils/sem.c:102-144 | every kernel step is, for each semaphore, nothing, V, or P on a positive value; so the unsigned value never underflows |
| `KernelTheorems.TakenAtMostPosted` | Kernel/utils/sem.c:102-144 | in every run the waits completed never exceed the initial value plus the posts, and the value is exactly the difference while that fits the word |
| `KernelTheorems.NoStrandedParent` | Kernel/utils/scheduler.c:335-371 | in every run a WAITING process has a live child and children counts exactly those |
| `KernelTheorems.IdleRunsOnlyWhenNobodyCan` | Kernel/utils/scheduler.c:65-100 | in every run, when a step makes idle the running process no other process is READY |
| `SemKernel.Semaphores.constructor` | Kernel/utils/sem.c:1-12 | a kernel without semaphores is the initial state of the machine |
| `SemKernel.QueueAppend` | Kernel/utils/sem.c:110-117 | linking a node behind `last` spells out the queue with the caller at its end |
| `SemKernel.QueuePop` | Kernel/utils/sem.c:133-136 | unlinking `entering` spells out the rest of the queue, with `last` cleared exactly when it is empty |
| `SemKernel.Semaphores.SemOpen` | Kernel/utils/sem.c:26-52 | opening is a step of the machine: a new semaphore gets the value and an empty queue, one already open is left as it is |
| `SemKernel.Semaphores.Join` | Kernel/utils/sem.c:110-117 | the caller joins its queue and no other queue changes |
| `SemKernel.Semaphores.Pop` | Kernel/utils/sem.c:133-136 | the first waiter leaves its queue and no other queue changes |
| `SemKernel.Semaphores.HandOver` | Kernel/utils/sem.c:133-138 | the popped waiter is dispatched |
| `SemKernel.Semaphores.SemWait` | Kernel/utils/sem.c:102-118 | semWait on linked waiter nodes and the linked-list scheduler is a step of the machine |
| `SemKernel.Semaphores.SemPost` | Kernel/utils/sem.c:127-138 | so is semPost |
| `SemKernel.Semaphores.Continue` | Kernel/utils/sem.c:120-143 | and so is what either does once it is dispatched again |
| `SemKernel.Semaphores.TimerTick` | Kernel/utils/scheduler.c:65-100 | and the timer interrupt |
| `SemKernel.Semaphores.Keyboard` | Kernel/utils/scheduler.c:231-239 | the keyboard's wake-up is a step of the machine |
| `SemKernel.Semaphores.SysBlock` | Kernel/utils/scheduler.c:252-274 | block is a step of the machine |
| `SemKernel.Semaphores.SysUnblock` | Kernel/utils/scheduler.c:276-293 | so is unblock |
| `SemKernel.Semaphores.SysKill` | Kernel/utils/scheduler.c:335-371 | so is kill |
| `SemKernel.Semaphores.SysNice` | Kernel/utils/scheduler.c:417-429 | so is nice |
| `SemKernel.Semaphores.SysWait` | Kernel/utils/scheduler.c:431-436 | so is wait |
| `SemKernel.Semaphores.SysQuitCPU` | Kernel/utils/scheduler.c:464-472 | so is quitCPU |
| `SemKernel.Semaphores.SysRead` | Kernel/utils/scheduler.c:241-250 | so is blockIO |
| `SemKernel.Semaphores.SysLoadProcess` | Kernel/utils/scheduler.c:113-174 | so is the creation of a process |
| `BoundedWait.Countdown` | Kernel/utils/scheduler.c:65-100 | each timer tick brings a waiting READY process exactly one tick closer |
| `BoundedWait.DispatchedExactlyThen` | Kernel/utils/scheduler.c:65-100 | it is dispatched at exactly the predicted tick and never before |
| `BoundedWait.WaitIsBounded` | Kernel/utils/scheduler.c:65-100 | that tick is at most the sum of the other READY processes' quanta plus one |
| `BoundedWait.KeepsItsQuantum` | Kernel/utils/scheduler.c:66-72 | once dispatched it keeps the processor for MAX_PRIORITY minus priority ticks |
| `BoundedWait.ThenGivesWay` | Kernel/utils/scheduler.c:66-72 | and then gives way if any other process is READY |
| `BoundedWait.UnblockedRunsInTime` | Kernel/utils/scheduler.c:276-293 | an unblocked process with no ticks counted is dispatched within the quanta of the other READY processes plus one |
| `Pipe.StepInv` | Kernel/utils/pipe.c:87-113 | every atomic step of any reader or writer keeps the accounting, the exclusion and the contents of the buffer |
| `Pipe.Reachable` | Kernel/utils/pipe.c:87-113 | so they hold over every interleaving of any number of readers and writers |
| `Pipe.FullSemAccounts` | Kernel/utils/pipe.c:91-106 | fullSem is exactly the bytes stored and announced minus the bytes claimed; no unwritten slot is ever read |
| `Pipe.OneInside` | Kernel/utils/pipe.c:91-110 | at most one process is between semWait(sem) and semPost(sem) |
| `Pipe.WriteCall` | Kernel/utils/pipe.c:87-98 | writePipe undisturbed stores one byte in the next slot, announces it and leaves the lock free |
| `Pipe.ReadCall` | Kernel/utils/pipe.c:100-113 | readPipe undisturbed claims one byte, reads the next slot and leaves the lock free |
| `Pipe.EveryReadExplained` | Kernel/utils/pipe.c:93-108 | read r returns the newest byte in its slot, which is byte r if and only if the writers were then at most one buffer ahead |
| `Pipe.NeverLapped` | Kernel/utils/pipe.c:87-98 | if every store has room, the writers are never more than one buffer ahead |
| `Pipe.Fifo` | Kernel/utils/pipe.c:87-113 | then the bytes read are a prefix of the bytes stored |
| `Pipe.LaterReads` | Kernel/utils/pipe.c:93-108 | a read made after a state was made with at least the bytes of that state stored |
| `Pipe.NoneLappedIff` | Kernel/utils/pipe.c:87-113 | over any run up to any state, no read was lapped if and only if each store, when it was made, had room or overwrote a byte not read by then |
| `Pipe.FifoIff` | Kernel/utils/pipe.c:87-113 | the bytes read are a prefix of the bytes stored if every store was such, and, when the bytes stored are all different, only then |
| `Pipe.FifoIffRoomy` | Kernel/utils/pipe.c:87-113 | once everything stored has been read: no read was lapped if and only if every store had room, and all-different bytes were read in the order stored if and only if every store had room |
| `Pipe.OverrunLosesBytes` | Kernel/utils/pipe.c:87-98 | whatever the size of the buffer, writing one byte more than fits makes the first read return the last byte: writePipe has no space check |
| `Philosophers.StepSafe` | Userland/SampleCodeModule/shell/commands/phylo.c:20-90 | every load, store and semaphore step keeps exclusion, also while an addition is half done |
| `Philosophers.LinkSafe` | Userland/SampleCodeModule/shell/commands/phylo.c:28-49 | so does the first link store of addPhilo, at any moment, also in the middle of a test |
| `Philosophers.CloseSafe` | Userland/SampleCodeModule/shell/commands/phylo.c:50-52 | and the second |
| `PhilosopherRuns.Reachable` | Userland/SampleCodeModule/shell/commands/phylo.c:20-157 | exclusion holds in every state of every run, for any ring size and any additions |
| `PhilosopherRuns.NeighboursNeverBothEat` | Userland/SampleCodeModule/shell/commands/phylo.c:20-26 | no two distinct neighbours are EATING, with philosophers added at any time |
| `PhilosopherRuns.AtTableMeansEating` | Userland/SampleCodeModule/shell/commands/phylo.c:70-79 | take_fork returns only while its caller is EATING, with philosophers added at any time |
| `Philosophers.StepNoticedIff` | Userland/SampleCodeModule/shell/commands/phylo.c:20-90 | a step keeps every hungry philosopher noticed (an eating neighbour, or a test to come) if and only if it is not the old last philosopher putting its forks down between the two link stores while the first relies on it alone |
| `Philosophers.LinkNoticedIff` | Userland/SampleCodeModule/shell/commands/phylo.c:46-49 | the first link store keeps everybody noticed if and only if neither end loses its only eating neighbour or its only test to come |
| `Philosophers.CloseNoticedIff` | Userland/SampleCodeModule/shell/commands/phylo.c:50-50 | the second does if and only if the first philosopher does not rely on the old last one alone |
| `Philosophers.AddNoticedIff` | Userland/SampleCodeModule/shell/commands/phylo.c:28-53 | addPhilo with nothing in between does, at any moment, if and only if neither end of the opened seat relies on the other alone |
| `PhilosopherRuns.NextNoticedIff` | Userland/SampleCodeModule/shell/commands/phylo.c:20-90 | the same for every event; without additions every event is harmless |
| `PhilosopherRuns.AlwaysNoticed` | Userland/SampleCodeModule/shell/commands/phylo.c:20-157 | over every run of harmless events everybody stays noticed |
| `PhilosopherRuns.NoMissedWakeUp` | Userland/SampleCodeModule/shell/commands/phylo.c:81-90 | over every such run, whenever nobody is inside the mutex section every HUNGRY philosopher has an EATING neighbour |
| `PhilosopherRuns.FixedRingWakesUp` | Userland/SampleCodeModule/shell/commands/phylo.c:81-90 | over every run without additions, unconditionally |
| `PhilosopherRuns.NeverStuck` | Userland/SampleCodeModule/shell/commands/phylo.c:70-90 | over every run of harmless events some philosopher can always take a step |
| `PhilosopherRuns.TestRuns` | Userland/SampleCodeModule/shell/commands/phylo.c:20-26 | the steps of test amount to: a hungry philosopher between two who do not eat eats and its semaphore is posted |
| `PhilosopherRuns.TakeForkRuns` | Userland/SampleCodeModule/shell/commands/phylo.c:70-78 | take_fork undisturbed leaves the caller hungry, tested, and waiting for its own semaphore |
| `PhilosopherRuns.TakeForkEats` | Userland/SampleCodeModule/shell/commands/phylo.c:70-79 | if neither neighbour eats it returns with the caller eating and every semaphore as before |
| `PhilosopherRuns.PutForkRuns` | Userland/SampleCodeModule/shell/commands/phylo.c:81-90 | put_fork undisturbed leaves the caller thinking, and its left and then its right neighbour tested |
| `PhilosopherRuns.AddCanStrand` | Userland/SampleCodeModule/shell/commands/phylo.c:28-53 | a run from three thinking philosophers after which addPhilo leaves one hungry with no eating neighbour and nobody to test it |
| `TestSync.StepInv` | Userland/SampleCodeModule/shell/commands/test_sync.c:11-34 | every step keeps the counter equal to the sum of the stores made and at most one process inside |
| `TestSync.NoLostUpdate` | Userland/SampleCodeModule/shell/commands/test_sync.c:11-34 | so in every run, despite the yield inside slowInc |
| `TestSync.FinalValue` | Userland/SampleCodeModule/shell/commands/test_sync.c:18-41 | when all processes have finished the counter is the sum of all increments |
| `TestSync.PairsEndAtZero` | Userland/SampleCodeModule/shell/commands/test_sync.c:43-65 | any number of +1/-1 pairs, any iteration count, any interleaving: the counter ends at 0 |
| `TestSync.RoundAddsOnce` | Userland/SampleCodeModule/shell/commands/test_sync.c:30-34 | one round of a process adds its value once and gives the semaphore back |
| `TestSync.EveryRunEndsExact` | Userland/SampleCodeModule/shell/commands/test_sync.c:11-34 | every schedule ends after four steps per round, is never stuck before, and ends at the sum of all increments |
| `TestSync.UnguardedLosesUpdates` | Userland/SampleCodeModule/shell/commands/test_sync.c:67-82 | without the semaphore one pair suffices to lose an update |
| `Bmfs.CmpSign` | Bootloader/BMFS/bmfs.c:597-608 | the comparison's truncation to int never changes the order on a disk of fewer than 2^31 blocks |
| `Bmfs.QSort` | Bootloader/BMFS/bmfs.c:660-661 | files by starting block, deleted records last, nothing lost or added (stands for the library's qsort) |
| `Bmfs.Requested` | Bootloader/BMFS/bmfs.c:615-620 | the least number of 2 MiB blocks that hold the size asked for |
| `BmfsDisk.PlacedAnyOrder` | Bootloader/BMFS/bmfs.c:660-661 | disjointness and range survive any reordering of the records |
| `BmfsDisk.Scan` | Bootloader/BMFS/bmfs.c:663-685 | the gap scan returns the lowest free run if one is large enough; otherwise the stale end of a deleted record that leaves room before the last block, or 0 if there is none |
| `BmfsDisk.Disk.FindFile` | Bootloader/BMFS/bmfs.c:205-231 | returns the first file of that name before the end marker, skipping deleted records |
| `BmfsDisk.Disk.CountEntries` | Bootloader/BMFS/bmfs.c:635-651 | the number of records in use (0 if there is no end marker) and the first free one |
| `BmfsDisk.Disk.Place` | Bootloader/BMFS/bmfs.c:659-685 | sorting a copy and scanning it answers for the directory itself |
| `BmfsDisk.Disk.Create` | Bootloader/BMFS/bmfs.c:610-719 | create on the directory buffer is a step of the specification |
| `BmfsDisk.Disk.Delete` | Bootloader/BMFS/bmfs.c:802-821 | delete marks just the record found |
| `BmfsTheorems.CreateUsesLowestGap` | Bootloader/BMFS/bmfs.c:610-706 | if a free run is large enough create takes the lowest, keeps all files disjoint and off the first and last block, finds the new file and every other one as before; deleted records do not matter |
| `BmfsTheorems.NoSpaceIff` | Bootloader/BMFS/bmfs.c:659-691 | create fails for space if and only if no gap fits and no deleted record's stale end leaves room |
| `BmfsTheorems.NoSpaceIffNoGap` | Bootloader/BMFS/bmfs.c:659-691 | without deleted records: if and only if no gap fits |
| `BmfsTheorems.LayoutKeptIff` | Bootloader/BMFS/bmfs.c:610-706 | create keeps the files disjoint, in range and differently named if and only if a condition on the directory holds, for every directory, full ones included |
| `BmfsTheorems.OthersKeptIff` | Bootloader/BMFS/bmfs.c:693-706 | every other name finds its file as before if and only if the directory had an end marker, or its first record was in use, or nothing was created, or there was no other file |
| `BmfsTheorems.StaleEndOverlaps` | Bootloader/BMFS/bmfs.c:663-685 | a disk where the stale end of a deleted record puts a new file over an existing one |
| `BmfsTheorems.FullDirectoryForgets` | Bootloader/BMFS/bmfs.c:635-706 | a full directory whose first file was deleted: creating a file makes every one of the 63 others vanish |
| `BmfsTheorems.DeleteExact` | Bootloader/BMFS/bmfs.c:802-821 | delete frees exactly the file's blocks, its name is no longer found, every other is |
| `BmfsTheorems.DeleteUndoesCreate` | Bootloader/BMFS/bmfs.c:610-821 | delete after create: every name finds what it found before and the same blocks are in use |
| `BmfsTheorems.RunSound` | Bootloader/BMFS/bmfs.c:610-821 | over every run of commands that meet those conditions, from a formatted disk, files stay disjoint, in range and differently named |
| `BmfsTheorems.FilesLast` | Bootloader/BMFS/bmfs.c:610-821 | and every file keeps its record and its blocks until it is deleted |

## Left out

- Pure64, the assembly handlers, IDT set-up, exceptions, keyboard, video, time and the shell: hardware and user interface; used only to justify which steps are atomic.
- Pipe, Philosophers, TestSync: step machines over values, one load, store or semaphore operation per step, instead of code updating memory in place, since the interleavings are the point; the pointers of the philosophers' ring are positions in a sequence.
- The nodes of a semaphore's waiter queue are identified by their process, which is in at most one queue; their allocation and release are not modelled.
- Process records are identified by pid and the next pointers are a map; stacks, names and file descriptors of processes are not modelled.
- NULL from the allocator inside kernel paths, and semClose.
- checkSleeping and wakeUp, and sleep beyond its block: waking the head of the list reads through a null pointer.
- The foreground and backWait flags: block, unblock and unblockFirst read them through a parent that may be gone. At boot the parent pid is 0.
- Scheduler.Scheduler.UnblockFirst: does not cover a caller that names itself or a call before the first dispatch, which corrupts the list; semPost makes neither.
- Scheduler.Scheduler.Kill: does not cover killing idle, after which nextProcess need not end.
- SemKernel.Semaphores.SemOpen: a semaphore is identified by its name; the search along the list of semaphores is not modelled.
- Scheduler.Scheduler.EnqueueProcess: does not cover idle as the caller while its flag is clear, which does not occur since idle makes no calls.
- BoundedWait.WaitIsBounded: timer ticks only; wait does not reset executions and nice can lower the quantum below it.
- BuddyAllocator.Buddy.Alloc: not for the sizes of `BuddyAllocator.ZeroPagesIff`, -4096 and -8192 or less, with which the search splits leaves and runs off the tree; the products of page counts and page size are not truncated to 32 bits (at LEVEL 17 they fit).
- FrtHeap.Heap.Free: not for a pointer to a forged header that claims an allocated block; memory is seen as block headers by address, and payload bytes are not modelled beyond that no header is written into them.
- FrtHeap.Heap.constructor: the heap lies below the top bit of the address space, has room for one block, and the list head lies outside it.
- Pipe.Fifo: needs room for every store, as writePipe has no space check; one pipe only, since semaphore names are shared; closePipe, and wrap-around of the int counters, are not modelled.
- TestSync.FinalValue: the int counter is unbounded here; end-of-process printing is not modelled.
- removePhilo and end: they free nodes that may be in use.
- PhilosopherRuns.NoMissedWakeUp: with additions it needs every event to be harmless, which is exactly when an event leaves nobody unnoticed; states are only written inside the mutex section, so following a link and loading the state behind it is one step, and so are put_fork's store of THINKING and its load of phil->left (the store touches no link, so a link store in between could as well come before it).
- BmfsDisk.Disk.Create: on a disk of at least two blocks whose files are disjoint and in range, for a name of 1 to 31 bytes that does not start with 0x01; strcpy does not check the length, and the empty name would end the directory. The disk write-back and the record's unused bytes are not modelled.
- BMFS initialize, format, list, read and write: file input and output.
- dumpMM, processes, getSems and pipes as text, vPortGetHeapStats and FREE_EXIT bookkeeping: formatting or easy members.
- itoa, atoi, memcpy variants, module packer and loader, floating point: easier members.
