# Kernel data structures and protocols of x-os, verified

Dafny models of five cores of a small 32-bit kernel, each over the state its C code keeps, with
proofs of what the code is for.  `dafny verify dfyconfig.toml` checks the whole project.

**Red-black tree** (`src/rb_tree.c`, `src/pcinfo_rb_tree.c`).  `RbTheory` describes trees as
values, with a zipper for "the tree seen from this node".  `RbMemory` relates heap nodes with
parent links, the head's pseudo-root and the shared sentinel to such a tree.  `RbRotation`,
`RbRebalance`, `RbRepair`, `RbExchange` and `RbRemoval` run the pointer code against it; `RbHead`
is the tree as its callers see it, `RbHeight` bounds a search, `RbWalk` iterates.

The algorithm needs a black sentinel, but the C code never paints it: it is zero, and
zero is red (`inc/rb_tree.h:3`).  The code is modelled as it is, with the sentinel's colour as
part of the state, and insertion and removal are proved to keep the red-black form if and only if
the sentinel is not red at one particular place (`RedNilUncle`, `RedNilHole`), with a concrete run
that fails for each.  With a black sentinel, which every operation keeps black, they always do.  In
a tree that a red sentinel has unbalanced, removal works as long as the repair meets real brothers
(`Repairable`); where it does not it reads through NULL, and a short run gets there
(`BootSentinelStopsRemoval`).

**Buddy allocator** (`src/buddy.c`).  `BuddyBlocks` is the arithmetic of aligned blocks and the
canonical form; `BuddyLevel` is one level, its array of links, list head and pair bits;
`BuddyAllocator` is the recursive allocation and coalescing over all fifteen levels.

**Level bitmap** (`src/level_bitmap.c`).  `Words` treats 32-bit words as bit vectors and as sets of
positions; `BitmapTree`, `BitmapSearch` and `BitmapCopy` treat the preorder summary tree over such
sets; `LevelBitmap` is the code.  The tree has at most six levels below the root word, because the
last entry of the jump table overflows (`src/level_bitmap.c:13`), and bits stay below 2^31, because
results are `ssize_t`.  `level_bitmap_cpy` may fail when it grows: an empty bitmap gets ones above an
empty word, as in the descriptor table's first growth (`src/vfs.c:62`), and a count past the source's
range, as in its second, copies whatever lies after the source's own words.  `Cpy` states exactly
when the result is sound; `BitmapCopy` holds an input that fails for each.

**Binary heap** (`src/min_heap.c`).  `MinHeap`: the hole-moving loops as functions on sequences of
C ints, the order and the sentinel invariant proved about them, and the loops on arrays.

**Scheduler, time wheel, semaphores, frames** (`src/sched.c`, `src/wait.c`, `src/ksemaphore.c`, the
frame list of `src/mem.c`, `src/circular_list.c`).  `Scheduler`, `Epochs`, `TimeWheel` and
`Semaphores` describe the state and what each function makes of it; `KernelSteps` is the step
system, `KernelRuns`, `GrantHistory`, `RunOrder`, `WakeOrder`, `Forks` and `UntimedSleep` speak of
runs and of the order within lists; `KernelState` is the code, with its
loops, as a class whose methods reach exactly those states.  Lists are sequences there;
`CircularList` shows that the pointer operations are the sequence operations used, and `FrameTable`
does the same for the frame list, which the class uses directly.  `Instances` and `WindowInstances`
hold concrete cases that fail.

There is one CPU, and the steps of the step system are atomic: the timer runs behind an interrupt
gate, `schedule` and the parts of `sys_fork` lock themselves, and `ksemaphore_up` and
`ksemaphore_down` take no lock of their own but are called with it held, as `src/mem.c` does
(`src/block_buffer.c:149` does not).  `sys_tsleep` is the exception.  A system call starts unlocked
with interrupts on (`src/syscall.s:28-34`), `out_sched_queue` unlocks again (`src/sched.c:179-186`),
and a tick can come before the caller is in the wheel or the wait list.  `SleepWindow` takes the call
apart into its stores, with ticks between them; `Bystanders`, `SleepDamage` and `SleepRuns` prove that
the invariants hold after a run of such moves if and only if no tick fell into a call, that the
damage is for good, and that a run without such a tick is a run of the step system.
`UntimedWindow` follows a call without a deadline.

Process 1 never blocks (it is what schedule falls back on).  The semaphore calls of the step system
are untimed or tries; `TimedWaits` shows what a timeout does.  Sleeping takes at least one tick and
the tick counter does not wrap.  A process inside `getonefreepage` that has been granted a frame but
not run since is in the set `granted`; a child copied by `sys_fork` but not queued yet is in `unborn`.

Memory for maps and descriptors is given zeroed.  `bsf` and `bsr` are loops over the bits of a word.
The checks `kassert` makes appear as preconditions, or as assertions that are proved.

## Model

| member | source | states |
|---|---|---|
| RbRotation.LeftRotate | src/rb_tree.c:7-20 | the five links a left rotation writes, nothing else; `LeftRotatedRep` says the memory then represents the rotated tree at the same place, also below the head's pseudo-root |
| RbRotation.LeftRotatedRep | src/rb_tree.c:7-20 | a left rotation in memory is a left rotation of the tree, the surroundings untouched, with the sentinel's parent field free to change |
| RbRotation.RightRotate | src/rb_tree.c:22-35 | the mirror image |
| RbRotation.RightRotatedRep | src/rb_tree.c:22-35 | the mirror image |
| RbTheory.InsertFixInorder | src/rb_tree.c:216-273 | recolouring and rotating after an insertion never changes the in-order sequence |
| RbTheory.InsertFixRedBlack | src/rb_tree.c:216-273 | after a red leaf is hung below any hole of a red-black tree, rebalancing gives a red-black tree if and only if the sentinel is not a red uncle of the new node; in either case the root is black and no red node has a red child |
| RbTheory.NilAfterInsertIs | src/rb_tree.c:230-260 | the sentinel is painted black by the loop exactly in that bad case, otherwise its colour stays |
| RbRebalance.Rebalance | src/rb_tree.c:216-273 | the loop over real nodes ends with the memory representing `InsertFix` of the tree it started from; comparing with the root passed in is sound although the root may change |
| RbTheory.RemoveFixInorder | src/rb_tree.c:77-146 | repairing after a removal never changes the in-order sequence |
| RbTheory.RemoveFixRedBlack | src/rb_tree.c:77-146 | given one missing black node anywhere, the repair yields a red-black tree with a black root |
| RbTheory.RemoveFixColors | src/rb_tree.c:77-146 | in any tree, however unbalanced, in which every brother met is a real node, the repair leaves a black root and no red node with a red child |
| RbTheory.OneShortBrothers | src/rb_tree.c:86-93 | where exactly one black node is missing, every brother the repair meets, also after a red one has been rotated away, is a real node |
| RbTheory.StuckAt | src/rb_tree.c:86-93 | conversely, where the brothers are not all real, the loop climbs over real ones to a black place whose brother is the sentinel |
| RbHead.BrotherIsNil | src/rb_tree.c:86-97 | at such a place the brother pointer is the sentinel, and its children, which the loop reads next, are NULL: nothing is ever linked below the sentinel |
| RbRepair.RmFix | src/rb_tree.c:77-146 | the loop over real nodes, starting at a real node or at the shared sentinel through its parent field, ends with the memory representing `RemoveFix`, in any tree where it meets real brothers only, balanced or not; the sentinel's new colour is given exactly; it terminates |
| RbExchange.SwapNode | src/rb_tree.c:44-75 | what the field exchange writes, cell by cell, for nodes that are not neighbours |
| RbExchange.SwappedExchanges | src/rb_tree.c:44-75 | those writes exchange exactly the two nodes' places in the whole memory, all other links following |
| RbExchange.SwapAdjacent | src/rb_tree.c:167-188 | the special case of a successor that is the right child |
| RbExchange.AdjacentExchanges | src/rb_tree.c:167-188 | it exchanges the two places exactly as `swap_node` would |
| RbRemoval.GetMin | src/rb_tree.c:37-42 | the leftmost node below a node, found by pointers, is the leftmost of the tree represented |
| RbTheory.RemovedInorder | src/rb_tree.c:160-214 | for a node with zero, one or two children, adjacent successor or not, the in-order sequence loses exactly that node |
| RbTheory.RemovedRedBlack | src/rb_tree.c:160-214 | the tree after a removal is red-black if and only if the place that goes is not a black childless one hidden by a red sentinel |
| RbTheory.RemovedColors | src/rb_tree.c:160-214 | a removal whose vacated place can be repaired leaves a black root and no red node with a red child, in unbalanced trees too |
| RbTheory.RedBlackRemovable | src/rb_tree.c:160-214 | in a red-black tree every node's vacated place can be repaired, whatever the sentinel's colour |
| RbRemoval.Remove | src/rb_tree.c:160-214 | `rb_tree_remove` on pointers leaves the memory representing the tree `Removed` describes and the sentinel in the colour `NilAfterRemove`, from any tree, balanced or not, whose vacated place can be repaired over real brothers |
| RbHead.RbHead.constructor | src/rb_tree.c:148-158 | a one-node red-black tree, whatever the sentinel's colour |
| RbHead.RbHead.FindPlace | src/pcinfo_rb_tree.c:7-31 | the descent ends at the hole before which all pids are at most, and after which all pids are above, the new one |
| RbHead.RbHead.Insert | src/pcinfo_rb_tree.c:7-33 | the new in-order sequence is the old one with the node after every pid not greater than its own; links and parents are consistent, the root stays black and no red node gets a red child, also in a tree that is already unbalanced; a red-black tree stays one if and only if no red sentinel stood as uncle; the new tree and the sentinel's new colour are given exactly |
| RbHead.RbHead.Remove | src/rb_tree.c:160-214 | from any sorted tree whose colours fit, also one that a red sentinel has unbalanced, provided the repair meets real brothers only: the in-order sequence loses exactly the node, links, parents and colours stay right, the sentinel's new colour is given exactly; a red-black tree stays one if and only if the hole was not hidden by a red sentinel; a sentinel still red means a red-black tree, before and after |
| RbHead.BootSentinelBreaks | src/rb_tree.c:5 | a concrete run of Insert with the zeroed, hence red, sentinel: three ascending pids leave an unbalanced chain |
| RbHead.BootSentinelBreaksRemoval | src/rb_tree.c:212-213 | a concrete run for removal: inserting 2, 1, 3, 4 keeps the tree red-black and the sentinel red, removing 1 then leaves no red-black tree |
| RbHead.BootSentinelStopsRemoval | src/rb_tree.c:86-97 | a concrete run in which the condition of Remove fails: three ascending pids under the red sentinel, which turns black, and the last removed; the brother of the second is then the sentinel |
| RbHeight.HeightLogarithmic | src/pcinfo_rb_tree.c:35-56 | 2^height is at most (n + 1)^2 in every red-black tree of n nodes |
| RbHead.RbHead.Find | src/pcinfo_rb_tree.c:35-56 | a node with the pid if and only if there is one, in any sorted tree; in a red-black tree after at most 2 log2(n + 1) nodes looked at |
| RbWalk.Next | src/rb_tree.c:275-291 | the in-order successor, NULL at the last node |
| RbWalk.Prev | src/rb_tree.c:293-309 | the in-order predecessor, NULL at the first node |
| RbWalk.WalkAll | src/rb_tree.c:275-291 | repeated next from the first node visits every node once, in in-order sequence |
| RbWalk.NextThenPrev | src/rb_tree.c:275-309 | next and then prev come back to the node, unless it is the last |
| RbWalk.PrevThenNext | src/rb_tree.c:275-309 | prev and then next come back to the node, unless it is the first |
| BuddyBlocks.FreeDetermined | src/buddy.c:41-99 | what is handed out decides the free lists: they hold exactly the maximal aligned free blocks |
| BuddyBlocks.RunCovered | src/buddy.c:41-58 | every wholly free aligned run lies inside one listed block |
| BuddyBlocks.TakeKeeps | src/buddy.c:45-55 | handing a block out keeps the canonical form: free and outstanding blocks partition the managed pages, no two free buddies below the top |
| BuddyBlocks.SplitKeeps | src/buddy.c:56-69 | splitting an outstanding block keeps it |
| BuddyBlocks.GiveKeeps | src/buddy.c:79-88 | listing a returned block whose buddy is not free keeps it |
| BuddyBlocks.MergeKeeps | src/buddy.c:89-98 | merging with a free buddy keeps it |
| BuddyBlocks.BootCanonical | src/buddy.c:13-39 | blocks 1 to 14 of the top level are a canonical start |
| BuddyBlocks.AllBackIsBoot | src/buddy.c:72-99 | once everything is back the fourteen blocks are whole again |
| BuddyLevel.UnlinkedFromList | src/buddy.c:90-96 | a buddy unlinked from the middle or an end leaves a well-formed doubly linked list without it |
| BuddyLevel.Level.TakeFirst | src/buddy.c:45-54 | the first block leaves the list and the pair's bit follows |
| BuddyLevel.Level.AddRightHalf | src/buddy.c:59-68 | the right half joins the list and the pair's bit follows |
| BuddyLevel.Level.Return | src/buddy.c:77-97 | below the top the block merges exactly when its buddy is listed, as read off the single flipped bit; list, links and bits agree again |
| BuddyLevel.Level.OpenTop | src/buddy.c:23-38 | the top level starts with blocks 1 to 14 linked in order and the bits of the first and last pair set |
| BuddyAllocator.BuddySystem.constructor | src/buddy.c:13-39 | the allocator starts valid with nothing handed out and the fourteen blocks listed |
| BuddyAllocator.BuddySystem.GetAddressArea | src/buddy.c:41-70 | NULL with nothing changed if and only if the level is 15 or more or no aligned run of 2^n managed pages is wholly free; otherwise the address of such a run, now handed out: its 2^n * 4096 bytes lie between 0xc4000000 and 0xfc000000 and share none with what is out already, and it starts the first block listed at the lowest level that has one; every list, bit and the partition kept |
| BuddyAllocator.BuddySystem.FreeAddressArea | src/buddy.c:72-99 | exactly the block at that address and level stops being handed out, merging as far as it goes; every list, bit and the partition kept |
| BuddyAllocator.BuddySystem.TakeAndGiveBack | src/buddy.c:41-99 | taking an area and giving it back restores the same listed blocks, however deep the split |
| BuddyAllocator.BuddySystem.BitMeansHalfFree | src/buddy.c:79-80 | in every reachable state the bit of an outstanding block's pair says whether its buddy is listed |
| BuddyAllocator.BuddySystem.NothingOutIsBoot | src/buddy.c:72-99 | with nothing handed out the lists hold the fourteen top-level blocks |
| BuddyAllocator.AddressFits | src/buddy.c:54 | no managed address leaves 32 bits |
| BuddyAllocator.AddressRoundTrip | src/buddy.c:54-61 | the block computed back from an address is the block the address was made from |
| BuddyAllocator.AreaNested | src/buddy.c:54-61 | what a block covers lies inside its 2^n * 4096 bytes |
| BuddyAllocator.AreasApart | src/buddy.c:54 | two blocks neither of which covers the other share no byte |
| BuddyAllocator.AreaInside | src/buddy.c:32-38 | every managed block lies in the 14 top-level blocks, which fill the addresses from 0xc4000000 up to 0xfc000000 |
| BitmapTree.DownIsShiftSum | src/level_bitmap.c:20-37 | the word reached from the top by jump sizes is the one computed from below by a sum of shifts |
| BitmapTree.ClimbStep | src/level_bitmap.c:62-63 | one step of the climb goes to exactly the word the descent came from |
| BitmapTree.AncestorInside | src/level_bitmap.c:5-14 | every word met on the way to a bit, with its whole subtree, lies inside the words of the tree |
| BitmapTree.NodesApart | src/level_bitmap.c:5-41 | distinct nodes have distinct words: the words met at two levels on the way to two bits are the same if and only if the levels are and the bits agree above them |
| BitmapTree.EmptyIffNoBits | src/level_bitmap.c:44-67 | a word is zero if and only if no bit below it is set |
| BitmapTree.SetKeeps | src/level_bitmap.c:29-42 | setting keeps every interior bit equal to the non-emptiness of the subtree below it |
| BitmapTree.SetHas | src/level_bitmap.c:29-42 | setting adds exactly that bit to the set |
| BitmapTree.ClearKeeps | src/level_bitmap.c:44-67 | clearing keeps every interior bit equal to the non-emptiness of the subtree below it |
| BitmapTree.ClearHas | src/level_bitmap.c:44-67 | clearing removes exactly that bit from the set |
| LevelBitmap.EarlyStop | src/level_bitmap.c:59-65 | once a word on the way up stays non-zero, no word further up would change: the early end of the climb is sound |
| LevelBitmap.LevelBitmap.BitTest | src/level_bitmap.c:16-27 | non-zero if and only if the bit is in the set |
| LevelBitmap.LevelBitmap.BitSet | src/level_bitmap.c:29-42 | the set gains exactly the bit, the tree stays consistent, and the old bit is returned |
| LevelBitmap.LevelBitmap.BitClear | src/level_bitmap.c:44-67 | the set loses exactly the bit, the tree stays consistent, and the old bit is returned |
| LevelBitmap.LevelBitmap.GetMin | src/level_bitmap.c:69-85 | -1 if and only if the set is empty, otherwise its least element |
| LevelBitmap.LevelBitmap.GetMax | src/level_bitmap.c:87-103 | -1 if and only if the set is empty, otherwise its greatest element |
| BitmapCopy.TailEmpty | src/level_bitmap.c:107-113 | with no bit above count, every word after count's leaf word is zero: copying up to there copies everything |
| BitmapCopy.SpineSound | src/level_bitmap.c:114-119 | words of value 1 above a tree give a consistent tree if and only if the tree is not empty and nothing is set beside it, and then one over the same set |
| BitmapCopy.Lowered | src/level_bitmap.c:120-121 | when every bit fits, the first child n levels down holds the same set |
| LevelBitmap.Cpy | src/level_bitmap.c:105-122 | into a zeroed bitmap of any height whose range count is in: the copy is consistent if and only if it does not grow, or the source is not empty and the words copied from past the source's own are zero; and then it stands for the same set |
| BitmapCopy.GrowingEmptyBreaks | src/vfs.c:62 | the descriptor table's first growth, of an empty bitmap of level 0 to level 4 with a count of 9, leaves an inconsistent bitmap |
| BitmapCopy.GrowingPastRangeBreaks | src/vfs.c:62 | so does a growth with a count past the source's range when something is set beyond its one word |
| MinHeap.SiftDownKeeps | src/min_heap.c:12-29 | moving the hole down restores the order, keeps every value, and leaves INT_MAX in every slot past the end, although the loop reads one slot past it and the hole may go there |
| MinHeap.InitBuildsHeap | src/min_heap.c:6-32 | any array becomes a heap of the same elements |
| MinHeap.PushAdds | src/min_heap.c:34-48 | the heap gains exactly the value |
| MinHeap.PopRemoves | src/min_heap.c:50-75 | the heap loses exactly its root |
| MinHeap.RootLeast | src/min_heap.c:50-75 | the root is a least element |
| MinHeap.HeapSorts | src/min_heap.c:6-75 | init, then reading the root and popping until empty, yields the elements in order |
| MinHeap.Init | src/min_heap.c:6-32 | in place: order, elements and sentinels |
| MinHeap.Push | src/min_heap.c:34-48 | in place: order, elements and sentinels |
| MinHeap.Pop | src/min_heap.c:50-75 | in place: order, elements and sentinels, INT_MAX elements included |
| CircularList.Insert | src/circular_list.c:9-16 | the ring gains the node right after the position, the other nodes in order |
| CircularList.InsertedEnds | src/circular_list.c:9-16 | inserting at `head.pre`, the last node of the ring, appends, and inserting at the head prepends |
| CircularList.Remove | src/circular_list.c:18-22 | the ring loses exactly the node, whose own next pointer still leads on |
| CircularList.RemoveAgain | src/circular_list.c:18-22 | removing a node that is no longer linked joins its old neighbours again and drops exactly what has come between them; nothing when they are still adjacent |
| CircularList.IsInlist | src/circular_list.c:24-30 | 0 if and only if the node is in the list, -1 otherwise |
| CircularList.Size | src/circular_list.c:32-38 | the number of nodes |
| CircularList.IsEmpty | inc/circular_list.h:17-20 | whether there is none |
| Scheduler.EnqueueKeeps | src/sched.c:161-177 | queueing a blocked or new process keeps every list, count and time slice right |
| KernelRuns.WholeSlices | src/sched.c:106-177 | in every state of every run each runnable process in the expire queue has exactly one tick more than its level |
| KernelRuns.WakesWithSlice | src/sched.c:165-171 | a sleeper wakes with what it had left of its slice, or with one tick more than its level if that was nothing |
| KernelRuns.StepKeepsLevel | src/sched.c:99-277 | no step changes anybody's level |
| Scheduler.BlockKeeps | src/sched.c:179-186 | so does taking the current process out and marking it blocked, when nothing comes in between; `SleepDamage.StepConsistent` says what a tick there does |
| Scheduler.ScheduleKeeps | src/sched.c:99-159 | so does schedule, which dispatches the head of the lowest non-empty level and leaves the current process in the active queue |
| Scheduler.DispatchesRunnable | src/sched.c:127-140 | schedule dispatches a runnable process if and only if there is one; with nobody runnable it resumes process 1 |
| RunOrder.StepKeepsOrder | src/sched.c:99-186 | a step keeps the order of any two processes that stay in one level list |
| RunOrder.StepAppends | src/sched.c:111-177 | whoever a step puts into a level list comes after everyone who stays there |
| RunOrder.CallerGoesLast | src/sched.c:104-118 | whoever calls schedule, or is interrupted, comes after all others of its list, those woken by the same tick included |
| RunOrder.NoOvertaking | src/sched.c:99-186 | over every run: if x stands before p in a level list, of either queue, p is not dispatched before x |
| Instances.BlockedProcess1Resumes | src/sched.c:127-140 | a concrete case: process 1, alone after the start, goes to sleep and is resumed although it is blocked |
| Scheduler.EnterKeeps | src/sched.c:242-250 | a forked child enters with at least one tick, the parent keeps at least one |
| Scheduler.CopyKeeps | src/sched.c:200-216 | the copied child is in no list although its fields name one |
| Scheduler.ShareKeeps | src/sched.c:229 | the child's share, taken later with interrupts on, is at least one tick of what is then left |
| Forks.ForkCopies | src/sched.c:200-216 | the child is copied with its parent's level, and is in no list |
| Forks.ForkSharesSlice | src/sched.c:229-250 | with nothing in between, parent and child share the parent's ticks and lose none; with one tick left each gets one; the child has as many as the parent or one more, and joins the active queue |
| Forks.ForkTotal | src/sched.c:200-250 | a whole fork leaves the total outside the expire queue unchanged, but adds one tick when the parent has one left |
| Epochs.ScheduleCosts | src/sched.c:99-125 | a schedule that does not swap uses up exactly one tick of the total outside the expire queue |
| Epochs.EnqueueFree | src/sched.c:161-177 | waking up leaves that total unchanged |
| Epochs.BlockFree | src/sched.c:179-186 | going to sleep leaves it unchanged |
| Epochs.ReadyHoldsSwap | src/sched.c:119-125 | the queues do not swap while a process of the active queue has not been dispatched |
| KernelState.Kernel.InSchedQueue | src/sched.c:161-177 | the state becomes `Enqueue` of it |
| KernelState.Kernel.Schedule | src/sched.c:99-159 | the state becomes `Schedule` of it; the loop from level 15 down ends with the head of the lowest non-empty level |
| KernelState.Kernel.SysYield | src/sched.c:294-297 | every invariant kept; the next state as specified |
| KernelState.Kernel.ForkCopy | src/sched.c:200-216 | every invariant kept; the next state as specified |
| KernelState.Kernel.ForkShare | src/sched.c:229 | every invariant kept; the next state as specified |
| KernelState.Kernel.ForkFails | src/sched.c:231-240 | when `mem_fork` or `fd_fork` fails nobody holds the child any more; every invariant kept |
| Forks.DroppedForGood | src/sched.c:231-240 | over every run: after that the child never enters and is in no run queue |
| KernelState.Kernel.ForkEnter | src/sched.c:242-250 | the child enters, by its parent alone; every invariant kept; the next state as specified |
| KernelState.Kernel.DoTimer | src/sched.c:255-277 | every invariant kept; all due sleepers wake in bucket order, in batches of 32, before schedule |
| KernelState.Kernel.constructor | src/sched.c:48-97 | the state after boot is valid and matches the frame descriptors if and only if there is room above the kernel |
| TimeWheel.DueIsDeadline | src/wait.c:41-58 | those a tick takes from its bucket are exactly the sleepers whose deadline is that tick, whatever other turns of the wheel share the bucket |
| TimeWheel.SharedBucket | src/wait.c:10 | two deadlines share a bucket if and only if they are whole turns of 512 ticks apart |
| TimeWheel.BatchSplits | src/wait.c:41-58 | batch after batch takes what is due in order, and a batch that is not full was the last |
| TimeWheel.TurnKeeps | src/sched.c:264-273 | after the wake loop every sleeper is in the bucket of its deadline, which has not come |
| TimeWheel.SleepKeeps | src/wait.c:34-39 | a sleeper with a delay of at least one tick joins the right bucket |
| TimeWheel.WaitKeeps | src/wait.c:22-26 | a process that waits without a deadline joins the wait list and nothing else |
| TimeWheel.WakeupKeeps | src/wait.c:28-32 | a woken waiter leaves the wait list and is runnable |
| KernelState.Kernel.ReadyProcesses | src/wait.c:41-58 | fills the array with the first due sleepers of the bucket, at most max, and removes exactly these |
| KernelState.Kernel.SysTsleep | src/wait.c:60-69 | undisturbed, every invariant kept and the next state as specified; disturbed calls are those of module SleepWindow |
| Semaphores.UpKeeps | src/ksemaphore.c:14-30 | after an up no one waits or the first waiter wants more than the surplus; every invariant kept |
| Semaphores.JoinKeeps | src/ksemaphore.c:46-52 | a blocked caller joins the line last and is in the wait list, no run queue |
| KernelState.Kernel.KSemaphoreUp | src/ksemaphore.c:14-30 | the loop grants as `Up` says |
| KernelState.Kernel.KSemaphoreDown | src/ksemaphore.c:32-52 | immediate grant, whatever the timeout, if and only if enough is left and no one waits; otherwise a try fails with nothing changed, and a caller without or with a timeout joins the line and the wait list or the wheel |
| TimedWaits.TimedOutStaysInLine | src/ksemaphore.c:46-57 | a waiter granted nothing in time runs again exactly at its deadline with its demand unmet, and still stands in the line; if it is first there, every later up large enough for it fails the assertion in `kwakeup` |
| KernelState.Kernel.SemUp | src/ksemaphore.c:14-30 | every invariant kept; the next state as specified |
| KernelState.Kernel.SemDown | src/ksemaphore.c:32-58 | every invariant kept; the next state as specified |
| GrantHistory.ServedFirst | src/ksemaphore.c:17-29 | an up serves a prefix of the line, in order, and lowers the surplus by what it serves |
| GrantHistory.FirstComeFirstServed | src/ksemaphore.c:14-58 | over every run: the line at the start followed by the arrivals is those served followed by the line at the end; surplus at the start plus all ups is the surplus at the end plus all demands granted |
| GrantHistory.NoBarging | src/ksemaphore.c:35-39 | whoever is granted at once comes after everybody who came before has been served |
| GrantHistory.ResumesGranted | src/ksemaphore.c:53-55 | whenever a process that joined the line runs again, its demand has been granted and set to zero, so the call succeeds |
| Semaphores.TakeUpKeeps | src/mem.c:130-142 | a process granted a frame finds the free list non-empty when it resumes |
| Semaphores.GetNowKeeps | src/mem.c:130-142 | so does one that did not wait; no frame is listed and handed out at once |
| Semaphores.GiveBackKeeps | src/mem.c:144-151 | a frame given back is listed again, the waiter it serves is granted it |
| KernelSteps.CountMatchesSurplus | src/mem.c:211-222 | the check of the list's length against the surplus holds if and only if no grant is waiting to be taken up |
| Instances.GrantCanBePending | src/mem.c:211-222 | a run from the start to a state with a grant pending, where the check would fail |
| FrameTable.Frames.constructor | src/mem.c:36-82 | the loops stay inside the table; the list they leave is a sound chain of free frames if and only if the kernel fills the pages up to 2M and a page is left above it, and then it runs through the frames below 640K and those above the kernel, skipping every reserved one; its length is the semaphore's first surplus |
| FrameTable.Frames.Pop | src/mem.c:134-141 | the head leaves the chain |
| FrameTable.Frames.Push | src/mem.c:147-149 | the frame becomes the head of the chain |
| FrameTable.Frames.Count | src/mem.c:213-219 | the walk counts the chain |
| KernelState.Kernel.GetOneFreePage | src/mem.c:130-142 | a frame off the list when one is to be had, otherwise the caller waits; every invariant kept |
| KernelState.Kernel.ResumeGetPage | src/mem.c:130-142 | the rest of it after a wait; the list is not empty |
| KernelState.Kernel.FreeOnePage | src/mem.c:144-151 | the frame joins the list and the first waiter is granted; every invariant kept |
| KernelState.Kernel.GetFreeMemSize | src/mem.c:211-222 | 4096 times the number of free frames, the check holding with no grant pending |
| KernelSteps.NextKeeps | src/sched.c:99-277 | every step of the system - tick, yield, sleep, up, down, frame operations, the parts of fork - keeps every invariant, and no frame appears or disappears; sleep is one step here, which `SleepRuns.CleanRunRefines` justifies for runs without a tick inside it |
| KernelSteps.EnabledDefined | src/sched.c:161-186 | no enabled step fails an assertion of the source, links a node that is linked or removes one that is not |
| KernelSteps.OnePlaceEach | src/sched.c:99-186 | in every valid state each process is in exactly one place: a runnable one in the one list of the queue and level it names, a blocked one in the wait list or in the bucket of its deadline |
| KernelSteps.BootValid | src/sched.c:83-97 | they hold at the start |
| KernelRuns.RunStaysValid | src/sched.c:99-277 | hence in every state of every run of those steps |
| KernelRuns.StepCosts | src/sched.c:99-125 | without forks and swaps the total falls by one for each call of schedule in a step |
| KernelRuns.EpochBound | src/sched.c:99-125 | between two swaps there are at most 16 calls of schedule for each process |
| KernelRuns.EpochEnds | src/sched.c:119-125 | after more calls than that the queues have swapped |
| KernelRuns.ServedBeforeSwap | src/sched.c:119-140 | whoever is in the active queue is dispatched before the swap |
| KernelRuns.NoStarvation | src/sched.c:99-159 | a runnable process is dispatched within 32 calls of schedule for each process, whatever the others do |
| KernelRuns.StepAndSleeper | src/wait.c:41-58 | a step wakes a sleeper if and only if it is the tick of its deadline |
| KernelRuns.WakesOnTime | src/wait.c:34-58 | over every stretch of a run a sleeper stays asleep until, and is runnable right after, the tick that brings the clock to its deadline |
| KernelRuns.SleepEntersWheel | src/wait.c:34-39 | `sys_tsleep(n)` puts its caller in the wheel with its deadline n ticks away |
| KernelRuns.SleepsForTicks | src/wait.c:34-69 | so whoever calls `sys_tsleep(n)` sleeps through fewer than n ticks and is runnable right after the n-th |
| UntimedSleep.SleepsForever | src/wait.c:60-69 | over every run: whoever calls `sys_tsleep(0)` is in the wait list, in no semaphore's line and not runnable in every later state, and is never dispatched again |
| UntimedWindow.NeverWokenAfter | src/wait.c:60-69 | the same of the call taken apart: after its last store the caller is in the wait list and in no bucket and no line ever after, and in a clean run in no run queue either |
| WakeOrder.SleeperGoesFirst | src/wait.c:34-39 | whoever goes to sleep comes before everyone in its bucket |
| WakeOrder.StepKeepsBuckets | src/wait.c:34-58 | a step keeps the order of any two processes that stay in one bucket |
| WakeOrder.TickWakesInOrder | src/sched.c:266-273 | two sleepers that a tick puts into one level list stand there in the order of their bucket |
| SleepWindow.CleanMoveRefines | src/wait.c:60-69 | with `sys_tsleep` taken apart into its stores: a move other than a tick between those of one call keeps everything consistent and is one step, or none, of the step system |
| SleepDamage.TickHarms | src/wait.c:60-69 | a tick right after the caller has left its run queue lists it again, so that it will sleep there; a tick after its state is set leaves it in no list at all |
| SleepDamage.TickDropsWoken | src/sched.c:107-117 | a sleeper woken by the tick right after the caller has left its run queue is dropped from that queue again if and only if it is put into the list that the caller was the last of |
| SleepDamage.StepConsistent | src/wait.c:60-69 | a move from a consistent state leads to a consistent state if and only if it is not such a tick |
| SleepDamage.DamageStays | src/wait.c:60-69 | the damage is for good: whoever is blocked and listed stays so, and whoever is in no list is never woken or dispatched |
| SleepRuns.TickAlwaysPossible | src/sched.c:255-277 | a tick can come in every consistent state, inside a window too |
| SleepRuns.ConsistentIffClean | src/wait.c:60-69 | after every run of moves the invariants hold if and only if no tick fell into a window |
| SleepRuns.CleanRunRefines | src/wait.c:60-69 | every run without such a tick is a run of the step system with the same visible actions, so that what is proved of those holds of it |
| SleepRuns.Undisturbed | src/wait.c:60-69 | undisturbed, the moves of a call are all possible and come to its step |
| WindowInstances.SleeperListed | src/wait.c:62-66 | a run from the start, with a tick right after `out_sched_queue`, to a state in which a process sleeps in the wheel and stands in a run queue |
| WindowInstances.SleeperLost | src/wait.c:36-38 | a run from the start, with a tick right after the state is set, to a state in which a process is in no list at all |

## Left out

- `src/kmutex.c`, `src/kcond.c`: the same unlocked window as in `sys_tsleep`, and waiters that stay linked after a timeout; a timed semaphore wait is followed to its deadline in `TimedWaits`, not through the runs of the step system, whose invariants it breaks.
- `src/slab.c`, `src/block_buffer.c`, `src/block_driver.c`, `src/blkbuffer_rb_tree.c`: unfinished, or their intended invariants do not hold as written.
- Copy-on-write and page tables of `src/mem.c`, descriptor growth in `src/vfs.c`, interrupts, port I/O, the context switch, all assembly: hardware, or easy claims only.
- `getonefreepage_unblocking` and the persisted memory of `src/mem.c`: used while booting only.
- Level counts (`sched_level_desc_t.count`) and the counter of `task_locker`: the first is never used, the second decides which parts are steps.
- `level_bitmap_batch_set`: a loop over `level_bitmap_bit_set`.
- KernelState.Kernel.ForkShare: the slice is read once, at the moment of the share.
- Forks.ForkSharesSlice: ticks that come between the two shares are spent from the parent's before it is halved.
- KernelState.Kernel.KSemaphoreDown: ends where a blocked caller gives up the processor; what it finds when it runs again is `GrantHistory.ResumesGranted` or `TimedWaits.TimedOutStaysInLine`. `last_errno` is not modelled.
- KernelState.Kernel.SemDown: the step system has no wait with a timeout, since a waiter that times out stays in line and breaks its invariants (`TimedWaits.TimedOutStaysInLine`).
- KernelState.Kernel.SysTsleep: runs undisturbed; ticks between its stores are in module SleepWindow. The wrap of the 32-bit tick counter is not modelled.
- SleepRuns.ConsistentIffClean: the four stores of `circular_list_insert` are one move, and after a tick in a window runs are followed only as far as no assertion of the source fails, no slice underflows, and no node is linked that is linked already (`KernelSteps.Defined`).
- SleepDamage.DamageStays: the same.
- KernelState.Kernel.ReadyProcesses: walks a sequence; that the removed node's own next pointer still leads on is `CircularList.Remove`.
- KernelRuns.NoStarvation: speaks of runs without fork, since a child brings its own ticks.
- RbHead.RbHead.Insert: the tree is not empty, as in the source, which reads the root's pid at once.
- RbHead.RbHead.Remove: where the repair would meet the sentinel as a brother (`RbTheory.StuckAt`) the source follows NULL, and nothing is said of what comes after.
- LevelBitmap.Cpy: the words read exist (`src/level_bitmap.c:107-113` does not ask), and count is in the destination's range, past which the source writes outside the destination.
- FrameTable.Frames.constructor: more than 512 pages, and no more used than there are, else `init_mem_desc` writes outside its table.
- MinHeap.Init: the do-while loop of the source is the loop `Sift` shares with pop; its condition holds on entry.
