# A verified model of the RT-Thread 2.1.0 kernel core

This project models, in Dafny, the parts of the RT-Thread kernel whose correctness is
hardest to see, and proves what they promise:

- the timer skip list with its wrapping 32-bit ticks (`src/timer.c`, `src/clock.c`);
- three allocators: memheap (`src/memheap.c`), the small heap (`src/mem.c`) and the
  slab allocator with its page list (`src/slab.c`);
- semaphore, mutex with priority inheritance, event flags, mailbox and message queue
  (`src/ipc.c`), as state machines over interleaved threads, interrupts and timeouts;
- the ready queues, the priority bitmap, dispatch and time slices (`src/scheduler.c`,
  `src/thread.c`, `src/kservice.c`);
- the finsh compiler and its byte-code machine (`components/finsh`).

Every section that the source runs with interrupts disabled is one atomic step.
Addresses are integers and pointers in memory are maps from address to address, so
that a store is a map update and aliasing between lists is the aliasing of the source.
Integer width is written out where it matters: ticks, `rt_size_t`, the 16-bit semaphore
value, the 8-bit hold count, the 32-bit stack cells of finsh.

## How it is built

Each component has the same three layers.

1. A value model of what an operation does (`...Spec`, `Next`, `Step`): sequences, maps
   and sets instead of links.
2. Lemmas about that model: what each operation keeps, when it fails, what it returns
   and what it changes, told without its definition (`...Answers`, `...Returns`,
   `...Calls`), and the same over every run (`StepInv`, `RunInv`, `...Iff`).
3. The code as it stands in the source: methods with the source's loops that read and
   store links, counters and headers, each proved to compute the value model, and a
   class that holds the fields.

| part | files |
|---|---|
| lists | `RtList`, `Chains`, `IpcList`, `Options` |
| timers | `TimerSpec`, `TimerCalls`, `TimerRuns`, `TimerBeats`, `TimerEnds`, `TimerRow`, `Timer`, `TimerSystem` |
| heaps in common | `MachineWord`, `Tiling`, `Payload`, `Sums` |
| memheap | `MemHeapSpec`, `MemHeapOps`, `MemHeapFree`, `MemHeapRealloc`, `MemHeapFrame`, `MemHeapRuns`, `MemHeapLives`, `MemHeap` |
| small heap | `SmallHeapSpec`, `SmallHeapOps`, `SmallHeapShrink`, `SmallHeapTrip`, `SmallHeapFrame`, `SmallHeapRealloc`, `SmallHeapRuns`, `SmallHeapLives`, `SmallHeapMark`, `SmallHeap` |
| slab | `PageList`, `PageRuns`, `PageHeap`, `ZoneSizes`, `SlabZone`, `SlabSpec`, `SlabPlace`, `SlabChunks`, `SlabPages`, `SlabOps`, `SlabRuns`, `SlabMemory`, `SlabHeap` |
| ipc | `Semaphore`, `MutexSpec`, `MutexCalls`, `MutexInherit`, `MutexUrgent`, `MutexFlat`, `MutexBase`, `MutexWitness`, `Mutex`, `EventFlags`, `EventCalls`, `EventObject`, `MailboxSpec`, `Mailbox`, `MsgQueueSpec`, `MsgQueueCalls`, `MsgQueue`, `MsgQueueWait` |
| scheduler | `Bits`, `ReadyIndex`, `Scheduler`, `StaleMasks`, `Dispatch`, `SchedulerCalls`, `DispatchRuns`, `RoundRobin`, `ReadyQueues`, `SchedulerObject` |
| finsh | `FinshWords`, `FinshCode`, `FinshCompiler`, `FinshSource`, `FinshCorrect`, `FinshDropped`, `FinshMachine` |

`dafny verify dfyconfig.toml` covers the whole project.

## Findings

Properties that a reader of the source or its comments would expect and that do not
hold everywhere. The model keeps the code as it is; the third column names the lemma
that says exactly when the property holds, the second an input where it does not.

| property | where it fails | holds exactly when |
|---|---|---|
| a timer is linked if and only if it is ACTIVATED (src/timer.c:525-537) | `TimerRuns.SelfRestartWitness`: a one-shot timer restarted by its own callback | `TimerRuns.FireCoherentIff`, `TimerRuns.CheckCoherentIff`, `TimerRuns.RunCoherentIff`: every one-shot timer that a check fires and that restarts itself is started again by a later callback of the same check |
| `rt_timer_check` ends (src/timer.c:501-541) | `TimerEnds.ZeroPeriodWitness`: a due periodic timer with `init_tick` 0; it does end where another due timer stops it (`TimerEnds.StoppedWitness`) | `TimerEnds.CheckEndsIff`: no timer fired in the first pass has a period of 0, stays armed and is stopped by none of those that fire |
| the wrapping comparisons agree with unbounded time (src/timer.c:356-363, src/timer.c:510) | `Timer.HalfTurnWitness`: deadlines half a turn apart | `Timer.Later32Iff`, `Timer.Reached32Iff`: the difference lies in a window of half a turn |
| growth in place keeps the pool intact (src/memheap.c:354) | `MemHeapRealloc.WrapPasses`: sizes within 12 bytes of 2^32, where the guard wraps | `MemHeapRealloc.GrowLayoutIff`, `MemHeapRuns.StepInvIff`, `MemHeapRuns.RunInvIff`: the rounded size plus 12 is below 2^32 |
| a block of `rt_memheap_alloc` or `rt_memheap_realloc` holds the bytes asked for (src/memheap.c:155, src/memheap.c:305) | `MemHeapRuns.RoundedAway`: 2^32 - 1 bytes are met with twelve | `MemHeapOps.RequestIff`, `MemHeapRuns.AllocHoldsIff`, `MemHeapRuns.ReallocHoldsIff`: the size is at most 2^32 - 4 |
| a block of `rt_malloc` or `rt_realloc` holds the bytes asked for (src/mem.c:263, src/mem.c:396) | `SmallHeapRuns.RoundedAway`: 2^32 - 1 bytes are granted by a heap of 60 | `SmallHeapRuns.MallocHoldsIff`, `SmallHeapRuns.ReallocHoldsIff`: rounding does not wrap |
| `rt_malloc` finds a free block that is large enough (src/mem.c:279-285) | `SmallHeapRuns.WholeHeapRefused`: an exact fit in the last block | `SmallHeapOps.MallocFailsIff`, `SmallHeapOps.MallocFailsLowest` |
| `lfree` is the lowest free block (src/mem.c:431-455) | `SmallHeapRuns.BuriedBlock`, reached from a fresh heap by `SmallHeapRuns.FullReached` | `SmallHeapShrink.ShrinkLowestIff`, `SmallHeapRuns.StepLowestIff`, `SmallHeapRuns.RunLowestIff`: no shrink whose cut-off tail lies below `lfree` |
| power-of-two sizes are aligned to their size (src/slab.c:162-163) | `SlabRuns.Misaligned`: 8192 bytes on a heap that starts at an even page | `SlabRuns.AlignedIff`: the run of pages the request will be served from, read off the state before the call, starts at a multiple of the size; `SlabRuns.FromLowest` says which run that is; up to one page always (`SlabRuns.SmallAligned`) |
| `malloc(0)` returns a block (src/slab.c:164) | the code returns RT_NULL (src/slab.c:496) | `SlabOps.MallocFailsIff` follows the code |
| value, owner and hold of a mutex agree (src/ipc.c:667-671) | `MutexWitness.HoldWraps`: the 256th nested take wraps the 8-bit hold count | `MutexSpec.StepWellformedIff`: the call is not that take |
| a thread that owns no mutex is at its base priority (src/ipc.c:811-817) | `MutexWitness.OutOfOrder`, reached by `MutexWitness.CrossedReached` | `MutexBase.StepBaseIff`, `MutexBase.RunBaseIff`: every thread that lets go of its only mutex had become its owner at the base priority |
| the base priority of a thread is kept in place, in the thread while it owns nothing and else in its oldest mutex (src/ipc.c:683-684, src/ipc.c:811-817) | the same release; the thread can be back at its base later on, as `MutexWitness.Regained` shows | `MutexInherit.ReleaseNestedIff`, `MutexInherit.StepNestedIff`, `MutexInherit.RunNestedIff`: no release of the oldest mutex while the next one remembers a boosted priority |
| the owner of a mutex is at least as urgent as its waiters (src/ipc.c:706-713, src/ipc.c:820-839) | `MutexWitness.FifoHandOff`, `MutexWitness.BoostStops`, `MutexWitness.InnerReleaseDrops` (reached by `MutexWitness.StackedReached`), `MutexWitness.QueueNotResorted` (reached by `MutexWitness.OwnedReached`, `MutexWitness.FirstWaits`, `MutexWitness.QueuedReached`) | `MutexUrgent.HandOffUrgentIff`, `MutexUrgent.StepUrgentIff`, `MutexUrgent.RunUrgentIff`; without nesting `MutexFlat.RunFlatIff` |
| a release of a semaphore is never lost (src/ipc.c:459) | `Semaphore.OverflowWitness`: a release at 65535 with nobody waiting | `Semaphore.RunConservesIff`: no release overflows |
| the running thread is the most urgent one after a change of priority or a detach (src/thread.c:485-526, src/thread.c:245-277) | `DispatchRuns.PairWitness`: neither call reschedules | `Dispatch.ChangeAtHeadIff`, `Dispatch.DetachAtHeadIff`, and over every run `DispatchRuns.RunSettledIff`: each of them leaves the current thread the most urgent ready one; only what came after the last reschedule counts (`DispatchRuns.SinceReschedule`) |
| detaching a thread keeps the priority bitmap exact (src/scheduler.c:337-349) | `StaleMasks.StaleDetach`: a thread never started, in memory with old masks | `StaleMasks.DetachEarlyIff`: its queue is not empty or its masks name no ready priority |
| the compiled code computes the value of the expression (components/finsh/finsh_compiler.c:791-795) | `FinshDropped.CallLeftBroken`, `FinshDropped.CallTopBroken`: a call where an operator looks for its data type loses the operator | `FinshCorrect.CompilesFullyIff` for the code; `FinshDropped.CompiledRightIff` for the value: no two-operand operator begins with a call, and the `~` and `*` applied to calls make no difference, as in `FinshDropped.HarmlessWitness` |

## Model

| member | source | states |
|---|---|---|
| `RtList.InsertAfterRing` | include/rtservice.h:62-69 | the four stores put the new node right behind the k-th node of the ring, next and prev inverse throughout |
| `RtList.InsertBeforeRing` | include/rtservice.h:77-84 | the four stores before the first node append at the end of the ring |
| `RtList.RemoveRing` | include/rtservice.h:90-96 | removing a node closes the ring around it and leaves the node linked to itself |
| `IpcList.SuspendedSorted` | src/ipc.c:99-132 | under RT_IPC_FLAG_PRIO a suspended thread goes behind all waiters at least as urgent, so the queue stays sorted |
| `IpcList.SuspendedJoins` | src/ipc.c:92-135 | a suspended thread joins the others, who keep their order: last under FIFO, else behind all at least as urgent and before the rest |
| `IpcList.Suspend` | src/ipc.c:92-135 | the loop over the linked list of waiters inserts exactly at that place, in either waiting order |
| `IpcList.Resume` | src/ipc.c:146-159 | the first waiter leaves the ring |
| `IpcList.ResumeAll` | src/ipc.c:169-197 | the loop takes every waiter off the ring, first to last, and leaves each with the code of a reset |
| `TimerSpec.CheckFiresExactly` | src/timer.c:488-546 | one check fires exactly the timers that are due, in deadline order with ties in start order, each once, except those an earlier callback of the same check restarted or stopped |
| `TimerSpec.CheckLeavesFuture` | src/timer.c:488-546 | afterwards every pending deadline lies in the future |
| `TimerSpec.FireDrains` | src/timer.c:510-538 | one turn of the loop takes off the due list the fired timer and what its callback touches, nothing else, so the list gets shorter |
| `TimerCalls.StartQueues` | src/timer.c:294-409 | after a start the timer is ACTIVATED, due after its period, once in the list and behind all that are not due later; the others keep their order |
| `TimerCalls.StopUnqueues` | src/timer.c:419-442 | after a stop exactly that timer is off the list and no longer ACTIVATED; a timer that is not ACTIVATED is refused and nothing changes |
| `TimerCalls.ControlSets` | src/timer.c:454-480 | period and mode are the new ones, the list stays, and a start after it is due after the new period |
| `TimerCalls.FireRearms` | src/timer.c:510-538 | a periodic timer that its callback leaves armed is due again a period from now; any other is not ACTIVATED afterwards |
| `TimerRuns.FireCoherentIff` | src/timer.c:525-537 | a firing keeps "linked if and only if ACTIVATED" exactly when the timer is periodic or its callback does not leave it started |
| `TimerRuns.CheckAstray` | src/timer.c:488-546 | which timers are linked without ACTIVATED after a check, told by the list of those it fires: a one-shot timer that restarts itself, until a later callback starts or stops it |
| `TimerRuns.CheckCoherentIff` | src/timer.c:488-546 | a whole check keeps "linked if and only if ACTIVATED" exactly when that leaves none |
| `TimerRuns.RunCoherentIff` | src/timer.c:294-546 | the same all along every run of starts, stops, controls and ticks, in both directions |
| `TimerRuns.StepBetween` | src/timer.c:294-546 | start, stop, control and tick keep the state in which every pending deadline is at most the slack late |
| `TimerRuns.RunOnTime` | src/clock.c:83-105 | over every run of starts, stops, controls and ticks no timer fires early, none more than one tick late, and none late at all without zero periods |
| `TimerBeats.RunBeats` | src/timer.c:488-546 | over every run, whatever happens to other timers, a timer that nobody starts, stops or controls fires exactly at its deadline and, if periodic, at every period after it: no firing early, late, missed or made twice |
| `TimerRuns.SelfRestartWitness` | src/timer.c:525-537 | a one-shot timer restarted by its own callback ends up linked and not ACTIVATED |
| `TimerEnds.CheckEndsIff` | src/timer.c:501-541 | the loop ends after some number of turns if and only if no timer fired in its first pass has a period of 0, stays armed, and is stopped by none of those that fire |
| `TimerEnds.ZeroPeriodWitness` | src/timer.c:525-532 | a due periodic timer with a period of 0 that nothing stops keeps the loop going for any number of turns |
| `TimerEnds.StoppedWitness` | src/timer.c:501-541 | the same timer, stopped by the callback of another due timer, and the loop ends |
| `Timer.Later32Iff` | src/timer.c:356-363 | the comparison of the search agrees with unbounded time exactly in a window of half a turn |
| `Timer.Reached32Iff` | src/timer.c:506-510 | so does the comparison of the check |
| `Timer.HalfTurnWitness` | src/timer.c:356-363 | half a turn apart both comparisons give the wrong answer |
| `Timer.SearchRow` | src/timer.c:342-364 | the walk along one row stops behind the last timer that is not due later |
| `Timer.LinkAll` | src/timer.c:339-388 | for any number of levels, search and insertion put the timer where a linear insert behind all earlier or equal deadlines would |
| `Timer.UnlinkAll` | src/timer.c:123-131 | the loop takes the timer out of every row and out of the list of pending timers |
| `Timer.DoStart` | src/timer.c:294-409 | rt_timer_start computes the start of the plain sorted list in unbounded time |
| `Timer.DoStop` | src/timer.c:419-442 | rt_timer_stop takes the timer off, or refuses one that is not ACTIVATED |
| `Timer.DoControl` | src/timer.c:454-480 | the period and the one-shot or periodic flag change, nothing else |
| `Timer.DoFire` | src/timer.c:510-538 | one turn of the loop computes one firing of the plain list |
| `Timer.DoCheck` | src/timer.c:488-546 | the loop over the skip list computes the check of the plain list |
| `Timer.FirstPending` | src/timer.c:110-121 | the first node of the bottom row is the timer with the earliest deadline |
| `Timer.RowsAreSubsequences` | src/timer.c:339-388 | every row is the row below it with timers left out, in the same order |
| `TimerSystem.Timers.constructor` | src/timer.c:82-107 | an empty list of every level, no timer pending |
| `TimerSystem.Timers.Start` | src/timer.c:294-409 | the object after a start, tied to the plain list |
| `TimerSystem.Timers.Stop` | src/timer.c:419-442 | the object after a stop, tied to the plain list |
| `TimerSystem.Timers.Control` | src/timer.c:454-480 | the object after a change of the period |
| `TimerSystem.Timers.TickIncrease` | src/clock.c:83-105 | the tick advances, wrapping, and the check fires what is due |
| `TimerSystem.Timers.NextTimeout` | src/timer.c:110-121 | the timeout tick of the earliest timer, RT_TICK_MAX for an empty list |
| `MemHeapOps.RequestIff` | src/memheap.c:155-157 | rounding up covers the request exactly up to 2^32 - 4, and rounding twice changes nothing |
| `MemHeapOps.RequestTight` | src/memheap.c:155-157 | and exceeds it by less than four bytes, unless it is the least size |
| `MemHeapOps.NoWrap` | src/memheap.c:190-200 | a request below available_size cannot wrap in the split test |
| `MemHeapFrame.AllocFails` | src/memheap.c:162-190 | an aligned request fails exactly when it is not below available_size or no free item holds it, and then changes nothing |
| `MemHeapFrame.AllocReturns` | src/memheap.c:146-288 | the block returned was not live, holds the request, and every live block keeps its place, size and bytes |
| `MemHeapFrame.FreeKeeps` | src/memheap.c:499-596 | freeing a block keeps every other live block |
| `MemHeapFrame.BlocksApart` | src/memheap.c:60-131 | the payloads of two live blocks do not overlap |
| `MemHeapFrame.ResizeFails` | src/memheap.c:291-496 | realloc fails only where it has to move and alloc fails, and then changes nothing |
| `MemHeapFrame.ResizeReturns` | src/memheap.c:291-496 | otherwise the block holds the request and the first min(old, new) bytes, and every other live block is kept |
| `MemHeapRealloc.GrowLayoutIff` | src/memheap.c:338-407 | growth in place keeps the items tiling the pool if and only if the rounded size plus 12 is below 2^32 |
| `MemHeapRealloc.WrapPasses` | src/memheap.c:354 | where it wraps the guard always lets a block of at least 12 bytes through |
| `MemHeapRealloc.BehindWraps` | src/memheap.c:374-391 | and the new header falls into the header of the block itself |
| `MemHeapRuns.FreshInv` | src/memheap.c:60-131 | rt_memheap_init leaves one free item before the used tailer |
| `MemHeapRuns.StepInvIff` | src/memheap.c:146-596 | for any size, an operation keeps tiling, free ring, coalescing and available_size if and only if it does not overrun |
| `MemHeapRuns.RunInvIff` | src/memheap.c:146-596 | the same along every run of alloc, realloc and free, in both directions |
| `MemHeapRuns.RunKeeps` | src/memheap.c:146-596 | a block that no operation of the run was handed keeps its size and bytes |
| `MemHeapRuns.StoredStays` | src/memheap.c:146-596 | what an owner stores in its block it finds again after any run of operations on other blocks |
| `MemHeapRuns.RunMark` | src/memheap.c:238-249 | max_used_size is exactly the high-water mark of pool_size - available_size over the run |
| `MemHeapRuns.FreeReturns` | src/memheap.c:537-596 | after free, and after realloc to 0, the block is not live, the live set is the old one without it, all its addresses lie in one unused item, and available_size has grown by its size and a header for each free neighbour |
| `MemHeapRuns.AllocRefusedIff` | src/memheap.c:155-190 | alloc, and realloc of RT_NULL, is refused if and only if the rounded size is not below available_size or no free item holds it; then nothing changes |
| `MemHeapRuns.ReallocRefusedIff` | src/memheap.c:291-496 | realloc of a block is refused if and only if it can neither stay nor grow in place and alloc is refused; then nothing changes |
| `MemHeapRuns.AllocFree` | src/memheap.c:146-596 | freeing the block just returned restores the items, their flags and available_size |
| `MemHeapRuns.AllocHoldsIff` | src/memheap.c:146-288 | the block rt_memheap_alloc returns holds the bytes asked for if and only if the size is at most 2^32 - 4 |
| `MemHeapRuns.ReallocHoldsIff` | src/memheap.c:291-496 | so for rt_memheap_realloc, where its test does not wrap |
| `MemHeapRuns.RoundedAway` | src/memheap.c:155-157 | a request for 2^32 - 1 bytes is met with a block of twelve |
| `MemHeapLives.AllocTight` | src/memheap.c:190-283 | the block of alloc is the rounded request or an item too small to be cut |
| `MemHeapLives.ResizeTight` | src/memheap.c:291-496 | the block of realloc has the rounded request and at most the least item more |
| `MemHeapLives.StepLives` | src/memheap.c:146-596 | an operation makes live exactly the block it returns and frees exactly the block it takes back |
| `MemHeapLives.RunLives` | src/memheap.c:146-596 | after every run exactly the blocks handed out and not taken back are live |
| `MemHeap.FindFit` | src/memheap.c:177-187 | the loop over the free ring finds the first item that is large enough |
| `MemHeap.DoAlloc` | src/memheap.c:162-288 | the links and counters after the split and the whole-block branch |
| `MemHeap.DoFree` | src/memheap.c:526-596 | the links and counters after left, right, double and no merge |
| `MemHeap.DoGrow` | src/memheap.c:354-406 | the links after growth over the successor |
| `MemHeap.DoShrink` | src/memheap.c:437-489 | the links after a shrink, with and without merging the tail |
| `MemHeap.DoResize` | src/memheap.c:309-496 | rt_memheap_realloc of a live block, every branch |
| `MemHeap.Pool.constructor` | src/memheap.c:60-131 | the pool object after init |
| `MemHeap.Pool.Alloc` | src/memheap.c:146-288 | the pool object after alloc is the value model of it |
| `MemHeap.Pool.Free` | src/memheap.c:499-596 | the pool object after free is the value model of it; MemHeapRuns.FreeReturns says what that frees |
| `MemHeap.Pool.Realloc` | src/memheap.c:291-496 | the pool object after realloc is the value model of it |
| `SmallHeapSpec.PlugKeeps` | src/mem.c:136-174 | plug_holes leaves no two free neighbours and keeps the tiling and used_mem |
| `SmallHeapOps.MallocInv` | src/mem.c:246-375 | rt_malloc keeps tiling, coalescing, used_mem, lfree and max_mem in order |
| `SmallHeapOps.MallocFailsIff` | src/mem.c:279-285 | rt_malloc fails exactly when no free block at or above lfree is large enough other than an exact fit at the very end, and then changes nothing |
| `SmallHeapOps.MallocFailsLowest` | src/mem.c:279-285 | with lfree lowest the same holds for all free blocks |
| `SmallHeapOps.FreeInv` | src/mem.c:505-559 | rt_free keeps the invariant, and lfree lowest |
| `SmallHeapShrink.ShrinkLowestIff` | src/mem.c:431-455 | a shrink keeps lfree lowest if and only if lfree was below the successor, or was the successor and is merged |
| `SmallHeapTrip.MallocFree` | src/mem.c:285-352 | freeing the block just returned restores blocks, lfree and used_mem, split or not |
| `SmallHeapFrame.MallocReturns` | src/mem.c:246-375 | the block returned was not live, holds the request, and every live block is kept |
| `SmallHeapFrame.FreeKept` | src/mem.c:505-559 | rt_free keeps every other live block |
| `SmallHeapRealloc.ResizeReturns` | src/mem.c:386-467 | the block returned holds the new size and the first min(old, new) bytes, and every other live block is kept |
| `SmallHeapRealloc.ResizeFails` | src/mem.c:386-467 | rt_realloc fails only where it has to move and rt_malloc fails, and then changes nothing |
| `SmallHeapRuns.FreshInv` | src/mem.c:184-231 | the heap after init satisfies the invariant |
| `SmallHeapRuns.RunKeeps` | src/mem.c:246-559 | over every run the blocks tile the heap, no two neighbours are free, used_mem is the extent of the used blocks, lfree is heap_end or free, and untouched blocks are kept |
| `SmallHeapRuns.StoredStays` | src/mem.c:246-559 | what an owner stores in its block it finds again after any run of operations on other blocks |
| `SmallHeapRuns.MallocRefusedIff` | src/mem.c:246-285 | rt_malloc is refused if and only if the size is 0, exceeds the heap once rounded, or no usable block at or above lfree has room; then nothing changes |
| `SmallHeapRuns.ReallocRefusedIff` | src/mem.c:386-467 | rt_realloc of a block is refused if and only if the size exceeds the heap or it has to move and rt_malloc refuses; then nothing changes |
| `SmallHeapRuns.ReallocNull` | src/mem.c:396-406 | rt_realloc of RT_NULL is rt_malloc, except that a size whose rounding wraps is refused |
| `SmallHeapRuns.StepLowestIff` | src/mem.c:246-559 | an operation keeps lfree lowest if and only if it is not a burying shrink |
| `SmallHeapRuns.RunLowestIff` | src/mem.c:246-559 | the same along every run; in runs of rt_malloc and rt_free alone it always is |
| `SmallHeapRuns.MallocHoldsIff` | src/mem.c:263-274 | the block rt_malloc returns holds the bytes asked for if and only if rounding does not wrap |
| `SmallHeapRuns.ReallocHoldsIff` | src/mem.c:396-402 | so for rt_realloc |
| `SmallHeapRuns.RoundedAway` | src/mem.c:263-274 | a heap of 60 bytes grants a request for 2^32 - 1 |
| `SmallHeapRuns.WholeHeapRefused` | src/mem.c:280 | a request for the whole free heap is refused |
| `SmallHeapRuns.BuriedBlock` | src/mem.c:431-455 | after a shrink 36 free bytes lie below lfree and the next request for 12 bytes is refused |
| `SmallHeapLives.FreeReturns` | src/mem.c:505-559 | after rt_free exactly the block handed in is no longer live, and all of it lies in one free block |
| `SmallHeapLives.MallocThenFree` | src/mem.c:246-559 | rt_free of the block just returned restores blocks, flags, lfree and used_mem |
| `SmallHeapLives.MallocTight` | src/mem.c:285-340 | the block of rt_malloc is the rounded request or a block too small to be cut |
| `SmallHeapLives.ShrinkTight` | src/mem.c:431-455 | a block cut down in place has exactly the new size |
| `SmallHeapLives.StepLives` | src/mem.c:246-559 | an operation makes live exactly the block it returns and frees exactly the block it takes back |
| `SmallHeapLives.RunLives` | src/mem.c:246-559 | after every run exactly the blocks handed out and not taken back are live |
| `SmallHeapMark.RunMark` | src/mem.c:321-339 | max_mem is exactly the high-water mark of used_mem over the run, with the moment inside a moving rt_realloc in which both blocks count |
| `SmallHeap.Search` | src/mem.c:279-285 | the loop along the next words finds the first fit from lfree up |
| `SmallHeap.Climb` | src/mem.c:345-352 | the loop moves lfree to the next free block or heap_end |
| `SmallHeap.Plug` | src/mem.c:136-174 | plug_holes on the next and prev words; the prev word of heap_end is never relied on |
| `SmallHeap.DoMalloc` | src/mem.c:279-375 | the words after rt_malloc, split and no split |
| `SmallHeap.DoFree` | src/mem.c:543-559 | the words after rt_free |
| `SmallHeap.DoRealloc` | src/mem.c:419-467 | the words after rt_realloc, every branch |
| `SmallHeap.SystemHeap.constructor` | src/mem.c:184-231 | the heap object after init |
| `SmallHeap.SystemHeap.Malloc` | src/mem.c:246-375 | the heap object after rt_malloc is the value model of it |
| `SmallHeap.SystemHeap.Free` | src/mem.c:505-559 | the heap object after rt_free is the value model of it |
| `SmallHeap.SystemHeap.Realloc` | src/mem.c:386-467 | the heap object after rt_realloc is the value model of it |
| `PageList.Canonical` | src/slab.c:246-332 | a sorted, disjoint, coalesced list is determined by its set of free pages |
| `PageList.TakenIs` | src/slab.c:246-280 | the pages handed out were free and follow one another; exactly they stop being free, and the list stays sorted, disjoint and coalesced |
| `PageList.TakenLowest` | src/slab.c:256-274 | wherever n free pages in a row exist the request is met, by the lowest such run |
| `PageList.GivenIs` | src/slab.c:282-332 | exactly the pages given back become free, and the list stays sorted, disjoint and coalesced |
| `PageList.TakeGive` | src/slab.c:246-332 | freeing the run just allocated restores the list exactly |
| `PageList.GiveSwap` | src/slab.c:282-332 | the order in which two runs are freed does not matter |
| `PageRuns.RunInv` | src/slab.c:246-332 | over every run each page of the heap is free or in exactly one run that is held |
| `PageRuns.RunTotal` | src/slab.c:246-332 | over every run the free pages and the pages held add up to the same number |
| `PageRuns.FreshInv` | src/slab.c:337-344 | the page list after init |
| `PageHeap.Alloc` | src/slab.c:246-280 | the walk by the address of a link computes the allocation on the list of runs |
| `PageHeap.Free` | src/slab.c:282-332 | the walk and its four endings compute the return on the list of runs |
| `ZoneSizes.BestFit` | src/slab.c:411-469 | zoneindex picks the smallest of the 72 chunk sizes that holds the request |
| `ZoneSizes.Waste` | src/slab.c:411-469 | a chunk exceeds the request by less than 8 bytes or less than an eighth |
| `ZoneSizes.PowerTest` | src/slab.c:647 | the bit test holds exactly for powers of two |
| `ZoneSizes.MaskIs` | src/slab.c:648-650 | clearing the low bits rounds down to a multiple of a power of two |
| `ZoneSizes.ChunksFit` | src/slab.c:641-656 | every zone holds its header and at least two chunks |
| `ZoneSizes.ZoneSize` | src/slab.c:385-387 | the loop settles on 32K, 64K or 128K by the heap size |
| `SlabZone.FullIsFree` | src/slab.c:885-886 | when z_nfree reaches z_nmax every chunk ever handed out is on the free list |
| `SlabZone.CarvedIs` | src/slab.c:552-592 | the chunk handed out was not in use, and no other chunk changes sides |
| `SlabZone.ReturnedIs` | src/slab.c:861-877 | the chunk returned is no longer in use, and no other chunk changes sides |
| `SlabZone.CarvedAgainIff` | src/slab.c:552-592 | a chunk just returned is handed out next if and only if every chunk of the zone has been handed out before |
| `SlabPlace.LivesApart` | src/slab.c:488-684 | no live block overlaps another |
| `SlabPlace.HeadersApart` | src/slab.c:637-658 | no live block overlaps the header of a zone in use |
| `SlabPlace.MapLeadsBack` | src/slab.c:627-634 | any address inside a zone leads through the page map to the zone |
| `SlabPlace.BytesFit` | src/slab.c:585-589 | the bytes in use never exceed the heap, so used_mem never wraps |
| `SlabChunks.CarveKeeps` | src/slab.c:552-592 | taking a chunk of an existing zone keeps the invariant and returns a chunk that was not live |
| `SlabChunks.PutKeeps` | src/slab.c:856-877 | returning a chunk keeps the invariant |
| `SlabChunks.OpenKeeps` | src/slab.c:605-670 | laying out a spare zone keeps the invariant |
| `SlabChunks.RetireKeeps` | src/slab.c:885-905 | moving a free zone to zone_free keeps the invariant: nothing in it is live |
| `SlabPages.TakeLargeKeeps` | src/slab.c:508-536 | handing out a large block keeps the invariant |
| `SlabPages.GiveLargeKeeps` | src/slab.c:828-851 | taking a large block back keeps the invariant |
| `SlabPages.GrabKeeps` | src/slab.c:611-635 | pages for a new zone keep the invariant |
| `SlabPages.DropKeeps` | src/slab.c:908-931 | giving a spare zone back keeps the invariant |
| `SlabOps.MallocFailsIff` | src/slab.c:488-684 | rt_malloc returns RT_NULL exactly for size 0, for a large size whose rounding wraps or whose pages are not free in a row, and for a small size with no zone on its list, none spare and no pages for one |
| `SlabOps.MallocReturns` | src/slab.c:488-684 | the block holds the request, lies in the heap, and is clear of every live block and zone header; used_mem, max_mem, zone lists, page map and page list stay exact |
| `SlabOps.FreeReturns` | src/slab.c:793-935 | rt_free takes back exactly that block, keeps all of this, and leaves at most two zones on zone_free |
| `SlabRuns.FreeRetires` | src/slab.c:885-931 | rt_free gives a zone up exactly when its last chunk came back and it is not the only zone on its list; it becomes a spare one, or with two of those its pages go back |
| `SlabRuns.FreshInv` | src/slab.c:354-405 | the state after init satisfies the invariant, whatever the page map held before |
| `SlabRuns.RunInv` | src/slab.c:488-935 | over every run of rt_malloc and rt_free the invariant holds |
| `SlabRuns.RunKeeps` | src/slab.c:488-935 | a live block stays where it is, at its size, until it is freed |
| `SlabRuns.StepPeak` | src/slab.c:585-589 | max_mem is the larger of its old value and used_mem after every call |
| `SlabRuns.RunMapFinds` | src/slab.c:826-859 | after every run the page map leads rt_free from a live pointer to its large block or to the zone that counts it in use |
| `SlabRuns.ZoneCounts` | src/slab.c:180-193 | z_nfree is (z_nmax - 1 - z_uindex) plus the length of the free list, and zone_array holds exactly the zones in use with a free chunk |
| `SlabRuns.PageAccounted` | src/slab.c:246-332 | every page is free or in exactly one zone, spare zone, live large block or the page map itself |
| `SlabRuns.LargeRoundTrip` | src/slab.c:508-536 | freeing a large block right away restores the page list exactly |
| `SlabRuns.RoundTrip` | src/slab.c:488-935 | freeing any block right away restores what is live and used_mem |
| `SlabRuns.AlignedIff` | src/slab.c:643-650 | a block of a power-of-two size is aligned to it if and only if the run it will be served from is: the lowest free run that is long enough, the first zone of its list or the first spare one, as they stand before the call |
| `SlabRuns.FromLowest` | src/slab.c:256-274 | where pages are taken for the request, that run is free, long enough, and no free run as long lies below it |
| `SlabRuns.SmallAligned` | src/slab.c:643-650 | up to one page that is always so |
| `SlabRuns.Misaligned` | src/slab.c:162-163 | on a heap that starts at an even page the first block of 8192 bytes is not aligned to 8192 |
| `SlabMemory.MarkPages` | src/slab.c:627-634 | the loops write exactly the page map entries of a zone |
| `SlabMemory.CarveChunk` | src/slab.c:552-592 | headers, zone list and free list after a chunk was taken |
| `SlabMemory.PutChunk` | src/slab.c:856-877 | headers, zone list and free list after a chunk came back |
| `SlabMemory.FreshZone` | src/slab.c:637-670 | header and list of a new zone, with its first chunk handed out |
| `SlabMemory.RetireZone` | src/slab.c:894-905 | the loop over zone_array takes the zone out of its list |
| `SlabMemory.DropSpare` | src/slab.c:908-931 | page map and page list after a spare zone went back |
| `SlabHeap.DoMalloc` | src/slab.c:488-684 | rt_malloc on memory computes the value model, RT_NULL included |
| `SlabHeap.DoFree` | src/slab.c:793-935 | rt_free on memory computes the value model |
| `SlabHeap.SlabAllocator.constructor` | src/slab.c:354-405 | the allocator object after init |
| `SlabHeap.SlabAllocator.Malloc` | src/slab.c:488-684 | the allocator object after rt_malloc, and what the block returned is clear of |
| `SlabHeap.SlabAllocator.Free` | src/slab.c:793-935 | the allocator object after rt_free |
| `Semaphore.StepInv` | src/ipc.c:328-507 | a positive value means nobody waits; who waits has no error yet |
| `Semaphore.TakeAnswers` | src/ipc.c:328-411 | a take is granted iff the value was positive, refused iff it was 0 and the caller does not wait, and else the caller is among the waiters; what changes in each case |
| `Semaphore.ReleaseAnswers` | src/ipc.c:435-469 | a release hands over to the first waiter iff there is one, and else counts up |
| `Semaphore.ResetSets` | src/ipc.c:481-507 | a reset sets the value and every waiter leaves with -RT_ERROR |
| `Semaphore.ExpireLeaves` | src/thread.c:636-657 | a timeout takes exactly that waiter off, with -RT_ETIMEOUT |
| `Semaphore.RunBalance` | src/ipc.c:328-469 | over every run without reset, initial value + releases = value + grants + 65536 for each overflow |
| `Semaphore.RunConservesIff` | src/ipc.c:328-469 | so the count is conserved if and only if no release overflows |
| `Semaphore.OverflowWitness` | src/ipc.c:459 | a release at 65535 leaves the value 0 |
| `Semaphore.LeavesWith` | src/ipc.c:380-410 | a waiter leaves with the error code that tells grant, timeout and reset apart, in both directions |
| `Semaphore.RunLeaves` | src/ipc.c:328-507 | over every run each suspension ends exactly once or the thread still waits |
| `Semaphore.SemaphoreObject.TakeSem` | src/ipc.c:328-411 | the object after rt_sem_take up to the suspension, the waiter on the linked list |
| `Semaphore.SemaphoreObject.ReleaseSem` | src/ipc.c:435-469 | the object after rt_sem_release, the first waiter off the list or the value counted up |
| `Semaphore.SemaphoreObject.ExpireWait` | src/thread.c:636-657 | the object after the timeout of a waiter |
| `Semaphore.SemaphoreObject.ResetSem` | src/ipc.c:481-507 | the object after a reset, with the loop that resumes every waiter |
| `MutexSpec.StepWellformedIff` | src/ipc.c:642-859 | value is 1 iff there is no owner iff hold is 0, and waiters imply an owner, kept by every call if and only if it does not wrap the hold count |
| `MutexInherit.RunWellformed` | src/ipc.c:642-859 | the same over every run |
| `MutexCalls.TakeAnswers` | src/ipc.c:642-761 | a take answers RT_EOK iff the caller is the owner afterwards, suspends iff it is among the waiters afterwards, and answers -RT_ETIMEOUT iff neither; then nothing changed and there was no time to wait |
| `MutexCalls.TakeOwns` | src/ipc.c:664-688 | a take of a free mutex or of its own succeeds, with one hold more and the priority of a new owner on record |
| `MutexCalls.TakeWaits` | src/ipc.c:690-745 | a take of a mutex of another thread waits or is refused; the waiters keep their order and the owner becomes at least as urgent as the caller |
| `MutexCalls.ReleaseAnswers` | src/ipc.c:772-804 | a release answers RT_EOK iff the caller is the owner; anybody else gets -RT_ERROR and nothing changes |
| `MutexCalls.ReleaseHands` | src/ipc.c:806-859 | a release gives up one hold; with the last one the priority on record is back and the first waiter owns the mutex, or it is free |
| `MutexCalls.ExpireLeaves` | src/thread.c:636-657 | a timeout takes exactly that waiter off and leaves owner, hold and priorities alone |
| `MutexInherit.ReleaseNestedIff` | src/ipc.c:806-817 | a release keeps every base priority in place, in the thread while it owns nothing and else in its oldest mutex, if and only if it does not release the oldest one while the next remembers a boosted priority |
| `MutexInherit.StepNestedIff` | src/ipc.c:642-859 | so for every call |
| `MutexInherit.RunNestedIff` | src/ipc.c:642-859 | and all along every run, in both directions |
| `MutexInherit.RunGrounded` | src/ipc.c:642-859 | after every run of such calls, in either waiting order, a thread that owns nothing is at its base priority |
| `MutexInherit.LifoSafe` | src/ipc.c:806-817 | releasing in last-in-first-out order is such a run |
| `MutexUrgent.HandOffUrgentIff` | src/ipc.c:820-839 | after a hand-off, in either waiting order, the new owner is at least as urgent as every remaining waiter if and only if the first waiter was |
| `MutexUrgent.StepUrgentIff` | src/ipc.c:642-859 | from any consistent state where every owner is urgent enough, a call keeps it so if and only if its boost stops at no less urgent owner, what the releasing thread falls back to still covers its other mutexes, and the hand-off goes to the most urgent waiter |
| `MutexUrgent.RunUrgentIff` | src/ipc.c:642-859 | the same along every run, whatever the nesting and the waiting order |
| `MutexFlat.RunFlatIff` | src/ipc.c:642-859 | without nesting only hand-offs matter, and under RT_IPC_FLAG_PRIO the owner is always at least as urgent as every waiter, timeouts included |
| `MutexBase.StepBaseIff` | src/ipc.c:642-859 | from any consistent state where threads that own nothing are at their base, a call keeps it so if and only if it is not the release of an only mutex whose owner came at another priority |
| `MutexBase.RunBaseIff` | src/ipc.c:642-859 | over every run, in either waiting order and whatever the nesting, threads that own nothing are at their base all along if and only if every thread that lets go of its only mutex had become its owner at the base |
| `MutexBase.FreshBaseIff` | src/ipc.c:525-859 | the same for every run that starts with fresh mutexes and threads at their base |
| `MutexBase.RunRemembers` | src/ipc.c:642-859 | after every run original_priority of an owned mutex is the priority its owner had when it came, by take or by hand-off |
| `MutexWitness.OutOfOrder` | src/ipc.c:806-817 | releasing the oldest mutex first leaves a thread that owns nothing boosted |
| `MutexWitness.Regained` | src/ipc.c:806-817 | after such a release a third mutex, taken at the base and released last, brings the thread back to its base |
| `MutexWitness.HoldWraps` | src/ipc.c:667-671 | the 256th take leaves a mutex that is owned and not held |
| `MutexWitness.FifoHandOff` | src/ipc.c:820-839 | a FIFO hand-off makes the less urgent thread the owner |
| `MutexWitness.BoostStops` | src/ipc.c:706-713 | a boost does not travel through an owner that is itself blocked |
| `MutexWitness.InnerReleaseDrops` | src/ipc.c:811-817 | releasing the inner of two mutexes drops the boost of the outer one |
| `MutexWitness.QueueNotResorted` | src/thread.c:510-522 | a waiter boosted while queued is not moved up, and a PRIO hand-off passes it over |
| `Mutex.OtherLists` | src/ipc.c:92-159 | stores to the list of one mutex leave the linked lists of all others alone |
| `Mutex.TakeOne` | src/ipc.c:642-761 | the stores of rt_mutex_take to one mutex, the list of its waiters and the priority of its owner make exactly the step of the value model; MutexCalls says who then owns, waits or is refused |
| `Mutex.ReleaseOne` | src/ipc.c:772-859 | so for rt_mutex_release: hold count, priority, hand-off to the first waiter or a free mutex, or the refusal of a thread that is not the owner |
| `Mutex.Mutexes.constructor` | src/ipc.c:525-544 | mutexes with empty lists, nobody their owner |
| `Mutex.Mutexes.TakeMutex` | src/ipc.c:642-761 | the object after rt_mutex_take: nested, free, refused, or blocked on the linked list with its boost |
| `Mutex.Mutexes.ReleaseMutex` | src/ipc.c:772-859 | the object after rt_mutex_release, with the hand-off to the first waiter of the linked list |
| `Mutex.Mutexes.ExpireWait` | src/thread.c:636-657 | the object after the timeout of a waiter, wherever it stands in the list |
| `EventFlags.PollAllLeaves` | src/ipc.c:1020-1066 | waiters left by the walk are unsatisfied by the flags left at its end, although others cleared flags after they were looked at |
| `EventCalls.SatisfiedIs` | src/ipc.c:1030-1048 | the AND condition asks for every wanted flag, the OR condition for some |
| `EventCalls.WalkTurns` | src/ipc.c:1020-1066 | a waiter is woken iff its condition holds of the flags left by those before it, and the walk ends with the flags of the last turn |
| `EventCalls.SendSets` | src/ipc.c:998-1077 | after a send the flags are the old and the new ones without those the woken CLEAR receivers wanted; who is woken is told by the flags of the turn, and who stays keeps the order |
| `EventCalls.SendKeeps` | src/ipc.c:1018 | with no CLEAR receiver waiting, a send leaves every old and new flag set |
| `EventCalls.SendNothing` | src/ipc.c:1008-1009 | a send of no flags is refused and changes nothing |
| `EventCalls.Delivered` | src/ipc.c:1030-1061 | a woken receiver is handed its wanted flags among those of its turn |
| `EventCalls.RecvTakes` | src/ipc.c:1093-1201 | a receive whose condition holds removes exactly the wanted flags under CLEAR and none otherwise; one whose condition does not hold waits or changes nothing |
| `EventCalls.ExpireLeaves` | src/thread.c:636-657 | a timeout takes exactly that waiter off and no flag |
| `EventCalls.ResetClears` | src/ipc.c:1213-1238 | a reset clears every flag and leaves nobody waiting |
| `EventFlags.StepInv` | src/ipc.c:998-1238 | after every send, receive, timeout and reset no remaining waiter's condition is satisfied |
| `EventFlags.RunInv` | src/ipc.c:998-1238 | the same over every run |
| `EventObject.WalkList` | src/ipc.c:1020-1066 | the loop along the links of the suspended threads computes the walk and takes the served ones off |
| `EventObject.EventFlagsObject.SendFlags` | src/ipc.c:998-1077 | the object after rt_event_send; EventCalls.SendSets says which flags are left and who is woken |
| `EventObject.EventFlagsObject.RecvFlags` | src/ipc.c:1093-1201 | the object after rt_event_recv up to the suspension |
| `EventObject.EventFlagsObject.ExpireWait` | src/thread.c:636-657 | the object after the timeout of a waiter, which leaves with -RT_ETIMEOUT |
| `EventObject.EventFlagsObject.ResetFlags` | src/ipc.c:1213-1238 | the object after a reset; every waiter leaves the list with -RT_ERROR |
| `MailboxSpec.StepInv` | src/ipc.c:1406-1714 | no wakeup is lost: while receivers wait there are at most as many values as woken receivers, while senders wait at most as many free slots as woken senders |
| `MailboxSpec.RunInv` | src/ipc.c:1406-1714 | the same over every run of sends, receives, retries, timeouts and resets |
| `MailboxSpec.WaitsForCause` | src/ipc.c:1406-1676 | with nobody on the way a receiver waits only for an empty and a sender only for a full mailbox |
| `MailboxSpec.SendAnswers` | src/ipc.c:1406-1524 | a send goes through iff there is room and then the value is last, is refused iff the box is full and the caller does not wait, and else the caller waits |
| `MailboxSpec.SendWakes` | src/ipc.c:1507-1517 | a value sent wakes the first waiting receiver, and nothing else does |
| `MailboxSpec.RecvAnswers` | src/ipc.c:1553-1676 | a receive gets the first value iff there is one, times out iff there is none and the caller does not wait, and else the caller waits |
| `MailboxSpec.RecvWakes` | src/ipc.c:1655-1667 | a value taken wakes the first waiting sender, and nothing else does |
| `MailboxSpec.ExpireLeaves` | src/thread.c:636-657 | a timeout takes exactly that thread off the list it waits on |
| `MailboxSpec.ResetEmpties` | src/ipc.c:1688-1714 | a reset empties the box and leaves nobody waiting |
| `MailboxSpec.RunFifo` | src/ipc.c:1406-1676 | between resets values come out in the order they were accepted, none lost or made up |
| `Mailbox.SlotIsMod` | src/ipc.c:1498-1505 | in_offset is (out_offset + entry) modulo the size |
| `Mailbox.Mailbox.TrySend` | src/ipc.c:1406-1524 | the ring after one pass of a send holds the queue of the bounded FIFO |
| `Mailbox.Mailbox.TryRecv` | src/ipc.c:1553-1676 | the ring after one pass of a receive holds the queue of the bounded FIFO |
| `Mailbox.Mailbox.ExpireWait` | src/thread.c:636-657 | the object after the timeout of a sender or receiver, which leaves with -RT_ETIMEOUT |
| `Mailbox.Mailbox.ResetBox` | src/ipc.c:1688-1714 | the object after a reset; receivers, then senders leave their lists with -RT_ERROR |
| `MsgQueueSpec.OnePlace` | src/ipc.c:1740-2269 | every pool node is in exactly one of free list, queue and flight, and the counts sum to max_msgs |
| `MsgQueueCalls.FullIff` | src/ipc.c:1941-1952 | a sender is refused with -RT_EFULL if and only if every cell is queued or in flight |
| `MsgQueueCalls.StepCounts` | src/ipc.c:1926-2269 | how each phase changes the number of cells free, queued and in flight |
| `MsgQueueCalls.SendArrives` | src/ipc.c:1926-2088 | a whole send puts the message last, or first if urgent, in a cell off the free list, and touches no other cell |
| `MsgQueueCalls.RecvTakes` | src/ipc.c:2194-2218 | a whole receive takes the first message off; its cell is the first to be used again, and nothing else changes |
| `MsgQueueCalls.RecvCopies` | src/ipc.c:2209-2210 | the buffer gets the bytes of that message as far as it has room |
| `MsgQueueSpec.RunInv` | src/ipc.c:1926-2269 | over every interleaving of the separate phases this holds and every queued or travelling message stays intact |
| `MsgQueueSpec.DeliversDue` | src/ipc.c:2194-2218 | a receiver copies out the message it unlinked, whatever happened in between |
| `MsgQueueSpec.RunIsDeque` | src/ipc.c:1926-2223 | the queue is a deque: send appends and urgent prepends when they link |
| `MsgQueueSpec.RunDelivers` | src/ipc.c:2194-2218 | the bytes handed out, at any later time, are those of the message a deque would have given, cut to the shorter of buffer and message |
| `MsgQueueWait.ActKeeps` | src/ipc.c:2097-2192 | no wakeup of a receiver is lost by any send, receive, retry, timeout or reset |
| `MsgQueueWait.RecvAnswers` | src/ipc.c:2097-2207 | a receive unlinks the first message iff there is one, times out iff there is none and the caller does not wait, and else the caller waits |
| `MsgQueueWait.LinkWakes` | src/ipc.c:1983-1997 | a message linked wakes the first waiting receiver, a reset all of them, and no other phase any |
| `MsgQueueWait.ExpireLeaves` | src/thread.c:636-657 | a timeout takes exactly that receiver off and no message |
| `MsgQueueWait.RunNoLost` | src/ipc.c:1926-2223 | after every run, with no woken receiver under way, a receiver waits only for an empty queue |
| `MsgQueue.HeadNil` | src/ipc.c:1740-1787 | head and tail are null together, exactly when entry is 0, and entry never exceeds max_msgs |
| `MsgQueue.ResetWires` | src/ipc.c:2243-2269 | the loop moves every queued node to the free list |
| `MsgQueue.MessageQueue.constructor` | src/ipc.c:1740-1787 | the loop puts every cell on the free list |
| `MsgQueue.MessageQueue.TakeFree` | src/ipc.c:1941-1958 | a sender takes a node, or finds none |
| `MsgQueue.MessageQueue.FillNode` | src/ipc.c:1960-1963 | the message is in the node it took |
| `MsgQueue.MessageQueue.LinkTail` | src/ipc.c:1965-1981 | rt_mq_send links its node at the tail |
| `MsgQueue.MessageQueue.LinkHead` | src/ipc.c:2051-2063 | rt_mq_urgent links its node at the head |
| `MsgQueue.MessageQueue.Unlink` | src/ipc.c:2194-2207 | a receiver takes the first node |
| `MsgQueue.MessageQueue.CopyOut` | src/ipc.c:2209-2210 | the bytes it copies out |
| `MsgQueue.MessageQueue.PutFree` | src/ipc.c:2212-2218 | the node goes back to the free list |
| `MsgQueue.MessageQueue.ResetQueue` | src/ipc.c:2243-2269 | the object after a reset, nodes in flight untouched |
| `Bits.FfsIs` | src/kservice.c:2027-2071 | __rt_ffs is one more than the position of the lowest set bit, for every 32-bit word |
| `ReadyIndex.SetOk` | src/scheduler.c:267-304 | inserting sets exactly the bit of the priority, in both layouts |
| `ReadyIndex.ClearOk` | src/scheduler.c:337-349 | clearing when the queue ran empty removes exactly that bit, and the group bit with the last of its byte |
| `ReadyIndex.HighestIs` | src/scheduler.c:201-214 | the look-up yields the most urgent priority that has a ready thread |
| `Scheduler.StepInv` | src/thread.c:203-657 | every thread operation keeps bitmap, queues and thread states in agreement |
| `Scheduler.RunIndexed` | src/scheduler.c:201-353 | after every run a bit is set iff its queue is not empty, a started thread is READY iff it is in exactly the queue of its priority, and the look-up is right |
| `Scheduler.FreshInv` | src/scheduler.c:120-143 | the state after rt_system_scheduler_init |
| `SchedulerCalls.ResumeReadies` | src/thread.c:595-627 | a suspended thread becomes READY and last in the queue of its priority, nothing else changes; any other thread is refused |
| `SchedulerCalls.SuspendStops` | src/thread.c:554-585 | a ready thread is suspended and leaves its queue, the others in order; any other thread is refused |
| `SchedulerCalls.StartupReadies` | src/thread.c:203-234 | a new thread becomes READY at its initial priority, last in its queue |
| `SchedulerCalls.RemoveCloses` | src/thread.c:245-277 | a removed thread is closed and in no queue |
| `SchedulerCalls.ChangeMoves` | src/thread.c:485-526 | a thread has its new priority; a ready one moves to the end of the new queue |
| `SchedulerCalls.YieldMoves` | src/thread.c:377-411 | the current thread goes behind the others of its queue, or is alone there and nothing changes |
| `StaleMasks.DetachEarlyIff` | src/scheduler.c:313-353 | detaching a thread that was never started keeps the bitmap exact if and only if its queue is not empty or its masks name no ready priority |
| `StaleMasks.ZeroHarmless` | src/thread.c:94-130 | masks of zero are harmless |
| `StaleMasks.StaleDetach` | src/thread.c:245-277 | old masks in reused memory clear the bit of a ready thread |
| `Dispatch.ActSettles` | src/scheduler.c:191-258 | after every complete operation the current thread is the head of the most urgent queue, unless the scheduler is locked |
| `SchedulerCalls.WakeReadies` | src/thread.c:595-627 | after waking a list of threads exactly the suspended ones among them have become READY, each in the queue of its priority; whatever the reschedule at the end picks |
| `SchedulerCalls.TimeoutReadies` | src/thread.c:636-657 | so for the timeout of a thread |
| `SchedulerCalls.StopsRunning` | src/thread.c:554-585 | a thread that blocks is suspended, one that exits is closed; it is in no queue and does not run on unless the scheduler is locked |
| `SchedulerCalls.StartReadies` | src/thread.c:203-234 | startup with its reschedule leaves the new thread READY and the others as they were |
| `SchedulerCalls.LockCounts` | src/scheduler.c:358-401 | the two critical calls count the nest and touch no thread and no queue |
| `SchedulerCalls.LockedStays` | src/scheduler.c:191-258 | while the scheduler stays locked no operation changes the thread that runs |
| `Dispatch.RunSettled` | src/scheduler.c:191-401 | the same over every run of startup, blocking, waking, timeout, tick, yield, exit, lock and unlock |
| `Dispatch.ChangeAtHeadIff` | src/thread.c:485-526 | a change of priority, which does not reschedule, leaves the right thread running if and only if the caller can tell so from the ready threads beforehand |
| `Dispatch.DetachAtHeadIff` | src/thread.c:245-277 | detaching a ready thread does so if and only if it is not the current one |
| `DispatchRuns.RescheduleSettles` | src/scheduler.c:191-258 | an operation that ends in rt_schedule puts the right thread in place, whatever ran before it |
| `DispatchRuns.StepSettledIff` | src/thread.c:245-526 | an operation, a change of priority and a detach included, keeps the right thread running if and only if it is harmless where it happens |
| `DispatchRuns.RunSettledIff` | src/thread.c:203-657 | the same all along every run, in both directions |
| `DispatchRuns.SinceReschedule` | src/scheduler.c:191-258 | only the operations after the last reschedule count |
| `DispatchRuns.PairWitness` | src/thread.c:485-526 | making the other of two ready threads the more urgent one, or detaching the current one, leaves the wrong thread running |
| `RoundRobin.SliceEnds` | src/clock.c:91-101 | a thread runs for exactly the ticks it has left, gets a new slice and goes behind the others of its priority |
| `RoundRobin.Round` | src/clock.c:91-101 | with no other event each thread of the most urgent priority runs once, for the ticks it had left; then queue and current thread are as before and each has a whole slice |
| `RoundRobin.WhoRuns` | src/clock.c:91-101 | at each tick of that round it names the thread that runs: in queue order, each through all its ticks |
| `ReadyQueues.Enqueued` | src/scheduler.c:280-281 | inserting before a list head appends to its queue and spares every other list |
| `ReadyQueues.Dequeued` | src/scheduler.c:337 | removing a node takes the thread out of its queue and spares every other list |
| `ReadyQueues.Neighbours` | src/thread.c:389-390 | tlist.next differs from tlist.prev exactly when another thread is in the queue |
| `SchedulerObject.ReadyTable.constructor` | src/scheduler.c:120-143 | the loop makes every list empty |
| `SchedulerObject.ReadyTable.InsertThread` | src/scheduler.c:267-304 | list, bitmap and state after rt_schedule_insert_thread |
| `SchedulerObject.ReadyTable.RemoveThread` | src/scheduler.c:313-353 | list and bitmap after rt_schedule_remove_thread |
| `SchedulerObject.ReadyTable.Schedule` | src/scheduler.c:191-258 | the head of the most urgent list runs, unless locked |
| `SchedulerObject.ReadyTable.Startup` | src/thread.c:203-234 | the object after rt_thread_startup, scheduling only once a thread is running |
| `SchedulerObject.ReadyTable.Suspend` | src/thread.c:554-585 | the object after rt_thread_suspend, or the refusal of a thread that is not READY |
| `SchedulerObject.ReadyTable.Resume` | src/thread.c:595-627 | the object after rt_thread_resume, or the refusal of a thread that is not suspended |
| `SchedulerObject.ReadyTable.ChangePriority` | src/thread.c:485-526 | the object after a change of priority, queued or not |
| `SchedulerObject.ReadyTable.Yield` | src/thread.c:377-411 | the object after rt_thread_yield |
| `SchedulerObject.ReadyTable.Tick` | src/clock.c:91-101 | the object after the slice accounting of one tick |
| `SchedulerObject.ReadyTable.EnterCritical` | src/scheduler.c:358-374 | the lock nest grows by one |
| `SchedulerObject.ReadyTable.ExitCritical` | src/scheduler.c:379-401 | the last unlock schedules |
| `FinshCode.DecodeEncode` | components/finsh/finsh_vm.c:60-71 | decoding reads back the instruction that was encoded, whatever follows |
| `FinshCode.LoadStored` | components/finsh/finsh_ops.c:375-397 | a load after a store of the same address gives the value stored |
| `FinshCode.StoredByte` | components/finsh/finsh_ops.c:428-435 | a store writes four bytes, least significant first |
| `FinshCode.StoredElsewhere` | components/finsh/finsh_ops.c:428-435 | and no other byte |
| `FinshCode.ArithMeans` | components/finsh/finsh_ops.c:42-291 | every operator of the machine computes what it means in C: sum, difference and product modulo 2^32, the truncated quotient and its remainder, times 2^n and the floor over 2^n, and the bits of & | ^; it has no result exactly for a division by zero, the one quotient out of range and a shift by 32 or more |
| `FinshCode.MeansOne` | components/finsh/finsh_ops.c:42-291 | no other word is what the operator means |
| `FinshWords.DivisionLaw` | components/finsh/finsh_ops.c:113-137 | the signed numbers satisfy x == q * y + r with r smaller than y in size and 0 or of the sign of x |
| `FinshWords.DividesOnce` | components/finsh/finsh_ops.c:113-137 | there is only one such pair |
| `FinshWords.MulLaw` | components/finsh/finsh_ops.c:157-159 | the product of the words is the product of the signed numbers modulo 2^32 |
| `FinshWords.ShiftLeftLaw` | components/finsh/finsh_ops.c:267-269 | `<< n` is the number times 2^n modulo 2^32 |
| `FinshWords.ShiftRightLaw` | components/finsh/finsh_ops.c:289-291 | `>> n` is the floor of the number over 2^n |
| `FinshWords.InvertLaw` | components/finsh/finsh_ops.c:245-250 | `~` flips every bit and stands for -x - 1 |
| `FinshCorrect.GenCorrect` | components/finsh/finsh_compiler.c:43-757 | the 32-bit code of an expression pushes exactly its value, leaves the rest of the stack alone and makes exactly its memory updates |
| `FinshCorrect.CompilesFullyIff` | components/finsh/finsh_compiler.c:759-901 | type check and compile of a lowered expression emit that code if and only if no call stands where an operator looks for its data type |
| `FinshDropped.LeavesLost` | components/finsh/finsh_compiler.c:43-757 | for every expression, host and memory, compiled code that comes to its end leaves one word, and one more for each two-operand operator whose left operand begins with a call |
| `FinshDropped.ErasedRuns` | components/finsh/finsh_compiler.c:266-270 | where only `~` and `*` are lost, the code computes the expression without them |
| `FinshDropped.CompiledRightIff` | components/finsh/finsh_compiler.c:759-901 | for every expression with a value, host and memory, the code computes that value if and only if nothing of the first kind is lost and losing the second makes no difference |
| `FinshDropped.CallLeftBroken` | components/finsh/finsh_compiler.c:791-795 | `f(..) op r` and `*f(..) = r` leave both operands on the stack, and the second stores nothing |
| `FinshDropped.CallTopBroken` | components/finsh/finsh_compiler.c:718-740 | `~f(..)` and `*f(..)` leave the value of the call: the first is wrong for every host, the second unless that word is stored at its own address |
| `FinshDropped.HarmlessWitness` | components/finsh/finsh_compiler.c:266-270 | `0 & ~f()` loses the `~` and is right for every host |
| `FinshCorrect.ListCorrect` | components/finsh/finsh_compiler.c:903-937 | a statement list leaves the value of the last statement at the bottom of the stack and all memory updates |
| `FinshCorrect.CompilerCorrect` | components/finsh/finsh_compiler.c:903-937 | the same for the bytes in the text segment with its no-op padding, for code that fits the segment |
| `FinshMachine.Compiler.Compile` | components/finsh/finsh_compiler.c:43-757 | the recursion over child and sibling appends the code of the tree |
| `FinshMachine.Compiler.Run` | components/finsh/finsh_compiler.c:903-937 | type check, clear and the statement loop leave the code of the list in the text segment |
| `FinshMachine.Vm.Call` | components/finsh/finsh_ops.c:444-569 | arguments and function leave the stack, the result is pushed |
| `FinshMachine.Vm.Apply` | components/finsh/finsh_ops.c:571-622 | one instruction on the stack array is one step of the machine on values; FinshCode.ArithMeans says what its operators compute |
| `FinshMachine.Vm.Run` | components/finsh/finsh_vm.c:47-72 | the fetch and dispatch loop runs the text to its end |
| `FinshMachine.Execute` | components/finsh/finsh_compiler.c:903-937 | compiling a statement list and running it puts the source value at the bottom of the stack and the source's updates in memory |

## Left out

- Other sources: module loading (src/module.c), memory pools (src/mempool.c), object, device, interrupt and idle bookkeeping, and printing and string helpers add registries, counters and easy loops.
- The soft timer thread: its saved next node can be removed while callbacks run; the hard timer check is modelled instead.
- Callbacks of timers are fixed lists of start and stop calls, one list for each timer; a callback that blocks or computes is not modelled.
- `rt_timer_start` is one atomic step; the source enables interrupts for a moment between removal and insertion.
- Signed overflow in the two's complement of the bit search and in finsh arithmetic is taken to wrap, and `>>` of a negative number to keep the sign; the C standard leaves these to the compiler or undefined.
- Create, delete and detach of ipc objects, hooks, names, debug output and the memory they use.
- The clock beyond the tick counter: conversion of milliseconds, and the order of interrupt and thread code within one tick.
- The heap lock of src/slab.c: the failure path releases it twice, so the allocator is modelled as sequential calls, which also leaves out calls that interleave inside rt_malloc.
- The realloc and calloc of src/slab.c, calloc of src/mem.c and the multi-heap wrappers of src/memheap.c are compositions of what is modelled.
- Memory faults: a write outside the pool by the wrapped growth of src/memheap.c is shown to break the layout, and what it overwrites is not followed further.
- finsh: the parser and its scratch tree, variables that live on the finsh stack or in the text segment, and faults of a bad pointer.
- The type check of finsh builds a new tree where the source marks the nodes in place; the marks are the same.
- SlabRuns.RunInv: runs free only pointers that are live; what a second rt_free of the same pointer does is not modelled.
- MemHeapRuns.RunInvIff: runs free and resize only live blocks; the magic test that src/memheap.c makes of a foreign pointer is not modelled.
- SmallHeapRuns.RunKeeps: pointers outside the heap, which rt_realloc returns unchanged and rt_free ignores, are not part of the runs.
- MutexInherit.RunGrounded: base priorities do not change along a run; an explicit change of priority is a step of the scheduler model only.
- Scheduler.RunIndexed: threads are started before they are removed; StaleMasks.DetachEarlyIff says when that is needed.
- Dispatch.RunSettled: the lock nest is a natural number where the source has 16 bits, and some other thread, if only the idle thread, is ready when the current one blocks or exits.
- MsgQueueSpec.RunInv: in-flight nodes survive a reset as in the source; a receiver suspended inside the copy of a message is a node in flight.
- SchedulerObject.ReadyTable.RemoveThread: covers a thread in its queue; for one that is not the value model covers the bitmap, and the list its node is on belongs to the ipc object.
- TimerRuns.RunOnTime: callbacks start no timer whose period is 0 and no periodic timer has that period, since the check of such a run need not end; TimerEnds.CheckEndsIff says when it does.
- TimerRuns.StepBetween: the same.
- TimerRuns.RunCoherentIff: the same.
- TimerRuns.CheckCoherentIff: callbacks start no timer whose period is 0, and no due timer re-arms itself for the tick of the check.
- TimerEnds.CheckEndsIff: callbacks start no timer whose period is 0; they may stop one.
- TimerBeats.RunBeats: as for TimerRuns.RunOnTime, and no callback names the timer.
- TimerSystem.Timers.constructor: the same as for TimerRuns.RunOnTime.
- TimerSystem.Timers.Control: the same, for the new period.
- MemHeapFrame.ResizeReturns: sizes for which the growth test of src/memheap.c:354 wraps are left to MemHeapRealloc.GrowLayoutIff.
- MemHeapRuns.RunKeeps: the same along runs; MemHeapRuns.RunInvIff covers the runs in which the test wraps.
- MemHeapRuns.StoredStays: the same.
- MemHeapRuns.RunMark: the same.
- MemHeapRuns.ReallocHoldsIff: the same.
- MemHeapLives.ResizeTight: the same.
- MemHeapLives.StepLives: the same.
- MemHeapLives.RunLives: the same.
- MemHeap.DoResize: the same.
- MemHeap.Pool.Realloc: the same.
- MutexInherit.RunWellformed: no call of the run is the 256th nested take of a mutex; MutexSpec.StepWellformedIff covers that take.
- MutexBase.RunBaseIff: the same.
- Mutex.Mutexes.TakeMutex: the same.
- Scheduler.StepInv: a thread that was never started is not removed; StaleMasks.DetachEarlyIff covers that removal.
- FinshMachine.Vm.Apply: byte and word operations, whose stale upper bytes the dword operations would read, are refused.
- FinshMachine.Vm.Run: the same.
- FinshDropped.CompiledRightIff: calls have at most 16 arguments, which is what OP_call passes on, and the stack has room for the expression.
