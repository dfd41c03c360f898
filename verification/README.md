# RT-Thread kernel, heaps and finsh compiler: a model with proofs

This project models three parts of RT-Thread and proves what they keep.

1. **The kernel**: threads between ready lists, wait lists and thread timers; the ready bitmaps; the round robin; the
   timer skip list over wrapping ticks; semaphores, mutexes, events, mailboxes and message queues.
2. **The heaps**: the page allocator and zones of `slab.c`, the first-fit heap of `mem.c`, the pools of `memheap.c`.
3. **The finsh shell language**: type check, code generator, byte code and stack machine for dword expressions.

Code that updates state in place is a class whose fields are those of the source, and whose methods write them in the
source's order. Each method is proved against a value-level specification (a function of the old state, or a predicate
over old and new state). What the component is for is then proved about the specification: invariants of every step,
and theorems over all runs. A step is one region between disabling and enabling interrupts. The `...Runs` and `...Waits`
modules let any number of threads take such steps in any order, time out, and be reset. A method that joins several
regions is for callers for whom nothing comes between them, and says so.

## Files

| files | what they model |
|---|---|
| `Wrappers`, `Sequences`, `Arithmetic` | options; sequences without repetitions; products and remainders |
| `Bits`, `ReadyLists`, `ThreadLists`, `Kernel`, `ThreadRuns`, `RoundRobin` | `__rt_ffs`, the ready lists and bitmaps, the regions of the thread functions, threads and scheduling, the regions in any order, time slices |
| `ThreadTimers`, `TickInterrupt` | threads together with their timers, and the tick interrupt over both |
| `RtList`, `WaitList` | the linked list primitives, the lists of suspended threads |
| `Ticks`, `TimerList`, `Timer`, `TimerRuns`, `TimerQueueRuns`, `TimerRegions` | wrapped ticks, the plain timer list and the rows of the skip list, the hard timer list, runs of the plain list, runs of the skip list, start and stop step by step |
| `Semaphore`, `Mutex`, `MutexRuns`, `Event`, `EventRuns`, `Mailbox`, `MailboxRuns`, `MessageQueue`, `MessageRuns`, `MessageWaits` | the IPC objects and their runs |
| `PageList`, `Pages`, `ZoneClasses`, `Zones`, `SlabState`, `Slab` | the slab allocator, from pages to `rt_malloc` and `rt_free` |
| `Tiles`, `Payloads` | memory cut into blocks, and what the blocks hold; shared by the two heaps below |
| `HeapHeaders`, `Mem` | the first-fit heap |
| `Rings`, `MemheapChain`, `Memheap` | memory pools with a circular free list |
| `FinshOps`, `FinshArithmetic`, `FinshCompiler`, `FinshMeaning`, `FinshVm` | byte code, what its operators yield, trees and generated code, compiler correctness, the imperative compiler and machine |

## What the proofs found

Where the code does not do what its comments or its users may expect, the code was kept, and the exact condition
under which it does was proved.

- `rt_thread_resume` lets interrupts in between unlinking a thread and queuing it, and tests nothing again. A second
  resume in that gap, as a soft timer start makes one of the timer thread, puts the thread into its ready list twice
  (`ThreadRuns.OverlapBreaks`). `ThreadRuns.ListedExactly` gives the states in which each region keeps threads and lists
  in agreement, over every run, and `ThreadRuns.UndisturbedListed` shows that calls nobody comes between are safe.
- `rt_timer_start` tests a timer before it disables interrupts, and `rt_timer_stop` clears its flag after it has enabled
  them again. Two overlapping starts list a timer twice (`TimerRegions.OverlapBreaks`); `TimerRegions.AgreeExactly` gives
  the exact condition for every run.
- A periodic timer with interval 0 is accepted, and the check that finds it due never ends (`TimerRuns.CheckNeverEnds`).
- Timers compare 32-bit differences. `Ticks.WrappedOrderExact` gives the distances for which that is right; starting
  timers for less than half a wrap and checking on every tick keeps all distances inside (`TimerRuns.DisciplineFits`).
- `rt_timer_next_timeout_tick` returns `RT_TICK_MAX` both for "no timer" and for a timer that expires at that tick
  (`Timer.TimerQueue.NextTimeout`, `TimerQueueRuns.LastTick`). A one-shot timer started for 0 ticks fires at the next check
  (`TimerRuns.FiresOnTime`).
- finsh takes the type of an operator from its leftmost leaf, and a system call's name has none. `f() + 2`, `~f()`,
  `*f()` and `*f() = 3` are compiled without their operator (`FinshMeaning.OperatorExact`, `ComplementExact`,
  `DerefExact`, `AssignExact`).
- finsh increments variables only. `++*p` pushes the pointer and `(*p)++` the old value, and neither increments anything
  (`FinshMeaning.IncDecExact`, `FinshMeaning.PointerSteps`).
- `mem.c`: shortening a block in `rt_realloc` can leave a free block below `lfree`, which `rt_malloc` does not find as
  long as `lfree` is not lowered (`Mem.ShrinkLowest`, `Mem.ShrinkLosesBlock`). The bound of the search leaves out an exact fit in the last block
  (`Mem.RefusedExactly`).
- `memheap.c`: a request for exactly all available bytes is refused although a block has room
  (`Memheap.RefusedWithRoom`, `Memheap.WholeRefused`, `Memheap.FirstRequest`). The minimum of 12 is applied after alignment, so sizes need not be aligned, and a size
  that comes through `rt_memheap_realloc` is rounded twice.
- A FIFO mutex is handed to the longest waiting thread without the priority of more urgent ones
  (`MutexRuns.HandOffExact`, `MutexRuns.FifoInversion`).
- `slab.c` promises that all power-of-2 sizes are aligned to their size. What `rt_malloc` gives out for such a size is
  so exactly if the size is at most a page, or the page at which the zone or the run it takes starts, known before the
  call, is aligned to so many pages (`Slab.Slab.Malloc`). In a heap of 64 pages that starts at an even page, the first request for 8192 bytes is not
  (`Slab.Misaligned`).

## Model

| member | source | states |
|---|---|---|
| RtList.Node.constructor | rtt/include/rtservice.h:51-54 | an initialized node is an empty list |
| RtList.Node.InsertAfter | rtt/include/rtservice.h:62-69 | called on the k-th node of a ring, it puts the new node at place k of the sequence the ring represents; no other node is written |
| RtList.Node.InsertBefore | rtt/include/rtservice.h:77-84 | likewise in front of the node behind the k-th; for a node that the list already holds, put at its end, the links represent no sequence any more |
| RtList.Node.Remove | rtt/include/rtservice.h:90-96 | the node leaves the sequence, whose other nodes still form a ring, and is an empty list of its own |
| RtList.Node.IsEmpty | rtt/include/rtservice.h:102-105 | the test is true exactly for the empty sequence; otherwise next and prev of the head are the first and the last node |
| RtList.RingUnique | rtt/include/rtservice.h:51-105 | the links determine the sequence: two sequences represented by the same head agree |
| Bits.BitmapIs | rtt/src/kservice.c:1205-1223 | the table holds the lowest set bit of every byte |
| Bits.FfsLowest | rtt/src/kservice.c:1235-1249 | `__rt_ffs` is one more than the number of the lowest set bit of any 32-bit word |
| Bits.FfsExact | rtt/src/kservice.c:1225-1249 | it returns 0 exactly for 0; otherwise the bit it names is set and no lower one is |
| ReadyLists.MarkAgrees | rtt/src/scheduler.c:267-353 | setting and clearing bits, in either bitmap, keeps the bitmap in agreement with which ready lists are empty |
| ReadyLists.HighestExact | rtt/src/scheduler.c:203-217 | both bitmaps lead to the first list that is not empty: all more urgent lists are empty |
| Kernel.Kernel.constructor | rtt/src/scheduler.c:120-147 | no thread, empty lists, and the two-level bitmap exactly above 32 priorities |
| Kernel.Kernel.Enqueue | rtt/src/scheduler.c:267-304 | the thread goes last in the list of its priority, and bitmap and lists agree |
| Kernel.Kernel.Dequeue | rtt/src/scheduler.c:313-353 | the thread leaves the list, and bitmap and lists agree, also when the list becomes empty |
| Kernel.Kernel.Create | rtt/src/thread.c:84-135 | a new thread is in no list and has its full slice, which may be 0 |
| Kernel.Kernel.MarkStarted | rtt/src/thread.c:209-224 | the thread gets back the priority it was created with, whatever was set since, and is suspended on no list |
| Kernel.Kernel.UnlinkRegion | rtt/src/thread.c:609-618 | the tlist leaves whatever list it is on and the timer stops; threads, lists and bitmap agree afterwards exactly if the thread is not ready by then |
| Kernel.Kernel.InsertRegion | rtt/src/scheduler.c:267-304 | the thread is queued without a test; threads, lists and bitmap agree afterwards exactly if its tlist is in no list, its timer is stopped and it has not exited |
| Kernel.Kernel.SuspendRegion | rtt/src/thread.c:571-579 | the thread is suspended on no list; threads, lists and bitmap agree afterwards exactly if it has not exited |
| Kernel.Kernel.Startup | rtt/src/thread.c:203-234 | with nothing between its regions: a started thread is ready, last in the list of the priority it was created with |
| Kernel.Kernel.SuspendThread | rtt/src/thread.c:554-582 | called inside a region: it succeeds exactly for ready threads, which leave their ready list; otherwise nothing changes |
| Kernel.Kernel.ResumeThread | rtt/src/thread.c:592-624 | called inside a region: it succeeds exactly for suspended threads; the thread leaves any wait list, its timer stops, and it is ready |
| Kernel.Kernel.Timeout | rtt/src/thread.c:633-654 | the thread whose timer fires is suspended, so that the assertion cannot fail; it leaves its wait list and is ready |
| ThreadLists.TimerMeansSuspended | rtt/src/thread.c:640-641 | wherever the lists are as the threads say, a running thread timer implies that the thread is suspended |
| Kernel.Kernel.Sleep | rtt/src/thread.c:421-449 | the current thread is suspended on no list, with its timer running |
| Kernel.Kernel.ChangePriority | rtt/src/thread.c:485-526 | a ready thread moves to the end of the list of its new priority; a suspended one keeps its place |
| Kernel.Kernel.Yield | rtt/src/thread.c:377-411 | the current thread goes behind the others of its priority, if it is ready and not alone there |
| Kernel.Kernel.Exit | rtt/src/thread.c:47-82 | the current thread is closed and in no list, its timer stopped |
| Kernel.Kernel.InitObject | rtt/src/ipc.c:73-79 | a new object has an empty wait list |
| Kernel.Kernel.Wait | rtt/src/ipc.c:367-396 | the current thread leaves its ready list for its place in the wait list, by arrival or by priority, with its timer running if it waits for a time |
| Kernel.Kernel.WakeFirst | rtt/src/ipc.c:146-159 | the first waiting thread becomes ready, and its timer stops |
| Kernel.Kernel.FailFirst | rtt/src/ipc.c:175-194 | one round: the first waiting thread becomes ready and will find the error |
| Kernel.Kernel.WakeAll | rtt/src/ipc.c:169-197 | the wait list is empty, all threads of it are ready without running timers and find the error, and no other thread has changed |
| Kernel.Kernel.Schedule | rtt/src/scheduler.c:191-258 | unlocked, it makes the first thread of the most urgent list that is not empty the current one; locked, it changes nothing |
| Kernel.Kernel.EnterCritical | rtt/src/scheduler.c:358-373 | the nesting grows by one |
| Kernel.Kernel.ExitCritical | rtt/src/scheduler.c:378-400 | leaving the outermost section schedules; leaving an inner one does not change the current thread |
| Kernel.Kernel.Tick | rtt/src/clock.c:83-100 | the slice of the current thread goes down by one, in 32 bits; at its end it is refilled, and the thread goes behind the others of its priority, whose first one then runs unless the scheduler is locked |
| TickInterrupt.TickIncrease | rtt/src/clock.c:83-105 | the whole call: tick counter, slice, and the timer check, whose fired thread timers make their threads ready; threads and timers agree afterwards |
| TickInterrupt.Timeouts | rtt/src/thread.c:633-654 | the timeouts of one check, in order, with the assertion that their threads are suspended |
| ThreadLists.UnlinkExact | rtt/src/thread.c:609-618 | the first region of a resume keeps lists and threads in agreement exactly if the thread is not ready |
| ThreadLists.InsertExact | rtt/src/thread.c:620-621 | the second region keeps it exactly if the thread is in no list, its timer stopped and it has not exited |
| ThreadLists.SuspendExact | rtt/src/thread.c:571-579 | the region of a suspend keeps it exactly if the thread has not exited since the test |
| ThreadLists.ResumeListed | rtt/src/thread.c:592-624 | a resume of a suspended thread with nothing between its regions keeps it |
| ThreadRuns.StepExact | rtt/src/thread.c:554-654 | every region of every caller, at any place of its call, keeps the agreement exactly if its guard holds |
| ThreadRuns.ListedExactly | rtt/src/thread.c:554-654 | over every run of regions, threads and lists agree all the time exactly if every unlinking finds its thread not ready, every queuing finds it suspended in no list with its timer stopped, and every suspending finds it not closed |
| ThreadRuns.OverlapBreaks | rtt/src/thread.c:609-621 | two overlapping resumes of any suspended thread put it into its ready list twice |
| ThreadRuns.UndisturbedListed | rtt/src/thread.c:554-654 | over every run in which nobody touches a thread between the steps of a call for it, threads and lists agree all the time |
| ThreadTimers.StepCoupled | rtt/src/thread.c:421-654 | every tick, sleep, timed wait, resume and exit keeps a timer flag set exactly while the timer of the thread is in the timer list |
| ThreadTimers.ExpireAll | rtt/src/thread.c:633-654 | after a check exactly the threads whose timers fired are ready, with the timeout error |
| ThreadTimers.WakesExactly | rtt/src/timer.c:478-536 | over every run in which nobody wakes it, a thread with a running timer waits where it does until exactly the tick its timer was set for |
| ThreadTimers.SleepsExactly | rtt/src/thread.c:421-449 | rt_thread_sleep(n) suspends the thread for exactly n ticks, or one if n is 0 |
| ThreadTimers.WaitsExactly | rtt/src/ipc.c:377-396 | a wait for n ticks that nobody ends lasts exactly n ticks, in the wait list all the time |
| RoundRobin.TurnComes | rtt/src/thread.c:377-411 | among ready threads of one priority, a thread runs after m ticks, for the first time, exactly when m is the sum of what is left to the threads ahead of it |
| RoundRobin.TurnWithinSlices | rtt/src/clock.c:83-100 | hence it runs within the sum of the slices of the threads ahead of it |
| RoundRobin.OneTick | rtt/src/clock.c:83-100 | one tick of the kernel is one step of the turn |
| RoundRobin.RunTicks | rtt/src/clock.c:83-100 | any number of ticks of the kernel are as many steps of the turn |
| WaitList.SuspendedSorted | rtt/src/ipc.c:105-131 | a PRIO list stays sorted; the new thread stands behind those at least as urgent and before the less urgent ones |
| WaitList.Suspend | rtt/src/ipc.c:92-135 | the loop puts the thread at that place, and in a FIFO list at the end |
| WaitList.WithoutSorted | rtt/src/thread.c:592-627 | a list that a thread leaves from any place stays sorted |
| Ticks.WrappedOrderExact | rtt/src/timer.c:346-353 | the wrapped comparison of two expiries is right exactly for distances from HALF - WORD up to below HALF |
| Ticks.WrappedDueExact | rtt/src/timer.c:496-500 | likewise the due test of the check |
| TimerList.InsertKeepsOrder | rtt/src/timer.c:341-354 | inserting keeps the list sorted by true expiry with ties in start order, and adds exactly one entry |
| TimerList.RemoveKeepsOrder | rtt/src/timer.c:121-129 | so does removing |
| TimerList.RowInsert | rtt/src/timer.c:329-378 | in each row not above the timer's height the timer stands behind the timers of the row that expire no later; other rows do not change |
| TimerList.RowRemove | rtt/src/timer.c:121-129 | taking a timer out of the list takes it out of every row |
| TimerList.RowNesting | rtt/src/timer.c:329-378 | every row is a subsequence of the row below, for all lists and heights |
| Timer.TimerQueue.constructor | rtt/src/timer.c:654-662 | all rows are empty and every row shows the empty list |
| Timer.TimerQueue.WalkTest | rtt/src/timer.c:332-354 | at any place of a row, the wrapped test tells whether the true expiry there is later |
| Timer.TimerQueue.FindPlaces | rtt/src/timer.c:329-357 | the walk from the top row down finds in every row the place behind the timers that expire no later |
| Timer.TimerQueue.LinkRows | rtt/src/timer.c:363-378 | the timer is linked at these places into the bottom row and one more row for every group of mask bits at the low end of random_nr that is 0 |
| Timer.TimerQueue.Start | rtt/src/timer.c:290-400 | with nothing between its steps: an inactive timer is entered by true expiry behind equal ones, all rows show the new list, and its height is that of the next random_nr; an active one is refused and nothing changes |
| Timer.TimerQueue.Unlink | rtt/src/timer.c:121-129 | the timer leaves all rows, which show the list without it |
| Timer.TimerQueue.Stop | rtt/src/timer.c:409-432 | with nothing between its steps: an active timer is taken out, and only that; an inactive one is refused |
| Timer.TimerQueue.Control | rtt/src/timer.c:444-474 | time and kind of a timer change, listed or not, and no row does |
| Timer.TimerQueue.FireFirst | rtt/src/timer.c:493-526 | one round takes out the first timer and enters it again, one interval on, exactly if it is periodic |
| Timer.TimerQueue.Check | rtt/src/timer.c:478-536 | exactly the due timers fire, in order of expiry and then of start; periodic ones are entered again; it terminates |
| Timer.TimerQueue.TickIncrease | rtt/src/clock.c:83-88 | the wrapped counter follows true time, and the list stays valid |
| Timer.TimerQueue.NextTimeout | rtt/src/timer.c:108-116 | the wrapped tick of the earliest expiry; RT_TICK_MAX exactly if there is none or that is its tick |
| Timer.TimerQueue.RowOrdered | rtt/src/timer.c:290-400 | in every valid state, the timers at any two places of any row are pending and come in the order of true expiry, equal ones in start order |
| TimerRuns.DisciplineFits | rtt/src/timer.c:306-311 | one check each tick, and intervals below half a wrap, keep every timer inside the window in which wrapped ticks compare rightly |
| TimerRuns.StepInv | rtt/src/timer.c:290-536 | start, stop, setting and tick keep the list ordered and every pending timer ahead of now by less than half a wrap |
| TimerRuns.CheckContents | rtt/src/timer.c:478-536 | a timer fires in a check exactly if it is due; afterwards are pending exactly those not yet due and, one interval on, the fired periodic ones |
| TimerRuns.TickEntry | rtt/src/timer.c:478-536 | no due timer is left pending by a tick; others stay as they are |
| TimerRuns.OtherEntry | rtt/src/timer.c:290-474 | starting, stopping and setting other timers leaves a timer alone |
| TimerRuns.NeverFires | rtt/src/timer.c:478-536 | over every run, a timer that is not started never fires |
| TimerRuns.FiresOnTime | rtt/src/timer.c:290-536 | over every run in which others are started, stopped and set at will, a pending timer fires exactly at its expiry and, if periodic, exactly every interval after it |
| TimerRuns.CheckNeverEnds | rtt/src/timer.c:491-530 | while a periodic timer with interval 0 is due, every round of the check is followed by another one |
| TimerQueueRuns.Perform | rtt/src/timer.c:290-536 | every operation on a valid skip list has its effect on the plain list, all its preconditions being met |
| TimerQueueRuns.NewQueueInv | rtt/src/timer.c:654-662 | a new queue of timers with proper intervals is one to start a run from |
| TimerQueueRuns.RunQueue | rtt/src/timer.c:290-536 | after any run of starts, stops, settings and ticks the skip list is valid, shows the plain list after that run, and has called the same functions |
| TimerQueueRuns.CalledOnTime | rtt/src/timer.c:478-536 | a timer pending in the skip list is called exactly at its times, over every run in which it is left alone |
| TimerQueueRuns.LastTick | rtt/src/timer.c:108-119 | a valid queue with a pending timer for which the next timeout is the value that stands for none |
| TimerRegions.TickKeeps | rtt/src/timer.c:478-536 | a tick keeps the list free of repetitions and in the order of the ticks in the timers, and listed timers active |
| TimerRegions.StepExactly | rtt/src/timer.c:290-432 | every step of a start or stop keeps that exactly if its guard holds |
| TimerRegions.AgreeExactly | rtt/src/timer.c:290-432 | over every run it holds all the time exactly if every linking and every clearing of a flag finds its timer not listed, and no listed timer has its tick changed |
| TimerRegions.OverlapBreaks | rtt/src/timer.c:301-380 | two starts that both find the timer inactive list it twice |
| TimerRegions.UndisturbedAgree | rtt/src/timer.c:290-432 | over every run in which nobody starts or stops a timer between the steps of a call for it, ticks included, it holds all the time |
| Semaphore.Counter.constructor | rtt/src/ipc.c:211-234 | the given value, and nobody waiting |
| Semaphore.Counter.Take | rtt/src/ipc.c:328-411 | one region: a token is taken exactly if there is one; without one the call times out exactly if its time is 0, and otherwise the thread waits at its place |
| Semaphore.Counter.Release | rtt/src/ipc.c:435-469 | the first waiting thread gets the token; the value grows exactly if nobody waits |
| Semaphore.Counter.Reset | rtt/src/ipc.c:481-510 | nobody waits, and the value is the argument cut to 16 bits |
| Semaphore.TokensConserved | rtt/src/ipc.c:328-469 | over all runs, value plus successful takes is the first value plus releases, and no thread waits while there is a token |
| Semaphore.BoundedWaiting | rtt/src/ipc.c:435-469 | a thread waiting on a FIFO semaphore has its token after one more release than threads were ahead of it, whatever others do |
| Mutex.Lock.constructor | rtt/src/ipc.c:525-544 | the initial mutex is free, without hold or waiting thread |
| Mutex.Lock.Take | rtt/src/ipc.c:642-761 | one region: granted exactly to the owner and if the value is not 0, with one hold more; else a timeout exactly if the time is 0; else the thread waits at its place, and the owner's priority becomes the more urgent of its own and the thread's |
| Mutex.Lock.Release | rtt/src/ipc.c:772-859 | refused exactly to others than the owner; one of several holds is given up; at the last the own priority returns, and the first waiting thread owns the mutex with one hold and its priority noted, or nobody does |
| MutexRuns.StepInv | rtt/src/ipc.c:642-859 | every take, release, timeout and resumption keeps ownership, hold counts and inherited priorities consistent |
| MutexRuns.MutualExclusion | rtt/src/ipc.c:642-859 | in every reachable state one thread at most has takes to release, it is the owner, and hold counts them; value is 1 exactly without owner and exactly with hold 0; waiting threads imply an owner |
| MutexRuns.PriorityRestored | rtt/src/ipc.c:809-817 | in every reachable state, threads that do not own the mutex have their own priority |
| MutexRuns.PriorityInherited | rtt/src/ipc.c:706-718 | PRIO mutex, every reachable state: waiting threads are sorted, the owner is at least as urgent as each, and its priority is its own or that of one which has waited since it got the mutex |
| MutexRuns.HandOff | rtt/src/ipc.c:819-839 | the final release makes the most urgent waiting thread the owner before it runs, and no other leaves the list |
| MutexRuns.OnlyAtHandOff | rtt/src/ipc.c:642-859 | every step but the final release keeps the owner at least as urgent as all waiting threads, also for FIFO |
| MutexRuns.HandOffExact | rtt/src/ipc.c:830-833 | the final release keeps it exactly if the first waiting thread is a most urgent one |
| MutexRuns.FifoInversion | rtt/src/ipc.c:830-833 | three threads and four calls after which the owner of a FIFO mutex is less urgent than a waiting thread |
| Event.ServeQuiet | rtt/src/ipc.c:1020-1067 | after the scan no thread left waiting is satisfied by the flags left, although the scan clears flags |
| Event.ServePartition | rtt/src/ipc.c:1020-1067 | every waiting thread is either served or still waiting |
| Event.ClearedOnce | rtt/src/ipc.c:1053-1058 | no bit that one thread received and cleared is delivered to a thread after it, and only flags that were set are delivered |
| Event.SetOperations | rtt/src/ipc.c:1018-1055 | for each of the 32 events: in a union, intersection or difference exactly if it is in either, both, or the first only |
| Event.SatisfiedExactly | rtt/src/ipc.c:1031-1050 | an AND interest is satisfied exactly if every event asked for is set, an OR interest exactly if some is |
| Event.DeliversExactly | rtt/src/ipc.c:1141-1146 | event by event: delivered are those asked for that are set; cleared are those asked for, exactly with CLEAR |
| Event.Object.Recv | rtt/src/ipc.c:1093-1175 | one region, event by event: an error exactly for an empty set; receipt exactly if all, or with OR some, of the events asked for are set, of just these, cleared exactly with CLEAR; else a timeout exactly for time 0; else the thread waits at its place with its interest recorded |
| Event.Object.Send | rtt/src/ipc.c:998-1077 | an event is set before the scan exactly if it was set or is sent; the loop over the list then serves the threads as specified, and records in each what it received |
| EventRuns.NeverOverlooked | rtt/src/ipc.c:998-1236 | over all runs of sends, receives, timeouts and resets, no thread waits that asks for events of which all, or with OR some, are set |
| EventRuns.SendIsReceives | rtt/src/ipc.c:1029-1058 | a send delivers and clears the same bits as immediate receives of the waiting threads, one after the other |
| Mailbox.RingPut | rtt/src/ipc.c:1496-1503 | writing behind the mails, with wrap-around, appends a mail |
| Mailbox.RingGet | rtt/src/ipc.c:1643-1651 | reading at the out offset, with wrap-around, takes the oldest mail |
| Mailbox.Box.constructor | rtt/src/ipc.c:1253-1282 | an empty box of the given size |
| Mailbox.Box.Send | rtt/src/ipc.c:1423-1519 | one region: at a full box the call fails exactly if its time is 0 and otherwise its thread waits at its place; else the mail goes last, and the first receiver is resumed |
| Mailbox.Box.Recv | rtt/src/ipc.c:1568-1669 | one region: at an empty box the call fails exactly if its time is 0 and otherwise its thread waits at its place; else the oldest mail is taken, and the first sender is resumed |
| Mailbox.Box.Reset | rtt/src/ipc.c:1686-1712 | the box is empty, and all waiting threads are resumed |
| MailboxRuns.StepInv | rtt/src/ipc.c:1404-1674 | every step keeps the mails, or the free slots, spoken for by threads woken and not yet run while others wait |
| MailboxRuns.NoLostWakeup | rtt/src/ipc.c:1404-1674 | over all interleavings, while a receiver waits there are no more mails than woken receivers, and symmetrically for senders; with nobody left to run, receivers wait only at an empty box and senders only at a full one |
| MailboxRuns.WokenTakes | rtt/src/ipc.c:1579-1651 | a woken receiver that finds a mail takes it |
| MailboxRuns.ReceiverServed | rtt/src/ipc.c:1579-1651 | a receiver that finds the box empty waits, the next mail resumes it, and it takes that mail when it runs |
| MailboxRuns.SenderServed | rtt/src/ipc.c:1434-1503 | a sender that finds the box full waits, the next receive resumes it, and its mail goes last when it runs |
| MailboxRuns.MailOrder | rtt/src/ipc.c:1404-1674 | between resets, the mails sent are those received, in order, and then those in the box |
| MessageQueue.Queue.constructor | rtt/src/ipc.c:1738-1785 | all cells are in the free list, and nobody waits |
| MessageQueue.Queue.TakeFree | rtt/src/ipc.c:1940-1956 | the first free cell goes to the sender; refused exactly if there is none |
| MessageQueue.Queue.CopyIn | rtt/src/ipc.c:1958-1961 | the message is at the start of the sender's cell, whose rest and all other cells keep their bytes; no list changes |
| MessageQueue.Queue.LinkTail | rtt/src/ipc.c:1963-1998 | the cell is last in the queue; head, tail and entry are those of the new queue; the first waiting receiver is resumed |
| MessageQueue.Queue.LinkHead | rtt/src/ipc.c:2049-2080 | the cell is first in the queue, and the first waiting receiver is resumed |
| MessageQueue.Queue.Receive | rtt/src/ipc.c:2115-2205 | one region: the first cell goes to the receiver, or at an empty queue the call times out or its thread waits at its place |
| MessageQueue.Queue.CopyOut | rtt/src/ipc.c:2207-2208 | the receiver gets the start of its cell, cut to the message size |
| MessageQueue.Queue.PutFree | rtt/src/ipc.c:2210-2216 | the cell is first in the free list |
| MessageQueue.Queue.Clear | rtt/src/ipc.c:2234-2276 | all waiting receivers are resumed, all queued cells are in the free list, and those that threads hold stay with them |
| MessageQueue.Queue.HeadTailEntry | rtt/src/ipc.c:1924-2276 | in every valid state head is NULL exactly if tail is, and exactly if entry is 0 |
| MessageRuns.StepInv | rtt/src/ipc.c:1924-2276 | every region of every thread keeps all cells in one place each, and queued cells with their messages |
| MessageRuns.ReceivedOnce | rtt/src/ipc.c:1924-2222 | over all interleavings, every receiver gets the bytes of one linked message, no message twice; linked messages are those taken, queued or dropped |
| MessageRuns.SentLinked | rtt/src/ipc.c:1940-1978 | a send with a free cell and nothing in between links its message, last or with urgent first |
| MessageRuns.ReceivedReturned | rtt/src/ipc.c:2192-2216 | a receive with a message there and nothing in between delivers the start of the first one, and its cell is free again |
| MessageRuns.FifoOrder | rtt/src/ipc.c:1924-1998 | without urgent messages and resets, messages are taken in the order in which they were linked |
| MessageRuns.UrgentFirst | rtt/src/ipc.c:2012-2080 | an urgent message is the next one taken, and those before it in line stay |
| MessageRuns.CellsConserved | rtt/src/ipc.c:1738-2276 | free, queued and held cells add up to the pool; a send finds no cell exactly when all are queued or held by threads inside the functions |
| MessageWaits.StepInv | rtt/src/ipc.c:1924-2276 | with waiting receivers, every step keeps all threads in one place and the messages spoken for by receivers resumed and not yet run while others wait |
| MessageWaits.NoLostWakeup | rtt/src/ipc.c:1924-2276 | over all interleavings, while receivers wait there are no more messages than resumed receivers still to run; with none of these, they wait only at an empty queue |
| MessageWaits.WokenTakes | rtt/src/ipc.c:2179-2205 | a resumed receiver that finds a message takes the first one |
| MessageWaits.ReceiverServed | rtt/src/ipc.c:2126-2205 | a receiver with time that finds the queue empty waits, the next message resumes it, and it takes that message when it runs |
| MessageWaits.Projection | rtt/src/ipc.c:1924-2276 | what becomes of the messages in such a run is what becomes of them in a run of `MessageRuns` |
| PageList.Canonical | rtt/src/slab.c:282-332 | an address-sorted, disjoint, fully merged list is determined by the pages it covers |
| PageList.AllocFreeRestores | rtt/src/slab.c:246-332 | allocating a run and freeing it again restores the list itself |
| PageList.FreeOrderIrrelevant | rtt/src/slab.c:282-332 | two runs may be freed in either order with the same list as result |
| Pages.PageHeap.constructor | rtt/src/slab.c:337-344 | the pool is one free block |
| Pages.PageHeap.PageAlloc | rtt/src/slab.c:246-280 | the lowest run of n free pages, taken out of the list; for n > 0 it fails exactly if no such run exists |
| Pages.PageHeap.Insert | rtt/src/slab.c:296-327 | the loop gives a sorted, fully merged list that covers the old pages and the run |
| Pages.PageHeap.PageFree | rtt/src/slab.c:282-332 | the pages of an allocated run are free again; free and allocated pages still make up the pool |
| ZoneClasses.ZoneIndexExact | rtt/src/slab.c:411-469 | for every size below 16384 one of the 72 classes, whose chunk size is determined by it and wastes less than 8 bytes or an eighth |
| ZoneClasses.LeastClass | rtt/src/slab.c:411-469 | it is the least class with room for the size |
| Zones.ChunkInside | rtt/src/slab.c:637-660 | chunks lie behind the header and inside the zone |
| Zones.ChunksApart | rtt/src/slab.c:571-575 | different chunks of a zone do not overlap |
| Zones.FreshInv | rtt/src/slab.c:640-660 | a new zone has given out its first chunk, and all others are free; its chunks start at the first place behind the header aligned to their size, or to 8, and no more would fit |
| Zones.TakeInv | rtt/src/slab.c:558-583 | taking gives a chunk that is not given out; z_nfree stays never used plus freed chunks |
| Zones.PutInv | rtt/src/slab.c:861-877 | so does putting a chunk back |
| Zones.AlignedExactly | rtt/src/slab.c:643-656 | in every zone whose chunks start where rt_malloc puts them, a chunk whose size is a power of two is aligned to it exactly if the zone is |
| Zones.SmallAligned | rtt/src/slab.c:594-601 | page addresses are aligned to every power of two up to the size of a page |
| Zones.LargeAligned | rtt/src/slab.c:162-163 | they are aligned to a larger power of two exactly if the number of the page is aligned to so many pages |
| SlabState.TakeStep | rtt/src/slab.c:554-592 | a chunk of the first zone of a class was not given out; lists, books, runs and memusage stay in agreement |
| SlabState.PutStep | rtt/src/slab.c:861-877 | taking a chunk back keeps that agreement: a zone is on its list exactly if it has a free chunk |
| SlabState.NewStep | rtt/src/slab.c:640-671 | so does starting a zone for a class |
| SlabState.PagesStep | rtt/src/slab.c:616-635 | so does making pages a zone |
| SlabState.RetireStep | rtt/src/slab.c:885-905 | so does retiring a zone without chunks given out |
| SlabState.ReleaseStep | rtt/src/slab.c:907-928 | so does giving a free zone back to the pages |
| SlabState.LargeStep | rtt/src/slab.c:508-536 | so does a large allocation |
| SlabState.LargeFreeStep | rtt/src/slab.c:828-851 | so does freeing one |
| Slab.Slab.constructor | rtt/src/slab.c:354-405 | nothing is given out, used_mem is 0, the free pages are those behind memusage, and zones have 8, 16 or 32 pages and chunks up to 8192 or 16384 bytes, by the size of the heap |
| Slab.Slab.MallocLarge | rtt/src/slab.c:508-536 | as few pages as hold the size, refused exactly if no run of that many is free |
| Slab.Slab.TakeFromZone | rtt/src/slab.c:554-592 | from the first zone of the class the next chunk never used, or, if there is none, the one freed last; it was not given out |
| Slab.Slab.GetZone | rtt/src/slab.c:611-635 | a new zone with its pages recorded in memusage; none exactly if no such run of pages is free |
| Slab.Slab.StartZone | rtt/src/slab.c:605-671 | the first chunk of the first free zone |
| Slab.Slab.Malloc | rtt/src/slab.c:488-684 | large enough, not given out before, from the source's first choice; NULL exactly for size 0 or if no zone, free zone or run of pages is there; used_mem is the sum of all that is given out and max_mem the larger of what it was and that; aligned to 8; for a power of two aligned to it exactly if that is at most a page or the page the allocation starts from, as lists, free zones and free pages had it before the call, is aligned to so many pages |
| Slab.Slab.FreeLarge | rtt/src/slab.c:828-851 | exactly that allocation is taken back, with the number of pages found in memusage |
| Slab.Slab.PutChunk | rtt/src/slab.c:856-877 | memusage leads to the zone the chunk came from, which is on its list afterwards |
| Slab.Slab.Retire | rtt/src/slab.c:893-905 | the zone is first of the free zones and on no list |
| Slab.Slab.Release | rtt/src/slab.c:907-928 | the first free zone is given back |
| Slab.Slab.Free | rtt/src/slab.c:793-935 | exactly that allocation is taken back; a zone is retired exactly if it has no other chunk given out and another zone of its class has one free, and kept as free zone only below the threshold |
| Slab.UsageLeads | rtt/src/slab.c:856-858 | for every chunk given out, memusage of its page leads to the zone it came from |
| Slab.UsageKind | rtt/src/slab.c:826-828 | for everything given out, memusage tells pages from chunks |
| Slab.LivesApart | rtt/src/slab.c:488-684 | allocations do not overlap |
| Slab.LiveAligned | rtt/src/slab.c:162-163 | everything given out for a power of two is aligned to it exactly if that is at most a page or the first page of its zone or run is aligned to so many pages |
| Slab.OneOrigin | rtt/src/slab.c:508-622 | there is one page an allocation can start from, and it does |
| Slab.PowerClass | rtt/src/slab.c:411-469 | the class of a power of two from 8 on wastes nothing |
| Slab.ClassGrain | rtt/src/slab.c:411-469 | a request is rounded up to the next multiple of 8 below 128, and else of an eighth of the largest power of two it reaches |
| Slab.LiveAtEight | rtt/src/slab.c:644-650 | everything given out is aligned to 8 |
| Slab.FirstTwoPages | rtt/src/slab.c:508-536 | the first request for two pages of any heap with 32 pages behind memusage is aligned to them exactly if the first page behind memusage is even |
| Slab.Misaligned | rtt/src/slab.c:162-163 | a heap and a request for 8192 bytes that gets an address not aligned to them |
| Tiles.CoveredOnce | rtt/src/mem.c:107-121 | in a tiling every byte of the pool lies in exactly one block |
| Tiles.SplitTiling | rtt/src/mem.c:303-318 | cutting a block keeps the tiling |
| Tiles.JoinTiling | rtt/src/mem.c:145-173 | joining a block with the next keeps the tiling, and all other blocks |
| Tiles.ForwardApart | rtt/src/mem.c:145-160 | the forward half of plug_holes leaves at most the block before as free neighbour |
| Tiles.BackwardApart | rtt/src/mem.c:162-173 | with the backward half no two neighbours are free |
| Tiles.SumBounded | rtt/src/mem.c:319-339 | used bytes and free payloads together fit the pool |
| Tiles.AlignExactly | rtt/src/mem.c:263-263 | RT_ALIGN is the least multiple not below its argument, and nothing else is |
| Tiles.DownExactly | rtt/src/memheap.c:73-73 | RT_ALIGN_DOWN is the greatest multiple not above its argument |
| Tiles.AllocatedIs | rtt/src/mem.c:290-341 | what an allocation changes: its block is used, has the room, and ends before another block would fit; what is cut off is free; all other blocks stay |
| Payloads.KeptHeader | rtt/src/mem.c:305-318 | header writes leave all payloads as they are |
| Payloads.RelocatedResized | rtt/src/mem.c:457-465 | allocate, copy, free: the new block starts with the old content, and all other payloads stay |
| Payloads.Copy | rtt/src/mem.c:461-461 | the bytes are copied and no others change |
| HeapHeaders.SplitHeaders | rtt/src/mem.c:303-318 | after the header writes of a cut, next, prev and used describe the cut tiling; prev of the end marker is left out |
| HeapHeaders.JoinHeaders | rtt/src/mem.c:158-159 | after those of a join, the joined tiling |
| HeapHeaders.MarkHeader | rtt/src/mem.c:541-543 | after marking, the marked tiling |
| HeapHeaders.JoinKeepsLfree | rtt/src/mem.c:154-159 | joining keeps lfree a free block or the end, and the lowest free block if it was |
| Mem.Heap.constructor | rtt/src/mem.c:184-231 | one free block is the whole pool, and lfree is it |
| Mem.Heap.PlugHoles | rtt/src/mem.c:136-174 | from at most one pair of free neighbours on each side of the block to none; all payloads and used bytes stay |
| Mem.Heap.Search | rtt/src/mem.c:279-285 | the first block at or after lfree that fits below the bound, none exactly if there is none |
| Mem.Heap.RaiseLfree | rtt/src/mem.c:344-351 | lfree becomes the next free block, the lowest one if it was |
| Mem.Heap.Carve | rtt/src/mem.c:285-351 | the block is taken whole or cut, and every invariant of the heap holds again |
| Mem.Heap.PayloadAligned | rtt/src/mem.c:354-356 | in every state of the heap all blocks and their payloads are aligned |
| Mem.WholeMod | rtt/src/mem.c:355-356 | the sizes that RT_ALIGN leaves alone are the multiples the assertions test for |
| Mem.Heap.Malloc | rtt/src/mem.c:246-374 | with the least multiple of the alignment that is neither below the request nor below 12: the first fit is given out, aligned and inside the heap as asserted, with room for the request and at most an unusable rest; all other blocks stay; NULL exactly for size 0, more than the memory, or if none fits, with nothing changed; used_mem grows by the block, max_mem is the larger of what it was and that; payloads stay |
| Mem.Heap.RoundedLeast | rtt/src/mem.c:263-274 | a request is rounded up to the least multiple of the alignment that is neither below it nor below 12 |
| Mem.Heap.Unuse | rtt/src/mem.c:526-553 | the assertions on the block cannot fail; used_mem goes down by the length of the block, and lfree is lowered if need be |
| Mem.Heap.Free | rtt/src/mem.c:504-558 | the assertions cannot fail; exactly that block becomes free and is joined with free neighbours; all other blocks and payloads stay; lfree stays the lowest free block if it was |
| Mem.Heap.Shrink | rtt/src/mem.c:430-454 | the block is cut at the new size and the rest joined with a free block after it; lfree changes only with that one |
| Mem.Heap.Relocate | rtt/src/mem.c:457-465 | refused exactly as rt_malloc would; otherwise the content is in the first fit, the old block is free, and no other block changes |
| Mem.Heap.Realloc | rtt/src/mem.c:385-466 | decides as the source between staying, shortening and moving; the first bytes and all other payloads stay; on failure the heap is as it was |
| Mem.RefusedExactly | rtt/src/mem.c:279-281 | with lfree the lowest free block, a size is refused exactly if every free block with room for it is the last one and fits exactly |
| Mem.WholeRefused | rtt/src/mem.c:279-281 | for instance the whole of a fresh heap is never given out |
| Mem.ShrinkLowest | rtt/src/mem.c:430-454 | shortening keeps lfree the lowest free block exactly if it lies below the block or is the block right after it |
| Mem.ShrinkLosesBlock | rtt/src/mem.c:430-454 | a heap in which shortening leaves a free block that rt_malloc does not find |
| MemheapChain.SplitChain | rtt/src/memheap.c:210-220 | the writes of a cut keep the circular chain the tiling |
| MemheapChain.JoinChain | rtt/src/memheap.c:570-571 | so do those of a join |
| MemheapChain.PushRing | rtt/src/memheap.c:228-232 | the writes of an insertion put the block first in the circular free list |
| MemheapChain.DropRing | rtt/src/memheap.c:222-224 | those of a removal take out exactly that block |
| Memheap.Pool.constructor | rtt/src/memheap.c:60-131 | one free block, in the free list, its payload available |
| Memheap.Pool.Search | rtt/src/memheap.c:176-187 | the first block of the free list with room |
| Memheap.Pool.AllocFront | rtt/src/memheap.c:195-243 | the block is cut, its front used; all invariants hold |
| Memheap.Pool.AllocWhole | rtt/src/memheap.c:244-265 | the whole block is used, and off the free list |
| Memheap.Pool.Alloc | rtt/src/memheap.c:146-288 | with the least multiple of the alignment not below the request, or 12 if that is less: the first block with room of the free list, with room for the request; NULL exactly if that size is not below the available bytes or no block has room, with nothing changed; available bytes go down by its payload, and a header if it is cut; max_used_size is the larger of what it was and the bytes in use; payloads stay |
| Memheap.Pool.RoundedExactly | rtt/src/memheap.c:155-157 | a request is rounded up to the least multiple of the alignment not below it, or to 12 if that is less |
| Memheap.RoomExists | rtt/src/memheap.c:176-190 | the search of the free list fails exactly if no free block of the pool has room |
| Memheap.RefusedWithRoom | rtt/src/memheap.c:162-162 | a size for which there is room is refused exactly if it is all the available bytes; it then fits exactly and no other free block holds anything |
| Memheap.WholeRefused | rtt/src/memheap.c:162-162 | the one block of a fresh pool has room for exactly the available bytes |
| Memheap.FirstRequest | rtt/src/memheap.c:146-288 | the first request to a fresh pool is refused exactly if the least multiple of the alignment not below it, or 12 if that is less, is not below the size of the one block |
| Memheap.Pool.MergeLeft | rtt/src/memheap.c:538-555 | joins exactly with a free block before it, counts its header as available, and reports whether the block is in the free list |
| Memheap.Pool.MergeRight | rtt/src/memheap.c:557-589 | joins exactly with a free block after it; afterwards the free list is the set of free blocks and no two neighbours are free |
| Memheap.Pool.Free | rtt/src/memheap.c:499-593 | exactly that block becomes free and is joined on both sides; available bytes grow by its payload and a header for each join; all other blocks and payloads stay |
| Memheap.Pool.Grow | rtt/src/memheap.c:337-406 | the block grows into the free one after it and keeps its content and place |
| Memheap.Pool.Shrink | rtt/src/memheap.c:436-495 | the block is cut, the rest joined with a free block after it; content and place stay |
| Memheap.Pool.Move | rtt/src/memheap.c:412-420 | refused exactly as an allocation would; otherwise the content is in the first block with room, and the old block is free |
| Memheap.Pool.Realloc | rtt/src/memheap.c:291-496 | decides as the source between releasing, growing, moving, staying and cutting; the first bytes and all other payloads stay; on failure the pool is as it was |
| FinshOps.LoadStore | rtt/components/finsh/finsh_ops.c:375-434 | a stored dword is loaded again |
| FinshOps.LoadElsewhere | rtt/components/finsh/finsh_ops.c:428-434 | a store leaves cells that do not overlap it |
| FinshOps.StoreCell | rtt/components/finsh/finsh_ops.c:428-434 | a store puts the four bytes of the value at its address, the lowest first, where addresses wrap |
| FinshOps.StoreOnly | rtt/components/finsh/finsh_ops.c:428-434 | it changes no other byte |
| FinshArithmetic.SignedIs | rtt/components/finsh/finsh_ops.c:42-46 | the signed reading of a word is the one number from -2^31 to below 2^31 congruent to it |
| FinshArithmetic.WrappedIs | rtt/components/finsh/finsh_ops.c:69-162 | sum, difference and product of the signed operands, modulo 2^32 |
| FinshArithmetic.DivisionIs | rtt/components/finsh/finsh_ops.c:113-140 | undefined exactly for divisor 0 and for -2^31 by -1; otherwise quotient times divisor plus remainder is the dividend, the remainder nearer to 0 than the divisor and 0 or of the sign of the dividend |
| FinshArithmetic.BitwiseIs | rtt/components/finsh/finsh_ops.c:179-228 | each of the 32 bits of and, or, exclusive or from the two bits of the operands |
| FinshArithmetic.ComplementExactly | rtt/components/finsh/finsh_ops.c:245-250 | the complement is the one word in which each of the 32 bits is turned over |
| FinshArithmetic.ShlIs | rtt/components/finsh/finsh_ops.c:267-272 | undefined exactly for counts from 32 on; otherwise bit i of the result is bit i - b of the operand, and 0 below |
| FinshArithmetic.ShrIs | rtt/components/finsh/finsh_ops.c:289-294 | undefined exactly for counts from 32 on; otherwise the floor of the signed operand over 2^b |
| FinshArithmetic.ApplyExactly | rtt/components/finsh/finsh_ops.c:42-46 | for all ten operators: these properties determine the result, and the operator has it, or none where C defines none |
| FinshOps.ExecConcat | rtt/components/finsh/finsh_vm.c:63-71 | executing code in two parts is executing it at once |
| FinshOps.DecodeEncode | rtt/components/finsh/finsh.h:38-55 | every encoded instruction, anywhere in a text, is decoded to itself, little-endian operands included |
| FinshOps.RunZeros | rtt/components/finsh/finsh_vm.c:63-71 | the zero bytes that fill the segment do nothing |
| FinshOps.RunEncoded | rtt/components/finsh/finsh_vm.c:63-71 | running encoded instructions followed by zeros is executing them |
| FinshCompiler.TreeType | rtt/components/finsh/finsh_compiler.c:759-901 | the type check gives a tree the type of its leftmost leaf |
| FinshCompiler.TreeCode | rtt/components/finsh/finsh_compiler.c:43-757 | type check and code generation on the tree of an expression give its value code, and in lvalue position its address code |
| FinshCompiler.PointerStepCode | rtt/components/finsh/finsh_compiler.c:373-711 | the code of the four increments through any pointer: that of the operand, without the operator |
| FinshCompiler.ForestCode | rtt/components/finsh/finsh_compiler.c:285-309 | those on a list of arguments give their value codes in order |
| FinshMeaning.ValueCorrect | rtt/components/finsh/finsh_compiler.c:43-757 | on every stack and memory, the value code of a well-formed expression pushes exactly its value and leaves its effects in memory, undefined exactly where evaluation is |
| FinshMeaning.AddressCorrect | rtt/components/finsh/finsh_compiler.c:54-196 | address code pushes the address that an lvalue, or the name of a function, denotes |
| FinshMeaning.BinaryCorrect | rtt/components/finsh/finsh_ops.c:42-46 | so for binary operators: left operand first, also for those that do not commute |
| FinshMeaning.AssignCorrect | rtt/components/finsh/finsh_compiler.c:311-370 | so for assignments: the value is in memory and on the stack once |
| FinshMeaning.IncDecCorrect | rtt/components/finsh/finsh_compiler.c:373-711 | so for the four increments of variables, before and after; for other places see IncDecExact |
| FinshMeaning.ArgsCorrect | rtt/components/finsh/finsh_compiler.c:285-309 | arguments are evaluated and pushed from left to right |
| FinshMeaning.ApplyCorrect | rtt/components/finsh/finsh_ops.c:444-569 | a call passes the arguments in order and leaves only the result |
| FinshMeaning.OperatorMeaning | rtt/components/finsh/finsh_ops.c:42-46 | evaluation applies an operator to the value of its left operand and then that of its right one, with the result that ApplyExactly determines |
| FinshMeaning.StepMeaning | rtt/components/finsh/finsh_compiler.c:373-711 | an increment or decrement changes its cell by one modulo 2^32 and no other, and has the new value before the operand and the old one after it |
| FinshMeaning.CallMeaning | rtt/components/finsh/finsh_ops.c:444-474 | a call hands its arguments over in their order, and 0 if it has none |
| FinshMeaning.ProgramCorrect | rtt/components/finsh/finsh_compiler.c:903-937 | a list of statements leaves the value of the last one, and the effects of all |
| FinshMeaning.OperatorDropped | rtt/components/finsh/finsh_compiler.c:759-901 | with a system call's name as leftmost leaf both operand values are left on the stack |
| FinshMeaning.OperatorExact | rtt/components/finsh/finsh_compiler.c:217-282 | a binary operator keeps its meaning exactly if its left operand does not begin with a system call's name |
| FinshMeaning.ComplementExact | rtt/components/finsh/finsh_compiler.c:266-270 | likewise for the complement |
| FinshMeaning.DerefExact | rtt/components/finsh/finsh_compiler.c:718-740 | likewise for loading through a pointer, but for pointers to their own address |
| FinshMeaning.AssignExact | rtt/components/finsh/finsh_compiler.c:341-369 | an assignment through a pointer keeps its meaning exactly if the pointer does not begin with a system call's name |
| FinshMeaning.StoreDropped | rtt/components/finsh/finsh_compiler.c:341-369 | otherwise nothing is stored, and pointer and value are left on the stack |
| FinshMeaning.StoreThroughCall | rtt/components/finsh/finsh_compiler.c:341-369 | the code of *f() = v |
| FinshMeaning.IncDecExact | rtt/components/finsh/finsh_compiler.c:373-711 | an increment or decrement of a place in memory keeps its meaning exactly if the place is a variable |
| FinshMeaning.StepDropped | rtt/components/finsh/finsh_compiler.c:373-711 | through a pointer nothing is stored: before the operand the pointer is pushed, after it the old value |
| FinshMeaning.PointerSteps | rtt/components/finsh/finsh_compiler.c:373-711 | the code of ++*p and of (*p)++ |
| FinshMeaning.CallPlusConstant | rtt/components/finsh/finsh_compiler.c:217-221 | the code of f() + 2 |
| FinshMeaning.TextCorrect | rtt/components/finsh/finsh_vm.c:47-72 | running a text segment that holds a compiled program and zeros is evaluating the program |
| FinshVm.Compiler.CodeByte | rtt/components/finsh/finsh_compiler.c:39-39 | one byte is appended to the text, and the rest of the segment stays zero |
| FinshVm.Compiler.CodeDword | rtt/components/finsh/finsh_compiler.c:41-41 | four bytes, the lowest first, are appended |
| FinshVm.Compiler.EmitIncrement | rtt/components/finsh/finsh_compiler.c:373-711 | the code of one increment is appended |
| FinshVm.Compiler.EmitNode | rtt/components/finsh/finsh_compiler.c:52-751 | exactly the code of the node is appended |
| FinshVm.Compiler.Compile | rtt/components/finsh/finsh_compiler.c:43-757 | exactly the code of the tree is appended |
| FinshVm.Compiler.Run | rtt/components/finsh/finsh_compiler.c:903-937 | the text segment holds the encoded program followed by zeros |
| FinshVm.Vm.StDword | rtt/components/finsh/finsh_ops.c:428-434 | the value is stored at the address below it, where loading finds it again, and the address stays on the stack |
| FinshVm.Vm.BinDword | rtt/components/finsh/finsh_ops.c:42-46 | refused exactly where C leaves the result undefined; otherwise the two operands are replaced by what the operator yields for the lower and the upper one |
| FinshVm.Vm.BitwiseDword | rtt/components/finsh/finsh_ops.c:245-250 | each of the 32 bits of the top of the stack is turned over |
| FinshVm.Vm.LdValueDwordStack | rtt/components/finsh/finsh_ops.c:389-397 | the cell that the top of the stack points to replaces it |
| FinshVm.Vm.PopParameters | rtt/components/finsh/finsh_ops.c:457-463 | the loop takes the parameters off the stack in their original order |
| FinshVm.Vm.Call | rtt/components/finsh/finsh_ops.c:444-569 | function and parameters are replaced by the result of the function for the parameters in their order, or for 0 without any |
| FinshVm.Vm.Step | rtt/components/finsh/finsh_vm.c:66-70 | one round executes the decoded instruction, and the stack stays below a fifth of the text read |
| FinshVm.Vm.Run | rtt/components/finsh/finsh_vm.c:47-72 | the loop terminates, runs the text as specified, and never overflows the stack |
| FinshVm.Evaluate | rtt/components/finsh/finsh_vm.c:47-72 | compiling and running any list of well-formed statements whose code fits the segment evaluates them |

## Left out

Kernel

- Context switch, stacks, interrupt hardware, hooks, names, logging, modules: hardware and I/O.
- Kernel.Kernel.Startup: joins the regions of rt_thread_startup; `ThreadRuns` has them one by one. So does Kernel.Kernel.ExitCritical with the schedule at its end.
- Thread deletion and detaching, defunct threads after their exit, and deletion of IPC objects.
- Kernel.Kernel.ChangePriority: a suspended thread keeps its place in a wait list, as in the source, so wait lists of the kernel are not claimed to be sorted.
- Kernel.Kernel.Tick: is the time slice part of the tick; `TickInterrupt.TickIncrease` is the whole.
- TickInterrupt.TickIncrease: the timeouts of threads follow the check instead of being called in it; they touch no timer.
- Ready lists, wait lists and timer rows are sequences of threads or timers; that linked nodes implement such sequences is shown once, in `RtList`.
- Soft timers and their thread; ticks that are set or skip.
- Timer.TimerQueue.Start: joins the steps of the call; `TimerRegions` has them one by one, on the plain list with true times. Timer.TimerQueue.Stop: likewise. A caller that is kept from its region for half a wrap is not modelled.
- Timer.TimerQueue.Check: timeout functions that start or stop timers are not modelled. Timer.TimerQueue.FireFirst is a round of it.
- TimerRuns.FiresOnTime: times are below half a wrap, as the source asserts, and positive for periodic timers, since otherwise CheckNeverEnds; other settings are ignored.
- The retry loops of blocking calls are steps of the run modules. Counters are unbounded: the 8 and 16-bit fields are assumed not to overflow, but for the cut in Semaphore.Counter.Reset.
- MutexRuns.PriorityInherited: one mutex, whose priorities nobody else changes; nested mutexes do not inherit transitively in the source.
- Memory pools (`mempool.c`): a woken thread takes a block without looking again, so no protocol property holds.

Heaps

- Locks of the heaps: every call is one step. The failure path of `rt_malloc` in `slab.c` releases its semaphore twice.
- RT_ALIGN is taken not to wrap; sizes are naturals.
- Pages.PageHeap.PageFree: a caller frees whole runs as allocated, as the slab does.
- rt_realloc and rt_calloc of `slab.c`: compositions of the calls modelled here.
- Headers are records beside the bytes. Every header write also overwrites the bytes at its place, so that payloads are shown not to overlap headers, but the encoding of headers in bytes is not modelled.
- Slab.Slab.Malloc: freed chunks hold their list links; payload bytes of chunks are not modelled, only that chunks do not overlap.
- Memheap.Pool.Realloc: a pointer of another pool is excluded.
- Mem.Heap.Realloc: a pointer inside the heap must be one given out; those beyond the heap are returned as in the source, those below it are not modelled.

finsh

- Parser, tokenizer, the heap of nodes, the tables of variables, system calls and their lookup: the tree is the input.
- Byte and word expressions, empty expressions, and operations from 48 on. Increments of system variables, for which the generator reads the address of another kind of variable.
- The type check updates nodes; the model returns the checked tree.
- FinshMeaning.ValueCorrect: expressions whose operators find no type are excluded by well-formedness; what happens to them is OperatorExact, ComplementExact, DerefExact, AssignExact and, for increments through pointers, IncDecExact. So for FinshMeaning.ProgramCorrect, FinshMeaning.TextCorrect and FinshVm.Evaluate.
- FinshVm.Vm.Run: division by zero, of the least number by -1, and shift counts outside 0 to 31 end the run, since C leaves them undefined. Sums, differences, products and left shifts wrap to 32 bits.
- FinshVm.Compiler.Run: code that does not fit the segment is excluded; the source does not check.
