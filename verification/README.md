# RT-Thread kernel core and finsh: a verification model

This project models the RT-Thread 2.1 kernel core and the finsh shell back end in Dafny and
proves what they promise over every run: timers, thread scheduling, the IPC protocols, the
four memory allocators and the finsh compiler with its virtual machine.

Each part has the same two layers. A specification layer gives the meaning of the operations on
mathematical values (an unbounded clock, a list of blocks, a protocol of atomic sections) and
proves the main theorems about every sequence of operations. An implementation layer has a class
with the fields of the source, methods with its loops and in-place updates, and contracts that
tie every method to the specification. `dafny verify dfyconfig.toml` checks everything.

| part | specification | implementation |
|---|---|---|
| timers | `TimerSpec.dfy`, `TimerCommands.dfy` | `TimerRows.dfy`, `TimerSkipList.dfy` |
| scheduler, threads, time slices | `SchedulerSpec.dfy`, `SchedulerRuns.dfy`, `ReadyRuns.dfy`, `ReadyIndex.dfy` | `Scheduler.dfy`, `ThreadLinks.dfy` |
| mailbox | `MailboxSpec.dfy`, `MailboxRuns.dfy`, `IpcList.dfy` | `Mailbox.dfy` |
| message queue | `MessageQueueSpec.dfy`, `MessageQueueRuns.dfy` | `MessageQueue.dfy` |
| events, mutexes | `Event.dfy`, `EventRuns.dfy`, `Mutex.dfy`, `MutexRuns.dfy` | the classes in `Event.dfy` and `Mutex.dfy` |
| memheap | `MemHeapSpec.dfy`, `MemHeapLive.dfy` | `MemHeap.dfy`, `MemHeapThreads.dfy`, `WordRing.dfy` |
| small memory (`mem.c`) | `SmallMemSpec.dfy`, `SmallMemLive.dfy` | `SmallMem.dfy` |
| slab | `SlabZones.dfy`, `SlabZone.dfy`, `SlabSpec.dfy` | `PageList.dfy`, `Slab.dfy` |
| finsh compiler and VM | `FinshLanguage.dfy`, `FinshMachine.dfy`, `FinshArithmetic.dfy`, `FinshCorrect.dfy` | `FinshCompiler.dfy`, `FinshVm.dfy` |
| finsh heap | `FinshHeapSpec.dfy` | `FinshHeap.dfy` |

`Bits.dfy`, `Blocks.dfy`, `Links.dfy`, `Lists.dfy` and `Powers.dfy` hold what several parts share.

A specification is a function from a state and a call to the next state. Beside the invariants of
these states, the modules named after runs say what callers observe: they define, from the calls
and their results alone, what was sent, how deep a thread is inside a mutex, or what priority it
was given, and prove that the states agree with it after every run.

## How the source is represented

- A section of code with interrupts disabled is one atomic step. Blocking calls are split at the
  points where they suspend: a first section, a wake-up or a timeout, and a section from the
  wake-up on. A timer start by a thread is three steps: the section that unlinks, the
  computation of the deadline, the section that links. A stop is two: the section that unlinks
  and the clearing of the flag. Thread calls are split in the same way: a resumption is the test
  of the state, the section that unlinks and the section that inserts; a suspension is the test
  and the section; a start is the test, the assignments and a resumption; a deletion is the
  section that takes the thread off its queue, the assignment of the state and the section that
  puts it on the defunct list. By a caller that has interrupts disabled each of these is one
  step. Any number of calls on the same timer or thread may be in progress at once.
- Allocator calls are one step each. The slab heap counts the takes and releases of its
  semaphore.
- Ticks are 32-bit numbers in the timer class and unbounded integers in its specification.
  Words of the shell's machine are 32-bit numbers with wrap-around. Elsewhere numbers are
  unbounded.
- memheap and `mem.c` sizes and addresses are in words of four bytes, which is exact because
  every size is aligned to four; slab and page addresses are bytes and page numbers; the finsh
  heap uses byte offsets. Requests are given in bytes, and their alignment does not wrap.
- Headers and links live in memory: a flat word memory for memheap and `mem.c`, link and count
  words per page for the page allocator, link and length words per header for the finsh heap,
  link words per node for the message queue, next and previous links per timer and row for the
  skip list. In the scheduler and IPC classes ready queues and wait lists are sequences that the
  methods reassign; `ThreadLinks.dfy` has the list operations on the links of the threads' nodes.
  A sequence stands for a list as long as no node is inserted into it twice
  (`TimerRows.LinkThreadedExactly`, `ThreadLinks.LinkExactly`). Slab zone lists and free chunks
  are sequences.
- The ready index and the masks of the threads are words of bits. A thread keeps the masks its
  memory held until it is started.
- Ghost arguments of methods (block numbers, list positions) name things for the proof only.

## Where code and comments disagree

The model follows the code in each case.

- A binary operator whose left operand is a call is type-checked as VOID and no opcode is
  emitted for it (`FinshCorrect.DroppedOperator`); `FinshCorrect.IntendedExactly` gives the exact
  condition under which the intended code is emitted.
- A one-shot timer that is restarted by its own callback ends up linked with its ACTIVATED flag
  cleared (`TimerSpec.FlagLost` is such a run), and so does a timer that a callback starts while
  a thread is in `rt_timer_stop` between the section and the clearing of the flag
  (`TimerSpec.StopLosesFlag`). `TimerSpec.FlagsMatchExactly` and `TimerSpec.FlagsOverRuns` show
  that there are no other such steps.
- The deadline of a timer is computed with interrupts enabled, before the section that links the
  timer. `TimerSpec.Punctual` says exactly which firings are at their deadline, and
  `TimerSpec.StartOvertaken` is a run in which a timer fires two ticks late, after a timer with a
  later deadline.
- Nothing keeps a timer from being started while it is being started. Its queue and its order stay
  right throughout a run exactly when no timer is linked while another start of it is in progress
  (`TimerSpec.NextExactly`, `TimerSpec.InvOverRuns`), and every timer is queued once throughout
  exactly when no linked timer is linked again (`TimerSpec.OnceOverRuns`). `TimerSpec.StartedTwice`
  is a run that links a timer twice, and after `TimerSkipList.LinkTwice`, the same run on the
  lists, the links are lists no longer.
- A timer check does not end while an active periodic timer has no delay:
  `TimerSpec.CheckSpins`.
- A shrinking `rt_realloc` in `mem.c` does not lower `lfree`; `SmallMemSpec.ShrinkLowest` says
  exactly when the lowest-free property survives, `SmallMemSpec.RunLowest` says so for runs, and
  `SmallMemSpec.LowestCanFail` is a run in which it does not.
- The first-fit loop of `mem.c` misses an exact fit at the end of the heap, and nothing else:
  `SmallMemSpec.BoundMisses`.
- Priority inheritance breaks in three ways when threads use several mutexes or mutexes have the
  FIFO flag: a release restores a recorded priority although another mutex of the thread still
  needs an inherited one, a waiting owner is raised but the owner it waits for is not, and the
  first of a FIFO list gets the mutex before a more urgent waiter. `Mutex.PromiseKept` and
  `Mutex.NestedRun` show that there is no other way; `Mutex.NestedReleaseBreaks`,
  `Mutex.ChainBreaks` and `Mutex.FifoBreaks` are runs for each.
- A mutex records the priority its owner has when it gets it, inherited or not, and restores it:
  `Mutex.BaseKept` and `Mutex.NestedBase` are the exact condition for own priorities to be
  restored, and after the run of `Mutex.InheritedStays` a thread without mutexes keeps an
  inherited one.
- The calls on threads test and change the state of a thread outside of the sections that move it.
  A thread is ready exactly while it is queued, once, throughout a run exactly when no part of an
  interrupted start, resumption or deletion is carried out on a ready thread
  (`ReadyRuns.ReadyOverRuns`). Between the
  sections of a deletion a ready thread is in no queue. With that allowed for, the queues, the
  states and the defunct list are right throughout exactly when every step is safe
  (`SchedulerSpec.NextExactly`, `SchedulerSpec.EveryRun`), which holds if nothing else is done to a
  thread between the parts of a call on it (`SchedulerSpec.UndisturbedSafe`).
  `SchedulerSpec.DeleteInterrupted` is a run that leaves a closed thread in a ready queue: its
  timeout comes between the sections of its deletion. `SchedulerSpec.ResumedTwice` is a run in
  which two resumptions pass the test and queue the thread twice.
- Deleting a thread that was never started clears the ready bits in the masks its memory was left
  with when nobody is ready at its priority. The index stays right exactly when somebody is, or
  no busy priority is in those masks: `Scheduler.RemovedAgrees`, `Scheduler.Scheduler.Delete`.
  `Scheduler.DeleteBeforeStart` reaches a state with the idle thread ready and not in the index.
- The header of `slab.c` promises aligned power-of-two allocations of any size and a result for
  a request of zero bytes. A chunk is aligned to its size exactly when its zone is
  (`SlabZone.ChunkAlignedIff`), which a page-aligned zone guarantees only up to one page
  (`SlabSpec.LiveAligned`, `SlabZone.LargeChunksNotAligned`). The first chunk of 8192 bytes of a
  heap is aligned exactly when the page descriptors end at an even page (`Slab.FirstLargeChunk`,
  `Slab.MisalignedRequest`). A request of zero bytes gives the null address.
- A small request of the slab heap that finds neither a zone nor the pages for one releases the
  semaphore of the heap twice (src/slab.c:614, 680-681), and nothing else changes its count
  (`Slab.SlabHeap.Malloc`, `SlabSpec.LockOverRuns`). After `Slab.LockLeaks` two threads may hold it.

## Model

| member | source | states |
|---|---|---|
| FinshMachine.OperandRoundTrip | components/finsh/finsh.h:38-55 | decoding an encoded 32-bit operand gives the operand |
| FinshMachine.LoadAfterStore | components/finsh/finsh_ops.c:317-442 | a stored word reads back, all other bytes and the set of mapped addresses stay |
| FinshArithmetic.ApplyExactly | components/finsh/finsh_ops.c:42-315 | the result of a binary operator is the one word that C's signed 32-bit operator means: sums, differences, products and left shifts congruent to the exact number, quotient and remainder of the division that truncates, right shifts the floor of the division by the power of two, and, or and exclusive or bit by bit |
| FinshArithmetic.DefinedExactly | components/finsh/finsh_ops.c:99-140 | a division and its remainder are defined iff a quotient of the range exists, a shift iff it is by 0 to 31 places, everything else always |
| FinshArithmetic.ExactInRange | components/finsh/finsh_ops.c:55-160 | a sum, difference, product or left shift that is in the range is exact |
| FinshArithmetic.ComplementBits | components/finsh/finsh_ops.c:231-250 | the complement flips each of the 32 bits |
| FinshArithmetic.OnStack | components/finsh/finsh_ops.c:42-45 | a binary opcode replaces the two top cells by a word iff it is the meaning of the operator for the lower and the upper |
| FinshArithmetic.InExpressions | components/finsh/finsh_compiler.c:43-757 | an operator of an expression applies to the value on its left and to that on its right, which is evaluated in the memory the left one leaves; the value is right iff it is that meaning |
| FinshArithmetic.ConstantLine | components/finsh/finsh_compiler.c:903-937 | a line with one operator on two numbers gives a word iff it is the defined meaning |
| FinshArithmetic.CallPasses | components/finsh/finsh_ops.c:444-569 | a call gets the values of its arguments in order, or a single 0 |
| FinshArithmetic.Assigns | components/finsh/finsh_ops.c:317-442 | an assignment to a variable or through a pointer gives its right side, evaluated behind the place and then read there, no other byte changes, and it faults iff the place or the right side does or the place is not mapped |
| FinshArithmetic.StepsByOne | components/finsh/finsh_ops.c:317-442 | an increment or decrement changes a variable by one modulo 2^32; before the variable it gives the new value, behind it the old one |
| FinshCompiler.Compiler.CodeCall | components/finsh/finsh_compiler.c:285-308 | a call emits the call opcode and the number of parameters, the children but the callee |
| FinshCompiler.Compiler.CompileOwn | components/finsh/finsh_compiler.c:43-757 | a node appends exactly its own opcodes and operands to the text |
| FinshCompiler.Compiler.Compile | components/finsh/finsh_compiler.c:43-757 | the recursion over child and siblings appends the post-order code and touches no other byte |
| FinshCompiler.Compiler.CompileStatement | components/finsh/finsh_compiler.c:903-937 | one statement appends its code, with the pop that separates statements |
| FinshCompiler.Compiler.CompilerRun | components/finsh/finsh_compiler.c:903-937 | the whole text segment is the program's code filled up with zeros |
| FinshCorrect.GeneratesIntended | components/finsh/finsh_compiler.c:43-757 | the code of an expression's parse tree is the intended code iff it is well typed, else strictly shorter |
| FinshCorrect.GeneratesProgram | components/finsh/finsh_compiler.c:759-937 | the same for a list of statements |
| FinshCorrect.RunIntended | components/finsh/finsh_vm.c:47-72 | executing an expression's code pushes exactly its value, changes memory exactly as evaluation does, and gets stuck exactly where evaluation faults |
| FinshCorrect.RunProgram | components/finsh/finsh_vm.c:47-72 | the same for statement lists: only the last value stays on the stack |
| FinshCorrect.CompilerCorrect | components/finsh/finsh_compiler.c:903-937 | compiler correctness: for every well-typed program that fits text and stack, running the compiled segment from an empty stack gives the evaluator's value and memory, or is stuck iff evaluation faults |
| FinshCorrect.IntendedExactly | components/finsh/finsh_compiler.c:217-221 | the emitted bytes are the intended ones iff no operator has a call as leftmost operand |
| FinshCorrect.DroppedOperator | components/finsh/finsh_compiler.c:217-221 | with a call on the left both operands stay on the stack and the operator does nothing |
| FinshVm.Vm.Push | components/finsh/finsh_ops.c:317-326 | a push on the stack array, stuck when it is full |
| FinshVm.Vm.DoBinary | components/finsh/finsh_ops.c:42-315 | a binary opcode replaces the two top cells by the word the operator means for them, and is stuck iff the operator is not defined for them or there are not two |
| FinshVm.Vm.DoCall | components/finsh/finsh_ops.c:444-569 | a call pops its parameters and replaces the callee by the result |
| FinshVm.Vm.DoOperation | components/finsh/finsh_ops.c:571-622 | every opcode acts as the machine's operation of that name |
| FinshVm.Vm.Run | components/finsh/finsh_vm.c:47-72 | the fetch loop over the text computes the machine's run from its start |
| FinshVm.RunLine | components/finsh/shell.c:298-312 | compiling and running a line gives the evaluator's result in the bottom stack cell and the evaluator's memory; `FinshArithmetic.InExpressions` says what the evaluator's operators mean |
| TimerSpec.InsertSorted | src/timer.c:339-388 | inserting a later start behind everything not later keeps the queue in deadline order, equal deadlines in start order |
| TimerSpec.BeginKeepsInv | src/timer.c:306-312 | the first section of a start keeps the queue sorted, one entry per timer, nothing waiting overdue but what was linked since the last check, and starts in progress unlinked and not flagged |
| TimerSpec.StampKeepsInv | src/timer.c:316-321 | so does the computation of the deadline, with interrupts enabled, and it moves no waiting entry |
| TimerSpec.LinkExactly | src/timer.c:323-393 | so does the second section, after any number of ticks, iff no other start of the timer is in progress |
| TimerSpec.StartExactly | src/timer.c:294-393 | so do the three at once, as callers with interrupts disabled do them, iff no start of the timer is in progress |
| TimerSpec.NextExactly | src/timer.c:294-546 | every step (the parts of a start, stop, tick, poll, callback return, control) keeps that iff it does not link a timer of which another start is in progress |
| TimerSpec.InvOverRuns | src/timer.c:294-546 | it holds throughout a run iff the run has no such step |
| TimerSpec.ApartRuns | src/timer.c:294-312 | a run in which no timer is started that is being started has none |
| TimerSpec.NextKeepsLog | src/timer.c:488-546 | the log of firings stays in tick order, in one check in (deadline, start) order and ahead of what still waits, and every firing is at its deadline or in the first check after the timer was linked |
| TimerSpec.Punctual | src/timer.c:316-324 | no firing is early; one is at its deadline iff no check at or past the deadline ran between the computation of the deadline and the linking, and it was not started with no delay between two ticks |
| TimerSpec.PunctualInOrder | src/timer.c:488-546 | a firing at its deadline comes after every earlier firing in (deadline, start) order |
| TimerSpec.StartOvertaken | src/timer.c:316-324 | a run in which a start with deadline 1 is linked at tick 2 and fires at tick 3, after one with deadline 2 |
| TimerSpec.StopMissesStart | src/timer.c:425-426 | a stop during a start in progress does nothing |
| TimerSpec.LinkedOnce | src/timer.c:376-388 | the second section leaves one entry per timer iff the timer is not linked |
| TimerSpec.NextOnce | src/timer.c:294-546 | whatever starts overlap, a step leaves one entry per timer iff it does not link a linked timer |
| TimerSpec.OnceOverRuns | src/timer.c:294-546 | every timer is queued once throughout a run iff no linked timer is linked again |
| TimerSpec.StartedTwice | src/timer.c:294-393 | a run of four steps that queues a timer twice |
| TimerSpec.RunsFireInOrder | src/timer.c:488-546 | the log property over every run without overlapping links, across any number of tick wraps |
| TimerSpec.NextConserves | src/timer.c:294-546 | each start is waiting, fired or cancelled, and counted once, also when starts of a timer overlap |
| TimerSpec.RunsConserve | src/timer.c:294-546 | the same over every run |
| TimerSpec.EveryRun | src/timer.c:294-546 | from the initial state: conservation always; the invariant throughout iff no links overlap, and then the log property too; no links overlap if no timer is started that is being started |
| TimerSpec.PollIsExact | src/timer.c:501-540 | a turn of the check fires iff a waiting timer is due, then the earliest, and stops with nothing due |
| TimerSpec.CheckShrinks | src/timer.c:488-546 | each firing uses up a due timer, and callbacks that start with a delay add none; of the timers that fire only restarted periodic ones need a delay |
| TimerSpec.CheckSpins | src/timer.c:525-531 | with an active periodic timer of no delay every turn of the check leads to the same situation |
| TimerSpec.SpinReached | src/timer.c:525-531 | a start and a tick lead there |
| TimerSpec.FlagsMatchExactly | src/timer.c:419-536 | ACTIVATED iff linked survives every step except the return of a callback that restarted its own one-shot timer and the end of a stop of a timer that was started again since its section |
| TimerSpec.FlagsOverRuns | src/timer.c:419-536 | it holds throughout a run iff the run has no such step, also when starts of a timer overlap |
| TimerSpec.FlagLost | src/timer.c:525-536 | a run of five steps that has one of the first kind |
| TimerSpec.StopLosesFlag | src/timer.c:430-439 | a run of nine steps that has one of the second kind |
| TimerSkipList.MinusIsDifference | src/timer.c:356-360 | the unsigned subtraction of wrapped ticks is the true difference modulo 2^32 |
| TimerSkipList.SearchOrder | src/timer.c:356-363 | the search comparison of wrapped ticks agrees with the unbounded order within half the range |
| TimerSkipList.SearchOrderExactly | src/timer.c:356-363 | the exact window of differences in which it does |
| TimerSkipList.ExpiryTest | src/timer.c:506-510 | so does the expiry test |
| TimerRows.InsertThreaded | include/rtservice.h:62-69 | inserting a node behind another keeps a row a circular list, forwards and backwards, of exactly the timers in it |
| TimerRows.LinkedTwice | include/rtservice.h:62-69 | inserting a node that is in the row leaves links that are no row of any contents |
| TimerRows.LinkThreadedExactly | include/rtservice.h:62-69 | the links are a row after an insertion iff the node was not in it |
| TimerRows.RemoveThreaded | include/rtservice.h:90-96 | so does removing a node, also one that is not in the row and linked to itself |
| TimerSkipList.RowsAreSublists | src/timer.c:339-388 | every row of the skip list is an ordered sublist of the row below |
| TimerSkipList.InsertRepresents | src/timer.c:339-388 | insertion at the found places, with any height, represents stable insertion into the queue |
| TimerSkipList.DeleteRepresents | src/timer.c:123-131 | removal from all rows represents removal from the queue |
| TimerSkipList.TimerList.constructor | src/timer.c:671-679 | an empty list represents the initial clock |
| TimerSkipList.TimerList.ListRemove | include/rtservice.h:90-96 | the four link writes of a removal |
| TimerSkipList.TimerList.ListInsertAfter | include/rtservice.h:62-69 | the four link writes of an insertion |
| TimerSkipList.TimerList.Remove | src/timer.c:123-131 | unlinks a timer from every row, and changes nothing in rows it is not in |
| TimerSkipList.TimerList.SearchRow | src/timer.c:342-364 | the walk along the links of one row ends at the node at the rank of the new deadline |
| TimerSkipList.TimerList.Search | src/timer.c:339-367 | the nested search finds that node in every row, each starting at the node where the one above stopped |
| TimerSkipList.TimerList.Link | src/timer.c:369-388 | inserts the timer behind the nodes found, in as many rows as the zero bits of the counter give, linked or not |
| TimerSkipList.TimerList.Located | src/timer.c:339-367 | the places found represent the queue with the new start in it |
| TimerSkipList.RelinkedWired | src/timer.c:376-388 | a timer in no row is linked into rows again |
| TimerSkipList.RelinkedTwice | src/timer.c:376-388 | for a timer in the complete row the links are rows no longer |
| TimerSkipList.LinkTwice | src/timer.c:294-393 | the run of four steps on the lists, behind which the links are no lists |
| TimerSkipList.TimerList.StartBegin | src/timer.c:306-312 | the first section is that of the unbounded clock |
| TimerSkipList.TimerList.StartStamp | src/timer.c:316-321 | the wrapped deadline stored is the unbounded one, given that delay and window fit in half the tick range |
| TimerSkipList.TimerList.StartLink | src/timer.c:323-393 | the second section, within the window of ticks after that, is that of the unbounded clock; the links are lists after it iff the timer was not linked, and nothing overlaps iff it was the only start of the timer |
| TimerSkipList.TimerList.Start | src/timer.c:294-393 | the three at once are the start of the unbounded clock; nothing overlaps iff no start of the timer was in progress |
| TimerSkipList.TimerList.StopSection | src/timer.c:430-436 | the section of a stop is that of the unbounded clock |
| TimerSkipList.TimerList.StopFlag | src/timer.c:438-439 | so is the clearing of the flag behind it |
| TimerSkipList.TimerList.Stop | src/timer.c:419-442 | fails iff not flagged active; otherwise both at once are the stop of the unbounded clock |
| TimerSkipList.TimerList.Control | src/timer.c:454-479 | the set commands change the delay or the kind of that timer to what they say, and nothing else |
| TimerCommands.StartsAt | src/timer.c:294-393 | a start makes the timer wait once, for now plus its delay, and moves no other timer in the queue |
| TimerCommands.SetTimeThenStart | src/timer.c:454-479 | a start at tick n after a set-time command, with anything in between but another such command, waits for n plus the delay that was set |
| TimerCommands.SetTimeThenStamp | src/timer.c:316-321 | a start in parts waits for the tick of its deadline computation plus the delay that was set, however late it is linked |
| TimerCommands.SetPeriodicThenReturn | src/timer.c:525-536 | the return of a callback restarts the timer, for now plus its delay, iff the last kind command set periodic and the timer is still active; else it is inactive |
| TimerCommands.DelayElapses | src/timer.c:294-546 | a timer that is started and not touched again fires, exactly when its delay has elapsed, whatever other timers do |
| TimerSkipList.TimerList.TickIncrease | src/clock.c:83-105 | the wrapped tick follows the unbounded time |
| TimerSkipList.TimerList.Poll | src/timer.c:501-518 | one turn unlinks the first timer iff it is due |
| TimerSkipList.TimerList.Return | src/timer.c:525-536 | after a callback a periodic timer that is still active starts again, else its flag is cleared |
| TimerSkipList.TimerList.Callback | src/timer.c:517-518 | timer calls made by a callback are legal steps and make nothing new due, given a delay for the timers it may start |
| TimerSkipList.TimerList.CheckTurn | src/timer.c:501-540 | a turn with its callback is a run of the clock that uses up a due timer, or ends with nothing due |
| TimerSkipList.TimerList.Check | src/timer.c:488-546 | the whole check terminates, is a run of the unbounded clock and leaves nothing due, given a delay for active periodic timers and those callbacks may start, none of which is being started |
| Bits.OrBits | src/scheduler.c:298-301 | the bits of an or are those of either word |
| Bits.AndNotBits | src/scheduler.c:339-349 | the bits of an and-not are those of the first word not in the second |
| ReadyIndex.TableIsLow | src/kservice.c:1213-1231 | the lookup table gives the lowest set bit of every byte |
| ReadyIndex.FfsIsLowest | src/kservice.c:1243-1257 | the result is one more than the lowest set bit of a word, 0 for 0 |
| ReadyIndex.MarkAgrees | src/scheduler.c:268-305 | setting the bits of a priority makes the one- or two-level index right again after an insertion |
| ReadyIndex.UnmarkAgrees | src/scheduler.c:314-353 | clearing them, and the group bit only when the byte is empty, does so after a queue became empty |
| ReadyIndex.HighestIsTop | src/scheduler.c:204-213 | the bitmap search finds the most urgent queue that is not empty, with either number of levels |
| SchedulerSpec.ResumeExactly | src/thread.c:644-656 | the unlinking section of a resumption keeps the queues, states and defunct list right iff the thread is not queued, the insertion iff it is neither ready nor closed nor being deleted |
| SchedulerSpec.UnlinkExactly | src/scheduler.c:314-353 | so does a removal from the queue, by a suspension iff the thread was not closed since it was tested, by a deletion always |
| SchedulerSpec.NextExactly | src/thread.c:78-690 | every step of scheduler and thread calls, with interrupts enabled between the parts of a call, keeps: in the queue of its priority once iff ready and not being deleted, closed threads stay closed, only they are defunct, time slices in range, the idle thread ready; iff the step is safe |
| SchedulerSpec.InitialInv | src/scheduler.c:121-148 | the state with the idle thread alone satisfies it |
| SchedulerSpec.EveryRun | src/thread.c:78-690 | it holds throughout a run iff every step of the run is safe |
| SchedulerRuns.EveryRunTells | src/thread.c:78-690 | after every run every thread is in the state and has the priority, the time slice and the ticks left that the calls gave it, read off the calls, the defunct list is as they left it, and the scheduler is locked as deep as they locked it |
| SchedulerRuns.LockedStays | src/scheduler.c:359-405 | while the scheduler is locked the running thread stays, whatever happens but the last unlock |
| SchedulerRuns.QueuesLast | src/thread.c:507-690 | a call on a thread keeps all other threads in their order in every queue, and a thread that it queues goes last in the queue of its new priority |
| SchedulerSpec.NextBase | src/thread.c:78-690 | safe or not, every step leaves only existing threads in the lists, numbers in range and the idle thread ready |
| SchedulerSpec.ReadyExactly | src/thread.c:371-397 | while it holds, a thread is queued iff ready, except exactly for ready threads being deleted |
| SchedulerSpec.UndisturbedSafe | src/thread.c:234-690 | a run is safe if nothing else is done to a thread between the parts of a call on it |
| SchedulerSpec.DeleteInterrupted | src/thread.c:371-397 | a run from the initial state in which a timeout between the sections of a deletion leaves a closed thread in a ready queue |
| SchedulerSpec.ResumedTwice | src/thread.c:627-660 | a run from the initial state in which two resumptions queue a thread twice |
| ReadyRuns.NextReady | src/thread.c:78-690 | from a state where a thread is queued, once, iff ready, a step keeps that iff it is no part of an interrupted start, resumption or deletion of a ready thread that sets its state, unlinks it or inserts it |
| ReadyRuns.ReadyOverRuns | src/thread.c:78-690 | a thread is queued, once, iff ready throughout a run iff the run has no such step, whatever calls overlap |
| ReadyRuns.EveryRunReady | src/thread.c:78-690 | the same for every run from the initial state |
| SchedulerSpec.DispatchMostUrgent | src/scheduler.c:192-259 | with the scheduler unlocked the thread switched to is ready, heads its queue, and no ready thread is more urgent |
| SchedulerSpec.ReschedulesMostUrgent | src/thread.c:234-265 | that is so after a safe startup, timeout, exit, rescheduling, and the last exit from a critical section |
| SchedulerSpec.TickRotates | src/clock.c:83-105 | the tick that ends a slice files the thread last in its queue, reloads its slice and runs the next |
| SchedulerSpec.RoundRobin | src/clock.c:83-105 | at every tick of the first round the running thread is the i-th of the queue whose share of the summed remaining ticks it is |
| SchedulerSpec.RoundRobinBound | src/thread.c:408-442 | so the i-th queued thread is dispatched after the summed remaining ticks of those ahead of it |
| ReadyIndex.UnmarkHarmless | src/scheduler.c:339-349 | clearing any masks keeps the index if no busy priority is in them |
| ReadyIndex.UnmarkHarms | src/scheduler.c:339-349 | and breaks it if one is |
| Scheduler.RemovedAgrees | src/scheduler.c:332-352 | removing a thread in no queue, with whatever masks it has, keeps the index iff somebody is ready at its priority or no busy priority is in the masks |
| Scheduler.DeleteBeforeStart | src/thread.c:371-397 | a run from the initial state, through the methods below, after which the idle thread is ready and not in the index |
| Scheduler.Scheduler.constructor | src/scheduler.c:121-148 | the initial queues, index and masks agree |
| Scheduler.Scheduler.InsertThread | src/scheduler.c:268-305 | appends to the queue, makes the thread ready, sets the bits, and the index agrees |
| Scheduler.Scheduler.UnlinkThread | include/rtservice.h:90-96 | the node leaves its ready queue or the defunct list |
| Scheduler.Scheduler.RemoveThread | src/scheduler.c:314-353 | unlinks without a change of state, clears the masks when the queue is empty, and the index agrees iff the queue is not empty or no busy priority is in the masks, so always for masks of the priority |
| Scheduler.Scheduler.Schedule | src/scheduler.c:192-259 | the bitmap search and the head of its queue are the specified dispatch |
| Scheduler.Scheduler.Create | src/thread.c:115-166 | a new thread is in no queue and keeps the masks its memory held |
| Scheduler.Scheduler.Startup | src/thread.c:234-265 | with interrupts disabled by the caller: sets priority and masks, makes the thread ready, reschedules; all is right iff the thread is not being deleted |
| Scheduler.Scheduler.SetPriority | src/thread.c:521-530 | masks follow the priority |
| Scheduler.Scheduler.Suspend | src/thread.c:585-616 | with interrupts disabled by the caller: fails iff not ready; otherwise the thread leaves its queue |
| Scheduler.Scheduler.Resume | src/thread.c:627-658 | with interrupts disabled by the caller: fails iff not suspended; otherwise the thread enters its queue; all is right iff it is not being deleted |
| Scheduler.Scheduler.Timeout | src/thread.c:669-690 | the waiting thread becomes ready and the scheduler chooses again; all is right iff it is not being deleted |
| Scheduler.Scheduler.Exit | src/thread.c:78-113 | the running thread is closed, put on the defunct list or not, and another chosen |
| Scheduler.Scheduler.Delete | src/thread.c:371-397 | with interrupts disabled by the caller: a thread is closed, started or not; the index stays right iff somebody is ready at its priority or no busy priority is in its masks, which a started thread guarantees |
| Scheduler.Scheduler.StartupTest | src/thread.c:238 | the test of a start |
| Scheduler.Scheduler.StartupSet | src/thread.c:240-255 | a start sets priority, masks and state; all is right iff the thread is neither queued nor closed |
| Scheduler.Scheduler.SuspendTest | src/thread.c:594-600 | a suspension fails iff the thread is not ready |
| Scheduler.Scheduler.SuspendSection | src/thread.c:602-613 | its section; all is right iff the thread was not closed since the test |
| Scheduler.Scheduler.ResumeTest | src/thread.c:636-642 | a resumption fails iff the thread is not suspended |
| Scheduler.Scheduler.ResumeUnlink | src/thread.c:644-653 | its first section; all is right iff the thread was not queued since the test |
| Scheduler.Scheduler.ResumeInsert | src/thread.c:655-656 | its insertion; all is right iff the thread is not ready, closed or being deleted by then |
| Scheduler.Scheduler.DeleteRemove | src/thread.c:378-379 | the first section of a deletion; the index stays right as in a deletion at once |
| Scheduler.Scheduler.DeleteClose | src/thread.c:384-385 | the state is set outside of a section |
| Scheduler.Scheduler.DeleteKeep | src/thread.c:387-394 | the section that puts the thread on the defunct list; all is right iff it is not on it |
| Scheduler.Scheduler.DeleteEnd | src/thread.c:295-307 | a thread without a cleanup function is not put on it |
| Scheduler.Scheduler.Reap | src/idle.c:97-119 | the idle thread takes the first thread off the defunct list |
| ThreadLinks.InsertWired | include/rtservice.h:77-84 | a thread in no list, inserted behind a node of a list, is in that place of it, and every other list is as before |
| ThreadLinks.RemoveWired | include/rtservice.h:90-96 | removing a thread takes it out of whichever list it is in |
| ThreadLinks.InsertedTwice | include/rtservice.h:77-84 | inserting a thread that is in a list leaves links that are no lists of any contents |
| ThreadLinks.LinkExactly | include/rtservice.h:77-84 | the links are lists after an insertion iff the thread was in none |
| ThreadLinks.RightApart | src/scheduler.c:268-353 | in a right state every thread is in at most one ready queue or on the defunct list, once |
| ThreadLinks.RemoveIsUnlink | src/scheduler.c:337-338 | the removal on the links is the unlinking of the scheduler, whatever list the thread waits in |
| ThreadLinks.AppendIsInsert | src/scheduler.c:280-282 | the insertion at the end of its queue is that of the scheduler |
| ThreadLinks.ThreadLists.constructor | include/rtservice.h:51-54 | empty lists and threads in none |
| ThreadLinks.ThreadLists.ListInsertBefore | include/rtservice.h:77-84 | the four link writes of an insertion |
| ThreadLinks.ThreadLists.ListRemove | include/rtservice.h:90-96 | the four link writes of a removal |
| ThreadLinks.ThreadLists.Remove | include/rtservice.h:90-96 | the thread leaves its list, the others stay |
| ThreadLinks.ThreadLists.Append | src/scheduler.c:280-282 | the thread is last in the queue; the links are lists iff it was in none |
| ThreadLinks.ThreadLists.Suspend | src/ipc.c:92-134 | the walk along the links and the insertion put a thread in its place of a wait list; the links are lists iff it was in none |
| Scheduler.Scheduler.ChangePriority | src/thread.c:507-556 | a ready thread changes queues, another only its priority and masks; all is right iff it is not a ready thread being deleted |
| Scheduler.Scheduler.Yield | src/thread.c:408-442 | the running thread goes last unless it is alone in its queue |
| Scheduler.Scheduler.Tick | src/clock.c:83-105 | the time slice part of the tick |
| Scheduler.Scheduler.EnterCritical | src/scheduler.c:359-375 | locks the scheduler one level deeper |
| Scheduler.Scheduler.ExitCritical | src/scheduler.c:380-405 | the last exit reschedules |
| IpcList.EnqueuePosition | src/ipc.c:92-135 | the new waiter is inserted, nobody is lost or reordered; by priority it goes behind all not less urgent and ahead of the rest |
| IpcList.EnqueueSorted | src/ipc.c:92-135 | a list sorted by priority stays sorted, equal priorities in arrival order |
| IpcList.WaitList.Suspend | src/ipc.c:92-135 | the insertion loop puts the thread there |
| MailboxSpec.PutKeeps | src/ipc.c:1498-1523 | storing a mail and waking one receiver keeps the order and loses no wake-up |
| MailboxSpec.TakeKeeps | src/ipc.c:1645-1675 | taking a mail and waking one sender does so too |
| MailboxSpec.NextInv | src/ipc.c:1406-1717 | every atomic section does: the mails that left, followed by those inside, are the record of what was sent; while a receiver is suspended there are at most as many mails as woken receivers, while a sender is, at most as many free places as woken senders |
| MailboxSpec.InitialInv | src/ipc.c:1255-1279 | an empty mailbox satisfies this |
| MailboxSpec.EveryRun | src/ipc.c:1406-1717 | it holds after every run of sends, receives, wake-ups, timeouts and resets; `MailboxRuns.EveryRunDelivers` says that the record is what callers sent |
| MailboxSpec.Quiescent | src/ipc.c:1406-1676 | once all woken threads have re-run, nobody waits for a mail or a place that is there |
| MailboxRuns.EveryRunDelivers | src/ipc.c:1406-1717 | after every run, with what was sent read off the calls and their results: the mailbox holds the accepted values that have not left, its record is the accepted values in order, and every delivery is of the oldest value inside |
| MailboxRuns.ReceivedIsSent | src/ipc.c:1406-1676 | without resets the received values followed by those inside are the accepted ones, in order |
| MailboxRuns.WakesFirst | src/ipc.c:1498-1523 | an accepted mail wakes the first waiting receiver and no other, a delivery the first waiting sender and no other |
| MailboxRuns.EveryRunQueues | src/ipc.c:1406-1717 | after every run threads wait in the order they were told to wait, or with the priority flag by the priorities they had then |
| Mailbox.Mailbox.constructor | src/ipc.c:1255-1279 | an empty ring |
| Mailbox.Mailbox.Store | src/ipc.c:1498-1506 | the ring with `in == (out + entry) mod size` gets one more mail |
| Mailbox.Mailbox.Fetch | src/ipc.c:1645-1654 | the oldest mail leaves the ring |
| Mailbox.Mailbox.SendSection | src/ipc.c:1406-1476 | the first section of a send: refused or suspended, or stored, and then the mails are those before with the value behind them |
| Mailbox.Mailbox.SendAgainSection | src/ipc.c:1478-1523 | a send from its wake-up on; if it is accepted the value it was called with is behind the mails |
| Mailbox.Mailbox.RecvSection | src/ipc.c:1553-1623 | the first section of a receive; if it succeeds the mails before are the value it returns followed by the mails |
| Mailbox.Mailbox.RecvAgainSection | src/ipc.c:1625-1676 | a receive from its wake-up on, with the same promise |
| Mailbox.Mailbox.TimeoutSection | src/thread.c:669-690 | a waiting thread leaves its list |
| Mailbox.Mailbox.ResetSection | src/ipc.c:1688-1717 | all waiting calls fail and the ring is emptied |
| MessageQueueSpec.NextConserves | src/ipc.c:1926-2280 | every node is in the free list, in the queue or held by one call, at every step of every interleaving |
| MessageQueueSpec.NextOrdered | src/ipc.c:1965-2204 | the queue is in delivery order: urgent messages newest first, then the others oldest first |
| MessageQueueSpec.DeliversFirst | src/ipc.c:2185-2204 | a step delivers at most one message, the head, and no queued message is ahead of it |
| MessageQueueSpec.NextFair | src/ipc.c:1926-2280 | for every delivery so far: nothing delivered later, still queued or dropped later was linked then and ahead of it |
| MessageQueueSpec.PlainInOrder | src/ipc.c:1965-2204 | so plain messages are delivered in the order they were linked in |
| MessageQueueSpec.NextAccounted | src/ipc.c:1926-2280 | the numbers of the queued, delivered and dropped messages are exactly those linked so far |
| MessageQueueSpec.DeliveredOnce | src/ipc.c:1926-2280 | so no message is delivered twice, or delivered and queued or dropped |
| MessageQueueSpec.NextOnce | src/ipc.c:2097-2223 | what a receiver gets was delivered, to it alone, and is received once |
| MessageQueueSpec.NextWakes | src/ipc.c:2097-2223 | no suspended receiver faces more messages than there are woken receivers |
| MessageQueueSpec.NextInv | src/ipc.c:1926-2280 | all of this and: every queued or received buffer is the one its sender gave, although copies run with interrupts enabled |
| MessageQueueSpec.InitialInv | src/ipc.c:1740-1787 | the initial queue satisfies it |
| MessageQueueSpec.EveryRun | src/ipc.c:1926-2280 | it holds after every interleaving |
| MessageQueueRuns.EveryRunGenuine | src/ipc.c:1926-2280 | after every interleaving what is queued, delivered, dropped or received under the number of a link is the message that sender called with, urgent or not |
| MessageQueueRuns.EndsFull | src/ipc.c:2210-2218 | a receive ends with its buffer full or a whole message copied |
| MessageQueueRuns.ReceivedIsSent | src/ipc.c:1926-2280 | what a receiver gets is the message with that number, as far as its buffer reaches |
| MessageQueue.MessageQueue.constructor | src/ipc.c:1740-1787 | the pool is cut into nodes on the free list |
| MessageQueue.MessageQueue.SendBeginSection | src/ipc.c:1926-1958 | takes a node, or fails iff the message is too long or no node is free |
| MessageQueue.MessageQueue.ClearLink | src/ipc.c:1960-1961 | a node's link is cleared outside the section without touching other nodes |
| MessageQueue.MessageQueue.CopyIn | src/ipc.c:1963-1963 | one byte copied into a held node |
| MessageQueue.MessageQueue.Link | src/ipc.c:1965-1981 | the linked list gets the node at its end, or at its head for an urgent message |
| MessageQueue.MessageQueue.SendLinkSection | src/ipc.c:1965-1999 | links the node and wakes one receiver |
| MessageQueue.MessageQueue.RecvBeginSection | src/ipc.c:2097-2172 | takes the head message, fails or suspends |
| MessageQueue.MessageQueue.RecvAgainSection | src/ipc.c:2174-2207 | a receive from its wake-up on |
| MessageQueue.MessageQueue.Unlink | src/ipc.c:2194-2204 | the head leaves the linked list, the tail too if it was the last |
| MessageQueue.MessageQueue.CopyOut | src/ipc.c:2210-2210 | one byte copied out of a held node |
| MessageQueue.MessageQueue.RecvEndSection | src/ipc.c:2213-2218 | the node goes back to the free list |
| MessageQueue.MessageQueue.TimeoutSection | src/thread.c:669-690 | a waiting receiver leaves the list |
| MessageQueue.MessageQueue.EmptyQueue | src/ipc.c:2252-2270 | the loop moves every queued node to the free list and touches no other link |
| MessageQueue.MessageQueue.ResetSection | src/ipc.c:2236-2280 | all waiting calls fail, every queued node returns to the free list, and nodes held by calls keep their links |
| Event.ReplayLeaves | src/ipc.c:1024-1066 | replaying a send leaves the list without those who got something, in its order, and nobody in it whose condition is met by what is left |
| Event.NextNoneReady | src/ipc.c:998-1238 | every step keeps: no suspended waiter's condition is met by the current set |
| Event.EveryRun | src/ipc.c:998-1238 | it holds in every reachable state |
| Event.SatisfiedIs | src/ipc.c:1032-1050 | a condition is met iff all its bits are there, or some bit is |
| Event.ReplayGives | src/ipc.c:1024-1066 | a woken thread gets only bits it asked for and that were there, all of them if it wants all; a bit leaves the set iff a woken thread with the clear flag got it |
| Event.SendGives | src/ipc.c:998-1077 | a send adds its bits, takes away exactly what woken threads with the clear flag got, wakes the first waiter iff its condition is met, and without clear flags wakes exactly those whose condition is met |
| EventRuns.EveryRunGives | src/ipc.c:998-1238 | after every run, read off the calls and their results: the set holds the events sent and neither consumed by a thread that asked for it nor reset; threads wait for what they asked for, in the order of the list, and nobody for what is there; every receive and every woken thread gets what it asked for |
| Event.Event.Visit | src/ipc.c:1026-1065 | one waiter's turn acts like a receive without waiting |
| Event.Event.Walk | src/ipc.c:1024-1066 | the loop over the wait list is the replay of such receives in list order |
| Event.Event.SendSection | src/ipc.c:998-1077 | sending is or-ing the bits followed by that replay |
| Event.Event.RecvSection | src/ipc.c:1093-1179 | a receive succeeds at once iff its condition is met, with the bits it asked for and the clear flag obeyed, else fails or is put in the wait list |
| Event.Event.PickUpSection | src/ipc.c:1181-1200 | a woken thread gets the bits recorded for it |
| Event.Event.TimeoutSection | src/thread.c:669-690 | a waiting thread leaves the list |
| Event.Event.ResetSection | src/ipc.c:1213-1238 | all waiting calls fail and the set is cleared |
| Mutex.NextInv | src/ipc.c:642-859 | every take, release and timeout keeps: one owner iff value 0 iff held, waiters sorted stably by priority, no waiter more urgent than the owner, threads without a mutex at their own priority |
| Mutex.InitialInv | src/ipc.c:525-545 | free mutexes satisfy it |
| Mutex.EveryRun | src/ipc.c:642-859 | it holds after every run |
| Mutex.ReleaseRestores | src/ipc.c:806-817 | the last release restores the priority of the first take, whoever waited or timed out |
| Mutex.PossibleSound | src/ipc.c:642-859 | with any number of mutexes per thread and either flag: one owner iff taken iff held, waiters known and distinct |
| Mutex.PromiseKept | src/ipc.c:642-859 | a step keeps no waiter more urgent than its owner iff it raises no owner that waits for a less urgent one, and gives a mutex up only to its most urgent waiter and with a restored priority urgent enough for the thread's other mutexes |
| Mutex.NestedRun | src/ipc.c:642-859 | that holds throughout a run iff every step of it is such |
| Mutex.NestedReleaseBreaks | src/ipc.c:806-817 | a run in which a nested release is not |
| Mutex.ChainBreaks | src/ipc.c:706-713 | a run in which a waiting owner is raised |
| Mutex.FifoBreaks | src/ipc.c:819-832 | a run in which a FIFO mutex goes to a less urgent waiter |
| Mutex.BaseKept | src/ipc.c:642-859 | own priorities are recorded and restored iff every mutex is handed to a thread at its own priority |
| Mutex.NestedBase | src/ipc.c:642-859 | the same over runs |
| Mutex.EveryNestedRun | src/ipc.c:525-859 | from free mutexes of either flag, with any nesting: one owner iff taken iff held after every run, and the two conditions over the run |
| Mutex.InheritedStays | src/ipc.c:806-817 | a run after which a thread that owns nothing has an inherited priority |
| Mutex.MutexObject.constructor | src/ipc.c:525-545 | a free mutex |
| Mutex.MutexObject.TakeSection | src/ipc.c:642-761 | granted, refused or waiting, with the owner raised to a more urgent waiter; a granted take counts one more for the owner |
| Mutex.MutexObject.ReleaseSection | src/ipc.c:772-859 | only the owner may; it counts one less, and the last release restores its priority and hands the mutex to the first waiter, counting one |
| MutexRuns.EveryRunExcludes | src/ipc.c:642-859 | after every run, with any nesting and either flag: the count of a mutex is the number of takes granted or handed to its owner minus its releases, at most one thread is inside, a take is granted iff no other thread is, and the mutex leaves its owner exactly at the balancing release |
| MutexRuns.EveryRunWaits | src/ipc.c:642-859 | after every run the waiting threads are those told to wait and neither handed the mutex nor timed out since, with the FIFO flag in the order they came |
| MemHeapSpec.InitInv | src/memheap.c:60-131 | one free block and the tail satisfy the invariant |
| MemHeapSpec.AllocInv | src/memheap.c:190-265 | allocation keeps: blocks tile the pool, the free list is exactly the unused blocks, no two free neighbours, `available_size` is the sum of free payloads |
| MemHeapSpec.FreeInv | src/memheap.c:536-592 | so does freeing, and it never lowers the available size |
| MemHeapSpec.ResizeInv | src/memheap.c:319-495 | so does resizing in place |
| MemHeapSpec.AllocFreeRestores | src/memheap.c:190-592 | freeing what was just allocated restores the blocks and the count |
| MemHeapSpec.StepInv | src/memheap.c:237-250 | the recorded maximum stays the exact high-water mark |
| MemHeapSpec.RunInv | src/memheap.c:146-596 | all of it over every run |
| MemHeap.MemHeap.constructor | src/memheap.c:60-131 | the memory written holds the initial heap |
| MemHeap.WordsHold | src/memheap.c:154-157 | the size of a block is at least the request and the minimum, and either the minimum or less than a word more than the request |
| MemHeapLive.AllocLive | src/memheap.c:190-265 | an allocation adds one live block, of the size asked for or too little more to split, where no live block was, and changes no other |
| MemHeapLive.FreeLive | src/memheap.c:499-596 | a free takes that live block away and changes no other |
| MemHeapLive.ResizeLive | src/memheap.c:338-495 | a resize gives that live block the size asked for or too little more to split, and changes no other |
| MemHeap.MemHeap.Find | src/memheap.c:176-188 | the walk ends at the first large enough block of the free list, or says there is none |
| MemHeap.MemHeap.AllocFound | src/memheap.c:190-265 | the block is split or taken whole in both linked lists |
| MemHeap.MemHeap.Alloc | src/memheap.c:146-288 | first fit in list order; the result is a live block of at least the bytes asked for where no live block was, every other live block and its payload stays; failure changes nothing |
| MemHeap.MemHeap.CoalesceLeft | src/memheap.c:541-558 | a free left neighbour takes the block in |
| MemHeap.MemHeap.CoalesceRight | src/memheap.c:560-579 | a free right neighbour is taken in and leaves the free list |
| MemHeap.MemHeap.Free | src/memheap.c:499-596 | the specified free, with no other live payload touched |
| MemHeap.MemHeap.ShrinkInPlace | src/memheap.c:423-495 | the tail becomes free, the first words and all other payloads stay |
| MemHeap.MemHeap.GrowInPlace | src/memheap.c:338-407 | the block grows over its free neighbour although the new free header may overlap the old one |
| MemHeap.MemHeap.CopyWords | src/memheap.c:412-418 | the copy of a payload between two blocks |
| MemHeap.MovedOthers | src/memheap.c:412-421 | a move carries the payload and changes no other live block |
| MemHeap.MemHeap.Move | src/memheap.c:409-421 | allocate, copy, free; failure leaves everything untouched |
| MemHeap.MemHeap.Realloc | src/memheap.c:291-496 | every case of reallocation gives a live block of at least the bytes asked for, keeps the first min(old, new) words and all other live blocks and payloads; a block that was moved away from is no longer live |
| SmallMemSpec.MallocInv | src/mem.c:279-374 | allocation keeps: blocks tile the heap, no two free neighbours, `used_mem` is the total extent of used blocks, `lfree` is a live free header or the end |
| SmallMemSpec.MallocLowest | src/mem.c:345-352 | allocation keeps `lfree` the lowest free block |
| SmallMemSpec.FreeInv | src/mem.c:505-559 | freeing keeps both |
| SmallMemSpec.ShrinkInv | src/mem.c:431-455 | shrinking keeps the first |
| SmallMemSpec.ShrinkLowest | src/mem.c:431-455 | it keeps the second iff the freed tail is not below `lfree` or joins its block |
| SmallMemSpec.RunLowest | src/mem.c:246-559 | `lfree` is lowest throughout a run iff no shrink of it frees a tail below `lfree` |
| SmallMemSpec.LowestCanFail | src/mem.c:431-455 | a run of two allocations and a shrink in which it is not |
| SmallMemSpec.BoundMisses | src/mem.c:279-281 | the loop bound misses a fitting block iff it is an exact fit that ends at `heap_end` |
| SmallMemSpec.FirstFitComplete | src/mem.c:279-374 | with `lfree` lowest, malloc finds the lowest fitting block and fails only if nothing but such a block fits |
| SmallMemSpec.StepInv | src/mem.c:246-559 | every operation keeps the invariant and the exact high-water mark |
| SmallMemSpec.RunInv | src/mem.c:246-559 | the invariant over every run, and `lfree` lowest over runs without a shrink |
| SmallMem.SmallMem.constructor | src/mem.c:184-231 | the memory written holds the initial heap |
| SmallMem.WordsHold | src/mem.c:262-263 | the aligned size is at least the request and less than a word more |
| SmallMemLive.MallocLive | src/mem.c:287-343 | an allocation adds one live block, of the size asked for or too little more to split, where no live block was, and changes no other |
| SmallMemLive.FreeLive | src/mem.c:505-559 | a free takes that live block away and changes no other |
| SmallMemLive.ShrinkLive | src/mem.c:431-455 | a shrink gives that live block the size asked for and changes no other |
| SmallMem.SmallMem.PlugHoles | src/mem.c:136-174 | a freed block joins its free neighbours, with back links right except at the end |
| SmallMem.SmallMem.Search | src/mem.c:279-286 | the loop from `lfree` finds the first fitting block below its bound |
| SmallMem.SmallMem.Take | src/mem.c:287-343 | the block is split or taken whole, counted, and the maximum recorded |
| SmallMem.SmallMem.Advance | src/mem.c:345-352 | `lfree` moves to the next free block |
| SmallMem.SmallMem.Malloc | src/mem.c:246-375 | the specified allocation: a live block of at least the bytes asked for where no live block was, every other live block and its payload stays |
| SmallMem.SmallMem.Free | src/mem.c:505-559 | the specified free |
| SmallMem.SmallMem.ShrinkInPlace | src/mem.c:431-455 | the specified shrink, first words kept |
| SmallMem.SmallMem.CopyWords | src/mem.c:460-463 | the copy of a payload between two blocks |
| SmallMem.SmallMem.Move | src/mem.c:457-466 | allocate, copy, free; failure leaves everything untouched |
| SmallMem.SmallMem.Refit | src/mem.c:413-467 | the cases for a block of the heap: kept, shrunk in place or moved |
| SmallMem.SmallMem.Realloc | src/mem.c:386-467 | every case gives a live block of at least the bytes asked for, keeps the first min(old, new) words and all other live blocks and payloads; a block that was moved away from is no longer live |
| PageList.Unique | src/slab.c:246-332 | the list of maximal free runs is determined by the set of free pages |
| PageList.ConsecutiveInOneRun | src/slab.c:246-280 | consecutive free pages are in one run of the list |
| PageList.FirstFitComplete | src/slab.c:246-280 | first fit fails iff no so many consecutive pages are free, and gives the lowest |
| PageList.AllocPages | src/slab.c:246-280 | allocation takes exactly the pages it gives and keeps the list canonical |
| PageList.FreePages | src/slab.c:282-332 | a release adds exactly the released pages and keeps the list canonical |
| PageList.AllocFreeRestores | src/slab.c:246-332 | allocating and releasing restores the identical list |
| PageList.FreesCommute | src/slab.c:282-332 | the order of releases does not matter |
| PageList.PageHeap.constructor | src/slab.c:337-344 | all pages in one run |
| PageList.PageHeap.Take | src/slab.c:256-276 | the loop through the link words of an allocation |
| PageList.PageHeap.Alloc | src/slab.c:246-280 | that allocation, with the semaphore taken and released once |
| PageList.PageHeap.Give | src/slab.c:297-327 | the loop through the link words of a release |
| PageList.PageHeap.JoinBehind | src/slab.c:301-310 | the run before grows, and over the next run if they meet |
| PageList.PageHeap.NewHead | src/slab.c:312-327 | the released pages get a head, alone or with the next run |
| PageList.PageHeap.Free | src/slab.c:282-332 | that release, with the semaphore taken and released once |
| SlabZones.ZoneIndexFits | src/slab.c:411-469 | the zone number is in range, its chunk size depends on the number alone and holds the request, the zone below would not |
| SlabZones.ZoneIndexLeast | src/slab.c:411-469 | the zone chosen has the smallest chunks that hold the request |
| SlabZones.PowerTestIsPower | src/slab.c:647-647 | the bit test holds exactly for powers of two |
| SlabZones.ZoneLayout | src/slab.c:640-656 | chunks fit behind the header, at least three of them, and one more would not fit |
| SlabZone.TakeOk | src/slab.c:559-583 | the chunk given was not in use and exactly it becomes so; `z_nfree` is the unused part plus the free list |
| SlabZone.ReturnOk | src/slab.c:861-877 | a returned chunk is exactly what stops being in use |
| SlabZone.NewZoneOk | src/slab.c:637-664 | a new zone has exactly its first chunk in use |
| SlabZone.AllFree | src/slab.c:879-887 | when `z_nfree` reaches `z_nmax` no chunk is in use |
| SlabZone.ChunksApart | src/slab.c:571-583 | chunks of a zone do not overlap |
| SlabZone.ChunkInside | src/slab.c:641-661 | chunks lie behind the header within the zone |
| SlabZone.ChunkAlignedIff | src/slab.c:643-656 | a power-of-two chunk is aligned to its size iff its zone is |
| SlabZone.LargeChunksNotAligned | src/slab.c:162-163 | chunks of 8192 bytes in a zone at an odd page are not aligned |
| SlabSpec.LiveApart | src/slab.c:488-684 | live allocations of all zones and page runs do not overlap |
| SlabSpec.Inside | src/slab.c:488-684 | each lies within its run of pages |
| SlabSpec.DescriptorFindsZone | src/slab.c:856-858 | the page descriptor of any live chunk leads to its own zone header |
| SlabSpec.DescriptorOfLarge | src/slab.c:826-836 | that of a large allocation gives its length |
| SlabSpec.LiveAligned | src/slab.c:643-656 | power-of-two chunks of up to a page are aligned to their size |
| SlabSpec.MallocServes | src/slab.c:488-684 | every request keeps the invariant (zones listed iff they have free chunks, at most two in reserve, descriptors and page list right), gives memory nobody has, at least the bytes asked for and of the rounded size, changes no other allocation, and fails only without the pages |
| SlabSpec.PagesHold | src/slab.c:510-512 | the pages of a large request hold it, and one page less would not |
| SlabSpec.FreeTakesAway | src/slab.c:793-935 | every release keeps it, with at most two zones in reserve, and takes away exactly that allocation |
| SlabSpec.EveryRun | src/slab.c:488-935 | over every run, and no page is lost |
| SlabSpec.LockOverRuns | src/slab.c:488-684 | the semaphore counts the same after a run iff it has no small request that found neither a zone nor pages |
| Slab.FirstChunk | src/slab.c:611-664 | the first chunk of a heap is in a zone right behind the page descriptors |
| Slab.FirstLargeChunk | src/slab.c:162-163 | if its size is 8192 it is aligned to it iff the descriptors end at an even page |
| Slab.MisalignedRequest | src/slab.c:162-163 | an instance: 8000 bytes of a heap of twenty pages |
| Slab.ZoneSize | src/slab.c:384-387 | the zone size is 32, 64 or 128 KB, by the loop's comparison of bytes with kilobytes |
| Slab.SlabHeap.constructor | src/slab.c:354-405 | the initial heap: pages free but for the descriptors, nothing live |
| Slab.SlabHeap.Describe | src/slab.c:627-634 | the descriptors of a new zone's pages |
| Slab.SlabHeap.MallocLarge | src/slab.c:504-536 | a request of whole pages; the semaphore counts the same |
| Slab.SlabHeap.MallocListed | src/slab.c:549-592 | a chunk of the first listed zone, which leaves the list with its last chunk |
| Slab.SlabHeap.MallocSpare | src/slab.c:605-664 | a chunk of a reserve zone |
| Slab.SlabHeap.MallocNewZone | src/slab.c:611-664 | a chunk of a zone of new pages, or failure; the semaphore is released around the request for pages and not taken again iff it fails |
| Slab.SlabHeap.Malloc | src/slab.c:488-684 | the specified request, with what `SlabSpec.MallocServes` says of it; the semaphore counts one more iff a small request finds neither a zone nor pages |
| Slab.SlabHeap.FreeLarge | src/slab.c:826-851 | the release of whole pages; the semaphore counts the same |
| Slab.SlabHeap.Return | src/slab.c:856-877 | the chunk goes to the free list and the zone to its list if it was full |
| Slab.SlabHeap.Unlist | src/slab.c:893-896 | the walk to the zone and its removal from the list |
| Slab.SlabHeap.ReleaseSpare | src/slab.c:911-931 | a reserve zone goes back to the pages, with the semaphore released first |
| Slab.SlabHeap.Retire | src/slab.c:885-932 | the zone moves to the reserve, and a third reserve zone back to the pages; the semaphore is released once |
| Slab.SlabHeap.Free | src/slab.c:793-935 | the specified release, found through the page descriptor; the semaphore counts the same |
| Slab.LockLeaks | src/slab.c:611-684 | a heap of one page and one small request, after which the semaphore counts two |
| FinshHeapSpec.AllocInv | components/finsh/finsh_heap.c:232-246 | a split keeps: blocks tile the heap, free blocks are never neighbours, the highest block is free |
| FinshHeapSpec.FreeInv | components/finsh/finsh_heap.c:248-298 | release with merging keeps it |
| FinshHeapSpec.FreeLive | components/finsh/finsh_heap.c:115-128 | exactly the released block stops being allocated |
| FinshHeapSpec.Unique | components/finsh/finsh_heap.c:55-161 | the heap is determined by its allocated blocks |
| FinshHeapSpec.AllocFreeRestores | components/finsh/finsh_heap.c:73-128 | releasing what was just allocated gives the same heap |
| FinshHeapSpec.GcExact | components/finsh/finsh_heap.c:133-161 | garbage collection keeps exactly the blocks a typed variable points to |
| FinshHeapSpec.GcKeepsRoom | components/finsh/finsh_heap.c:133-161 | what fits before a collection fits after it |
| FinshHeapSpec.AllocateExact | components/finsh/finsh_heap.c:73-110 | an allocation adds one block of the aligned size, which holds the request; others survive, or with a collection the referenced ones do; it fails iff not even the collected heap has room |
| FinshHeapSpec.AlignHolds | components/finsh/finsh_heap.c:43-43 | the aligned size is the least multiple of four that holds the request |
| FinshHeapSpec.EveryRun | components/finsh/finsh_heap.c:55-161 | the invariant over every run |
| FinshHeap.FinshHeap.constructor | components/finsh/finsh_heap.c:55-68 | one free block |
| FinshHeap.FinshHeap.BlockInsert | components/finsh/finsh_heap.c:166-200 | sorted insertion into a linked list, given that a header put at the end has a null link |
| FinshHeap.FinshHeap.BlockRemove | components/finsh/finsh_heap.c:205-227 | removal, leaving the link of a header that was not first behind |
| FinshHeap.FinshHeap.BlockSplit | components/finsh/finsh_heap.c:232-246 | the header of the rest goes in behind the header of the block |
| FinshHeap.FinshHeap.BlockMerge | components/finsh/finsh_heap.c:248-298 | a header joins the header before, behind, both or none |
| FinshHeap.FinshHeap.Attach | components/finsh/finsh_heap.c:125-126 | on the free list the header is never last, so its stale link is overwritten |
| FinshHeap.FinshHeap.Free | components/finsh/finsh_heap.c:115-128 | both linked lists follow the specified release |
| FinshHeap.FinshHeap.Referenced | components/finsh/finsh_heap.c:143-150 | the variable loop finds a typed variable with that value iff there is one |
| FinshHeap.FinshHeap.Collect | components/finsh/finsh_heap.c:133-161 | the walk along the allocated list, releasing on the way, is the specified collection |
| FinshHeap.FinshHeap.Search | components/finsh/finsh_heap.c:79-94 | the search finds the first free block of the heap with room |
| FinshHeap.FinshHeap.Allocate | components/finsh/finsh_heap.c:73-110 | the specified allocation, with what `FinshHeapSpec.AllocateExact` says of it |

## Left out

- Soft timers and the timer thread, `rt_tick_set`, and timer deletion.
- TimerSkipList.TimerList.StartLink: requires the ticks since the deadline was computed to stay within a window fixed for the list, because comparisons of wrapped ticks are right only within half the range.
- TimerSkipList.TimerList.StartStamp: requires delay and window together to stay below half the range, for the same reason; the timer is not linked, while `TimerSpec.Stamp` covers one that is.
- TimerSkipList.TimerList.Start: requires the same of delay and window.
- TimerSkipList.TimerList.Check: requires a delay for active periodic timers and for timers callbacks start, and that callbacks start no timer that is being started; `TimerSpec.CheckSpins` shows a check that does not end without the first, `TimerSpec.StartedTwice` links that are lost without the second.
- The lists behind a double insertion: the models show that the links are lists no longer, not how later walks along them end.
- FinshCompiler.Compiler.CompileOwn: covers the double-word nodes; byte and word widths are left out.
- FinshVm.Vm.DoOperation: covers the double-word opcodes.
- finsh byte and word widths, casts, increments of system variables and through pointers, the lexer and the parser; parse trees are built from expressions.
- finsh nodes: the type check rewrites node types in place; the model computes the rewritten tree as a value.
- finsh stores into the text segment or the value stack; the machine of the source checks nothing, and here an overflow of the value stack, a division by zero or an access to unmapped memory makes it stuck.
- Scheduler: context switching, interrupt nesting, hooks, the stack check, thread cleanup, the current priority variable, and the time before the scheduler has started.
- Scheduler.Scheduler.Create: the byte number in the masks a thread starts with is below 32, so that it selects a byte of the table.
- The timer of a thread is not part of the scheduler model: a suspended thread may time out at any step.
- Memory of a thread is initialised again only when no call on the thread is in progress and it is neither running nor on the defunct list.
- Threads are created with a time slice of at least one tick, and the idle thread is not suspended, deleted or given another priority.
- Thread wait lists other than those of the modelled IPC objects; the scheduler model does not say which wait list a suspended thread is in.
- IPC: object creation by the object system, detach and delete, semaphores, and the arithmetic of remaining waiting time, which is an input of the wake-up section.
- Event masks are sets of bit numbers, and a mask of no bits is refused as in the source.
- Mutex.NextInv: covers priority-flag mutexes and one mutex per thread at a time; `Mutex.PromiseKept` and `Mutex.BaseKept` give the conditions outside of that.
- Mutex: no change of priorities by other calls.
- Mutex nesting counts stay below 255.
- Allocator calls that overlap, and locking by semaphores but for the count of that of the slab heap; `rt_calloc`, aligned allocation, slab `rt_realloc`, memory statistics of the slab heap, and wrap-around in the alignment of huge requests.
- memheap with several heaps; the pool pointer of every header is written and kept for the one heap.
- SmallMem.SmallMem.constructor: requires room for the smallest block; the loop bound underflows below that.
- SlabSpec: page descriptors are kept by page number, and the pages that hold them are never given out.
- Slab zone headers, zone links and free-chunk links are fields of a zone record, not words of its first page or of the chunks.
- FinshHeap: clearing of allocated data.
- `src/mempool.c`: its count of suspended threads is one too high after a waiting call has timed out (src/mempool.c:374-375), and `rt_mp_free` trusts it (src/mempool.c:438-452), so the pool has no invariant over all its operations.
- `src/object.c`, `src/device.c` and `src/module.c`: registration of objects by name and dispatch to drivers, with no algorithm of their own.
- Kernel formatting (`rt_vsnprintf`) and the finsh front end: input and output of text.
