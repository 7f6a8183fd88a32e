# TheFirmware, modelled and proved in Dafny

TheFirmware is a small RTOS kernel for Cortex-M parts with drivers, a CAN
application and a host simulator. This project models its hardest parts and
proves what they promise, for all inputs, all runs and all interleavings.
`dafny verify dfyconfig.toml` checks everything.

| file | what it models |
|---|---|
| `List.dfy`, `Rings.dfy` | core/list.c: the intrusive ring of pointers, refined to sequences of entries and of the structures around them |
| `Systick.dfy` | arch/arm-m/systick.c: the register arithmetic of arming and reporting |
| `Deadlines.dfy`, `Timer.dfy`, `TimerRuns.dfy` | core/timer.c: the delta queue, refined to absolute deadlines, and whole runs together with the systick |
| `TimerRings.dfy`, `TimerRingRuns.dfy` | inserting, cancelling and ticking on the ring of pointers, and whole runs of it |
| `Kernel.dfy`, `KernelRuns.dfy` | core/scheduler.c, core/thread.c, core/semaphore.c as a transition system, and its runs |
| `KernelRings.dfy` | the running queue of those runs on the ring of pointers |
| `CanNode.dfy` | lib/can_node/can_node.c: callbacks and worker, interleaved |
| `I2c.dfy`, `I2cRuns.dfy` | platform/lpc11xx/i2c.c: one transfer against a nondeterministic controller, and many threads sharing the device |
| `Init.dfy` | top/init.c: the multi-pass hook runner |
| `Malloc.dfy`, `HeapRuns.dfy` | core/malloc.c: headers in memory, refined to a list of free blocks, and runs |
| `Crc.dfy`, `Polynomial.dfy`, `Config.dfy` | lib/crc/crc8_maxim.c and lib/config/config.c |
| `Numbers.dfy` | `print_number` of lib/printf/printf.c and `strtol` of core/string.c |
| `Console.dfy` | `console_parse_command` of lib/console/console.c |
| `Common.dfy` | an option type and a little arithmetic |
| `Simulator.dfy` | tools/simulator/cortex-m0p/mcu.c: register file, flags, CMP, conditional branch, PUSH and POP |

Each module follows one plan. What the source updates in place is a class whose
methods are proved against value functions (`View() == Waited(old(View()), s)`);
the value functions are then the steps of a state machine, and the theorems are
about every run of it. The timer and the scheduler keep their queues as sequences;
`KernelRings.Perform` and `TimerRingRuns.Perform` then do the same on the pointers of
core/list.c, operation by operation.

Numbers are unbounded unless the source's width matters: eight bits of a
semaphore's value, 32-bit products in the systick, the parser and the simulator,
the 24-bit reload register, int32 sums in the timer. A CRC byte is its eight bits.

## Where the code and its intention part

- When a tick empties the timer's queue, `t` is null (core/timer.c:229) and the loop
  condition at core/timer.c:213 reads through it. This happens exactly when everything
  pending is due and nothing of it repeats (`Deadlines.TickEmpties`, `Timers.Timer.Tick`),
  that is when only one-shots for the same instant are pending (`TimerRuns.EmptiesWhen`);
  one one-shot and its interrupt suffice (`TimerRuns.OneShotEmpties`). The model's loop
  stops there.
- `1000 * kMaxLoadValue` wraps at arch/arm-m/systick.c:91. The cap that results is
  smaller than meant and still safe (`Systicks.ArmingBounds`).
- On a clock that is not a multiple of 1000 Hz the reported time is always short of the
  armed one (`Systicks.ElapsedReaches`), so no timeout ever fires; timeouts fire exactly on
  whole-kilohertz clocks up to 3892313112 Hz (`TimerRuns.FiresOnlyOnKilohertz`).
  A 32768 Hz crystal reports nothing at all for 1 ms (`Systicks.WatchCrystal`).
- When the current thread blocks, `list_delete` has moved the head already and
  core/scheduler.c:61 rotates once more, so the next thread in line is skipped
  unless only one is left (`KernelRuns.NextInLine`); in rounds of block, switch and wake
  a thread stays RUNNING and is never chosen, however many rounds there are
  (`KernelRuns.Starves`, from states `KernelRuns.LinedReachable` reaches).
- A sensor frame is compared only with the first source configured for its sender
  (lib/can_node/can_node.c:132-151). Any other source of that sender stays off in every
  run (`CanNodes.NeverSwitched`); the first one is switched by a single frame
  (`CanNodes.FirstSwitches`).
- The semaphore of the CAN node holds 128 undelivered posts: its value wraps to
  -128, and one decrement wraps back. After 129 posts from power-on the worker goes to
  sleep on a request (`CanNodes.LostWakeup`, which says for which numbers this happens).
- The log message for a refused address reads two bytes of the write buffer
  (platform/lpc11xx/i2c.c:162). With at least one byte to write, the buffer is read past
  its end exactly when it has one byte and an address was refused
  (`I2cBus.TransferProtocol`); `I2cBus.OneByteOverread` is the plainest case, and
  device/sht2x/sht2x.c:90 writes one byte.
- A transfer that writes nothing and is acknowledged never signals `done`
  (platform/lpc11xx/i2c.c:95): `I2cBus.EmptyWriteHangs`.
- A block freed below the head of the free list is linked in twice or drops other
  blocks (core/malloc.c:106-118): conservation holds exactly on the other branch
  (`FreeLists.FreeConserves`, both directions). Allocating from a fresh heap and freeing
  again loses the rest of it (`HeapRuns.FreshHeapLoses`). The test at core/malloc.c:107 compares
  the wrong pair of addresses and never holds (sizes do not wrap around the address space).
- `malloc_raw` reads through a null head when the free list is empty (core/malloc.c:60);
  `Heaps.Heap.MallocRaw` reports exactly that.
- `strtol` lets a digit equal to the base through (core/string.c:285). It stops at the end
  of the proper digits exactly when the character there does not have the value of the
  base (`Numbers.AcceptedWhenProper`); in base 10 it reads "1A" as 20 (`Numbers.BaseTaken`).
- Twenty-five characters hold every 32-bit number from base 3 up, but in base 2 only
  those below 2^25 (`Numbers.BinaryCutOff`; 2^25 itself in `Numbers.BinaryFails`).
- `print_number` writes in front of its buffer exactly when the minimum length exceeds 25
  (`Numbers.PrintNumber`).
- `config_load` does not notice that reading the CRC failed (lib/config/config.c:48); what
  then stands in the variable decides (`Configs.Config.Load`).
- BLE at tools/simulator/cortex-m0p/mcu.c:756-763 tests N == V. After CMP it is taken
  when a >= b, so it is right exactly when the operands are equal
  (`Branches.BranchAfterCompare`).
- The simulator selects the stack pointer's bank by the unused slot of SP and not by
  CONTROL (tools/simulator/cortex-m0p/mcu.c:177-182, 201-206); no write changes that slot (`Registers.ReadWritten`), so the
  bank never switches.

## Model

| member | source | states |
|---|---|---|
| `Lists.List.IsEmpty` | core/list.c:27-30 | true exactly when the ring is the empty sequence |
| `Lists.List.Next` | core/list.c:32-40 | the following entry of the ring, null exactly behind the last |
| `Lists.List.InsertBefore` | core/list.c:42-48 | the ring is the old one with the new entry in front of the given one; in front of the head it goes to the tail and the head stays; only the new entry and its two neighbours are written |
| `Lists.List.Delete` | core/list.c:50-63 | the ring loses exactly that entry and the others keep their order; deleting the head promotes its successor; an unlinked entry is a no-op; no other link changes |
| `Lists.List.Append` | core/list.c:65-76 | the entry ends up at the tail, also when it was a member, with the others in order |
| `Lists.List.LeftRotate` | core/list.c:78-82 | the ring is rotated by one, empty stays empty |
| `Lists.List.RightRotate` | core/list.c:84-88 | the ring is rotated the other way |
| `Lists.List.First` | core/list.c:90-93 | the head, null exactly when empty |
| `Lists.List.Last` | core/list.c:95-101 | the entry before the head, null exactly when empty |
| `Lists.List.Visit` | include/list.h:66-75 | the iteration terminates and visits every entry once, in ring order |
| `Rings.Ring.Enroll` | core/list.c:108-112 | a new structure's entry is in no list |
| `Rings.Ring.Delete` | core/list.c:50-63 | on the pointers: the owner leaves the sequence of owners, the others keep their order |
| `Rings.Ring.Append` | core/list.c:65-76 | the owner goes to the tail |
| `Rings.Ring.InsertBefore` | core/list.c:42-48 | the owner goes in front of the given position, in front of the head to the tail |
| `Rings.Ring.Advance` | core/list.c:78-93 | the owners are rotated by one and the new first is given, unless there is none |
| `Rings.Ring.RemoveFirst` | core/list.c:50-63 | the first owner leaves, and nothing else enters |
| `ListSpec.RemovedMembers` | core/list.c:50-63 | deletion removes the entry and nothing else, keeps entries distinct and the count exact |
| `ListSpec.RotationsUndo` | core/list.c:78-88 | the two rotations undo each other |
| `Systicks.CapBound` | arch/arm-m/systick.c:91 | the wrapped cap fits int32 and cap times clock stays below the wrapped product |
| `Systicks.CapLargest` | arch/arm-m/systick.c:91 | the cap is the largest c with c times clock at most 3892313112, and at least 1 exactly for clocks up to that |
| `Systicks.FitsCap` | arch/arm-m/systick.c:93-94 | a time is within the cap if and only if its product with the clock is at most 3892313112 |
| `Systicks.ProductBound` | arch/arm-m/systick.c:87-96 | LOAD fits 24 bits, LOAD times 1000 does not wrap and is at most the armed time in ticks, equal for whole kilohertz |
| `Systicks.ArmingBounds` | arch/arm-m/systick.c:67-100 | for every clock of at least 1000 Hz: LOAD fits 24 bits, no product wraps, and what systick_get reports is at most what was armed |
| `Systicks.ArmingExact` | arch/arm-m/systick.c:67-100 | the report is min(time, cap) if and only if the clock is a multiple of 1000, or has a cap of zero |
| `Systicks.ElapsedReaches` | arch/arm-m/systick.c:67-100 | the report is at most the armed time and equal to it if and only if the clock is a multiple of 1000 up to 3892313112 and time times clock is at most 3892313112; on such clocks a longer time is reported as the longest that fits, never as zero |
| `Systicks.WatchCrystal` | arch/arm-m/systick.c:67-100 | at 32768 Hz one millisecond armed is reported as zero |
| `Systicks.CoreReference` | platform/lpc11xx/clock.c:33-36 | at half of 48 MHz the cap is 162 ms and the report is min(time, 162) |
| `Systicks.Systick.Set` | arch/arm-m/systick.c:87-100 | enabled and armed with the time, LOAD within 24 bits |
| `Systicks.Systick.Disable` | arch/arm-m/systick.c:82-85 | the device is off |
| `Systicks.Systick.Get` | arch/arm-m/systick.c:67-70 | the report for what was armed, never more than it, and min(time, cap) exactly on clocks that are multiples of 1000 or have no cap |
| `Deadlines.PlacedMembers` | core/timer.c:122-141 | placing a deadline adds that one entry to the bag and no other |
| `Deadlines.TickStep` | core/timer.c:213-230 | firing the head and then everything due is firing everything due, with the same order, repeats and stamps |
| `Deadlines.TickEmpties` | core/timer.c:213-230 | a tick leaves nothing pending if and only if everything was due and nothing of it repeats |
| `Timers.SplitPlaces` | core/timer.c:124-136 | splitting the difference at the found position gives the new entry exactly its timeout and moves no other deadline |
| `Timers.JoinedDrops` | core/timer.c:176-190 | adding the removed difference to the successor removes that one deadline and moves no other |
| `Timers.ElapsedView` | core/timer.c:210 | subtracting the elapsed time from the head keeps every deadline absolute |
| `Timers.JoinedBounded` | core/timer.c:186-188 | every prefix sum stays within int32, so the addition cannot overflow |
| `Timers.Timer.Recalculate` | core/timer.c:86-94 | armed with the head's remaining, which is at least 1 and so passes the assertion of timer_set, or disabled exactly when the queue is empty |
| `Timers.Timer.Insert` | core/timer.c:108-141 | the list of differences denotes the old deadlines with the new one placed before equal ones; re-armed exactly when the head changes |
| `Timers.Timer.Schedule` | core/timer.c:143-165 | the bag gains now + timeout with the right period, handler and context; hardware armed for the head |
| `Timers.Timer.Cancel` | core/timer.c:167-200 | the first entry with that handler and context is gone, all others keep their deadlines, hardware armed for the new head |
| `Timers.Timer.Tick` | core/timer.c:202-237 | calls exactly the handlers of the deadlines reached, in queue order, once each; repeats are placed at now + period; hardware armed or disabled; the missing head is read if and only if the tick exhausts a nonempty queue |
| `TimerRuns.StepKeeps` | core/timer.c:143-237 | every operation keeps: queue ordered, each job fired exactly at its first due times and pending otherwise, log ordered, nothing due left unfired |
| `TimerRuns.CancelTakes` | core/timer.c:167-200 | cancelling takes out the first pending entry with exactly this handler and context, marks its job and changes nothing else; without one it changes nothing |
| `TimerRuns.RunSettles` | core/timer.c:143-237 | the same after any sequence of operations |
| `TimerRuns.FiredWhenDue` | core/timer.c:202-237 | an uncancelled job has fired for the n-th time if and only if its n-th due time has been reached |
| `TimerRuns.WholeRunExact` | core/timer.c:122-237 | over whole runs on every clock: every call goes to the handler and context of its schedule call, at schedule time plus a multiple of the timeout, exactly when accumulated time reaches it; a one-shot fires once at most, and equal deadlines fire most recently inserted first |
| `TimerRuns.RunCalls` | core/timer.c:159-161 | whatever fired belongs to a schedule call and called its handler with its context |
| `TimerRuns.EventuallyFires` | arch/arm-m/systick.c:91-96 | on every clock that is a multiple of 1000 up to 3892313112 an uncancelled entry fires at its deadline after finitely many interrupts, even when the armed time is clamped |
| `TimerRuns.FiresOnlyOnKilohertz` | arch/arm-m/systick.c:67-96 | some run fires something if and only if the clock is a multiple of 1000 and at most 3892313112 |
| `TimerRuns.EmptiesWhen` | core/timer.c:213-229 | in every reachable state: an interrupt leaves the handler without a head if and only if only one-shots for the same instant are pending and the report reaches it |
| `TimerRuns.OneShotEmpties` | core/timer.c:213-229 | one one-shot within the cap and its interrupt do so |
| `TimerRuns.PerformInterrupt` | arch/arm-m/systick.c:123-127 | the systick interrupt, on any clock, drives the timer as the simple machine's step |
| `TimerRuns.Drive` | core/timer.c:143-237 | on every clock the concrete timer makes exactly the calls of the simple machine, in order, and reads a missing head exactly when an interrupt empties the queue |
| `TimerRings.FindPlace` | core/timer.c:122-138 | the walk over pointers, taking off one difference after the other, stops where the deadline belongs |
| `TimerRings.Insert` | core/timer.c:108-141 | on the pointers: the ring denotes the old deadlines with the new one placed; the hardware is set again exactly when the new entry is first |
| `TimerRings.Cancel` | core/timer.c:167-200 | on the pointers: the ring denotes the deadlines without the first match |
| `TimerRings.FireHead` | core/timer.c:213-230 | on the pointers: one round of the tick loop takes the head off, places it at now + period when it repeats, and makes its call |
| `TimerRings.FireDue` | core/timer.c:213-230 | on the pointers: the loop makes exactly the calls that are due, in order, and leaves the deadlines after the tick |
| `TimerRings.Tick` | core/timer.c:202-237 | on the pointers: the whole handler, and a missing head is read if and only if the tick exhausts a nonempty queue |
| `TimerRingRuns.Perform` | core/timer.c:143-237 | every operation of a run keeps the pointer ring equal to the simple machine's deadlines and makes its calls |
| `TimerRingRuns.AheadInRuns` | core/timer.c:232 | between the operations of every run the head is not yet due |
| `Kernels.Scheduler.ChangedState` | core/scheduler.c:98-118 | leaving RUNNING removes from the queue, entering appends; a reschedule is requested when current leaves or while idling |
| `Kernels.Scheduler.SetState` | core/thread.c:154-160 | the new state and the scheduler told of it |
| `Kernels.Scheduler.Block` | core/thread.c:162-165 | the current thread becomes BLOCKED |
| `Kernels.Scheduler.Stop` | core/thread.c:167-170 | the thread becomes STOPPED |
| `Kernels.Scheduler.Wakeup` | core/thread.c:172-175 | the thread becomes RUNNING |
| `Kernels.Scheduler.Schedule` | core/scheduler.c:45-69 | saves the stack for the old thread, rotates or idles, returns the stack saved for the chosen thread |
| `Kernels.Scheduler.SemaphoreInit` | core/semaphore.c:49-53 | initial value, empty queue |
| `Kernels.Scheduler.SemaphoreSignal` | core/semaphore.c:66-76 | the value goes up by one in eight bits and the first waiter, if any, leaves the queue and runs |
| `Kernels.Scheduler.SemaphoreWait` | core/semaphore.c:78-97 | the value goes down by one in eight bits; if negative the current thread queues at the tail and blocks |
| `KernelRuns.WithStateKeeps` | core/scheduler.c:98-118 | a state change keeps: queue is exactly the RUNNING threads, distinct, without idle; current is the head unless a reschedule is pending |
| `KernelRuns.SwitchedKeeps` | core/scheduler.c:45-69 | schedule keeps the same |
| `KernelRuns.SignalKeeps` | core/semaphore.c:66-76 | a signal keeps the invariant of scheduler, counts and waiters |
| `KernelRuns.SignalWakes` | core/semaphore.c:70-75 | a signal with somebody in line makes the first one RUNNING and queued to run, takes it out of every semaphore's queue and keeps the rest in line |
| `KernelRuns.SignalFree` | core/semaphore.c:70-75 | with nobody in line it changes no thread |
| `KernelRuns.StateActions` | core/thread.c:162-175 | blocking, stopping and waking set exactly that thread's state to BLOCKED, STOPPED and RUNNING and put it on the running queue or take it off |
| `KernelRuns.BlockedExactly` | core/semaphore.c:78-97 | in every run in which threads block in semaphores only, a thread is BLOCKED exactly while it waits in one, unless it was stopped |
| `KernelRuns.WaitKeeps` | core/semaphore.c:78-97 | a wait keeps it |
| `KernelRuns.NextKeeps` | core/scheduler.c:45-118 | every action of threads and interrupts keeps it |
| `KernelRuns.Perform` | core/scheduler.c:45-118 | each action of the transition system is what the kernel's code does to its fields |
| `KernelRuns.Boot` | core/scheduler.c:36-43 | the state after scheduler_init with an idle thread set is the machine's start |
| `KernelRuns.SafeOverRuns` | core/semaphore.c:66-97 | in every reachable state value = initial + signals - waits, queue length = max(0, -value), granted waits never exceed initial + signals, waiters woken in arrival order, every waiter off the running queue and BLOCKED, or STOPPED by an explicit stop; queue exactly the RUNNING threads, current its head or idle; when threads block in semaphores only, every BLOCKED thread waits in one |
| `KernelRuns.MutualExclusion` | core/semaphore.c:66-97 | in every run in which only holders signal a semaphore it has at most as many holders as its initial value, hence one when that is 1, and a thread waits only while all are taken |
| `KernelRuns.StackKept` | include/thread.h:84-93 | the saved stack of a thread that does not run survives any run |
| `KernelRuns.ResumesOnSavedStack` | core/scheduler.c:45-69 | a thread that is switched out resumes, whatever happened in between, on the stack saved for it |
| `KernelRuns.StartsOnOwnStack` | core/thread.c:54-89 | a new thread starts, whenever it is first chosen, on the stack it was created with |
| `KernelRuns.RoundRobin` | core/scheduler.c:57-63 | with n RUNNING threads and no state change, n switches run each once in queue order and restore the queue |
| `KernelRuns.ChosenInTurn` | core/scheduler.c:102-111 | wakeups, signals and creations in between never lengthen a queued thread's wait: the i-th in the queue runs after exactly i switches |
| `KernelRuns.NextInLine` | core/list.c:50-63 | without a block the next in line runs; when current blocks it does if and only if two threads were queued |
| `KernelRuns.Starves` | core/scheduler.c:57-63 | for every number n, in the run of n rounds of block, switch and wake every action is enabled, there are n switches, and a third thread is queued, hence RUNNING, and not current in every state |
| `KernelRuns.StarvingRuns` | core/scheduler.c:57-63 | such a run is a run of the kernel, the thread is never current in it and RUNNING at its end |
| `KernelRuns.LinedReachable` | core/scheduler.c:36-43 | the state from which that starts is reachable from boot |
| `KernelRings.ChangeState` | core/scheduler.c:98-111 | the list calls of a state change, on the pointers, leave the queue of the machine |
| `KernelRings.Rotate` | core/scheduler.c:57-63 | the list calls of schedule, on the pointers, leave the queue of the machine and choose its thread |
| `KernelRings.Perform` | core/scheduler.c:45-118 | every action of a run keeps the pointer ring equal to the running queue |
| `CanIds.IdRoundTrip` | lib/can_node/can_node.c:79-97 | an identifier fits 29 bits and gives its parts back; a node id survives exactly when can_node_valid_id accepts it |
| `CanIds.IdLayout` | lib/can_node/can_node.c:79-82 | receiver in bits 0 to 9, sender in bits 10 to 19, topic from bit 20 |
| `CanIds.IdRebuilt` | lib/can_node/can_node.c:79-97 | taking any 29-bit identifier apart and building it again is the identity |
| `CanNodes.CanNode.constructor` | lib/can_node/can_node.c:202-213 | the initial state of the machine |
| `CanNodes.CanNode.Signal` | core/semaphore.c:66-76 | a post adds a token and wakes a waiting worker |
| `CanNodes.CanNode.PostSensorReq` | lib/can_node/can_node.c:332-336 | the sensor request is set and posted |
| `CanNodes.CanNode.SensorCallback` | lib/can_node/can_node.c:123-155 | only the first source configured for the sender is looked at; short frames are dropped |
| `CanNodes.CanNode.UpdateSource` | lib/can_node/can_node.c:136-149 | the source switches off below and on above its thresholds, and only a switch posts |
| `CanNodes.FirstIs` | lib/can_node/can_node.c:127-132 | a source is its sender's first if and only if no earlier row and no earlier source of its row has the sender |
| `CanNodes.SourceSwitches` | lib/can_node/can_node.c:132-152 | a frame of the right kind and index switches its sender's first source by the signed big-endian value of bytes 2 to 5: off if on and below the off value, on if off and above the on value; it posts exactly on a switch and changes nothing else |
| `CanNodes.OtherFrames` | lib/can_node/can_node.c:132-134 | frames of unknown senders and short ones change nothing |
| `CanNodes.NeverSwitched` | lib/can_node/can_node.c:127-153 | in every run a source that is not the first configured for its sender stays off |
| `CanNodes.FirstSwitches` | lib/can_node/can_node.c:127-153 | the first one is switched on by one frame, unless its threshold is the largest int32 |
| `CanNodes.CanNode.OutputCallback` | lib/can_node/can_node.c:157-199 | wrong receiver, length or index change nothing; else mode and manual state follow the command, a changed mode asks for saving, and output and response are requested |
| `CanNodes.CommandSets` | lib/can_node/can_node.c:178-198 | bit 1 of the command byte sets the mode; in manual mode the target is bit 0, in automatic mode the OR of the sources; no other output changes; a response is requested, and saving exactly when the mode changed |
| `CanNodes.OtherCommands` | lib/can_node/can_node.c:159-176 | commands for other nodes, of another length or for missing outputs change nothing |
| `CanNodes.CommandShown` | lib/can_node/can_node.c:157-396 | in every run without another command for the output: whenever the worker is back in its wait, the output shows the commanded bit, or in automatic mode the OR of its sources |
| `CanNodes.CommandAnswered` | lib/can_node/can_node.c:373-387 | and it has reported a manual command with that bit since |
| `CanNodes.CanNode.FetchClearReqs` | lib/can_node/can_node.c:69-77 | takes all requests and leaves none |
| `CanNodes.CanNode.Compute` | lib/can_node/can_node.c:354-366 | manual state in manual mode, else the OR of the sources; by the worker's steps of the machine |
| `CanNodes.CanNode.WriteOutput` | lib/can_node/can_node.c:368-371 | the output shows the state and nothing else of it changes |
| `CanNodes.CanNode.ServeOutputs` | lib/can_node/can_node.c:353-389 | every output shows its target and nothing else of it changes; one reply per output, with that state and mode, exactly when a response was requested; by the worker's steps of the machine |
| `CanNodes.CanNode.Serve` | lib/can_node/can_node.c:345-394 | a round behind the wait that no callback interrupts is exactly the worker's steps up to the next wait, and leaves requests served and modes saved |
| `CanNodes.StepKeeps` | lib/can_node/can_node.c:123-396 | every step of a callback or of the worker keeps: tokens, semaphore and worker agree, no request without a token or a worker on its way, every stale output is still going to be served |
| `CanNodes.QuiescentConsistency` | lib/can_node/can_node.c:338-396 | under every interleaving with at most 128 undelivered posts: while the worker is blocked in semaphore_wait no request is left, every output equals its target and the saved modes are current |
| `CanNodes.Settles` | lib/can_node/can_node.c:338-396 | from every reachable state the worker, left alone, comes to rest consistently |
| `CanNodes.LostWakeup` | core/semaphore.c:66-97 | after k posts from power-on the worker's wait blocks, with the request unserved, if and only if k - 1 modulo 256 is at least 128: never up to 128, at 129 it does |
| `I2cBus.I2cDevice.HandleInterrupt` | platform/lpc11xx/i2c.c:72-171 | the handler on the device's fields and buffer, with what its log messages read, is the machine's step |
| `I2cBus.ProtocolStep` | platform/lpc11xx/i2c.c:72-171 | every interrupt, whatever the controller answers, keeps the wire a prefix of the protocol or completes the transfer |
| `I2cBus.InterruptsRunOut` | platform/lpc11xx/i2c.c:72-171 | every interrupt brings the transfer nearer to its end |
| `I2cBus.TransferProtocol` | platform/lpc11xx/i2c.c:72-171 | for every write length of at least 1, every read length and every ACK or NACK: done is signalled exactly once, no transfer index overruns, an OK transfer's wire is START, address+W, the bytes in order, then for a read repeated START, an odd address byte with the same upper seven bits, and exactly the read bytes with ACK on all but the last, then STOP; a failed one ends in a NACK and STOP; the write buffer is read past its end if and only if it has one byte and an address was refused |
| `I2cBus.GoodIsPlain` | platform/lpc11xx/i2c.c:84-88 | the wire of a good transfer, signal by signal in its place, with the read bit set and the seven address bits kept |
| `I2cBus.OneByteOverread` | platform/lpc11xx/i2c.c:154-163 | every one-byte transfer whose address is refused at once reads past its buffer |
| `I2cBus.EmptyWriteHangs` | platform/lpc11xx/i2c.c:91-97 | with nothing to write, done is signalled if and only if the address is refused, and exactly then the missing bytes are read for the log |
| `I2cRuns.StepKeeps` | platform/lpc11xx/i2c.c:212-230 | calls, waits, returns and interrupts of any number of threads keep lock, done and bus consistent |
| `I2cRuns.TransfersNeverOverlap` | platform/lpc11xx/i2c.c:212-230 | in every run at most one thread is inside, every returned transfer is complete with its own wire, a successful one signal by signal as above, and read past its write buffer exactly as above, and the bus carries the transfers one after the other |
| `InitHooks.DueIsStableSort` | top/init.c:34-72 | the hooks due are exactly those with last_level < level <= the requested one, each once, by level and within a level in link order |
| `InitHooks.Runner.FindNext` | top/init.c:39-61 | one pass finds the next hook of the same level behind the last one, else the first of the lowest higher level, or nothing exactly when none is left |
| `InitHooks.Runner.Run` | top/init.c:34-72 | terminates, calls exactly the due hooks in that order, and remembers the level |
| `InitHooks.RunsCompose` | top/init.c:32-72 | any nondecreasing sequence of calls makes the same calls as one call with the last level |
| `Heaps.Heap.FreeRaw` | core/malloc.c:91-137 | the headers in memory link exactly the specified list, on both branches; not below the head, the free blocks stay apart |
| `Heaps.Heap.FindStop` | core/malloc.c:118-119 | the loop stops at the first block below the pointer, or the last |
| `Heaps.Heap.Splice` | core/malloc.c:120-132 | links in or joins, then joins with the successor |
| `Heaps.Heap.FindFit` | core/malloc.c:73-86 | the loop finds the predecessor of the first block that fits, or nothing exactly when none behind the head does |
| `Heaps.Heap.Take` | core/malloc.c:60-77 | exactly the first block that fits is unlinked |
| `Heaps.Heap.MallocRaw` | core/malloc.c:56-89 | first fit in list order; NULL if and only if no block is large enough; a missing head is read if and only if the list is empty; the headers link exactly the remaining list |
| `Heaps.Heap.Carve` | core/malloc.c:65-68 | a remainder of at least one header goes back to the free list |
| `Heaps.Heap.GetFreeSize` | core/malloc.c:139-148 | the sum of all free blocks |
| `FreeLists.FreeConserves` | core/malloc.c:91-137 | the total grows by the freed size if and only if the block does not lie below the head |
| `FreeLists.FreedShape` | core/malloc.c:118-135 | above the head, in addresses: a block touching the head joins it, any other goes behind it, and the result is joined with the next block if they touch |
| `FreeLists.FreedServes` | core/malloc.c:120-123 | after freeing the block right behind the head a request for both together is served from the head |
| `FreeLists.AllocateConserves` | core/malloc.c:56-89 | the total shrinks by the size asked for, or by the whole block when no header fits into the rest; with a rest, if and only if that does not lie below the head |
| `FreeLists.FreedApart` | core/malloc.c:118-135 | above the head, freeing keeps free blocks disjoint from each other and from everything else |
| `HeapRuns.MallocKeeps` | core/malloc.c:56-89 | allocation keeps free and live blocks disjoint and every byte accounted for |
| `HeapRuns.FreeKeeps` | core/malloc.c:91-137 | so does freeing |
| `HeapRuns.AllocatorSound` | core/malloc.c:56-153 | on every run that avoids the branch at line 106 and an empty free list: free and live blocks are pairwise disjoint, and free + live + slack is the initial size, with less than one header of slack per allocation |
| `HeapRuns.Drive` | core/malloc.c:56-153 | such a run on the headers in memory hands out exactly those blocks and get_free_size reports exactly what is left |
| `HeapRuns.FreshHeapLoses` | core/malloc.c:106-118 | allocating from a fresh heap and freeing the block again leaves only that block: the rest is lost |
| `Crc8.Crc8Maxim` | lib/crc/crc8_maxim.c:29-45 | the two loops compute the fold that the other results are about |
| `Crc8.CrcLinear` | lib/crc/crc8_maxim.c:29-45 | the CRC of the XOR of two messages of any length is the XOR of their CRCs |
| `Crc8.CrcIsBits` | lib/crc/crc8_maxim.c:33-42 | working bytewise is working bit by bit through a shift register |
| `Polynomials.CrcIsRemainder` | lib/crc/crc8_maxim.c:27-45 | there is a quotient with which the register is the remainder of the message times x^8 on division by x^8+x^5+x^4+1 |
| `Polynomials.CrcIsTheRemainder` | lib/crc/crc8_maxim.c:27-45 | and it is the only remainder |
| `Crc8.BurstLeavesTrace` | lib/crc/crc8_maxim.c:29-45 | a nonzero error within eight consecutive bits has a nonzero CRC |
| `Crc8.OddLeavesTrace` | lib/crc/crc8_maxim.c:29-45 | so has an odd number of flipped bits |
| `Crc8.ErrorDetected` | lib/config/config.c:46-49 | either error in a stored image plus CRC makes the check fail |
| `Configs.Config.Load` | lib/config/config.c:39-54 | the image, or the defaults when the CRC differs; what a failed read of the image left; and after a failed read of the CRC whatever its variable holds decides |
| `Configs.Config.Save` | lib/config/config.c:65-73 | the image and behind it its CRC; the rest of the EEPROM untouched |
| `Configs.LoadAfterSave` | lib/config/config.c:39-73 | loading what was saved gives it back |
| `Configs.CorruptionFallsBack` | lib/config/config.c:39-54 | any burst within eight consecutive bits and any odd number of flipped bits, in image or CRC, makes config_load use the defaults |
| `Numbers.WriteDigits` | lib/printf/printf.c:48-62 | the buffer ends in the last 25 digits at most, without leading zeros and at least one |
| `Numbers.Pad` | lib/printf/printf.c:63-69 | padding in front up to the minimum length; it leaves the buffer if and only if that exceeds 25 |
| `Numbers.PrintNumber` | lib/printf/printf.c:42-72 | padding and digits, nothing for a base outside 2 to 16; overruns the buffer if and only if the minimum length exceeds 25 |
| `Numbers.ReadDigits` | core/string.c:268-291 | the loop takes the longest accepted prefix and its value in 32-bit arithmetic |
| `Numbers.Strtol` | core/string.c:251-298 | the number and the end that the following rows characterise |
| `Numbers.BaseZero` | core/string.c:254-266 | with base 0, "0x" or "0X" in front of any text reads it in base 16 and "0b" or "0B" in base 2, with the end two further; any other text reads as in base 10 |
| `Numbers.BaseGiven` | core/string.c:268-297 | with a nonzero base the end is behind the longest accepted prefix, and the number is its positional value modulo 2^32 |
| `Numbers.DigitsRead` | core/string.c:272-283 | the digits are 0 to 9, A to F and a to f with their values, and no other character is one |
| `Numbers.AcceptedWhenProper` | core/string.c:285-287 | for every text and base the parser stops where the digits of the base end if and only if the character there does not have the value of the base |
| `Numbers.BaseTaken` | core/string.c:246-287 | in base 10 "1A" is taken whole and read as 20; from base 16 up this cannot happen |
| `Numbers.ShownExact` | lib/printf/printf.c:52-62 | all digits are printed if and only if the number is below base^25 |
| `Numbers.DigitsValue` | core/string.c:268-291 | reading padded digits gives what they show, with no wrap on the way |
| `Numbers.PrintParse` | lib/printf/printf.c:42-72 | for bases 2 to 16 and zero padding the parser takes the whole text, and returns the number if and only if it is below base^25 |
| `Numbers.BinaryCutOff` | lib/printf/printf.c:48-61 | in base 2 a 32-bit number comes back if and only if it is below 2^25 |
| `Numbers.BinaryFails` | lib/printf/printf.c:48-61 | 2^25 does not come back |
| `Numbers.PrintParseRoundTrip` | core/string.c:251-298 | from base 3 up the round trip holds for every 32-bit number |
| `Numbers.PrintThenParse` | core/string.c:251-298 | both loops one after the other return the number, with the end pointer at the end |
| `Numbers.HexBack` | core/string.c:255-258 | a number printed in base 16 comes back behind "0x" with base 0, and so only it does |
| `Numbers.PrintThenDetect` | core/string.c:251-298 | both loops one after the other, with the base left open |
| `Numbers.PrintedShape` | lib/printf/printf.c:63-69 | the text has the minimum length or that of the digits, with nothing but padding in front of them |
| `Numbers.DigitsLead` | lib/printf/printf.c:52-61 | no zero leads and the digits are as few as the number needs |
| `Numbers.DigitsUpper` | lib/printf/printf.c:32-58 | digits are printed in upper case |
| `Consoles.SplitExists` | lib/console/console.c:70-106 | every line has a split into maximal space-free runs |
| `Consoles.SplitUnique` | lib/console/console.c:70-106 | and only one |
| `Consoles.SplitMembers` | lib/console/console.c:70-106 | the split holds a piece if and only if it is a maximal space-free run |
| `Consoles.StoreWord` | lib/console/console.c:86-101 | a word's start is stored and it is ended, and no other word is touched |
| `Consoles.Parse` | lib/console/console.c:70-106 | counting or filling, argc is the number of runs; when filling, each argument reads as its run of the original line, and nothing behind the line changes; when counting nothing changes |
| `Consoles.Arguments` | lib/console/console.c:119-135 | the counted argv is never overrun and is exactly filled by the second pass |
| `Registers.ReadWritten` | tools/simulator/cortex-m0p/mcu.c:173-214 | a write is read back, masked, under its own name, changes no other register and no other view of the status word, and never the bank of the stack pointer |
| `Registers.NamesRead` | tools/simulator/cortex-m0p/mcu.c:183-214 | the program counter loses bit 0; APSR, IPSR and EPSR are bits 31 to 28, 4 to 0 and 24 of register 16 |
| `Registers.StackIsMain` | tools/simulator/cortex-m0p/mcu.c:177-206 | from reset, after any writes, the stack pointer is MSP |
| `Flags.PutTells` | tools/simulator/cortex-m0p/mcu.c:284-343 | setting or clearing one flag leaves the other three and the rest of the word alone |
| `Flags.FlagBits` | tools/simulator/cortex-m0p/mcu.c:41-47 | N, Z, C and V are bits 31, 30, 29 and 28 |
| `Flags.FlagsExact` | tools/simulator/cortex-m0p/mcu.c:320-358 | C and V from the two carries are those of AddWithCarry (section A2.2.1 of the ARMv6-M Architecture Reference Manual) for all operands |
| `Branches.TakenAsSpecified` | tools/simulator/cortex-m0p/mcu.c:667-763 | every condition agrees with ConditionPassed (section A6.3 of that manual) on all flags, LE if and only if Z is set |
| `Branches.ComparedTells` | tools/simulator/cortex-m0p/mcu.c:985-1007 | after CMP: Z is equality, C unsigned >=, N != V signed <, V signed overflow of the difference |
| `Branches.BranchAfterCompare` | tools/simulator/cortex-m0p/mcu.c:652-776 | after CMP a, b every named branch is taken exactly on its signed or unsigned relation, LE exactly when a == b |
| `Branches.LessOrEqualFails` | tools/simulator/cortex-m0p/mcu.c:756-763 | LE is wrong both for a smaller and for a larger operand |
| `Branches.TargetSigned` | tools/simulator/cortex-m0p/mcu.c:657-663 | the target is the program counter plus 2 plus twice the signed offset, modulo 2^32 |
| `Mcus.Mcu.SetFlag` | tools/simulator/cortex-m0p/mcu.c:308-318 | exactly that flag changes, in the status word only |
| `Mcus.Mcu.UpdateN` | tools/simulator/cortex-m0p/mcu.c:284-294 | N is the sign of the result |
| `Mcus.Mcu.UpdateZ` | tools/simulator/cortex-m0p/mcu.c:296-306 | Z says that the result is zero |
| `Mcus.Mcu.UpdateC` | tools/simulator/cortex-m0p/mcu.c:320-331 | C is AddWithCarry's carry |
| `Mcus.Mcu.UpdateV` | tools/simulator/cortex-m0p/mcu.c:345-358 | V is AddWithCarry's overflow |
| `Mcus.Mcu.CompareImmediate` | tools/simulator/cortex-m0p/mcu.c:960-983 | all four flags are those of a + NOT(imm) + 1; nothing else changes |
| `Mcus.Mcu.CompareRegister` | tools/simulator/cortex-m0p/mcu.c:985-1007 | all four flags are those of a + NOT(b) + 1; nothing else changes |
| `Mcus.Mcu.Branch` | tools/simulator/cortex-m0p/mcu.c:652-776 | the program counter moves to the target if the condition holds; the two codes above LE are refused |
| `Mcus.Mcu.CompareAndBranch` | tools/simulator/cortex-m0p/mcu.c:652-776 | compare and branch in sequence: the program counter moves exactly on the relation, for LE on a >= b |
| `Mcus.Mcu.Push` | tools/simulator/cortex-m0p/mcu.c:1744-1808 | the named registers stand in ascending order below the old stack pointer, no other word changes; fails exactly when one of the words cannot be written, and then those before it have been |
| `Stacks.PushLayout` | tools/simulator/cortex-m0p/mcu.c:1753-1803 | the k-th register stands 4 (n - k) below the old stack pointer, modulo 2^32, in ascending order, and LR last |
| `Stacks.SelectedIsBit` | tools/simulator/cortex-m0p/mcu.c:1755-1757 | the instruction names a register with its bit |
| `Mcus.Mcu.Pop` | tools/simulator/cortex-m0p/mcu.c:1681-1742 | the named registers are loaded in ascending order; fails exactly when a word cannot be read or the new program counter is no Thumb address, and then leaves the stack pointer |
| `Stacks.PopUndoesPush` | tools/simulator/cortex-m0p/mcu.c:1681-1808 | after PUSH, whatever happens to registers and other memory, POP of the same list restores every listed register and the stack pointer and returns to LR; it succeeds exactly when LR is a Thumb address or not in the list |

## Left out

- Wall-clock accuracy of timers: time is the sum of reported elapsed times, because `timer_managed_update_first` does nothing (core/timer.c:96-106).
- Timer handlers do not call back into the timer, and a handler call is the entry in the list of calls that `Tick` returns.
- Memory for timer entries: allocation in `timer_managed_schedule` and its failure, and the frees after firing and cancelling.
- The fields of the timer model that name an entry (`tag`, `stamp`) and the histories of the kernel, CAN and I2C models (`tallies`, `tokens`, `finished`, `bus`) are bookkeeping of the model; no code reads them.
- Kernels.Scheduler.SemaphoreSignal and Kernels.Scheduler.SemaphoreWait: these are single steps, as each interrupt-disabled region and each interrupt handler is; PendSV is a pending flag.
- Semaphore values are kept within eight bits by the runs considered, as a condition of `KernelRuns.Enabled`; waking a semaphore's waiter by anything but a signal is excluded there too.
- `delay`: the inner unlock at core/timer.c:164 lets its wakeup come before the block, so nothing is claimed about it.
- Thread creation details, stack protection and stack use (core/thread.c:42-150).
- Announcement of output changes by the CAN node: the comparison at lib/can_node/can_node.c:373 follows the assignment, so a frame is sent only when a response was requested, and so in the model.
- CanNodes.CanNode.constructor: the outcome of `can_init`, the discovery frame and the registration of callbacks are not modelled.
- Sensor publication (lib/can_node/can_node.c:258-330) is a step without effect on the modelled state; GPIO writes and logging are left out.
- I2C arbitration loss and bus errors: the controller answers with the statuses a single master sees. Of log messages only what they read is modelled.
- I2cRuns.TransfersNeverOverlap: callers write at least one byte and bring a read buffer of the stated length, and no more than 128 threads queue for the lock.
- The byte layout of free headers inside blocks: headers are a map from addresses, so overwriting a header from a live block is not modelled. `malloc` and `free` (core/malloc.c:40-54) only add a header of their own.
- `vfprintf` with its format parsing, `readline`, `strsep`, `memcmp` and `memmove`, and the dispatch of console commands.
- The memory of the simulator is a map of words at addresses that are equal modulo four; devices, halting and tracing are left out.
- The simulator's other instructions, its GDB server, loader and peripherals.
- platform/lpc11xx/net/can/can_rom.c, drivers for UART, ADC, GPIO, clocks and pins, inline assembly and vector tables.
- lib/vfs, log, sensor dispatch and the command front ends, which pass calls on to what is modelled or to hardware.
- The semaphores' queues, whose entries live on the waiters' stacks, stay sequences.
- Heaps.Heap.MallocRaw: what the source finds at address zero when the free list is empty is not modelled; the model finds nothing there and says so.
- Timers.Timer.Tick: what the source reads through the missing head is not modelled; the model's loop ends there and says so.
- The layout of the configuration is a sequence of bytes, and its defaults are a parameter of the same length.
