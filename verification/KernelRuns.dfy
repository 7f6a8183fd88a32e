/** Every interleaving of thread code, interrupt handlers and PendSV on the
    kernel, and what all of them keep. */
module KernelRuns {
  import opened Wrappers
  import opened ListSpec
  import opened Semaphores
  import opened Kernels

  /** Each action runs with interrupts off or inside one handler. */
  datatype Action =
    | Create(t: nat, stack: int)
    | Yield
    | Block
    | Stop(t: nat)
    | Wakeup(t: nat)
    | PendSv(stack: int)
    | InitSemaphore(s: nat, initial: int)
    | Signal(s: nat)
    | Wait(s: nat)

  /** What happened to one semaphore so far. */
  datatype Tally = Tally(initial: int, signals: nat, waits: nat, arrived: seq<nat>, woken: seq<nat>)

  /** The kernel with its history. */
  datatype System = System(k: Kernel, tallies: map<nat, Tally>, stopped: set<nat>)

  ghost predicate WaitsOn(k: Kernel, s: nat, t: nat) {
    s in k.semaphores && t in k.semaphores[s].queue
  }

  ghost predicate Waiting(k: Kernel, t: nat) {
    exists s :: WaitsOn(k, s, t)
  }

  /** Thread code runs only while no reschedule is pending and never as the
      idle thread.  The idle thread is not stopped or woken, a thread in a
      semaphore's queue is woken only by a signal, and a semaphore's value
      stays within its eight bits. */
  ghost predicate Enabled(sys: System, a: Action) {
    var k := sys.k;
    match a
    case Create(t, _) => t !in k.states
    case Yield => !k.reschedule
    case Block => !k.reschedule && Some(k.current) != k.idle
    case Stop(t) => t in k.states && Some(t) != k.idle
    case Wakeup(t) => t in k.states && Some(t) != k.idle && !Waiting(k, t)
    case PendSv(_) => k.reschedule
    case InitSemaphore(s, initial) => s !in k.semaphores && 0 <= initial <= 127
    case Signal(s) => s in k.semaphores && k.semaphores[s].value < 127
    case Wait(s) => s in k.semaphores && k.semaphores[s].value > -128 && !k.reschedule && Some(k.current) != k.idle
  }

  // ----- the scheduler's invariant

  /** The queue holds exactly the running threads, never the idle one, and
      unless a reschedule is pending the current thread is its head. */
  ghost predicate SchedulerOk(k: Kernel) {
    && k.idle.Some? && k.idle.value in k.states && k.states[k.idle.value] != Running
    && k.current in k.states
    && k.stacks.Keys == k.states.Keys
    && Distinct(k.queue)
    && (forall t :: t in k.queue <==> t in k.states && k.states[t] == Running)
    && (!k.reschedule ==> k.current == if k.queue == [] then k.idle.value else k.queue[0])
  }

  lemma RemovedHead(q: seq<nat>, t: nat)
    requires Distinct(q) && q != [] && q[0] != t
    ensures Removed(q, t) != [] && Removed(q, t)[0] == q[0]
  {
  }

  /** After a state change the queue again holds exactly the running threads. */
  lemma QueueFollows(k: Kernel, t: nat, state: ThreadState)
    requires Distinct(k.queue) && t in k.states
    requires forall x :: x in k.queue <==> x in k.states && k.states[x] == Running
    ensures var r := WithState(k, t, state);
            Distinct(r.queue) && forall x :: x in r.queue <==> x in r.states && r.states[x] == Running
  {
    if k.states[t] == Running && state != Running {
      RemovedMembers(k.queue, t);
    } else if k.states[t] != Running && state == Running {
      assert Appended(k.queue, t) == k.queue + [t];
    }
  }

  lemma WithStateKeeps(k: Kernel, t: nat, state: ThreadState)
    requires SchedulerOk(k) && t in k.states && Some(t) != k.idle
    ensures SchedulerOk(WithState(k, t, state))
  {
    QueueFollows(k, t, state);
    if k.states[t] == Running && state != Running && k.queue[0] != t {
      RemovedHead(k.queue, t);
    }
  }

  lemma SwitchedKeeps(k: Kernel, stack: int)
    requires SchedulerOk(k)
    ensures SchedulerOk(Switched(k, stack))
  {
    RotatedDistinct(k.queue);
    assert forall x :: x in LeftRotated(k.queue) <==> x in k.queue by {
      if k.queue != [] {
        assert k.queue == [k.queue[0]] + k.queue[1..];
      }
    }
  }

  // ----- the semaphores' invariant

  ghost predicate TallyOk(sem: Semaphore, tally: Tally) {
    && 0 <= tally.initial <= 127 && -128 <= sem.value <= 127
    && sem.value == tally.initial + tally.signals - tally.waits
    && |sem.queue| == (if sem.value < 0 then -sem.value else 0)
    && tally.arrived == tally.woken + sem.queue
  }

  /** A thread in a queue does not run. */
  ghost predicate WaiterOk(sys: System, t: nat) {
    && t in sys.k.states && Some(t) != sys.k.idle
    && (sys.k.states[t] == Blocked || (sys.k.states[t] == Stopped && t in sys.stopped))
  }

  ghost predicate TalliesOk(sys: System) {
    && sys.tallies.Keys == sys.k.semaphores.Keys
    && (forall s :: s in sys.tallies ==> TallyOk(sys.k.semaphores[s], sys.tallies[s]))
  }

  ghost predicate WaitersOk(sys: System) {
    && (forall s, t :: WaitsOn(sys.k, s, t) ==> WaiterOk(sys, t))
    && (forall s :: s in sys.k.semaphores ==> Distinct(sys.k.semaphores[s].queue))
    && (forall r, s, t :: WaitsOn(sys.k, r, t) && WaitsOn(sys.k, s, t) ==> r == s)
  }

  ghost predicate Ok(sys: System) {
    SchedulerOk(sys.k) && TalliesOk(sys) && WaitersOk(sys)
  }

  ghost function Next(sys: System, a: Action): System
    requires Ok(sys) && Enabled(sys, a)
  {
    var k := sys.k;
    match a
    case Create(t, stack) => sys.(k := Created(k, t, stack))
    case Yield => sys.(k := k.(reschedule := true))
    case Block => sys.(k := WithState(k, k.current, Blocked))
    case Stop(t) => sys.(k := WithState(k, t, Stopped), stopped := sys.stopped + {t})
    case Wakeup(t) => sys.(k := WithState(k, t, Running))
    case PendSv(stack) => sys.(k := Switched(k, stack))
    case InitSemaphore(s, initial) =>
      sys.(k := k.(semaphores := k.semaphores[s := Semaphore(initial, [])]),
           tallies := sys.tallies[s := Tally(initial, 0, 0, [], [])])
    case Signal(s) =>
      var tally, queue := sys.tallies[s], k.semaphores[s].queue;
      assert forall t :: t in queue ==> WaitsOn(k, s, t);
      sys.(k := Kernels.Signalled(k, s),
           tallies := sys.tallies[s := tally.(signals := tally.signals + 1,
                                              woken := tally.woken + if queue == [] then [] else [queue[0]])])
    case Wait(s) =>
      var tally := sys.tallies[s];
      var queued := if k.semaphores[s].Contended() then [k.current] else [];
      sys.(k := Kernels.Waited(k, s),
           tallies := sys.tallies[s := tally.(waits := tally.waits + 1, arrived := tally.arrived + queued)])
  }

  /** The current thread of running thread code is in no queue. */
  lemma CurrentRuns(sys: System)
    requires Ok(sys) && !sys.k.reschedule && Some(sys.k.current) != sys.k.idle
    ensures sys.k.states[sys.k.current] == Running && !Waiting(sys.k, sys.k.current)
  {
    assert sys.k.current in sys.k.queue;
    assert forall s :: WaitsOn(sys.k, s, sys.k.current) ==> WaiterOk(sys, sys.k.current);
  }

  lemma SignalTally(sem: Semaphore, tally: Tally)
    requires TallyOk(sem, tally) && sem.value < 127
    ensures TallyOk(sem.Signalled(), tally.(signals := tally.signals + 1,
                                            woken := tally.woken + if sem.queue == [] then [] else [sem.queue[0]]))
  {
    if sem.queue != [] {
      assert sem.queue == [sem.queue[0]] + sem.queue[1..];
      assert tally.woken + sem.queue == (tally.woken + [sem.queue[0]]) + sem.queue[1..];
    } else {
      assert tally.woken + [] == tally.woken;
    }
  }

  lemma WaitTally(sem: Semaphore, tally: Tally, t: nat)
    requires TallyOk(sem, tally) && sem.value > -128
    ensures TallyOk(sem.Waited(t), tally.(waits := tally.waits + 1,
                                          arrived := tally.arrived + if sem.Contended() then [t] else []))
  {
    assert tally.arrived + [] == tally.arrived;
    assert (tally.woken + sem.queue) + [t] == tally.woken + (sem.queue + [t]);
  }

  /** The waiters after a signal are the old ones but the first of that queue. */
  lemma SignalWaiters(sys: System, after: System, s: nat)
    requires WaitersOk(sys) && s in sys.k.semaphores && sys.k.semaphores[s].queue != []
    requires after.k.semaphores == sys.k.semaphores[s := sys.k.semaphores[s].Signalled()]
    requires after.k.idle == sys.k.idle && after.stopped == sys.stopped
    requires forall t :: t in sys.k.states && t != sys.k.semaphores[s].queue[0] ==>
               t in after.k.states && after.k.states[t] == sys.k.states[t]
    ensures WaitersOk(after)
  {
    var q := sys.k.semaphores[s].queue;
    assert WaitsOn(sys.k, s, q[0]) && q[0] !in q[1..];
    forall r, t | WaitsOn(after.k, r, t)
      ensures WaitsOn(sys.k, r, t) && t != q[0]
    {
      assert WaitsOn(sys.k, r, t);
    }
    forall r, t | WaitsOn(after.k, r, t)
      ensures WaiterOk(after, t)
    {
      assert WaiterOk(sys, t);
    }
  }

  lemma TalliesUpdated(sys: System, after: System, s: nat, sem: Semaphore, tally: Tally)
    requires TalliesOk(sys) && s in sys.tallies && TallyOk(sem, tally)
    requires after.k.semaphores == sys.k.semaphores[s := sem] && after.tallies == sys.tallies[s := tally]
    ensures TalliesOk(after)
  {
  }

  lemma SignalScheduler(sys: System, s: nat)
    requires SchedulerOk(sys.k) && WaitersOk(sys) && s in sys.k.semaphores
    ensures forall t :: t in sys.k.semaphores[s].queue ==> t in sys.k.states
    ensures SchedulerOk(Kernels.Signalled(sys.k, s))
  {
    var k, sem := sys.k, sys.k.semaphores[s];
    forall t | t in sem.queue
      ensures WaiterOk(sys, t)
    {
      assert WaitsOn(k, s, t);
    }
    if sem.queue != [] {
      assert WaiterOk(sys, sem.queue[0]);
      WithStateKeeps(k.(semaphores := k.semaphores[s := sem.Signalled()]), sem.queue[0], Running);
    }
  }

  lemma SignalQueues(sys: System, s: nat)
    requires Ok(sys) && Enabled(sys, Signal(s))
    ensures WaitersOk(Next(sys, Signal(s)))
  {
    var after := Next(sys, Signal(s));
    if sys.k.semaphores[s].queue != [] {
      SignalWaiters(sys, after, s);
    } else {
      WaitersUntouched(sys, after);
    }
  }

  lemma SignalKeeps(sys: System, s: nat)
    requires Ok(sys) && Enabled(sys, Signal(s))
    ensures Ok(Next(sys, Signal(s)))
  {
    var after := Next(sys, Signal(s));
    SignalTally(sys.k.semaphores[s], sys.tallies[s]);
    SignalScheduler(sys, s);
    TalliesUpdated(sys, after, s, sys.k.semaphores[s].Signalled(), after.tallies[s]);
    SignalQueues(sys, s);
  }

  /** A blocking wait adds the current thread, which was in no queue. */
  lemma WaitWaiters(sys: System, after: System, s: nat, t: nat)
    requires WaitersOk(sys) && s in sys.k.semaphores && !Waiting(sys.k, t)
    requires after.k.semaphores.Keys == sys.k.semaphores.Keys
    requires forall r :: r in sys.k.semaphores ==>
               after.k.semaphores[r].queue == sys.k.semaphores[r].queue + if r == s then [t] else []
    requires after.k.idle == sys.k.idle && after.stopped == sys.stopped
    requires forall x :: x in sys.k.states && x != t ==> x in after.k.states && after.k.states[x] == sys.k.states[x]
    requires WaiterOk(after, t)
    ensures WaitersOk(after)
  {
    assert forall r, x :: WaitsOn(after.k, r, x) ==> WaitsOn(sys.k, r, x) || (r == s && x == t);
    assert forall r :: !WaitsOn(sys.k, r, t);
    forall r | r in after.k.semaphores
      ensures Distinct(after.k.semaphores[r].queue)
    {
      assert !WaitsOn(sys.k, r, t);
    }
    forall r, x | WaitsOn(after.k, r, x)
      ensures WaiterOk(after, x)
    {
      if x != t {
        assert WaiterOk(sys, x);
      }
    }
  }

  lemma WaitScheduler(k: Kernel, s: nat)
    requires SchedulerOk(k) && s in k.semaphores && Some(k.current) != k.idle
    ensures SchedulerOk(Kernels.Waited(k, s))
  {
    var sem := k.semaphores[s];
    if sem.Contended() {
      WithStateKeeps(k.(semaphores := k.semaphores[s := sem.Waited(k.current)]), k.current, Blocked);
    }
  }

  lemma WaitQueues(sys: System, s: nat)
    requires Ok(sys) && Enabled(sys, Wait(s))
    ensures WaitersOk(Next(sys, Wait(s)))
  {
    var after, t := Next(sys, Wait(s)), sys.k.current;
    CurrentRuns(sys);
    if sys.k.semaphores[s].Contended() {
      WaitWaiters(sys, after, s, t);
    } else {
      WaitersUntouched(sys, after);
    }
  }

  lemma WaitKeeps(sys: System, s: nat)
    requires Ok(sys) && Enabled(sys, Wait(s))
    ensures Ok(Next(sys, Wait(s)))
  {
    var after, t := Next(sys, Wait(s)), sys.k.current;
    WaitTally(sys.k.semaphores[s], sys.tallies[s], t);
    WaitScheduler(sys.k, s);
    TalliesUpdated(sys, after, s, sys.k.semaphores[s].Waited(t), after.tallies[s]);
    WaitQueues(sys, s);
  }

  /** A state change of a thread that is in no queue, or a stop. */
  lemma StateChangeKeeps(sys: System, after: System, t: nat, state: ThreadState)
    requires Ok(sys) && t in sys.k.states && Some(t) != sys.k.idle
    requires after == sys.(k := WithState(sys.k, t, state), stopped := after.stopped) && sys.stopped <= after.stopped
    requires !Waiting(sys.k, t) || (state == Stopped && t in after.stopped)
    ensures Ok(after)
  {
    WithStateKeeps(sys.k, t, state);
    forall r, x | WaitsOn(after.k, r, x)
      ensures WaiterOk(after, x)
    {
      assert WaitsOn(sys.k, r, x) && WaiterOk(sys, x);
    }
    assert forall r, x :: WaitsOn(after.k, r, x) ==> WaitsOn(sys.k, r, x);
  }

  lemma WaitersUntouched(sys: System, after: System)
    requires WaitersOk(sys)
    requires after.k.semaphores.Keys == sys.k.semaphores.Keys
    requires forall r :: r in sys.k.semaphores ==> after.k.semaphores[r].queue == sys.k.semaphores[r].queue
    requires after.k.idle == sys.k.idle && after.stopped == sys.stopped
    requires forall t :: t in sys.k.states ==> t in after.k.states && after.k.states[t] == sys.k.states[t]
    ensures WaitersOk(after)
  {
    assert forall r, x :: WaitsOn(after.k, r, x) ==> WaitsOn(sys.k, r, x);
    forall r, x | WaitsOn(after.k, r, x)
      ensures WaiterOk(after, x)
    {
      assert WaiterOk(sys, x);
    }
  }

  lemma InitSemaphoreKeeps(sys: System, s: nat, initial: int)
    requires Ok(sys) && Enabled(sys, InitSemaphore(s, initial))
    ensures Ok(Next(sys, InitSemaphore(s, initial)))
  {
    var after := Next(sys, InitSemaphore(s, initial));
    assert forall r, x :: WaitsOn(after.k, r, x) ==> WaitsOn(sys.k, r, x);
    forall r, x | WaitsOn(after.k, r, x)
      ensures WaiterOk(after, x)
    {
      assert WaiterOk(sys, x);
    }
  }

  lemma NextKeeps(sys: System, a: Action)
    requires Ok(sys) && Enabled(sys, a)
    ensures Ok(Next(sys, a))
  {
    var after := Next(sys, a);
    match a
    case Signal(s) => SignalKeeps(sys, s);
    case Wait(s) => WaitKeeps(sys, s);
    case InitSemaphore(s, initial) => InitSemaphoreKeeps(sys, s, initial);
    case Block =>
      CurrentRuns(sys);
      StateChangeKeeps(sys, after, sys.k.current, Blocked);
    case Stop(t) => StateChangeKeeps(sys, after, t, Stopped);
    case Wakeup(t) => StateChangeKeeps(sys, after, t, Running);
    case PendSv(stack) =>
      SwitchedKeeps(sys.k, stack);
      WaitersUntouched(sys, after);
    case Create(t, stack) => WaitersUntouched(sys, after);
    case Yield => WaitersUntouched(sys, after);
  }

  // ----- whole runs

  ghost function Step(sys: System, a: Action): (r: System)
    requires Ok(sys) && Enabled(sys, a)
    ensures Ok(r)
  {
    NextKeeps(sys, a);
    Next(sys, a)
  }

  /** Every action is enabled when its turn comes. */
  ghost predicate Path(sys: System, actions: seq<Action>)
    requires Ok(sys)
    decreases actions
  {
    actions == [] ||
    (Enabled(sys, actions[0]) && Path(Step(sys, actions[0]), actions[1..]))
  }

  ghost function Final(sys: System, actions: seq<Action>): (r: System)
    requires Ok(sys) && Path(sys, actions)
    ensures Ok(r)
    decreases actions
  {
    if actions == [] then sys else Final(Step(sys, actions[0]), actions[1..])
  }

  /** The kernel once scheduler_init has run and the idle thread is set. */
  ghost function Booted(main: nat, idle: nat, stack: int): (sys: System)
    requires main != idle
    ensures Ok(sys)
  {
    var states, stacks := map[main := Running, idle := Stopped], map[main := 0, idle := stack];
    var k := Kernel(states, stacks, [main], main, Some(idle), true, map[]);
    assert k.queue[0] == main;
    System(k, map[], {})
  }

  method Boot(main: nat, idle: nat, stack: int) returns (scheduler: Scheduler)
    requires main != idle
    ensures fresh(scheduler) && scheduler.View() == Booted(main, idle, stack).k
  {
    scheduler := new Scheduler(main);
    scheduler.Create(idle, stack);
    scheduler.SetIdleThread(idle);
  }

  /** Each action is one entry point of the kernel, on its fields in place. */
  method Perform(scheduler: Scheduler, a: Action, ghost sys: System)
    requires Ok(sys) && Enabled(sys, a) && scheduler.View() == sys.k
    modifies scheduler
    ensures scheduler.View() == Step(sys, a).k
  {
    match a {
      case Create(t, stack) => scheduler.Create(t, stack);
      case Yield => scheduler.reschedule := true;
      case Block => scheduler.Block();
      case Stop(t) => scheduler.Stop(t);
      case Wakeup(t) => scheduler.Wakeup(t);
      case PendSv(stack) => var _ := scheduler.Schedule(stack);
      case InitSemaphore(s, initial) => scheduler.SemaphoreInit(s, initial);
      case Signal(s) =>
        SignalScheduler(sys, s);
        scheduler.SemaphoreSignal(s);
      case Wait(s) =>
        CurrentRuns(sys);
        scheduler.SemaphoreWait(s);
    }
  }

  // ----- who is blocked

  /** Blocking, stopping and waking change the state of one thread, and put it on
      the running queue or take it off. */
  lemma StateActions(sys: System, a: Action)
    requires Ok(sys) && Enabled(sys, a)
    ensures var old_, k := sys.k, Step(sys, a).k;
            && (a.Block? ==>
                  && k.states == old_.states[old_.current := Blocked] && old_.current !in k.queue && k.reschedule
                  && k.current == old_.current)
            && (a.Stop? ==> k.states == old_.states[a.t := Stopped] && a.t !in k.queue)
            && (a.Wakeup? ==> k.states == old_.states[a.t := Running] && a.t in k.queue)
  {
  }

  /** A signal takes the first waiter off the queue and makes it run. */
  lemma SignalWakes(sys: System, s: nat, t: nat, rest: seq<nat>)
    requires Ok(sys) && Enabled(sys, Signal(s)) && sys.k.semaphores[s].queue == [t] + rest
    ensures var k := Step(sys, Signal(s)).k;
            && t in k.states && k.states[t] == Running && t in k.queue && !Waiting(k, t)
            && s in k.semaphores && k.semaphores[s].queue == rest
  {
    assert WaitsOn(sys.k, s, t) && WaiterOk(sys, t);
    var after := Step(sys, Signal(s));
    assert after.k.states[t] == Running;
    assert forall r :: WaitsOn(after.k, r, t) ==> WaiterOk(after, t);
  }

  /** With nobody in line a signal wakes nobody. */
  lemma SignalFree(sys: System, s: nat)
    requires Ok(sys) && Enabled(sys, Signal(s)) && sys.k.semaphores[s].queue == []
    ensures var k := Step(sys, Signal(s)).k; k.states == sys.k.states && k.queue == sys.k.queue
  {
  }

  /** Every blocked thread is in the queue of some semaphore. */
  ghost predicate BlockedWait(k: Kernel) {
    forall t :: t in k.states && k.states[t] == Blocked ==> Waiting(k, t)
  }

  /** No thread blocks but in a semaphore. */
  predicate OnlySemaphoresBlock(actions: seq<Action>) {
    forall i :: 0 <= i < |actions| ==> !actions[i].Block?
  }

  lemma WaitBlocks(sys: System, s: nat)
    requires Ok(sys) && Enabled(sys, Wait(s)) && BlockedWait(sys.k)
    ensures BlockedWait(Step(sys, Wait(s)).k)
  {
    var k := Step(sys, Wait(s)).k;
    forall t | t in k.states && k.states[t] == Blocked
      ensures Waiting(k, t)
    {
      if t in sys.k.states && sys.k.states[t] == Blocked {
        var r :| WaitsOn(sys.k, r, t);
        assert WaitsOn(k, r, t);
      } else {
        assert WaitsOn(k, s, t);
      }
    }
  }

  lemma SignalBlocks(sys: System, s: nat)
    requires Ok(sys) && Enabled(sys, Signal(s)) && BlockedWait(sys.k)
    ensures BlockedWait(Step(sys, Signal(s)).k)
  {
    var k, q := Step(sys, Signal(s)).k, sys.k.semaphores[s].queue;
    if q != [] {
      assert q == [q[0]] + q[1..];
      SignalWakes(sys, s, q[0], q[1..]);
    }
    forall t | t in k.states && k.states[t] == Blocked
      ensures Waiting(k, t)
    {
      assert t in sys.k.states && sys.k.states[t] == Blocked;
      var r :| WaitsOn(sys.k, r, t);
      assert WaitsOn(k, r, t);
    }
  }

  lemma OthersBlock(sys: System, a: Action)
    requires Ok(sys) && Enabled(sys, a) && BlockedWait(sys.k)
    requires !a.Block? && !a.Wait? && !a.Signal?
    ensures BlockedWait(Step(sys, a).k)
  {
    var k := Step(sys, a).k;
    forall t | t in k.states && k.states[t] == Blocked
      ensures Waiting(k, t)
    {
      assert t in sys.k.states && sys.k.states[t] == Blocked;
      var r :| WaitsOn(sys.k, r, t);
      assert WaitsOn(k, r, t);
    }
  }

  lemma {:induction false} BlockedOverRuns(sys: System, actions: seq<Action>)
    requires Ok(sys) && Path(sys, actions) && OnlySemaphoresBlock(actions) && BlockedWait(sys.k)
    ensures BlockedWait(Final(sys, actions).k)
    decreases actions
  {
    if actions != [] {
      var a := actions[0];
      if a.Wait? {
        WaitBlocks(sys, a.s);
      } else if a.Signal? {
        SignalBlocks(sys, a.s);
      } else {
        OthersBlock(sys, a);
      }
      BlockedOverRuns(Step(sys, actions[0]), actions[1..]);
    }
  }

  /** When threads block in semaphores only, a thread is blocked in a reachable
      state exactly while it waits, unless it was stopped while waiting. */
  lemma BlockedExactly(main: nat, idle: nat, stack: int, actions: seq<Action>, t: nat)
    requires main != idle && Path(Booted(main, idle, stack), actions) && OnlySemaphoresBlock(actions)
    ensures var r := Final(Booted(main, idle, stack), actions);
            && (t in r.k.states && r.k.states[t] == Blocked ==> Waiting(r.k, t))
            && (Waiting(r.k, t) && t !in r.stopped ==> t in r.k.states && r.k.states[t] == Blocked)
  {
    var r := Final(Booted(main, idle, stack), actions);
    BlockedOverRuns(Booted(main, idle, stack), actions);
    if Waiting(r.k, t) {
      assert WaiterOk(r, t);
    }
  }

  ghost predicate Accounted(sem: Semaphore, tally: Tally) {
    && sem.value == tally.initial + tally.signals - tally.waits
    && |sem.queue| == (if sem.value < 0 then -sem.value else 0)
    && tally.waits - |sem.queue| <= tally.initial + tally.signals
    && tally.arrived == tally.woken + sem.queue
  }

  /** In every state that any interleaving reaches: the value of a semaphore
      counts its signals and waits, its queue is as long as the value is
      negative, no more waits were granted than tokens were there, threads were
      woken in the order they arrived, and a waiting thread is off the running
      queue, which holds exactly the running threads; and when threads block in
      semaphores only, every blocked thread waits in one. */
  lemma SafeOverRuns(main: nat, idle: nat, stack: int, actions: seq<Action>)
    requires main != idle && Path(Booted(main, idle, stack), actions)
    ensures var r := Final(Booted(main, idle, stack), actions);
            && (forall s :: s in r.tallies ==> s in r.k.semaphores && Accounted(r.k.semaphores[s], r.tallies[s]))
            && (forall s, t :: WaitsOn(r.k, s, t) ==>
                t !in r.k.queue && t in r.k.states &&
                (r.k.states[t] == Blocked || (r.k.states[t] == Stopped && t in r.stopped)))
            && (forall t :: t in r.k.queue <==> t in r.k.states && r.k.states[t] == Running)
            && Distinct(r.k.queue) && r.k.idle.Some? && r.k.idle.value !in r.k.queue
            && (!r.k.reschedule ==> r.k.current == if r.k.queue == [] then r.k.idle.value else r.k.queue[0])
            && (OnlySemaphoresBlock(actions) ==> BlockedWait(r.k))
  {
    var r := Final(Booted(main, idle, stack), actions);
    if OnlySemaphoresBlock(actions) {
      BlockedOverRuns(Booted(main, idle, stack), actions);
    }
    forall s, t | WaitsOn(r.k, s, t)
      ensures t !in r.k.queue && t in r.k.states
      ensures r.k.states[t] == Blocked || (r.k.states[t] == Stopped && t in r.stopped)
    {
      assert WaiterOk(r, t);
    }
    forall s | s in r.tallies
      ensures s in r.k.semaphores && Accounted(r.k.semaphores[s], r.tallies[s])
    {
      assert TallyOk(r.k.semaphores[s], r.tallies[s]);
    }
  }

  // ----- semaphores as locks

  /** Who has been granted the semaphore and not given it back.  A signal of the
      current thread gives back; what it releases goes to the first waiter. */
  ghost function HeldAfter(sys: System, a: Action, s: nat, held: multiset<nat>): multiset<nat>
    requires Ok(sys) && Enabled(sys, a)
  {
    match a
    case Wait(r) => if r == s && !sys.k.semaphores[s].Contended() then held + multiset{sys.k.current} else held
    case Signal(r) =>
      if r != s then held
      else
        var queue := sys.k.semaphores[s].queue;
        held - multiset{sys.k.current} + if queue == [] then multiset{} else multiset{queue[0]}
    case _ => held
  }

  ghost function Held(sys: System, actions: seq<Action>, s: nat, held: multiset<nat>): multiset<nat>
    requires Ok(sys) && Path(sys, actions)
    decreases actions
  {
    if actions == [] then held
    else Held(Step(sys, actions[0]), actions[1..], s, HeldAfter(sys, actions[0], s, held))
  }

  /** Only a thread that holds the semaphore signals it. */
  ghost predicate Disciplined(sys: System, actions: seq<Action>, s: nat, held: multiset<nat>)
    requires Ok(sys) && Path(sys, actions)
    decreases actions
  {
    actions == [] ||
    ((actions[0] == Signal(s) ==> sys.k.current in held) &&
     Disciplined(Step(sys, actions[0]), actions[1..], s, HeldAfter(sys, actions[0], s, held)))
  }

  ghost predicate HeldOk(sys: System, s: nat, held: multiset<nat>) {
    if s in sys.tallies && s in sys.k.semaphores
    then |held| == sys.tallies[s].initial - sys.k.semaphores[s].value - |sys.k.semaphores[s].queue|
    else held == multiset{}
  }

  /** What an action does to one semaphore and its tally. */
  lemma SemaphoreAfter(sys: System, a: Action, s: nat)
    requires Ok(sys) && Enabled(sys, a)
    ensures var r := Step(sys, a);
            if a == Wait(s) then
              && s in r.k.semaphores && r.k.semaphores[s] == sys.k.semaphores[s].Waited(sys.k.current)
              && s in r.tallies && r.tallies[s].initial == sys.tallies[s].initial
            else if a == Signal(s) then
              && s in r.k.semaphores && r.k.semaphores[s] == sys.k.semaphores[s].Signalled()
              && s in r.tallies && r.tallies[s].initial == sys.tallies[s].initial
            else if a.InitSemaphore? && a.s == s then
              && s in r.k.semaphores && r.k.semaphores[s] == Semaphore(a.initial, [])
              && s in r.tallies && r.tallies[s].initial == a.initial
            else
              && (s in r.k.semaphores <==> s in sys.k.semaphores) && (s in r.tallies <==> s in sys.tallies)
              && (s in sys.k.semaphores ==> r.k.semaphores[s] == sys.k.semaphores[s])
              && (s in sys.tallies ==> r.tallies[s] == sys.tallies[s])
  {
  }

  lemma HeldStep(sys: System, a: Action, s: nat, held: multiset<nat>)
    requires Ok(sys) && Enabled(sys, a) && HeldOk(sys, s, held)
    requires a == Signal(s) ==> sys.k.current in held
    ensures HeldOk(Step(sys, a), s, HeldAfter(sys, a, s, held))
  {
    SemaphoreAfter(sys, a, s);
    if a == Signal(s) {
      HeldSignal(sys.k.semaphores[s], sys.tallies[s], sys.k.current, held);
    } else if a == Wait(s) {
      assert TallyOk(sys.k.semaphores[s], sys.tallies[s]);
    }
  }

  lemma HeldSignal(sem: Semaphore, tally: Tally, t: nat, held: multiset<nat>)
    requires TallyOk(sem, tally) && sem.value < 127 && t in held
    requires |held| == tally.initial - sem.value - |sem.queue|
    ensures var given := if sem.queue == [] then multiset{} else multiset{sem.queue[0]};
            |held - multiset{t} + given| == tally.initial - sem.Signalled().value - |sem.Signalled().queue|
  {
    assert |held - multiset{t}| == |held| - 1;
  }

  lemma {:induction false} HeldOverRuns(sys: System, actions: seq<Action>, s: nat, held: multiset<nat>)
    requires Ok(sys) && Path(sys, actions) && HeldOk(sys, s, held) && Disciplined(sys, actions, s, held)
    ensures HeldOk(Final(sys, actions), s, Held(sys, actions, s, held))
    decreases actions
  {
    if actions != [] {
      HeldStep(sys, actions[0], s, held);
      HeldOverRuns(Step(sys, actions[0]), actions[1..], s, HeldAfter(sys, actions[0], s, held));
    }
  }

  /** When only holders signal, a semaphore has never more holders than its
      initial value, hence one at most when that is 1; and a thread waits only
      while all of them are taken. */
  lemma MutualExclusion(main: nat, idle: nat, stack: int, actions: seq<Action>, s: nat)
    requires main != idle && Path(Booted(main, idle, stack), actions)
    requires Disciplined(Booted(main, idle, stack), actions, s, multiset{})
    ensures var r, held := Final(Booted(main, idle, stack), actions),
              Held(Booted(main, idle, stack), actions, s, multiset{});
            && r.tallies.Keys == r.k.semaphores.Keys
            && (s in r.tallies ==> |held| <= r.tallies[s].initial)
            && (s in r.tallies && r.k.semaphores[s].queue != [] ==> |held| == r.tallies[s].initial)
  {
    var r := Final(Booted(main, idle, stack), actions);
    HeldOverRuns(Booted(main, idle, stack), actions, s, multiset{});
    assert s in r.tallies ==> TallyOk(r.k.semaphores[s], r.tallies[s]);
  }

  // ----- stacks

  /** `t` is not the current thread at any point of the run. */
  ghost predicate Absent(sys: System, actions: seq<Action>, t: nat)
    requires Ok(sys) && Path(sys, actions)
    decreases actions
  {
    sys.k.current != t &&
    (actions == [] || Absent(Step(sys, actions[0]), actions[1..], t))
  }

  lemma StepStack(sys: System, a: Action, t: nat)
    requires Ok(sys) && Enabled(sys, a) && t in sys.k.states && sys.k.current != t
    ensures t in Step(sys, a).k.states && Step(sys, a).k.stacks[t] == sys.k.stacks[t]
  {
  }

  lemma {:induction false} StackKept(sys: System, actions: seq<Action>, t: nat)
    requires Ok(sys) && Path(sys, actions) && t in sys.k.states && Absent(sys, actions, t)
    ensures t in Final(sys, actions).k.states && Final(sys, actions).k.stacks[t] == sys.k.stacks[t]
    decreases actions
  {
    if actions != [] {
      StepStack(sys, actions[0], t);
      StackKept(Step(sys, actions[0]), actions[1..], t);
    }
  }

  /** A thread that was switched out resumes, whatever happened in between, on
      the stack that was saved for it. */
  lemma ResumesOnSavedStack(sys: System, saved: int, actions: seq<Action>, stack: int)
    requires Ok(sys) && Enabled(sys, PendSv(saved))
    requires Path(Step(sys, PendSv(saved)), actions)
    requires Absent(Step(sys, PendSv(saved)), actions, sys.k.current)
    requires Enabled(Final(Step(sys, PendSv(saved)), actions), PendSv(stack))
    ensures var k := Step(Final(Step(sys, PendSv(saved)), actions), PendSv(stack)).k;
            k.current == sys.k.current ==> k.current in k.stacks && k.stacks[k.current] == saved
  {
    var t, first := sys.k.current, Step(sys, PendSv(saved));
    StackKept(first, actions, t);
    AbsentAtEnd(first, actions, t);
  }

  /** A new thread starts, whenever it is first chosen, on the stack it was created
      with. */
  lemma StartsOnOwnStack(sys: System, t: nat, own: int, actions: seq<Action>, stack: int)
    requires Ok(sys) && Enabled(sys, Create(t, own)) && t != sys.k.current
    requires Path(Step(sys, Create(t, own)), actions) && Absent(Step(sys, Create(t, own)), actions, t)
    requires Enabled(Final(Step(sys, Create(t, own)), actions), PendSv(stack))
    ensures var k := Step(Final(Step(sys, Create(t, own)), actions), PendSv(stack)).k;
            k.current == t ==> k.current in k.stacks && k.stacks[k.current] == own
  {
    var first := Step(sys, Create(t, own));
    StackKept(first, actions, t);
    AbsentAtEnd(first, actions, t);
  }

  lemma {:induction false} AbsentAtEnd(sys: System, actions: seq<Action>, t: nat)
    requires Ok(sys) && Path(sys, actions) && Absent(sys, actions, t)
    ensures Final(sys, actions).k.current != t
    decreases actions
  {
    if actions != [] {
      AbsentAtEnd(Step(sys, actions[0]), actions[1..], t);
    }
  }

  // ----- turns

  function Rotations(k: Kernel, stacks: seq<int>): Kernel
    requires k.queue != []
    ensures Rotations(k, stacks).queue != []
  {
    if stacks == [] then k else Switched(Rotations(k, stacks[..|stacks| - 1]), stacks[|stacks| - 1])
  }

  lemma OneRotation(q: seq<nat>, n: nat)
    requires n < |q|
    ensures LeftRotated(q[n..] + q[..n]) == q[n + 1..] + q[..n + 1]
    ensures n + 1 == |q| ==> q[n + 1..] + q[..n + 1] == q
    ensures (q[n + 1..] + q[..n + 1])[0] == q[if n + 1 == |q| then 0 else n + 1]
  {
    var r := q[n..] + q[..n];
    assert r[0] == q[n] && r[1..] == q[n + 1..] + q[..n];
    assert q[..n + 1] == q[..n] + [q[n]];
  }

  /** With no state change, n calls give each of n threads one turn in queue
      order and restore the order. */
  lemma {:induction false} RoundRobin(k: Kernel, stacks: seq<int>)
    requires k.queue != [] && |stacks| <= |k.queue|
    ensures var r, n := Rotations(k, stacks), |stacks|;
            && r.queue == k.queue[n..] + k.queue[..n]
            && (n > 0 ==> r.current == k.queue[if n == |k.queue| then 0 else n])
            && (n == |k.queue| ==> r.queue == k.queue)
            && r.states == k.states
  {
    if stacks != [] {
      var n := |stacks| - 1;
      RoundRobin(k, stacks[..n]);
      OneRotation(k.queue, n);
    }
  }

  /** Actions that take no thread off the running queue. */
  ghost predicate Friendly(sys: System, a: Action) {
    match a
    case Block => false
    case Stop(_) => false
    case Wait(s) => s in sys.k.semaphores && !sys.k.semaphores[s].Contended()
    case _ => true
  }

  ghost predicate FriendlyPath(sys: System, actions: seq<Action>)
    requires Ok(sys) && Path(sys, actions)
    decreases actions
  {
    actions == [] ||
    (Friendly(sys, actions[0]) && FriendlyPath(Step(sys, actions[0]), actions[1..]))
  }

  function Switches(actions: seq<Action>): nat {
    if actions == [] then 0 else (if actions[0].PendSv? then 1 else 0) + Switches(actions[1..])
  }

  lemma WokenAtTail(k: Kernel, t: nat)
    requires SchedulerOk(k) && t in k.states
    ensures k.queue <= WithState(k, t, Running).queue
    ensures WithState(k, t, Running).current == k.current
  {
    if k.states[t] != Running {
      assert t !in k.queue;
      assert Removed(k.queue, t) == k.queue;
    }
  }

  lemma FriendlyStep(sys: System, a: Action)
    requires Ok(sys) && Enabled(sys, a) && Friendly(sys, a)
    ensures var k, r := sys.k, Step(sys, a).k;
            if a.PendSv? then r.queue == LeftRotated(k.queue) && (r.queue != [] ==> r.current == r.queue[0])
            else k.queue <= r.queue && r.current == k.current
  {
    match a
    case Wakeup(t) => WokenAtTail(sys.k, t);
    case Signal(s) =>
      var sem := sys.k.semaphores[s];
      if sem.queue != [] {
        assert WaitsOn(sys.k, s, sem.queue[0]) && WaiterOk(sys, sem.queue[0]);
        WokenAtTail(sys.k.(semaphores := sys.k.semaphores[s := sem.Signalled()]), sem.queue[0]);
      }
    case _ =>
  }

  /** While nobody leaves the running queue, a thread waits exactly as many
      switches as threads are ahead of it; wakeups never push it back. */
  lemma {:induction false} ChosenInTurn(sys: System, actions: seq<Action>, i: nat)
    requires Ok(sys) && Path(sys, actions) && FriendlyPath(sys, actions)
    requires 1 <= i < |sys.k.queue| && Switches(actions) == i
    ensures Final(sys, actions).k.current == sys.k.queue[i]
    decreases actions
  {
    var a, rest, t := actions[0], actions[1..], sys.k.queue[i];
    FriendlyStep(sys, a);
    var next := Step(sys, a);
    if !a.PendSv? {
      assert next.k.queue[i] == t;
      ChosenInTurn(next, rest, i);
    } else {
      assert next.k.queue[i - 1] == t;
      if i > 1 {
        ChosenInTurn(next, rest, i - 1);
      } else {
        CurrentStays(next, rest);
      }
    }
  }

  lemma {:induction false} CurrentStays(sys: System, actions: seq<Action>)
    requires Ok(sys) && Path(sys, actions) && FriendlyPath(sys, actions) && Switches(actions) == 0
    ensures Final(sys, actions).k.current == sys.k.current
    decreases actions
  {
    if actions != [] {
      FriendlyStep(sys, actions[0]);
      CurrentStays(Step(sys, actions[0]), actions[1..]);
    }
  }

  /** The turn order is lost when the current thread blocks: deleting it moves
      the head and `schedule` rotates once more.  The next thread in line then
      gets its turn exactly when it is the only one left. */
  lemma NextInLine(k: Kernel, stack: int)
    requires SchedulerOk(k) && !k.reschedule && |k.queue| >= 2
    ensures Switched(k, stack).current == k.queue[1]
    ensures Switched(WithState(k, k.current, Blocked), stack).current == k.queue[1] <==> |k.queue| == 2
  {
    assert k.queue[0] in k.queue;
    RemovedAt(k.queue, 0);
    var q := k.queue[1..];
    assert WithState(k, k.current, Blocked).queue == q;
    assert LeftRotated(q)[0] == if |q| == 1 then q[0] else q[1];
  }

  // ----- starvation

  /** Three threads queued, the first of them current, none in a semaphore. */
  ghost predicate Lined(sys: System, a: nat, b: nat, c: nat) {
    && Ok(sys) && sys.k.queue == [a, b, c] && sys.k.current == a && !sys.k.reschedule
    && !Waiting(sys.k, a) && !Waiting(sys.k, c)
  }

  lemma LinedDistinct(sys: System, a: nat, b: nat, c: nat)
    requires Lined(sys, a, b, c)
    ensures a != b && b != c && a != c
    ensures sys.k.states[a] == Running && Some(a) != sys.k.idle
    ensures b in sys.k.queue
  {
    var q := sys.k.queue;
    assert q[0] != q[1] && q[1] != q[2] && q[0] != q[2];
    assert q[0] in q && q[1] in q;
  }

  lemma RoundBlocks(sys: System, a: nat, b: nat, c: nat)
    requires Lined(sys, a, b, c)
    ensures Enabled(sys, Block)
    ensures var k := Step(sys, Block).k;
            && k.queue == [b, c] && k.current == a && k.reschedule
            && k.semaphores == sys.k.semaphores && k.states == sys.k.states[a := Blocked] && k.idle == sys.k.idle
  {
    LinedDistinct(sys, a, b, c);
    RemovedAt(sys.k.queue, 0);
    assert Without(sys.k.queue, 0) == [b, c];
  }

  lemma RoundWakes(sys: System, a: nat, b: nat, c: nat)
    requires Ok(sys) && sys.k.queue == [c, b] && sys.k.current == c && !sys.k.reschedule
    requires a in sys.k.states && sys.k.states[a] == Blocked && Some(a) != sys.k.idle
    requires !Waiting(sys.k, a) && !Waiting(sys.k, c)
    ensures Enabled(sys, Wakeup(a)) && Lined(Step(sys, Wakeup(a)), c, b, a)
  {
    var after := Step(sys, Wakeup(a));
    assert a !in sys.k.queue;
    assert after.k.queue == [c, b] + [a];
    assert sys.k.queue[0] in sys.k.queue;
    assert after.k.semaphores == sys.k.semaphores;
    assert forall s, t :: WaitsOn(after.k, s, t) <==> WaitsOn(sys.k, s, t);
  }

  /** The current thread `a` blocks, `c` runs, `a` is woken. */
  ghost predicate Round(sys: System, s1: System, s2: System, s3: System, a: nat, c: nat, stack: int) {
    && Ok(sys) && Enabled(sys, Block) && s1 == Step(sys, Block) && sys.k.current == a && s1.k.current == a
    && Enabled(s1, PendSv(stack)) && s2 == Step(s1, PendSv(stack)) && s2.k.current == c
    && Enabled(s2, Wakeup(a)) && s3 == Step(s2, Wakeup(a))
  }

  lemma OneRound(sys: System, a: nat, b: nat, c: nat, stack: int) returns (s1: System, s2: System, s3: System)
    requires Lined(sys, a, b, c)
    ensures Round(sys, s1, s2, s3, a, c, stack) && Lined(s3, c, b, a)
    ensures b in sys.k.queue && b in s1.k.queue && b in s2.k.queue
  {
    LinedDistinct(sys, a, b, c);
    RoundBlocks(sys, a, b, c);
    s1 := Step(sys, Block);
    assert s1.k.queue[0] == b;
    s2 := Step(s1, PendSv(stack));
    assert s2.k.queue == [c, b] && s2.k.queue[1] == b;
    assert forall s, t :: WaitsOn(s2.k, s, t) <==> WaitsOn(sys.k, s, t);
    RoundWakes(s2, a, b, c);
    s3 := Step(s2, Wakeup(a));
  }

  /** `n` rounds of two threads: the current one blocks, a switch, it is woken. */
  function Rounds(a: nat, c: nat, stack: int, n: nat): seq<Action>
    decreases n
  {
    if n == 0 then [] else [Block, PendSv(stack), Wakeup(a)] + Rounds(c, a, stack, n - 1)
  }

  /** Every action is enabled when its turn comes, and in every state of the run
      `t` is queued, hence RUNNING, and not current. */
  ghost predicate Starving(sys: System, run: seq<Action>, t: nat)
    decreases run
  {
    && Ok(sys) && t in sys.k.queue && sys.k.current != t
    && (run == [] || (Enabled(sys, run[0]) && Starving(Step(sys, run[0]), run[1..], t)))
  }

  /** In other words: a run of the kernel, at whose end as in between `t` is
      RUNNING and was not chosen. */
  lemma {:induction false} StarvingRuns(sys: System, run: seq<Action>, t: nat)
    requires Starving(sys, run, t)
    ensures Path(sys, run) && Absent(sys, run, t)
    ensures t in Final(sys, run).k.states && Final(sys, run).k.states[t] == Running
    decreases run
  {
    if run != [] {
      StarvingRuns(Step(sys, run[0]), run[1..], t);
    }
  }

  lemma Prepended(sys: System, a: Action, next: System, rest: seq<Action>, t: nat) returns (run: seq<Action>)
    requires Ok(sys) && Enabled(sys, a) && next == Step(sys, a)
    requires t in sys.k.queue && sys.k.current != t && Starving(next, rest, t)
    ensures run == [a] + rest && Starving(sys, run, t)
  {
    run := [a] + rest;
    assert run[1..] == rest;
  }

  /** `n` rounds starve the middle one of any three threads. */
  ghost predicate RoundsStarve(stack: int, n: nat) {
    forall sys, a, b, c {:trigger Lined(sys, a, b, c), Rounds(a, c, stack, n)} ::
      Lined(sys, a, b, c) ==> Starving(sys, Rounds(a, c, stack, n), b)
  }

  lemma NoRounds(stack: int)
    ensures RoundsStarve(stack, 0)
  {
    forall sys, a, b, c | Lined(sys, a, b, c)
      ensures Starving(sys, Rounds(a, c, stack, 0), b)
    {
      LinedDistinct(sys, a, b, c);
    }
  }

  lemma OneMoreRound(sys: System, a: nat, b: nat, c: nat, stack: int, n: nat)
    requires Lined(sys, a, b, c) && RoundsStarve(stack, n)
    ensures Starving(sys, Rounds(a, c, stack, n + 1), b)
  {
    LinedDistinct(sys, a, b, c);
    var s1, s2, s3 := OneRound(sys, a, b, c, stack);
    var run := RoundPrepended(sys, s1, s2, s3, a, c, stack, Rounds(c, a, stack, n), b);
  }

  lemma MoreRounds(stack: int, n: nat)
    requires RoundsStarve(stack, n)
    ensures RoundsStarve(stack, n + 1)
  {
    forall sys, a, b, c | Lined(sys, a, b, c)
      ensures Starving(sys, Rounds(a, c, stack, n + 1), b)
    {
      OneMoreRound(sys, a, b, c, stack, n);
    }
  }

  lemma {:induction false} AlwaysStarve(stack: int, n: nat)
    ensures RoundsStarve(stack, n)
  {
    if n == 0 {
      NoRounds(stack);
    } else {
      AlwaysStarve(stack, n - 1);
      MoreRounds(stack, n - 1);
    }
  }

  /** For any number of rounds, in each of which the current thread blocks,
      another one runs and the first is woken: `b` is queued, and so RUNNING, in
      every state and is never chosen. */
  lemma Starves(sys: System, a: nat, b: nat, c: nat, stack: int, rounds: nat)
    requires Lined(sys, a, b, c)
    ensures Starving(sys, Rounds(a, c, stack, rounds), b) && Switches(Rounds(a, c, stack, rounds)) == rounds
  {
    AlwaysStarve(stack, rounds);
    RoundsSwitch(a, c, stack, rounds);
  }

  /** Every round switches once. */
  lemma {:induction false} RoundsSwitch(a: nat, c: nat, stack: int, n: nat)
    ensures Switches(Rounds(a, c, stack, n)) == n
    decreases n
  {
    if n > 0 {
      var rest := Rounds(c, a, stack, n - 1);
      RoundsSwitch(c, a, stack, n - 1);
      Three(Block, PendSv(stack), Wakeup(a), rest);
      SwitchesCons(Wakeup(a), rest);
      SwitchesCons(PendSv(stack), [Wakeup(a)] + rest);
      SwitchesCons(Block, [PendSv(stack)] + ([Wakeup(a)] + rest));
    }
  }

  lemma SwitchesCons(a: Action, rest: seq<Action>)
    ensures Switches([a] + rest) == Switches(rest) + if a.PendSv? then 1 else 0
  {
    assert ([a] + rest)[1..] == rest;
  }

  lemma Three(a: Action, b: Action, c: Action, rest: seq<Action>)
    ensures [a] + ([b] + ([c] + rest)) == [a, b, c] + rest
  {
  }

  /** A round in front of a run that starves `t` still starves it. */
  lemma RoundPrepended(sys: System, s1: System, s2: System, s3: System, a: nat, c: nat, stack: int, rest: seq<Action>,
    t: nat)
    returns (run: seq<Action>)
    requires Round(sys, s1, s2, s3, a, c, stack) && t != a && t != c && Starving(s3, rest, t)
    requires t in sys.k.queue && t in s1.k.queue && t in s2.k.queue
    ensures run == [Block, PendSv(stack), Wakeup(a)] + rest
    ensures Starving(sys, run, t)
  {
    var r2 := Prepended(s2, Wakeup(a), s3, rest, t);
    var r1 := Prepended(s1, PendSv(stack), s2, r2, t);
    run := Prepended(sys, Block, s1, r1, t);
    Three(Block, PendSv(stack), Wakeup(a), rest);
  }

  ghost predicate Leads(sys: System, run: seq<Action>, target: System) {
    Ok(sys) && Path(sys, run) && Final(sys, run) == target
  }

  lemma LeadsFrom(sys: System, a: Action, next: System, rest: seq<Action>, target: System) returns (run: seq<Action>)
    requires Ok(sys) && Enabled(sys, a) && next == Step(sys, a) && Leads(next, rest, target)
    ensures Leads(sys, run, target)
  {
    run := [a] + rest;
    assert run[1..] == rest;
  }

  /** No semaphores yet, and the threads of `q` are queued. */
  ghost predicate Calm(sys: System, q: seq<nat>, idle: nat) {
    && Ok(sys) && sys.k.semaphores == map[] && !sys.k.reschedule && sys.k.idle == Some(idle)
    && q != [] && sys.k.queue == q && (forall t :: t in sys.k.states ==> t in q || t == idle)
  }

  lemma Spawned(sys: System, q: seq<nat>, idle: nat, t: nat, stack: int) returns (s1: System, s2: System)
    requires Calm(sys, q, idle) && t !in q && t != idle
    ensures Enabled(sys, Create(t, stack)) && s1 == Step(sys, Create(t, stack))
    ensures Ok(s1) && Enabled(s1, Wakeup(t)) && s2 == Step(s1, Wakeup(t))
    ensures Calm(s2, q + [t], idle)
  {
    s1 := Step(sys, Create(t, stack));
    assert q[0] in q && q[0] != idle;
    s2 := Step(s1, Wakeup(t));
    assert s2.k.queue == q + [t];
  }

  lemma OneMore(q: seq<nat>, more: seq<nat>)
    requires more != [] && Distinct(q + more)
    ensures (q + [more[0]]) + more[1..] == q + more && more[0] !in q
  {
    assert forall i :: 0 <= i < |q| ==> q[i] == (q + more)[i];
    assert (q + more)[|q|] == more[0];
  }

  lemma SpawnPrepended(sys: System, s1: System, s2: System, t: nat, stack: int, rest: seq<Action>, target: System)
    returns (run: seq<Action>)
    requires Ok(sys) && Enabled(sys, Create(t, stack)) && s1 == Step(sys, Create(t, stack))
    requires Enabled(s1, Wakeup(t)) && s2 == Step(s1, Wakeup(t)) && Leads(s2, rest, target)
    ensures Leads(sys, run, target)
  {
    run := LeadsFrom(s1, Wakeup(t), s2, rest, target);
    run := LeadsFrom(sys, Create(t, stack), s1, run, target);
  }

  /** The threads of `more` can be started one after the other. */
  lemma {:induction false} AllSpawned(sys: System, q: seq<nat>, idle: nat, more: seq<nat>, stack: int)
    returns (run: seq<Action>, target: System)
    requires Calm(sys, q, idle) && Distinct(q + more) && idle !in more
    ensures Leads(sys, run, target) && Calm(target, q + more, idle)
    decreases more
  {
    if more == [] {
      run, target := [], sys;
      assert q + more == q;
    } else {
      OneMore(q, more);
      var s1, s2 := Spawned(sys, q, idle, more[0], stack);
      run, target := AllSpawned(s2, q + [more[0]], idle, more[1..], stack);
      run := SpawnPrepended(sys, s1, s2, more[0], stack, run, target);
    }
  }

  lemma CalmLined(sys: System, idle: nat, a: nat, b: nat, c: nat)
    requires Calm(sys, [a, b, c], idle)
    ensures Lined(sys, a, b, c)
  {
    assert forall s, t :: !WaitsOn(sys.k, s, t);
  }

  lemma BootedCalm(main: nat, idle: nat, stack: int) returns (next: System)
    requires main != idle
    ensures Enabled(Booted(main, idle, stack), PendSv(0)) && next == Step(Booted(main, idle, stack), PendSv(0))
    ensures Calm(next, [main], idle)
  {
    next := Step(Booted(main, idle, stack), PendSv(0));
    assert next.k.queue == [main];
  }

  lemma LinedFrom(sys: System, main: nat, idle: nat, b: nat, c: nat, stack: int)
    returns (run: seq<Action>, target: System)
    requires Calm(sys, [main], idle) && b != c && b != main && c != main && b != idle && c != idle
    ensures Leads(sys, run, target) && Lined(target, main, b, c)
  {
    var q := [main] + [b, c];
    assert q == [main, b, c];
    run, target := AllSpawned(sys, [main], idle, [b, c], stack);
    CalmLined(target, idle, main, b, c);
  }

  /** Such a line-up is reached from boot. */
  lemma LinedReachable(main: nat, idle: nat, b: nat, c: nat, stack: int) returns (run: seq<Action>, target: System)
    requires main != idle && b != c && b != main && c != main && b != idle && c != idle
    ensures Leads(Booted(main, idle, stack), run, target) && Lined(target, main, b, c)
  {
    var s1 := BootedCalm(main, idle, stack);
    run, target := LinedFrom(s1, main, idle, b, c, stack);
    run := LeadsFrom(Booted(main, idle, stack), PendSv(0), s1, run, target);
  }
}
