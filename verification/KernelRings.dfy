/** The running queue of the kernel's runs, kept as core/scheduler.c keeps it: on
    the ring of the threads' embedded entries. */
module KernelRings {
  import opened Wrappers
  import opened ListSpec
  import opened Rings
  import opened Semaphores
  import opened Kernels
  import opened KernelRuns

  /** The ring holds exactly the queue, and every thread has its entry. */
  ghost predicate Mirrors(ring: Ring, k: Kernel)
    reads ring, ring.list, ring.list.ring, ring.entries.Values
  {
    ring.Valid() && ring.Ids() == k.queue && ring.entries.Keys == k.states.Keys
  }

  /** The list calls of scheduler_thread_changed_state. */
  method ChangeState(ring: Ring, t: nat, old_: ThreadState, new_: ThreadState, ghost k: Kernel)
    requires Mirrors(ring, k) && t in k.states && k.states[t] == old_
    modifies ring.list, ring.list.ring, ring.entries.Values
    ensures Mirrors(ring, WithState(k, t, new_))
  {
    if old_ == Running && new_ != Running {
      ring.Delete(t);
    } else if old_ != Running && new_ == Running {
      ring.Append(t);
    }
  }

  /** The list calls of schedule. */
  method Rotate(ring: Ring, idle: nat, ghost k: Kernel, ghost stack: int) returns (current: nat)
    requires Mirrors(ring, k) && k.idle == Some(idle) && k.current in k.states
    modifies ring.list
    ensures Mirrors(ring, Switched(k, stack)) && current == Switched(k, stack).current
  {
    var empty, t := ring.Advance();
    current := if empty then idle else t;
  }

  /** Every action of a run, on the pointers: `k` is what the kernel's other
      fields hold. */
  method Perform(ring: Ring, k: Kernel, a: Action, ghost sys: System)
    requires Ok(sys) && Enabled(sys, a) && sys.k == k && Mirrors(ring, k)
    modifies ring, ring.list, ring.list.ring, ring.entries.Values
    ensures Mirrors(ring, Step(sys, a).k)
  {
    match a {
      case Create(t, stack) => PerformCreate(ring, t, stack, sys);
      case Signal(s) => PerformSignal(ring, k, s, sys);
      case Wait(s) => PerformWait(ring, k, s, sys);
      case PendSv(stack) => PerformSwitch(ring, k, stack, sys);
      case _ => PerformState(ring, k, a, sys);
    }
  }

  method PerformCreate(ring: Ring, t: nat, ghost stack: int, ghost sys: System)
    requires Ok(sys) && Enabled(sys, Create(t, stack)) && Mirrors(ring, sys.k)
    modifies ring
    ensures Mirrors(ring, Step(sys, Create(t, stack)).k)
  {
    ring.Enroll(t);
  }

  method PerformSwitch(ring: Ring, k: Kernel, ghost stack: int, ghost sys: System)
    requires Ok(sys) && Enabled(sys, PendSv(stack)) && sys.k == k && Mirrors(ring, k)
    modifies ring.list
    ensures Mirrors(ring, Step(sys, PendSv(stack)).k)
  {
    var _ := Rotate(ring, k.idle.value, k, stack);
  }

  method PerformState(ring: Ring, k: Kernel, a: Action, ghost sys: System)
    requires Ok(sys) && Enabled(sys, a) && sys.k == k && Mirrors(ring, k)
    requires a.Block? || a.Stop? || a.Wakeup? || a.Yield? || a.InitSemaphore?
    modifies ring.list, ring.list.ring, ring.entries.Values
    ensures Mirrors(ring, Step(sys, a).k)
  {
    if a.Block? {
      CurrentRuns(sys);
      ChangeState(ring, k.current, k.states[k.current], Blocked, k);
    } else if a.Stop? {
      ChangeState(ring, a.t, k.states[a.t], Stopped, k);
    } else if a.Wakeup? {
      ChangeState(ring, a.t, k.states[a.t], Running, k);
    }
  }

  method PerformSignal(ring: Ring, k: Kernel, s: nat, ghost sys: System)
    requires Ok(sys) && Enabled(sys, Signal(s)) && sys.k == k && Mirrors(ring, k)
    modifies ring.list, ring.list.ring, ring.entries.Values
    ensures Mirrors(ring, Step(sys, Signal(s)).k)
  {
    SignalScheduler(sys, s);
    var queue := k.semaphores[s].queue;
    if queue != [] {
      ghost var put := k.(semaphores := k.semaphores[s := k.semaphores[s].Signalled()]);
      ChangeState(ring, queue[0], k.states[queue[0]], Running, put);
    }
  }

  method PerformWait(ring: Ring, k: Kernel, s: nat, ghost sys: System)
    requires Ok(sys) && Enabled(sys, Wait(s)) && sys.k == k && Mirrors(ring, k)
    modifies ring.list, ring.list.ring, ring.entries.Values
    ensures Mirrors(ring, Step(sys, Wait(s)).k)
  {
    CurrentRuns(sys);
    if k.semaphores[s].Contended() {
      ghost var put := k.(semaphores := k.semaphores[s := k.semaphores[s].Waited(k.current)]);
      ChangeState(ring, k.current, k.states[k.current], Blocked, put);
    }
  }
}
