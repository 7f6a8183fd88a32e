/** core/semaphore.c on values: a counter of type int8_t and a queue of
    waiting threads. */
module Semaphores {

  function Int8(x: int): int {
    (x + 128) % 256 - 128
  }

  /** Wrapping after each step or once at the end is the same. */
  lemma Int8Steps(x: int)
    ensures Int8(Int8(x) - 1) == Int8(x - 1) && Int8(Int8(x) + 1) == Int8(x + 1)
  {
    var q := (x + 128) / 256;
    Int8Shift(Int8(x) - 1, q);
    Int8Shift(Int8(x) + 1, q);
  }

  lemma Int8Shift(y: int, q: int)
    ensures Int8(y + 256 * q) == Int8(y)
  {
    var p := (y + 128) / 256;
    assert (y + 256 * q + 128) / 256 == p + q;
  }

  datatype Semaphore = Semaphore(value: int, queue: seq<nat>) {

    function Signalled(): Semaphore {
      Semaphore(Int8(value + 1), if queue == [] then [] else queue[1..])
    }

    /** Whether a wait would have to block. */
    predicate Contended() {
      Int8(value - 1) < 0
    }

    function Waited(thread: nat): Semaphore {
      Semaphore(Int8(value - 1), if Contended() then queue + [thread] else queue)
    }
  }
}

/** core/scheduler.c, core/thread.c and core/semaphore.c as functions on one
    kernel value, one function per region that runs with interrupts off. */
module Kernels {
  import opened Wrappers
  import opened ListSpec
  import opened Semaphores

  datatype ThreadState = Unknown | Running | Stopped | Blocked

  /** `reschedule` is the pending bit of the PendSV interrupt, which `yield`
      sets and whose handler calls `schedule`. */
  datatype Kernel = Kernel(
    states: map<nat, ThreadState>,
    stacks: map<nat, int>,
    queue: seq<nat>,
    current: nat,
    idle: Option<nat>,
    reschedule: bool,
    semaphores: map<nat, Semaphore>)

  /** thread_struct_init. */
  function Created(k: Kernel, t: nat, stack: int): Kernel {
    k.(states := k.states[t := Stopped], stacks := k.stacks[t := stack])
  }

  /** scheduler_thread_changed_state. */
  function Notified(k: Kernel, t: nat, old_: ThreadState, new_: ThreadState): Kernel {
    var leaves := old_ == Running && new_ != Running;
    var enters := old_ != Running && new_ == Running;
    k.(queue := if leaves then Removed(k.queue, t) else if enters then Appended(k.queue, t) else k.queue,
       reschedule := k.reschedule || (leaves && t == k.current) || Some(k.current) == k.idle)
  }

  /** thread_set_state. */
  function WithState(k: Kernel, t: nat, state: ThreadState): Kernel
    requires t in k.states
  {
    Notified(k.(states := k.states[t := state]), t, k.states[t], state)
  }

  /** schedule: saves the outgoing stack and picks the next thread. */
  function Switched(k: Kernel, stack: int): Kernel
    requires k.queue == [] ==> k.idle.Some?
  {
    var queue := LeftRotated(k.queue);
    k.(stacks := k.stacks[k.current := stack],
       queue := queue,
       current := if queue == [] then k.idle.value else queue[0],
       reschedule := false)
  }

  function Signalled(k: Kernel, s: nat): Kernel
    requires s in k.semaphores && forall t :: t in k.semaphores[s].queue ==> t in k.states
  {
    var sem := k.semaphores[s];
    var k' := k.(semaphores := k.semaphores[s := sem.Signalled()]);
    if sem.queue == [] then k' else WithState(k', sem.queue[0], Running)
  }

  function Waited(k: Kernel, s: nat): Kernel
    requires s in k.semaphores && k.current in k.states
  {
    var sem := k.semaphores[s];
    var k' := k.(semaphores := k.semaphores[s := sem.Waited(k.current)]);
    if sem.Contended() then WithState(k', k.current, Blocked) else k'
  }

  /** The kernel's own form: fields that are updated in place. */
  class Scheduler {
    var states: map<nat, ThreadState>
    var stacks: map<nat, int>
    var queue: seq<nat>
    var current: nat
    var idle: Option<nat>
    var reschedule: bool
    var semaphores: map<nat, Semaphore>

    function View(): Kernel
      reads this
    {
      Kernel(states, stacks, queue, current, idle, reschedule, semaphores)
    }

    /** scheduler_init: the running context becomes the thread `main`. */
    constructor (main: nat)
      ensures View() == Kernel(map[main := Running], map[main := 0], [main], main, None, true, map[])
    {
      states, stacks := map[main := Stopped], map[main := 0];
      queue, current, idle, reschedule, semaphores := [], main, None, false, map[];
      new;
      Wakeup(main);
      reschedule := true;
    }

    method SetIdleThread(t: nat)
      modifies this`idle
      ensures View() == old(View()).(idle := Some(t))
    {
      idle := Some(t);
    }

    method Create(t: nat, stack: int)
      modifies this`states, this`stacks
      ensures View() == Created(old(View()), t, stack)
    {
      states := states[t := Stopped];
      stacks := stacks[t := stack];
    }

    method ChangedState(t: nat, old_: ThreadState, new_: ThreadState)
      modifies this`queue, this`reschedule
      ensures View() == Notified(old(View()), t, old_, new_)
    {
      if old_ == Running && new_ != Running {
        queue := Removed(queue, t);
        if t == current {
          reschedule := true;
        }
      } else if old_ != Running && new_ == Running {
        queue := Appended(queue, t);
      }
      if Some(current) == idle {
        reschedule := true;
      }
    }

    method SetState(t: nat, state: ThreadState)
      requires t in states
      modifies this`states, this`queue, this`reschedule
      ensures View() == WithState(old(View()), t, state)
    {
      var was := states[t];
      states := states[t := state];
      ChangedState(t, was, state);
    }

    method Block()
      requires current in states
      modifies this`states, this`queue, this`reschedule
      ensures View() == WithState(old(View()), old(current), Blocked)
    {
      SetState(current, Blocked);
    }

    method Stop(t: nat)
      requires t in states
      modifies this`states, this`queue, this`reschedule
      ensures View() == WithState(old(View()), t, Stopped)
    {
      SetState(t, Stopped);
    }

    method Wakeup(t: nat)
      requires t in states
      modifies this`states, this`queue, this`reschedule
      ensures View() == WithState(old(View()), t, Running)
    {
      SetState(t, Running);
    }

    method Schedule(stack: int) returns (next: int)
      requires queue == [] ==> idle.Some?
      requires forall t :: t in queue || Some(t) == idle ==> t in stacks
      modifies this
      ensures View() == Switched(old(View()), stack)
      ensures current in stacks && next == stacks[current]
    {
      stacks := stacks[current := stack];
      if queue == [] {
        current := idle.value;
      } else {
        queue := LeftRotated(queue);
        current := queue[0];
      }
      reschedule := false;
      next := stacks[current];
    }

    method SemaphoreInit(s: nat, initial: int)
      modifies this`semaphores
      ensures View() == old(View()).(semaphores := old(semaphores)[s := Semaphore(initial, [])])
    {
      semaphores := semaphores[s := Semaphore(initial, [])];
    }

    method SemaphoreSignal(s: nat)
      requires s in semaphores && forall t :: t in semaphores[s].queue ==> t in states
      modifies this
      ensures View() == Signalled(old(View()), s)
    {
      var sem := semaphores[s];
      var value := Int8(sem.value + 1);
      if sem.queue != [] {
        var waitee := sem.queue[0];
        semaphores := semaphores[s := Semaphore(value, sem.queue[1..])];
        Wakeup(waitee);
      } else {
        semaphores := semaphores[s := Semaphore(value, sem.queue)];
      }
    }

    method SemaphoreWait(s: nat)
      requires s in semaphores && current in states
      modifies this
      ensures View() == Waited(old(View()), s)
    {
      var sem := semaphores[s];
      var value := Int8(sem.value - 1);
      if value >= 0 {
        semaphores := semaphores[s := Semaphore(value, sem.queue)];
        return;
      }
      semaphores := semaphores[s := Semaphore(value, sem.queue + [current])];
      Block();
    }
  }
}
