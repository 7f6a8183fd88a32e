/** Whole runs of the timer on the pointers: every operation of a run keeps the
    ring equal to the deadlines of the simple machine. */
module TimerRingRuns {
  import opened Rings
  import opened Systicks
  import opened Deadlines
  import opened Timers
  import opened TimerRings
  import opened TimerRuns

  /** The ring and the blocks around its entries stand for the state `s`; blocks
      are named by schedule calls, so the next name is new. */
  ghost predicate Mirrors(ring: Ring, info: map<nat, Timeout>, s: Run)
    reads ring, ring.list, ring.list.ring, ring.entries.Values
  {
    && ring.Valid() && Denotes(ring.Ids(), info, s.now, s.pending)
    && forall t :: t in ring.entries ==> t < |s.jobs|
  }

  /** The head is not yet due. */
  predicate Ahead(s: Run) {
    s.pending != [] ==> s.pending[0].deadline > s.now
  }

  /** So it is between the operations of every run. */
  lemma {:induction false} AheadInRuns(ops: seq<Op>, clock: Hertz)
    requires forall i :: 0 <= i < |ops| ==> Legal(ops[i])
    ensures Ahead(After(START, ops, clock))
  {
    RunSettles(START, ops, clock);
    var s := After(START, ops, clock);
    assert s.pending != [] ==> s.pending[0] in s.pending;
  }

  /** The report for the armed head moves the ring's clock as the machine's. */
  lemma HeadAhead(ids: seq<nat>, info: map<nat, Timeout>, s: Run, elapsed: nat, clock: Hertz)
    requires Ahead(s) && Denotes(ids, info, s.now, s.pending)
    requires s.pending != [] ==> elapsed == Elapsed(clock, s.pending[0].deadline - s.now)
    ensures ids == [] <==> s.pending == []
    ensures ids != [] ==> info[ids[0]].remaining == s.pending[0].deadline - s.now >= 1
    ensures ids != [] ==> Reached(s, clock) == s.now + Advance(Queue(ids, info), elapsed)
  {
    if ids != [] {
      ElapsedReaches(clock, info[ids[0]].remaining);
    }
  }

  method Schedule(ring: Ring, info: map<nat, Timeout>, scheduled: nat, inserted: nat, op: Op, ghost s: Run,
    ghost clock: Hertz)
    returns (next: map<nat, Timeout>)
    requires Mirrors(ring, info, s) && scheduled == |s.jobs| && inserted == s.stamps
    requires op.Schedule? && Legal(op)
    modifies ring, ring.list, ring.list.ring, ring.entries.Values
    ensures Mirrors(ring, next, Step(s, op, clock))
  {
    ghost var t, p := ScheduleStep(s, op, clock);
    var period := if op.repeat then op.timeout else 0;
    var timeout := Timeout(scheduled, inserted, op.timeout, period, op.handler, op.context);
    next := InsertNew(ring, info, timeout, s.now, s.pending);
  }

  /** A new block is made and inserted. */
  method InsertNew(ring: Ring, info: map<nat, Timeout>, timeout: Timeout, ghost now: int, ghost ps: seq<Pending>)
    returns (next: map<nat, Timeout>)
    requires ring.Valid() && timeout.tag !in ring.entries && Denotes(ring.Ids(), info, now, ps)
    requires 1 <= timeout.remaining <= INT32_MAX && 0 <= timeout.reset <= INT32_MAX
    modifies ring, ring.list, ring.list.ring
    ensures ring.Valid() && ring.entries.Keys == old(ring.entries.Keys) + {timeout.tag}
    ensures Denotes(ring.Ids(), next, now, Placed(ps, PendingAt(timeout, now + timeout.remaining)))
  {
    ring.Enroll(timeout.tag);
    var first;
    next, first := Insert(ring, info, timeout, now, ps);
  }

  method Interrupt(ring: Ring, info: map<nat, Timeout>, elapsed: nat, inserted: nat, ghost s: Run, ghost clock: Hertz)
    returns (next: map<nat, Timeout>, calls: seq<Call>, later: nat, headless: bool)
    requires Ahead(s) && Mirrors(ring, info, s) && inserted == s.stamps
    requires s.pending != [] ==> elapsed == Elapsed(clock, s.pending[0].deadline - s.now)
    modifies ring.list, ring.list.ring, ring.entries.Values
    ensures Mirrors(ring, next, Step(s, Op.Interrupt, clock)) && later == Step(s, Op.Interrupt, clock).stamps
    ensures CallsIn(Step(s, Op.Interrupt, clock).log) == CallsIn(s.log) + calls
    ensures headless <==> Empties(s, Op.Interrupt, clock)
  {
    HeadAhead(ring.Ids(), info, s, elapsed, clock);
    var empty := ring.IsEmpty();
    if empty {
      return info, [], inserted, false;
    }
    ghost var t, reached := InterruptStep(s, clock);
    next, calls, later, headless := Tick(ring, info, elapsed, inserted, s.now, reached, s.pending);
  }

  /** Any operation of a run: what it does to the ring and which handlers it
      calls, in order, is what the simple machine does. */
  method Perform(ring: Ring, info: map<nat, Timeout>, scheduled: nat, inserted: nat, op: Op, elapsed: nat, ghost s: Run,
    ghost clock: Hertz)
    returns (next: map<nat, Timeout>, calls: seq<Call>, headless: bool)
    requires Ahead(s) && Legal(op) && Mirrors(ring, info, s) && scheduled == |s.jobs| && inserted == s.stamps
    requires op.Interrupt? && s.pending != [] ==> elapsed == Elapsed(clock, s.pending[0].deadline - s.now)
    modifies ring, ring.list, ring.list.ring, ring.entries.Values
    ensures Mirrors(ring, next, Step(s, op, clock))
    ensures CallsIn(Step(s, op, clock).log) == CallsIn(s.log) + calls
    ensures headless <==> Empties(s, op, clock)
  {
    calls, headless := [], false;
    match op {
      case Schedule(_, _, _, _) =>
        next := Schedule(ring, info, scheduled, inserted, op, s, clock);
      case Cancel(handler, context) =>
        next := TimerRings.Cancel(ring, info, handler, context, s.now, s.pending);
      case Interrupt =>
        var later;
        next, calls, later, headless := Interrupt(ring, info, elapsed, inserted, s, clock);
    }
  }
}
