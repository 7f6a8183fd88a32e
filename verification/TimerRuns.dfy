/** Whole runs of the timer: every sequence of schedule and cancel calls and
    hardware interrupts, measured on the logical clock. */
module TimerRuns {
  import opened Deadlines
  import opened Timers
  import opened Systicks

  datatype Op =
    | Schedule(timeout: int, repeat: bool, handler: nat, context: nat)
    | Cancel(handler: nat, context: nat)
    | Interrupt

  /** What a schedule call asked for, and when. */
  datatype Job = Job(at: int, timeout: int, repeat: bool, handler: nat, context: nat, cancelled: bool)

  datatype Firing = Firing(call: Call, time: int)

  datatype Run = Run(now: int, pending: seq<Pending>, stamps: nat, jobs: seq<Job>, log: seq<Firing>)

  const START := Run(0, [], 0, [], [])

  predicate Legal(op: Op) {
    op.Schedule? ==> 1 <= op.timeout <= INT32_MAX
  }

  function FireOne(s: Run): Run
    requires s.pending != []
  {
    s.(pending := HeadFired(s.pending, s.now, s.stamps),
       stamps := s.stamps + if s.pending[0].period > 0 then 1 else 0,
       log := s.log + [Firing(CallOf(s.pending[0]), s.now)])
  }

  /** Everything due at the current time fires, in queue order. */
  function Drain(s: Run): Run
    decreases |Due(s.pending, s.now)|
  {
    if s.pending != [] && s.pending[0].deadline <= s.now then
      TickStep(s.pending, s.now, s.stamps);
      Drain(FireOne(s))
    else s
  }

  /** The first entry registered with this handler and context. */
  function FirstMatch(ps: seq<Pending>, handler: nat, context: nat): (i: nat)
    ensures i <= |ps|
    ensures i < |ps| ==> Matches(ps[i], handler, context)
  {
    if ps == [] || Matches(ps[0], handler, context) then 0 else 1 + FirstMatch(ps[1..], handler, context)
  }

  /** The job that owns entry `i`, if there is one, marked as cancelled. */
  function Struck(jobs: seq<Job>, ps: seq<Pending>, i: nat): (r: seq<Job>)
    ensures |r| == |jobs|
  {
    if i < |ps| && ps[i].tag < |jobs| then jobs[ps[i].tag := jobs[ps[i].tag].(cancelled := true)] else jobs
  }

  /** The clock moves by what the hardware reports when armed for the head. */
  function Step(s: Run, op: Op, clock: Hertz): Run {
    match op
    case Schedule(timeout, repeat, handler, context) =>
      var period := if repeat then timeout else 0;
      s.(pending := Placed(s.pending, Pending(|s.jobs|, s.stamps, s.now + timeout, period, handler, context)),
         stamps := s.stamps + 1,
         jobs := s.jobs + [Job(s.now, timeout, repeat, handler, context, false)])
    case Cancel(handler, context) =>
      s.(pending := Dropped(s.pending, handler, context),
         jobs := Struck(s.jobs, s.pending, FirstMatch(s.pending, handler, context)))
    case Interrupt =>
      if s.pending == [] then s
      else
        Drain(s.(now := Reached(s, clock)))
  }

  /** The time at the next interrupt. */
  function Reached(s: Run, clock: Hertz): int
    requires s.pending != []
  {
    s.now + Elapsed(clock, s.pending[0].deadline - s.now)
  }

  function After(s: Run, ops: seq<Op>, clock: Hertz): Run
    decreases ops
  {
    if ops == [] then s else After(Step(s, ops[0], clock), ops[1..], clock)
  }

  // ----- what every run keeps

  /** When the schedule call `j` is due for the n-th time, from 0. */
  function DueTime(j: Job, n: nat): int {
    j.at + (n + 1) * j.timeout
  }

  /** The job is to fire for the n-th time. */
  predicate Expected(j: Job, n: nat) {
    !j.cancelled && (n == 0 || j.repeat)
  }

  /** The times at which the job `tag` fired. */
  function Times(log: seq<Firing>, tag: nat): seq<int> {
    if log == [] then []
    else Times(log[..|log| - 1], tag) + if log[|log| - 1].call.tag == tag then [log[|log| - 1].time] else []
  }

  ghost predicate Ordered(ps: seq<Pending>) {
    forall i, j :: 0 <= i < j < |ps| ==>
      ps[i].deadline < ps[j].deadline || (ps[i].deadline == ps[j].deadline && ps[i].stamp > ps[j].stamp)
  }

  ghost predicate DistinctTags(ps: seq<Pending>) {
    forall i, j :: 0 <= i < j < |ps| ==> ps[i].tag != ps[j].tag
  }

  ghost predicate IsPending(ps: seq<Pending>, tag: nat) {
    exists p :: p in ps && p.tag == tag
  }

  ghost predicate EntryOk(s: Run, p: Pending) {
    && p.tag < |s.jobs| && p.stamp < s.stamps
    && var j := s.jobs[p.tag];
    && p.handler == j.handler && p.context == j.context
    && p.period == (if j.repeat then j.timeout else 0)
    && p.deadline == DueTime(j, |Times(s.log, p.tag)|)
  }

  /** The job fired exactly at its first due times, and waits for the next
      unless it was cancelled or is a one-shot that has fired. */
  ghost predicate JobOk(s: Run, tag: nat)
    requires tag < |s.jobs|
  {
    var j, times := s.jobs[tag], Times(s.log, tag);
    && j.timeout >= 1
    && (forall n :: 0 <= n < |times| ==> times[n] == DueTime(j, n))
    && (!j.repeat ==> |times| <= 1)
    && (IsPending(s.pending, tag) <==> !j.cancelled && (j.repeat || |times| == 0))
  }

  /** Equal times fire with the most recent insertion first. */
  ghost predicate LogOrdered(log: seq<Firing>) {
    forall i, j :: 0 <= i < j < |log| ==>
      log[i].time < log[j].time || (log[i].time == log[j].time && log[i].call.stamp > log[j].call.stamp)
  }

  ghost predicate QueueOk(ps: seq<Pending>) {
    Ordered(ps) && DistinctTags(ps)
  }

  ghost predicate EntriesOk(s: Run) {
    forall p :: p in s.pending ==> EntryOk(s, p) && p.deadline >= s.now
  }

  ghost predicate JobsOk(s: Run) {
    forall tag :: 0 <= tag < |s.jobs| ==> JobOk(s, tag)
  }

  ghost predicate LogOk(s: Run) {
    && LogOrdered(s.log)
    && (forall f :: f in s.log ==> f.time <= s.now && f.call.tag < |s.jobs|)
    && (forall f, p :: f in s.log && p in s.pending && f.time == s.now == p.deadline ==> f.call.stamp > p.stamp)
  }

  ghost predicate Consistent(s: Run) {
    QueueOk(s.pending) && EntriesOk(s) && JobsOk(s) && LogOk(s)
  }

  ghost predicate NothingDue(s: Run) {
    forall p :: p in s.pending ==> p.deadline > s.now
  }

  /** The invariant between operations: nothing is due and unfired. */
  ghost predicate Settled(s: Run) {
    Consistent(s) && NothingDue(s)
  }

  lemma {:induction false} PlacedOrdered(ps: seq<Pending>, p: Pending)
    requires Ordered(ps) && forall q :: q in ps ==> q.stamp < p.stamp
    ensures Ordered(Placed(ps, p))
  {
    if ps == [] || p.deadline <= ps[0].deadline {
    } else {
      PlacedOrdered(ps[1..], p);
      PlacedMembers(ps[1..], p);
      var r := Placed(ps[1..], p);
      forall j | 0 <= j < |r|
        ensures ps[0].deadline < r[j].deadline || (ps[0].deadline == r[j].deadline && ps[0].stamp > r[j].stamp)
      {
        assert r[j] in r;
      }
    }
  }

  lemma {:induction false} PlacedDistinct(ps: seq<Pending>, p: Pending)
    requires DistinctTags(ps) && forall q :: q in ps ==> q.tag != p.tag
    ensures DistinctTags(Placed(ps, p))
  {
    if ps == [] || p.deadline <= ps[0].deadline {
    } else {
      PlacedDistinct(ps[1..], p);
      PlacedMembers(ps[1..], p);
      var r := Placed(ps[1..], p);
      forall j | 0 <= j < |r|
        ensures ps[0].tag != r[j].tag
      {
        assert r[j] in r;
      }
    }
  }

  lemma TimesSnoc(log: seq<Firing>, f: Firing, tag: nat)
    ensures Times(log + [f], tag) == Times(log, tag) + if f.call.tag == tag then [f.time] else []
  {
    assert (log + [f])[..|log|] == log;
  }

  lemma {:induction false} TimesOfNone(log: seq<Firing>, tag: nat)
    requires forall f :: f in log ==> f.call.tag != tag
    ensures Times(log, tag) == []
  {
    if log != [] {
      TimesOfNone(log[..|log| - 1], tag);
    }
  }

  /** Members of the queue after its head fired. */
  lemma HeadFiredMembers(s: Run)
    requires s.pending != [] && DistinctTags(s.pending)
    ensures var p, t := s.pending[0], FireOne(s);
            && (forall q :: q in t.pending <==>
                q in s.pending[1..] || (p.period > 0 && q == Renewed(p, s.now, s.stamps)))
            && (forall q :: q in s.pending[1..] ==> q in s.pending && q.tag != p.tag)
  {
    var p, rest := s.pending[0], s.pending[1..];
    if p.period > 0 {
      PlacedMembers(rest, Renewed(p, s.now, s.stamps));
    }
  }

  lemma TailQueue(ps: seq<Pending>)
    requires ps != [] && QueueOk(ps)
    ensures QueueOk(ps[1..])
    ensures forall q :: q in ps[1..] ==> q in ps && q.tag != ps[0].tag
  {
  }

  lemma HeadFiredQueue(s: Run)
    requires s.pending != [] && QueueOk(s.pending) && EntriesOk(s)
    ensures QueueOk(FireOne(s).pending)
  {
    var p, rest := s.pending[0], s.pending[1..];
    TailQueue(s.pending);
    if p.period > 0 {
      PlacedOrdered(rest, Renewed(p, s.now, s.stamps));
      PlacedDistinct(rest, Renewed(p, s.now, s.stamps));
    }
  }

  lemma NextDue(j: Job, n: nat)
    ensures DueTime(j, n) + j.timeout == DueTime(j, n + 1)
  {
  }

  lemma FireOneEntries(s: Run)
    requires s.pending != [] && s.pending[0].deadline <= s.now
    requires DistinctTags(s.pending) && EntriesOk(s)
    ensures EntriesOk(FireOne(s))
  {
    var p, t := s.pending[0], FireOne(s);
    HeadFiredMembers(s);
    assert p in s.pending;
    NextDue(s.jobs[p.tag], |Times(s.log, p.tag)|);
    forall q | q in t.pending
      ensures EntryOk(t, q) && q.deadline >= t.now
    {
      TimesSnoc(s.log, Firing(CallOf(p), s.now), q.tag);
    }
  }

  lemma FireOneOwn(s: Run)
    requires s.pending != [] && s.pending[0].deadline <= s.now
    requires DistinctTags(s.pending) && EntriesOk(s) && JobsOk(s)
    ensures s.pending[0].tag < |s.jobs| && JobOk(FireOne(s), s.pending[0].tag)
  {
    var p, t := s.pending[0], FireOne(s);
    HeadFiredMembers(s);
    assert p in s.pending && EntryOk(s, p) && JobOk(s, p.tag);
    TimesSnoc(s.log, Firing(CallOf(p), s.now), p.tag);
    assert IsPending(s.pending, p.tag);
    assert p.period > 0 ==> Renewed(p, s.now, s.stamps) in t.pending;
  }

  lemma FireOneOther(s: Run, tag: nat)
    requires s.pending != [] && DistinctTags(s.pending)
    requires tag < |s.jobs| && tag != s.pending[0].tag && JobOk(s, tag)
    ensures JobOk(FireOne(s), tag)
  {
    var p, t := s.pending[0], FireOne(s);
    HeadFiredMembers(s);
    TimesSnoc(s.log, Firing(CallOf(p), s.now), tag);
    assert forall q :: q in s.pending && q.tag == tag ==> q in s.pending[1..];
    assert IsPending(t.pending, tag) <==> IsPending(s.pending, tag);
  }

  lemma FireOneJobs(s: Run)
    requires s.pending != [] && s.pending[0].deadline <= s.now
    requires DistinctTags(s.pending) && EntriesOk(s) && JobsOk(s)
    ensures JobsOk(FireOne(s))
  {
    FireOneOwn(s);
    forall tag | 0 <= tag < |s.jobs|
      ensures JobOk(FireOne(s), tag)
    {
      if tag != s.pending[0].tag {
        FireOneOther(s, tag);
      }
    }
  }

  lemma FireOneLog(s: Run)
    requires s.pending != [] && s.pending[0].deadline <= s.now
    requires QueueOk(s.pending) && EntriesOk(s) && LogOk(s)
    ensures LogOk(FireOne(s))
  {
    var p, t := s.pending[0], FireOne(s);
    HeadFiredMembers(s);
    assert p in s.pending && p.deadline == s.now;
    forall f, q | f in t.log && q in t.pending && f.time == t.now == q.deadline
      ensures f.call.stamp > q.stamp
    {
      assert q in s.pending[1..];
      var i :| 0 <= i < |s.pending[1..]| && s.pending[1..][i] == q;
      assert s.pending[i + 1] == q;
    }
    forall i, j | 0 <= i < j < |t.log|
      ensures t.log[i].time < t.log[j].time ||
                (t.log[i].time == t.log[j].time && t.log[i].call.stamp > t.log[j].call.stamp)
    {
      assert t.log[i] in s.log;
    }
  }

  lemma FireOneKeeps(s: Run)
    requires Consistent(s) && s.pending != [] && s.pending[0].deadline <= s.now
    ensures Consistent(FireOne(s))
  {
    HeadFiredQueue(s);
    FireOneEntries(s);
    FireOneJobs(s);
    FireOneLog(s);
  }

  lemma HeadIsFirst(ps: seq<Pending>)
    requires ps != [] && Ordered(ps)
    ensures forall p :: p in ps ==> ps[0].deadline <= p.deadline
  {
  }

  lemma {:induction false} DrainKeeps(s: Run)
    requires Consistent(s)
    ensures Settled(Drain(s)) && Drain(s).now == s.now && Drain(s).jobs == s.jobs
    decreases |Due(s.pending, s.now)|
  {
    if s.pending != [] && s.pending[0].deadline <= s.now {
      FireOneKeeps(s);
      TickStep(s.pending, s.now, s.stamps);
      DrainKeeps(FireOne(s));
    } else if s.pending != [] {
      HeadIsFirst(s.pending);
    }
  }

  /** The clock may move up to the first deadline. */
  lemma AdvanceKeeps(s: Run, now: int)
    requires Settled(s) && s.pending != [] && s.now <= now <= s.pending[0].deadline
    ensures Consistent(s.(now := now))
  {
    var t := s.(now := now);
    HeadIsFirst(s.pending);
    forall p | p in t.pending
      ensures EntryOk(t, p) && p.deadline >= t.now
    {
      assert EntryOk(s, p);
    }
    forall tag | 0 <= tag < |t.jobs|
      ensures JobOk(t, tag)
    {
      assert JobOk(s, tag);
    }
  }

  lemma InterruptKeeps(s: Run, clock: Hertz)
    requires Settled(s)
    ensures Settled(Step(s, Interrupt, clock))
  {
    if s.pending != [] {
      var now := ReachedBounds(s, clock);
      AdvanceKeeps(s, now);
      DrainKeeps(s.(now := now));
    }
  }

  lemma ReachedBounds(s: Run, clock: Hertz) returns (now: int)
    requires Settled(s) && s.pending != []
    ensures now == Reached(s, clock) && s.now <= now <= s.pending[0].deadline
    ensures now == s.pending[0].deadline <==> Works(clock) && Fits(clock, s.pending[0].deadline - s.now)
    ensures Works(clock) ==> now > s.now
  {
    assert s.pending[0] in s.pending;
    ElapsedReaches(clock, s.pending[0].deadline - s.now);
    now := Reached(s, clock);
  }

  /** A schedule call adds one entry, whose tag and stamp are new. */
  lemma ScheduleQueue(s: Run, p: Pending)
    requires QueueOk(s.pending) && EntriesOk(s) && p.tag == |s.jobs| && p.stamp == s.stamps
    ensures QueueOk(Placed(s.pending, p))
    ensures forall q :: q in Placed(s.pending, p) <==> q == p || q in s.pending
  {
    PlacedMembers(s.pending, p);
    PlacedOrdered(s.pending, p);
    PlacedDistinct(s.pending, p);
  }

  lemma ScheduleJobs(s: Run, t: Run, p: Pending)
    requires JobsOk(s) && EntriesOk(s) && t.log == s.log && |t.jobs| == |s.jobs| + 1 && t.jobs[..|s.jobs|] == s.jobs
    requires forall q :: q in t.pending <==> q == p || q in s.pending
    requires p.tag == |s.jobs| && Times(s.log, p.tag) == []
    requires t.jobs[p.tag].timeout >= 1 && !t.jobs[p.tag].cancelled
    ensures JobsOk(t)
  {
    forall tag | 0 <= tag < |t.jobs|
      ensures JobOk(t, tag)
    {
      if tag == |s.jobs| {
        assert p in t.pending;
      } else {
        assert JobOk(s, tag) && t.jobs[tag] == s.jobs[tag];
        assert IsPending(t.pending, tag) <==> IsPending(s.pending, tag);
      }
    }
  }

  /** The old entries keep their places in the books, the new one is in them. */
  lemma ScheduleEntries(s: Run, t: Run, p: Pending)
    requires EntriesOk(s) && NothingDue(s)
    requires t.log == s.log && t.now == s.now && t.stamps == s.stamps + 1
    requires |t.jobs| == |s.jobs| + 1 && t.jobs[..|s.jobs|] == s.jobs
    requires forall q :: q in t.pending <==> q == p || q in s.pending
    requires EntryOk(t, p) && p.deadline > t.now
    ensures EntriesOk(t) && NothingDue(t)
  {
    forall q | q in t.pending
      ensures EntryOk(t, q) && q.deadline > t.now
    {
      if q != p {
        assert EntryOk(s, q) && t.jobs[q.tag] == s.jobs[q.tag];
      }
    }
  }

  lemma ScheduleLog(s: Run, t: Run)
    requires LogOk(s) && NothingDue(t)
    requires t.log == s.log && t.now == s.now && |t.jobs| == |s.jobs| + 1
    ensures LogOk(t)
  {
  }

  /** What scheduling changes. */
  lemma ScheduleStep(s: Run, op: Op, clock: Hertz) returns (t: Run, p: Pending)
    requires op.Schedule? && op.timeout >= 1
    ensures t == Step(s, op, clock) && t.pending == Placed(s.pending, p)
    ensures t.log == s.log && t.now == s.now && t.stamps == s.stamps + 1
    ensures |t.jobs| == |s.jobs| + 1 && t.jobs[..|s.jobs|] == s.jobs
    ensures t.jobs[|s.jobs|] == Job(s.now, op.timeout, op.repeat, op.handler, op.context, false)
    ensures p == Pending(|s.jobs|, s.stamps, s.now + op.timeout, if op.repeat then op.timeout
              else 0, op.handler, op.context)
  {
    t := Step(s, op, clock);
    p := Pending(|s.jobs|, s.stamps, s.now + op.timeout, if op.repeat then op.timeout else 0, op.handler, op.context);
  }

  lemma ScheduleKeeps(s: Run, op: Op, clock: Hertz)
    requires Settled(s) && op.Schedule? && op.timeout >= 1
    ensures Settled(Step(s, op, clock))
  {
    var t, p := ScheduleStep(s, op, clock);
    ScheduleQueue(s, p);
    TimesOfNone(s.log, |s.jobs|);
    ScheduleJobs(s, t, p);
    ScheduleEntries(s, t, p);
    ScheduleLog(s, t);
  }

  lemma CutTail(ps: seq<Pending>, i: nat)
    requires i + 1 < |ps|
    ensures [ps[0]] + (ps[1..][..i] + ps[1..][i + 1..]) == ps[..i + 1] + ps[i + 2..]
  {
  }

  lemma {:induction false} DroppedAtMatch(ps: seq<Pending>, handler: nat, context: nat)
    ensures var i := FirstMatch(ps, handler, context);
            Dropped(ps, handler, context) == if i == |ps| then ps else ps[..i] + ps[i + 1..]
  {
    if ps != [] && !Matches(ps[0], handler, context) {
      DroppedAtMatch(ps[1..], handler, context);
      var i := FirstMatch(ps[1..], handler, context);
      if i < |ps[1..]| {
        CutTail(ps, i);
      }
    } else if ps != [] {
      assert ps[..0] + ps[1..] == ps[1..];
    }
  }

  lemma DroppedQueue(ps: seq<Pending>, i: nat)
    requires QueueOk(ps) && i < |ps|
    ensures QueueOk(ps[..i] + ps[i + 1..])
  {
  }

  lemma DroppedMembers(ps: seq<Pending>, i: nat)
    requires DistinctTags(ps) && i < |ps|
    ensures forall q :: q in ps[..i] + ps[i + 1..] <==> q in ps && q.tag != ps[i].tag
  {
    var r := ps[..i] + ps[i + 1..];
    forall q | q in ps && q.tag != ps[i].tag
      ensures q in r
    {
      var k :| 0 <= k < |ps| && ps[k] == q;
      assert r[if k < i then k else k - 1] == q;
    }
    forall q | q in r
      ensures q in ps && q.tag != ps[i].tag
    {
      var k :| 0 <= k < |r| && r[k] == q;
      assert q == ps[if k < i then k else k + 1];
    }
  }

  /** Cancelling leaves every other job and entry as it was. */
  lemma CancelOthers(s: Run, t: Run, tag: nat)
    requires Settled(s) && tag < |s.jobs|
    requires t == s.(pending := t.pending, jobs := s.jobs[tag := s.jobs[tag].(cancelled := true)])
    requires forall q :: q in t.pending <==> q in s.pending && q.tag != tag
    ensures EntriesOk(t) && JobsOk(t) && LogOk(t) && NothingDue(t)
  {
    forall q | q in t.pending
      ensures EntryOk(t, q)
    {
      assert EntryOk(s, q);
    }
    forall k | 0 <= k < |t.jobs|
      ensures JobOk(t, k)
    {
      assert JobOk(s, k);
      assert k != tag ==> (IsPending(t.pending, k) <==> IsPending(s.pending, k));
    }
  }

  lemma CancelKeeps(s: Run, handler: nat, context: nat, clock: Hertz)
    requires Settled(s)
    ensures Settled(Step(s, Cancel(handler, context), clock))
  {
    var i := FirstMatch(s.pending, handler, context);
    DroppedAtMatch(s.pending, handler, context);
    if i < |s.pending| {
      var p := s.pending[i];
      assert p in s.pending && EntryOk(s, p);
      DroppedQueue(s.pending, i);
      DroppedMembers(s.pending, i);
      CancelOthers(s, Step(s, Cancel(handler, context), clock), p.tag);
    }
  }

  lemma {:induction false} NoEarlierMatch(ps: seq<Pending>, handler: nat, context: nat)
    ensures forall k :: 0 <= k < FirstMatch(ps, handler, context) ==> !Matches(ps[k], handler, context)
  {
    if ps != [] {
      NoEarlierMatch(ps[1..], handler, context);
    }
  }

  /** Cancelling takes out the first pending entry with exactly this handler and
      context, and marks its job; without one it changes nothing. */
  lemma CancelTakes(s: Run, handler: nat, context: nat, clock: Hertz) returns (i: nat)
    requires Settled(s)
    ensures i <= |s.pending|
    ensures forall k :: 0 <= k < i ==> s.pending[k].handler != handler || s.pending[k].context != context
    ensures i == |s.pending| ==> Step(s, Cancel(handler, context), clock) == s
    ensures i < |s.pending| ==>
              var t, p := Step(s, Cancel(handler, context), clock), s.pending[i];
              && p.handler == handler && p.context == context && p.tag < |s.jobs|
              && t == s.(pending := s.pending[..i] + s.pending[i + 1..],
                         jobs := s.jobs[p.tag := s.jobs[p.tag].(cancelled := true)])
  {
    i := FirstMatch(s.pending, handler, context);
    DroppedAtMatch(s.pending, handler, context);
    NoEarlierMatch(s.pending, handler, context);
    if i < |s.pending| {
      assert EntryOk(s, s.pending[i]);
    }
  }

  lemma StepKeeps(s: Run, op: Op, clock: Hertz)
    requires Settled(s) && Legal(op)
    ensures Settled(Step(s, op, clock))
  {
    match op
    case Schedule(_, _, _, _) => ScheduleKeeps(s, op, clock);
    case Cancel(handler, context) => CancelKeeps(s, handler, context, clock);
    case Interrupt => InterruptKeeps(s, clock);
  }

  lemma {:induction false} RunSettles(s: Run, ops: seq<Op>, clock: Hertz)
    requires Settled(s)
    requires forall i :: 0 <= i < |ops| ==> Legal(ops[i])
    ensures Settled(After(s, ops, clock))
    decreases ops
  {
    if ops != [] {
      StepKeeps(s, ops[0], clock);
      RunSettles(Step(s, ops[0], clock), ops[1..], clock);
    }
  }

  // ----- every due time is met, exactly and in order

  lemma DueMonotone(j: Job, m: nat, n: nat)
    requires j.timeout >= 1 && m <= n
    ensures DueTime(j, m) <= DueTime(j, n)
  {
    assert (n - m) * j.timeout >= 0;
    assert DueTime(j, n) - DueTime(j, m) == (n - m) * j.timeout;
  }

  /** The due times of a job that have passed are the times it fired. */
  lemma FiredWhenDue(s: Run, tag: nat, n: nat)
    requires Settled(s) && tag < |s.jobs| && Expected(s.jobs[tag], n)
    ensures DueTime(s.jobs[tag], n) <= s.now <==> n < |Times(s.log, tag)|
  {
    var j, k := s.jobs[tag], |Times(s.log, tag)|;
    assert JobOk(s, tag);
    if n < k {
      TimesInLog(s.log, tag, n);
    } else {
      assert IsPending(s.pending, tag);
      var p :| p in s.pending && p.tag == tag;
      assert EntryOk(s, p);
      DueMonotone(j, k, n);
    }
  }

  lemma {:induction false} TimesInLog(log: seq<Firing>, tag: nat, n: nat)
    requires n < |Times(log, tag)|
    ensures exists f :: f in log && f.call.tag == tag && f.time == Times(log, tag)[n]
  {
    var last := |log| - 1;
    if n < |Times(log[..last], tag)| {
      TimesInLog(log[..last], tag, n);
      var f :| f in log[..last] && f.call.tag == tag && f.time == Times(log[..last], tag)[n];
      assert f in log;
    } else {
      assert log[last] in log;
    }
  }

  // ----- what is called

  /** Whatever fired belongs to a schedule call, and called the handler with the
      context given there. */
  ghost predicate CallsRight(s: Run) {
    forall f :: f in s.log ==> CallRight(s.jobs, f.call)
  }

  ghost predicate CallRight(jobs: seq<Job>, c: Call) {
    c.tag < |jobs| && c.handler == jobs[c.tag].handler && c.context == jobs[c.tag].context
  }

  lemma {:induction false} DrainCallsRight(s: Run)
    requires Consistent(s) && CallsRight(s)
    ensures CallsRight(Drain(s))
    decreases |Due(s.pending, s.now)|
  {
    if s.pending != [] && s.pending[0].deadline <= s.now {
      var t := DrainStep(s);
      assert EntryOk(s, s.pending[0]);
      FireOneKeeps(s);
      DrainCallsRight(t);
    }
  }

  lemma StepCalls(s: Run, op: Op, clock: Hertz)
    requires Settled(s) && CallsRight(s) && Legal(op)
    ensures CallsRight(Step(s, op, clock))
  {
    if op.Interrupt? && s.pending != [] {
      var now := ReachedBounds(s, clock);
      AdvanceKeeps(s, now);
      DrainCallsRight(s.(now := now));
    } else {
      var t := Step(s, op, clock);
      forall f | f in t.log
        ensures CallRight(t.jobs, f.call)
      {
        assert f in s.log && CallRight(s.jobs, f.call);
      }
    }
  }

  lemma {:induction false} RunCalls(s: Run, ops: seq<Op>, clock: Hertz)
    requires Settled(s) && CallsRight(s)
    requires forall i :: 0 <= i < |ops| ==> Legal(ops[i])
    ensures CallsRight(After(s, ops, clock))
    decreases ops
  {
    if ops != [] {
      StepKeeps(s, ops[0], clock);
      StepCalls(s, ops[0], clock);
      RunCalls(Step(s, ops[0], clock), ops[1..], clock);
    }
  }

  /** Over every run: every call goes to the handler and context of its schedule
      call, a job fires at its due times and at no other, none that has passed is
      missing unless the job was cancelled, a one-shot fires at most once, and
      equal times fire last inserted first. */
  lemma WholeRunExact(ops: seq<Op>, clock: Hertz)
    requires forall i :: 0 <= i < |ops| ==> Legal(ops[i])
    ensures var s := After(START, ops, clock);
            && LogOrdered(s.log) && CallsRight(s)
            && forall tag :: 0 <= tag < |s.jobs| ==> OnTime(s, tag) && NoneMissed(s, tag)
  {
    RunSettles(START, ops, clock);
    RunCalls(START, ops, clock);
    var s := After(START, ops, clock);
    forall tag | 0 <= tag < |s.jobs|
      ensures OnTime(s, tag) && NoneMissed(s, tag)
    {
      assert JobOk(s, tag);
      forall n: nat | Expected(s.jobs[tag], n)
        ensures DueTime(s.jobs[tag], n) <= s.now <==> n < |Times(s.log, tag)|
      {
        FiredWhenDue(s, tag, n);
      }
    }
  }

  /** The n-th firing of a job is at its n-th due time; a one-shot has no second. */
  ghost predicate OnTime(s: Run, tag: nat)
    requires tag < |s.jobs|
  {
    var times := Times(s.log, tag);
    forall n :: 0 <= n < |times| ==> times[n] == DueTime(s.jobs[tag], n) && (n == 0 || s.jobs[tag].repeat)
  }

  /** A job that is to fire for the n-th time has done so exactly when its n-th
      due time has come. */
  ghost predicate NoneMissed(s: Run, tag: nat)
    requires tag < |s.jobs|
  {
    forall n: nat :: Expected(s.jobs[tag], n) ==> (DueTime(s.jobs[tag], n) <= s.now <==> n < |Times(s.log, tag)|)
  }

  function Interrupts(ops: seq<Op>): nat {
    if ops == [] then 0 else (if ops[0].Interrupt? then 1 else 0) + Interrupts(ops[1..])
  }

  /** Draining after the head has fired is draining. */
  lemma DrainStep(s: Run) returns (t: Run)
    requires s.pending != [] && s.pending[0].deadline <= s.now
    ensures t == FireOne(s) && Drain(s) == Drain(t) && t.now == s.now
    ensures t.log == s.log + [Firing(CallOf(s.pending[0]), s.now)]
    ensures Due(s.pending, s.now) == [s.pending[0]] + Due(t.pending, t.now)
  {
    TickStep(s.pending, s.now, s.stamps);
    t := FireOne(s);
  }

  /** An entry either fires in the drain or is still pending after it. */
  lemma {:induction false} DrainFate(s: Run, p: Pending)
    requires Consistent(s) && p in s.pending
    ensures p.deadline <= s.now ==> Firing(CallOf(p), s.now) in Drain(s).log
    ensures p.deadline > s.now ==> p in Drain(s).pending
    ensures s.log <= Drain(s).log
    decreases |Due(s.pending, s.now)|
  {
    if s.pending[0].deadline <= s.now {
      var t := DrainStep(s);
      FireOneKeeps(s);
      DrainLog(t);
      if p == s.pending[0] {
        assert t.log[|s.log|] in Drain(t).log;
      } else {
        StillPending(s, p);
        DrainFate(t, p);
      }
    } else {
      HeadIsFirst(s.pending);
    }
  }

  lemma StillPending(s: Run, p: Pending)
    requires s.pending != [] && DistinctTags(s.pending) && p in s.pending && p != s.pending[0]
    ensures p in FireOne(s).pending
  {
    HeadFiredMembers(s);
  }

  lemma {:induction false} DrainLog(s: Run)
    ensures s.log <= Drain(s).log
    decreases |Due(s.pending, s.now)|
  {
    if s.pending != [] && s.pending[0].deadline <= s.now {
      TickStep(s.pending, s.now, s.stamps);
      DrainLog(FireOne(s));
    }
  }

  lemma {:induction false} LogGrows(s: Run, ops: seq<Op>, clock: Hertz)
    ensures s.log <= After(s, ops, clock).log
    decreases ops
  {
    if ops != [] {
      if ops[0].Interrupt? && s.pending != [] {
        DrainLog(s.(now := Reached(s, clock)));
      }
      LogGrows(Step(s, ops[0], clock), ops[1..], clock);
    }
  }

  lemma {:induction false} DroppedKeeps(ps: seq<Pending>, p: Pending, handler: nat, context: nat)
    requires p in ps && !Matches(p, handler, context)
    ensures p in Dropped(ps, handler, context)
  {
    if !Matches(ps[0], handler, context) && p != ps[0] {
      DroppedKeeps(ps[1..], p, handler, context);
    }
  }

  lemma InterruptFate(s: Run, clock: Hertz, p: Pending)
    requires Settled(s) && Works(clock) && p in s.pending
    ensures var t := Step(s, Interrupt, clock);
            (p in t.pending && t.now > s.now) || Firing(CallOf(p), p.deadline) in t.log
  {
    HeadIsFirst(s.pending);
    var now := ReachedBounds(s, clock);
    AdvanceKeeps(s, now);
    DrainFate(s.(now := now), p);
    DrainKeeps(s.(now := now));
  }

  /** One operation either fires the entry on time or leaves it pending, and an
      interrupt then brings its deadline closer. */
  lemma StepFate(s: Run, op: Op, clock: Hertz, p: Pending)
    requires Settled(s) && Works(clock) && p in s.pending && Legal(op)
    requires op.Cancel? ==> !Matches(p, op.handler, op.context)
    ensures var t := Step(s, op, clock);
            (p in t.pending && t.now >= s.now + if op.Interrupt? then 1 else 0) ||
                Firing(CallOf(p), p.deadline) in t.log
  {
    match op
    case Schedule(timeout, repeat, handler, context) =>
      PlacedMembers(s.pending, Pending(|s.jobs|, s.stamps, s.now + timeout, if repeat then timeout
          else 0, handler, context));
    case Cancel(handler, context) =>
      DroppedKeeps(s.pending, p, handler, context);
    case Interrupt =>
      InterruptFate(s, clock, p);
  }

  /** On a clock of whole kilohertz up to the wrapped span finitely many interrupts
      suffice, however far the armed time is clamped: every interrupt moves the
      clock by at least one. */
  lemma {:induction false} EventuallyFires(s: Run, ops: seq<Op>, clock: Hertz, p: Pending)
    requires Settled(s) && clock % 1000 == 0 && clock <= 3892313112 && p in s.pending
    requires forall i :: 0 <= i < |ops| ==> Legal(ops[i])
    requires forall i :: 0 <= i < |ops| && ops[i].Cancel? ==> !Matches(p, ops[i].handler, ops[i].context)
    requires Interrupts(ops) >= p.deadline - s.now
    ensures Firing(CallOf(p), p.deadline) in After(s, ops, clock).log
    decreases ops
  {
    assert p.deadline > s.now;
    var t := Step(s, ops[0], clock);
    StepKeeps(s, ops[0], clock);
    StepFate(s, ops[0], clock, p);
    if Firing(CallOf(p), p.deadline) in t.log {
      LogGrows(t, ops[1..], clock);
    } else {
      EventuallyFires(t, ops[1..], clock, p);
    }
  }

  // ----- the timer on its hardware behaves like the simple machine

  function CallsIn(log: seq<Firing>): (calls: seq<Call>)
    ensures |calls| == |log|
  {
    if log == [] then [] else CallsIn(log[..|log| - 1]) + [log[|log| - 1].call]
  }

  lemma CallsInSnoc(log: seq<Firing>, f: Firing)
    ensures CallsIn(log + [f]) == CallsIn(log) + [f.call]
  {
    assert (log + [f])[..|log|] == log;
  }

  /** The drain is what one tick of the queue of deadlines does. */
  lemma {:induction false} DrainQueue(s: Run)
    ensures Drain(s).pending == AfterTick(s.pending, s.now, s.stamps)
    ensures Drain(s).stamps == s.stamps + Repeats(Due(s.pending, s.now))
    ensures Drain(s).now == s.now && Drain(s).jobs == s.jobs
    decreases |Due(s.pending, s.now)|
  {
    if s.pending != [] && s.pending[0].deadline <= s.now {
      TickStep(s.pending, s.now, s.stamps);
      DrainQueue(FireOne(s));
    } else {
      assert Due(s.pending, s.now) == [];
    }
  }

  lemma {:induction false} DrainCalls(s: Run)
    ensures CallsIn(Drain(s).log) == CallsIn(s.log) + CallsOf(Due(s.pending, s.now))
    decreases |Due(s.pending, s.now)|
  {
    if s.pending != [] && s.pending[0].deadline <= s.now {
      var p := s.pending[0];
      var t := DrainStep(s);
      var later := CallsOf(Due(t.pending, t.now));
      DrainCalls(t);
      CallsInSnoc(s.log, Firing(CallOf(p), s.now));
      CallsOfCons(p, Due(t.pending, t.now));
      assert CallsIn(s.log) + [CallOf(p)] + later == CallsIn(s.log) + ([CallOf(p)] + later);
    } else {
      assert CallsIn(s.log) + [] == CallsIn(s.log);
    }
  }

  // ----- clocks on which nothing fires

  lemma {:induction false} StaysSilent(s: Run, ops: seq<Op>, clock: Hertz)
    requires Settled(s) && s.log == [] && !Works(clock)
    requires forall i :: 0 <= i < |ops| ==> Legal(ops[i])
    ensures After(s, ops, clock).log == []
    decreases ops
  {
    if ops != [] {
      StepKeeps(s, ops[0], clock);
      if ops[0].Interrupt? && s.pending != [] {
        var now := ReachedBounds(s, clock);
      }
      StaysSilent(Step(s, ops[0], clock), ops[1..], clock);
    }
  }

  /** One one-shot and its interrupt. */
  lemma OneShotFires(clock: Hertz) returns (ops: seq<Op>)
    requires Works(clock)
    ensures (forall i :: 0 <= i < |ops| ==> Legal(ops[i])) && After(START, ops, clock).log != []
  {
    var schedule := Schedule(1, false, 0, 0);
    var s := Step(START, schedule, clock);
    StepKeeps(START, schedule, clock);
    EventuallyFires(s, [Interrupt], clock, s.pending[0]);
    ops := [schedule, Interrupt];
    assert ops[1..] == [Interrupt];
  }

  /** Some run fires something. */
  ghost predicate CanFire(clock: Hertz) {
    exists ops: seq<Op> :: (forall i :: 0 <= i < |ops| ==> Legal(ops[i])) && After(START, ops, clock).log != []
  }

  /** A timeout can fire at all exactly on clocks of whole kilohertz up to the
      wrapped span. */
  lemma FiresOnlyOnKilohertz(clock: Hertz)
    ensures CanFire(clock) <==> clock % 1000 == 0 && clock <= 3892313112
  {
    if Works(clock) {
      var ops := OneShotFires(clock);
    } else {
      forall ops: seq<Op> | forall i :: 0 <= i < |ops| ==> Legal(ops[i])
        ensures After(START, ops, clock).log == []
      {
        StaysSilent(START, ops, clock);
      }
    }
  }

  // ----- when the last one-shot has fired

  /** The handler is left without a head, which it then reads. */
  predicate Empties(s: Run, op: Op, clock: Hertz) {
    op.Interrupt? && s.pending != [] && Step(s, op, clock).pending == []
  }

  predicate EverEmpties(s: Run, ops: seq<Op>, clock: Hertz)
    decreases ops
  {
    ops != [] && (Empties(s, ops[0], clock) || EverEmpties(Step(s, ops[0], clock), ops[1..], clock))
  }

  /** In terms of the queue before the interrupt: only one-shots are pending, all
      for the same instant, and the report reaches it. */
  lemma EmptiesWhen(s: Run, clock: Hertz)
    requires Settled(s) && s.pending != []
    ensures Empties(s, Interrupt, clock) <==>
            && (forall p :: p in s.pending ==> p.period == 0 && p.deadline == s.pending[0].deadline)
            && Works(clock) && Fits(clock, s.pending[0].deadline - s.now)
  {
    var ps := s.pending;
    var now := ReachedBounds(s, clock);
    HeadIsFirst(ps);
    var t, reached := InterruptStep(s, clock);
    DuePrefix(ps, now);
    forall p | p in ps
      ensures p.period >= 0
    {
      assert EntryOk(s, p) && JobOk(s, p.tag);
    }
    assert |Due(ps, now)| < |ps| ==> ps[|Due(ps, now)|] in ps;
  }

  /** The plainest run does it: one one-shot and its interrupt. */
  lemma OneShotEmpties(clock: Hertz, timeout: int, handler: nat, context: nat)
    requires Works(clock) && 1 <= timeout && Fits(clock, timeout)
    ensures EverEmpties(START, [Schedule(timeout, false, handler, context), Interrupt], clock)
  {
    var schedule := Schedule(timeout, false, handler, context);
    var s := Step(START, schedule, clock);
    FitsCap(clock, timeout);
    StepKeeps(START, schedule, clock);
    EmptiesWhen(s, clock);
    assert [schedule, Interrupt][1..] == [Interrupt];
  }

  /** The concrete timer is in the state `s`. */
  ghost predicate Represents(timer: Timer, s: Run)
    reads timer, timer.device
  {
    && timer.Valid()
    && timer.now == s.now && timer.View() == s.pending
    && timer.scheduled == |s.jobs| && timer.inserted == s.stamps
  }

  /** An interrupt in terms of the queue alone. */
  lemma InterruptStep(s: Run, clock: Hertz) returns (t: Run, now: int)
    requires s.pending != []
    ensures t == Step(s, Interrupt, clock) && now == Reached(s, clock)
    ensures t.now == now && t.jobs == s.jobs
    ensures t.pending == AfterTick(s.pending, now, s.stamps)
    ensures t.stamps == s.stamps + Repeats(Due(s.pending, now))
    ensures CallsIn(t.log) == CallsIn(s.log) + CallsOf(Due(s.pending, now))
    ensures Empties(s, Interrupt, clock) <==> Exhausted(s.pending, now)
  {
    now := Reached(s, clock);
    t := Step(s, Interrupt, clock);
    DrainQueue(s.(now := now));
    DrainCalls(s.(now := now));
    TickEmpties(s.pending, now, s.stamps);
  }

  /** The systick interrupt.  `headless` says that the handler's loop read
      through the missing head. */
  method PerformInterrupt(timer: Timer, ghost s: Run, ghost t: Run) returns (calls: seq<Call>, headless: bool)
    requires Represents(timer, s) && t == Step(s, Interrupt, timer.device.clock)
    modifies timer, timer.device
    ensures Represents(timer, t)
    ensures CallsIn(t.log) == CallsIn(s.log) + calls
    ensures headless <==> Empties(s, Interrupt, timer.device.clock)
  {
    calls, headless := [], false;
    if timer.timeouts != [] {
      var elapsed := timer.device.Get();
      ArmedFor(timer, s, elapsed);
      ghost var next, now := InterruptStep(s, timer.device.clock);
      calls, headless := timer.Tick(elapsed);
    }
  }

  /** The report for the armed time moves the timer's clock as the machine's. */
  lemma ArmedFor(timer: Timer, s: Run, elapsed: nat)
    requires Represents(timer, s) && timer.timeouts != [] && elapsed == Elapsed(timer.device.clock, timer.device.armed)
    ensures s.pending != [] && elapsed <= INT32_MAX
    ensures s.now + Advance(timer.timeouts, elapsed) == Reached(s, timer.device.clock)
  {
    assert s.pending[0].deadline - s.now == timer.timeouts[0].remaining == timer.device.armed;
    ArmingBounds(timer.device.clock, timer.device.armed);
  }

  /** One operation on the timer: the calls it makes are those of the simple
      machine. */
  method Perform(timer: Timer, op: Op, ghost s: Run) returns (calls: seq<Call>, headless: bool)
    requires Represents(timer, s) && Legal(op)
    modifies timer, timer.device
    ensures Represents(timer, Step(s, op, timer.device.clock))
    ensures CallsIn(Step(s, op, timer.device.clock).log) == CallsIn(s.log) + calls
    ensures headless <==> Empties(s, op, timer.device.clock)
  {
    calls, headless := [], false;
    match op {
      case Schedule(timeout, repeat, handler, context) =>
        timer.Schedule(timeout, repeat, handler, context);
      case Cancel(handler, context) =>
        timer.Cancel(handler, context);
      case Interrupt =>
        calls, headless := PerformInterrupt(timer, s, Step(s, Interrupt, timer.device.clock));
    }
  }

  /** Any run of the concrete timer makes exactly the calls of the simple
      machine, in the same order, and reads through a missing head exactly when
      an interrupt empties the queue. */
  method Drive(clock: Hertz, ops: seq<Op>) returns (calls: seq<Call>, headless: bool)
    requires forall i :: 0 <= i < |ops| ==> Legal(ops[i])
    ensures calls == CallsIn(After(START, ops, clock).log)
    ensures headless <==> EverEmpties(START, ops, clock)
  {
    var device := new Systick(clock);
    var timer := new Timer(device);
    calls, headless := [], false;
    ghost var s := START;
    var i := 0;
    while i < |ops|
      invariant 0 <= i <= |ops|
      invariant timer.device == device && device.clock == clock
      invariant Represents(timer, s) && CallsIn(s.log) == calls
      invariant fresh(timer) && fresh(device)
      invariant After(s, ops[i..], clock) == After(START, ops, clock)
      invariant EverEmpties(START, ops, clock) <==> headless || EverEmpties(s, ops[i..], clock)
    {
      var more, now := Perform(timer, ops[i], s);
      s := Step(s, ops[i], clock);
      calls, headless := calls + more, headless || now;
      i := i + 1;
    }
  }
}
