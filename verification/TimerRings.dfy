/** The delta queue of core/timer.c on the ring of the timeouts' embedded entries:
    the walks over pointers place and drop the same deadlines. */
module TimerRings {
  import opened ListSpec
  import opened Lists
  import opened Rings
  import opened Systicks
  import opened Deadlines
  import opened Timers

  /** Every linked block is known under its own name. */
  ghost predicate Known(ids: seq<nat>, info: map<nat, Timeout>) {
    Distinct(ids) && forall i :: 0 <= i < |ids| ==> ids[i] in info && info[ids[i]].tag == ids[i]
  }

  /** The timeouts in ring order. */
  ghost function Queue(ids: seq<nat>, info: map<nat, Timeout>): (q: seq<Timeout>)
    requires Known(ids, info)
    ensures |q| == |ids| && forall i :: 0 <= i < |ids| ==> q[i] == info[ids[i]]
  {
    seq(|ids|, i requires 0 <= i < |ids| => info[ids[i]])
  }

  /** `ids` with `t` in front of position `i`. */
  function Linked(ids: seq<nat>, i: nat, t: nat): seq<nat>
    requires i <= |ids|
  {
    ids[..i] + [t] + ids[i..]
  }

  function Lessened(t: Timeout, d: int): Timeout {
    t.(remaining := t.remaining - d)
  }

  /** list_insert_before and, in front of the head, list_rrotate. */
  method Link(ring: Ring, t: nat, pos: Entry, ghost i: nat)
    requires ring.Valid() && t in ring.entries && t !in ring.Ids() && i < |ring.Ids()| && ring.list.ring[i] == pos
    modifies ring.list, ring.list.ring, ring.entries[t]
    ensures ring.Valid() && ring.Ids() == Linked(old(ring.Ids()), i, t)
  {
    var first := ring.list.First();
    HeadOnly(ring.list.ring, i);
    LinkedIs(ring.Ids(), i, t);
    ring.InsertBefore(t, pos, i);
    if pos == first {
      ring.RightRotate();
    }
  }

  lemma LinkedFirst(ids: seq<nat>, t: nat)
    ensures Linked(ids, 0, t) == [t] + ids == RightRotated(ids + [t])
  {
    var s := ids + [t];
    assert s[|s| - 1] == t && s[..|s| - 1] == ids;
  }

  lemma LinkedIs(ids: seq<nat>, i: nat, t: nat)
    requires i < |ids|
    ensures Linked(ids, i, t) == if i == 0 then RightRotated(InsertedBefore(ids, i, t)) else InsertedBefore(ids, i, t)
    ensures t !in ids ==> (Linked(ids, i, t)[0] == t <==> i == 0)
  {
    if i == 0 {
      LinkedFirst(ids, t);
    } else {
      assert Linked(ids, i, t)[0] == ids[0];
    }
  }

  /** Only position 0 holds the head. */
  lemma HeadOnly(r: seq<Entry>, i: nat)
    requires Distinct(r) && i < |r|
    ensures r[i] == r[0] <==> i == 0
  {
  }

  lemma KnownLinked(ids: seq<nat>, info: map<nat, Timeout>, i: nat, added: Timeout, next: map<nat, Timeout>)
    requires Known(ids, info) && i < |ids| && added.tag !in ids
    requires next == info[added.tag := added][ids[i] := Lessened(info[ids[i]], added.remaining)]
    ensures Known(Linked(ids, i, added.tag), next)
    ensures Queue(Linked(ids, i, added.tag), next) == Split(Queue(ids, info), i, added)
  {
    var all := Linked(ids, i, added.tag);
    assert forall k :: 0 <= k < |all| ==> all[k] == if k < i then ids[k] else if k == i then added.tag else ids[k - 1];
    assert forall k :: 0 <= k < |ids| ==> ids[k] != added.tag && (ids[k] == ids[i] <==> k == i);
  }

  lemma KnownAppended(ids: seq<nat>, info: map<nat, Timeout>, added: Timeout)
    requires Known(ids, info) && added.tag !in ids
    ensures Appended(ids, added.tag) == ids + [added.tag] && Known(ids + [added.tag], info[added.tag := added])
    ensures Queue(ids + [added.tag], info[added.tag := added]) == Queue(ids, info) + [added]
  {
    assert forall k :: 0 <= k < |ids| ==> ids[k] in ids;
  }

  /** Linking in at the found position places one deadline. */
  lemma LinkedPlaces(ids: seq<nat>, info: map<nat, Timeout>, i: nat, added: Timeout, next: map<nat, Timeout>,
    now: int, p: Pending)
    requires Known(ids, info) && i < |ids| && added.tag !in ids && Bounded(Queue(ids, info))
    requires next == info[added.tag := added][ids[i] := Lessened(info[ids[i]], added.remaining)]
    requires PlacedFrom(Queue(ids, info), i, now, p) &&
              p == PendingAt(added, now + Total(Queue(ids, info)[..i]) + added.remaining)
    requires 0 <= added.remaining <= info[ids[i]].remaining && 0 <= added.reset <= INT32_MAX
    ensures Denotes(Linked(ids, i, added.tag), next, now, Placed(Absolute(Queue(ids, info), now), p))
  {
    var q := Queue(ids, info);
    KnownLinked(ids, info, i, added, next);
    SplitPlaces(q, i, added, now, p);
    SplitBounded(q, i, added);
  }

  lemma AppendedPlaces(ids: seq<nat>, info: map<nat, Timeout>, added: Timeout, now: int, p: Pending)
    requires Known(ids, info) && added.tag !in ids && Bounded(Queue(ids, info))
    requires PlacedFrom(Queue(ids, info), |ids|, now, p) &&
              p == PendingAt(added, now + Total(Queue(ids, info)) + added.remaining)
    requires 0 <= added.remaining <= INT32_MAX - Total(Queue(ids, info)) && 0 <= added.reset <= INT32_MAX
    ensures Denotes(Appended(ids, added.tag), info[added.tag := added], now, Placed(Absolute(Queue(ids, info), now), p))
  {
    var q := Queue(ids, info);
    KnownAppended(ids, info, added);
    SnocPlaces(q, added, now, p);
    SnocBounded(q, added);
  }

  /** The ring stands for these deadlines. */
  ghost predicate Denotes(ids: seq<nat>, info: map<nat, Timeout>, now: int, ps: seq<Pending>) {
    Known(ids, info) && Bounded(Queue(ids, info)) && Absolute(Queue(ids, info), now) == ps
  }

  /** The walk of timer_managed_insert, taking off one difference after the
      other. */
  method FindPlace(ring: Ring, info: map<nat, Timeout>, timeout: Timeout, ghost now: int)
    returns (pos: Entry?, left: int, ghost i: nat)
    requires ring.Valid() && Known(ring.Ids(), info) && timeout.remaining >= 1
    ensures i <= |ring.Ids()| && pos == if i == |ring.Ids()| then null else ring.list.ring[i]
    ensures 1 <= left == timeout.remaining - Total(Queue(ring.Ids(), info)[..i])
    ensures pos != null ==> left <= info[pos.owner].remaining
    ensures PlacedFrom(Queue(ring.Ids(), info), i, now, PendingAt(timeout, now + timeout.remaining))
  {
    ghost var q, p := Queue(ring.Ids(), info), PendingAt(timeout, now + timeout.remaining);
    PlacedFromStart(q, now, p);
    pos := ring.list.First();
    left, i := timeout.remaining, 0;
    while pos != null
      invariant 0 <= i <= |q| && pos == if i == |q| then null else ring.list.ring[i]
      invariant 1 <= left == timeout.remaining - Total(q[..i])
      invariant PlacedFrom(q, i, now, p)
      decreases |q| - i
    {
      var t := info[pos.owner];
      if left <= t.remaining {
        return;
      }
      left := left - t.remaining;
      PlacedFromNext(q, i, now, p);
      pos := ring.list.Next(pos, i);
      i := i + 1;
    }
  }

  /** timer_managed_insert.  `first` says whether the hardware is set again. */
  method Insert(ring: Ring, info: map<nat, Timeout>, timeout: Timeout, ghost now: int, ghost ps: seq<Pending>)
    returns (next: map<nat, Timeout>, first: bool)
    requires ring.Valid() && timeout.tag in ring.entries && timeout.tag !in ring.Ids() &&
              Denotes(ring.Ids(), info, now, ps)
    requires 1 <= timeout.remaining <= INT32_MAX && 0 <= timeout.reset <= INT32_MAX
    modifies ring.list, ring.list.ring, ring.entries[timeout.tag]
    ensures ring.Valid() && Denotes(ring.Ids(), next, now, Placed(ps, PendingAt(timeout, now + timeout.remaining)))
    ensures ring.Ids() != [] && (first <==> ring.Ids()[0] == timeout.tag)
  {
    ghost var ids, p := ring.Ids(), PendingAt(timeout, now + timeout.remaining);
    var pos, left;
    ghost var i;
    pos, left, i := FindPlace(ring, info, timeout, now);
    var added := timeout.(remaining := left);
    if pos != null {
      var t := info[pos.owner];
      next := info[timeout.tag := added][pos.owner := t.(remaining := t.remaining - left)];
      LinkedPlaces(ids, info, i, added, next, now, p);
      first := pos == ring.list.head;
      HeadOnly(ring.list.ring, i);
      LinkedIs(ids, i, timeout.tag);
      Link(ring, timeout.tag, pos, i);
    } else {
      next := info[timeout.tag := added];
      assert Queue(ids, info)[..i] == Queue(ids, info);
      AppendedPlaces(ids, info, added, now, p);
      first := ring.list.head == null;
      ring.Append(timeout.tag);
    }
  }

  // ----- cancelling

  lemma KnownDropped(ids: seq<nat>, info: map<nat, Timeout>, i: nat, next: map<nat, Timeout>)
    requires Known(ids, info) && i < |ids|
    requires next == if i + 1 == |ids| then info
                     else info[ids[i + 1] := Lessened(info[ids[i + 1]], -info[ids[i]].remaining)]
    ensures Known(Without(ids, i), next) && Queue(Without(ids, i), next) == Joined(Queue(ids, info), i)
  {
    var rest := Without(ids, i);
    assert forall k :: 0 <= k < |rest| ==> rest[k] == if k < i then ids[k] else ids[k + 1];
  }

  lemma DroppedDenotes(ids: seq<nat>, info: map<nat, Timeout>, i: nat, next: map<nat, Timeout>, handler: nat,
    context: nat, now: int)
    requires Known(ids, info) && Bounded(Queue(ids, info)) && i < |ids|
    requires next == if i + 1 == |ids| then info
                     else info[ids[i + 1] := Lessened(info[ids[i + 1]], -info[ids[i]].remaining)]
    requires info[ids[i]].handler == handler && info[ids[i]].context == context
    requires forall k :: 0 <= k < i ==> !(info[ids[k]].handler == handler && info[ids[k]].context == context)
    ensures Denotes(Removed(ids, ids[i]), next, now, Dropped(Absolute(Queue(ids, info), now), handler, context))
  {
    KnownDropped(ids, info, i, next);
    RemovedAt(ids, i);
    JoinedDrops(Queue(ids, info), i, handler, context, now);
    JoinedBounded(Queue(ids, info), i);
  }

  /** The walk of timer_managed_cancel. */
  method FindMatch(ring: Ring, info: map<nat, Timeout>, handler: nat, context: nat) returns (pos: Entry?, ghost i: nat)
    requires ring.Valid() && Known(ring.Ids(), info)
    ensures i <= |ring.Ids()| && pos == if i == |ring.Ids()| then null else ring.list.ring[i]
    ensures pos != null ==> info[pos.owner].handler == handler && info[pos.owner].context == context
    ensures forall k :: 0 <= k < i ==>
              !(info[ring.Ids()[k]].handler == handler && info[ring.Ids()[k]].context == context)
  {
    pos := ring.list.First();
    i := 0;
    while pos != null
      invariant 0 <= i <= |ring.Ids()| && pos == if i == |ring.Ids()| then null else ring.list.ring[i]
      invariant forall k :: 0 <= k < i ==>
                  !(info[ring.Ids()[k]].handler == handler && info[ring.Ids()[k]].context == context)
      decreases |ring.Ids()| - i
    {
      if info[pos.owner].handler == handler && info[pos.owner].context == context {
        return;
      }
      pos := ring.list.Next(pos, i);
      i := i + 1;
    }
  }

  /** timer_managed_cancel. */
  method Cancel(ring: Ring, info: map<nat, Timeout>, handler: nat, context: nat, ghost now: int, ghost ps: seq<Pending>)
    returns (next: map<nat, Timeout>)
    requires ring.Valid() && Denotes(ring.Ids(), info, now, ps)
    modifies ring.list, ring.list.ring
    ensures ring.Valid() && Denotes(ring.Ids(), next, now, Dropped(ps, handler, context))
  {
    next := info;
    ghost var ids := ring.Ids();
    var pos;
    ghost var i;
    pos, i := FindMatch(ring, info, handler, context);
    if pos == null {
      NoMatch(Queue(ids, info), handler, context, now);
      return;
    }
    var t := pos.owner;
    var after := ring.list.Next(pos, i);
    if after != null {
      next := info[after.owner := info[after.owner].(remaining := info[after.owner].remaining + info[t].remaining)];
    }
    DroppedDenotes(ids, info, i, next, handler, context, now);
    ring.Delete(t);
  }

  // ----- firing

  /** The ring stands for these deadlines when a head that is overdue counts as
      due now. */
  ghost predicate Standing(ids: seq<nat>, info: map<nat, Timeout>, now: int, ps: seq<Pending>) {
    Known(ids, info) && Bounded(Lifted(Queue(ids, info))) && ps == Absolute(Lifted(Queue(ids, info)), now)
  }

  ghost predicate Overdue(ids: seq<nat>, info: map<nat, Timeout>, now: int, ps: seq<Pending>) {
    Standing(ids, info, now, ps) && ids != [] && info[ids[0]].remaining <= 0
  }

  lemma DenotesStanding(ids: seq<nat>, info: map<nat, Timeout>, now: int, ps: seq<Pending>)
    requires Denotes(ids, info, now, ps)
    ensures Standing(ids, info, now, ps)
  {
    assert Lifted(Queue(ids, info)) == Queue(ids, info);
  }

  /** Without an overdue head nothing is due. */
  lemma NothingOverdue(ids: seq<nat>, info: map<nat, Timeout>, now: int, ps: seq<Pending>)
    requires Standing(ids, info, now, ps) && (ids != [] ==> info[ids[0]].remaining >= 1)
    ensures Denotes(ids, info, now, ps) && (ps != [] ==> ps[0].deadline > now) && (ps == [] <==> ids == [])
  {
    assert Lifted(Queue(ids, info)) == Queue(ids, info);
  }

  /** `t` is off the ring, was due now and the others are left. */
  ghost predicate Taken(ids: seq<nat>, info: map<nat, Timeout>, now: int, ps: seq<Pending>, t: nat) {
    && t in info && info[t].tag == t && t !in ids && 0 <= info[t].reset <= INT32_MAX
    && ps != [] && ps[0] == PendingAt(info[t], now) && Denotes(ids, info, now, ps[1..])
  }

  lemma HeadOff(ids: seq<nat>, info: map<nat, Timeout>, now: int, ps: seq<Pending>)
    requires Overdue(ids, info, now, ps)
    ensures ids[0] in info && Removed(ids, ids[0]) == ids[1..] && Taken(ids[1..], info, now, ps, ids[0])
  {
    OverdueView(Queue(ids, info), now);
    assert Queue(ids[1..], info) == Queue(ids, info)[1..];
  }

  /** Every entry in the ring was in it before. */
  ghost predicate StillIn(ring: Ring, before: seq<Entry>)
    reads ring, ring.list
  {
    forall e :: e in ring.list.ring ==> e in before
  }

  method TakeHead(ring: Ring, ghost info: map<nat, Timeout>, ghost now: int, ghost ps: seq<Pending>) returns (t: nat)
    requires ring.Valid() && Overdue(ring.Ids(), info, now, ps)
    modifies ring.list, ring.list.ring
    ensures ring.Valid() && t in ring.entries && Taken(ring.Ids(), info, now, ps, t)
    ensures StillIn(ring, old(ring.list.ring))
  {
    HeadOff(ring.Ids(), info, now, ps);
    t := ring.RemoveFirst();
  }

  /** Putting the head back when it repeats. */
  method PutBack(ring: Ring, info: map<nat, Timeout>, t: nat, stamp: nat, ghost now: int, ghost ps: seq<Pending>)
    returns (next: map<nat, Timeout>)
    requires ring.Valid() && t in ring.entries && Taken(ring.Ids(), info, now, ps, t)
    modifies ring.list, ring.list.ring, ring.entries[t]
    ensures ring.Valid() && Denotes(ring.Ids(), next, now, HeadFired(ps, now, stamp))
  {
    next := info;
    if info[t].reset > 0 {
      var first;
      next, first := Insert(ring, info, info[t].(remaining := info[t].reset, stamp := stamp), now, ps[1..]);
    }
  }

  /** One round of the loop in timer_managedhandler: the head is deleted, put
      back when it repeats, and its handler is called. */
  method FireHead(ring: Ring, info: map<nat, Timeout>, stamp: nat, ghost now: int, ghost ps: seq<Pending>)
    returns (next: map<nat, Timeout>, call: Call, later: nat)
    requires ring.Valid() && Overdue(ring.Ids(), info, now, ps)
    modifies ring.list, ring.list.ring, ring.entries.Values
    ensures ps != [] && ring.Valid() && Denotes(ring.Ids(), next, now, HeadFired(ps, now, stamp))
    ensures call == CallOf(ps[0]) && later == stamp + if ps[0].period > 0 then 1 else 0
  {
    var t := TakeHead(ring, info, now, ps);
    next := PutBack(ring, info, t, stamp, now, ps);
    call := Call(t, info[t].stamp, info[t].handler, info[t].context);
    later := stamp + if info[t].reset > 0 then 1 else 0;
  }

  /** Whether the loop goes on. */
  method HeadOverdue(ring: Ring, info: map<nat, Timeout>) returns (overdue: bool)
    requires ring.Valid() && Known(ring.Ids(), info)
    ensures overdue <==> ring.Ids() != [] && info[ring.Ids()[0]].remaining <= 0
  {
    var empty := ring.IsEmpty();
    if empty {
      return false;
    }
    var t := ring.First();
    overdue := info[t].remaining <= 0;
  }

  /** The loop of timer_managedhandler in front of its condition: `ps` is left of
      the tick that started from `v`, with the head overdue or not. */
  ghost predicate Looping(ids: seq<nat>, info: map<nat, Timeout>, overdue: bool, now: int, v: seq<Pending>,
    ps: seq<Pending>, stamp0: nat, stamp: nat, calls: seq<Call>)
  {
    && Standing(ids, info, now, ps) && (overdue <==> Overdue(ids, info, now, ps))
    && Ticking(v, ps, now, stamp0, stamp, calls)
  }

  lemma LoopStarts(ids: seq<nat>, info: map<nat, Timeout>, overdue: bool, now: int, v: seq<Pending>, stamp: nat)
    requires Standing(ids, info, now, v) && (overdue <==> Overdue(ids, info, now, v))
    ensures Looping(ids, info, overdue, now, v, v, stamp, stamp, [])
  {
    TickingStart(v, now, stamp);
  }

  lemma LoopEnds(ids: seq<nat>, info: map<nat, Timeout>, now: int, v: seq<Pending>, ps: seq<Pending>, stamp0: nat,
    stamp: nat, calls: seq<Call>)
    requires Looping(ids, info, false, now, v, ps, stamp0, stamp, calls)
    ensures Denotes(ids, info, now, AfterTick(v, now, stamp0))
    ensures calls == CallsOf(Due(v, now)) && stamp == stamp0 + Repeats(Due(v, now))
  {
    NothingOverdue(ids, info, now, ps);
    TickingDone(v, ps, now, stamp0, stamp, calls);
  }

  lemma LoopGoesOn(ids: seq<nat>, info: map<nat, Timeout>, overdue: bool, now: int, v: seq<Pending>,
    ps: seq<Pending>, stamp0: nat, stamp: nat, calls: seq<Call>)
    requires ps != [] && ps[0].deadline <= now && Ticking(v, ps, now, stamp0, stamp, calls)
    requires Denotes(ids, info, now, HeadFired(ps, now, stamp))
    requires overdue <==> ids != [] && info[ids[0]].remaining <= 0
    ensures Looping(ids, info, overdue, now, v, HeadFired(ps, now, stamp), stamp0,
              stamp + (if ps[0].period > 0 then 1 else 0), calls + [CallOf(ps[0])])
    ensures |Due(HeadFired(ps, now, stamp), now)| < |Due(ps, now)|
  {
    TickingStep(v, ps, now, stamp0, stamp, calls);
    DenotesStanding(ids, info, now, HeadFired(ps, now, stamp));
  }

  /** The body of the loop, and its condition for the next round. */
  method FireRound(ring: Ring, info: map<nat, Timeout>, stamp: nat, ghost now: int, ghost v: seq<Pending>,
    ghost ps: seq<Pending>, ghost stamp0: nat, ghost calls: seq<Call>)
    returns (next: map<nat, Timeout>, call: Call, later: nat, overdue: bool)
    requires ring.Valid() && Looping(ring.Ids(), info, true, now, v, ps, stamp0, stamp, calls)
    modifies ring.list, ring.list.ring, ring.entries.Values
    ensures ps != [] && ring.Valid()
    ensures Looping(ring.Ids(), next, overdue, now, v, HeadFired(ps, now, stamp), stamp0, later, calls + [call])
    ensures |Due(HeadFired(ps, now, stamp), now)| < |Due(ps, now)|
  {
    HeadDue(ring.Ids(), info, now, ps);
    next, call, later := FireHead(ring, info, stamp, now, ps);
    overdue := HeadOverdue(ring, next);
    LoopGoesOn(ring.Ids(), next, overdue, now, v, ps, stamp0, stamp, calls);
  }

  /** The loop of timer_managedhandler. */
  method FireDue(ring: Ring, info: map<nat, Timeout>, stamp: nat, ghost now: int, ghost v: seq<Pending>)
    returns (next: map<nat, Timeout>, calls: seq<Call>, later: nat)
    requires ring.Valid() && Standing(ring.Ids(), info, now, v)
    modifies ring.list, ring.list.ring, ring.entries.Values
    ensures ring.Valid() && Denotes(ring.Ids(), next, now, AfterTick(v, now, stamp))
    ensures calls == CallsOf(Due(v, now)) && later == stamp + Repeats(Due(v, now))
  {
    next, calls, later := info, [], stamp;
    ghost var ps := v;
    var overdue := HeadOverdue(ring, next);
    LoopStarts(ring.Ids(), next, overdue, now, v, stamp);
    while overdue
      invariant ring.Valid() && ring.entries == old(ring.entries)
      invariant Looping(ring.Ids(), next, overdue, now, v, ps, stamp, later, calls)
      decreases |Due(ps, now)|
    {
      ghost var fired := ps;
      var call;
      ghost var at := later;
      ring.Members();
      next, call, later, overdue := FireRound(ring, next, later, now, v, ps, stamp, calls);
      calls := calls + [call];
      ps := HeadFired(fired, now, at);
    }
    LoopEnds(ring.Ids(), next, now, v, ps, stamp, later, calls);
  }

  lemma HeadDue(ids: seq<nat>, info: map<nat, Timeout>, now: int, ps: seq<Pending>)
    requires Overdue(ids, info, now, ps)
    ensures ps != [] && ps[0].deadline <= now
  {
    OverdueView(Queue(ids, info), now);
  }

  /** The elapsed time taken off the head moves the clock and no deadline. */
  lemma ElapsedStands(ids: seq<nat>, info: map<nat, Timeout>, elapsed: nat, now: int, ps: seq<Pending>)
    requires Denotes(ids, info, now, ps) && ids != [] && info[ids[0]].remaining >= 1
    ensures ids[0] in info
    ensures Standing(ids, info[ids[0] := Lessened(info[ids[0]], elapsed)], now + Advance(Queue(ids, info), elapsed), ps)
  {
    var next := info[ids[0] := Lessened(info[ids[0]], elapsed)];
    var q := Queue(ids, info);
    ElapsedView(q, elapsed, now);
    assert forall k :: 0 < k < |ids| ==> ids[k] != ids[0];
    assert Queue(ids, next) == q[0 := q[0].(remaining := q[0].remaining - elapsed)];
  }

  /** What a tick leaves, calls and counts. */
  ghost predicate Ticked(ids: seq<nat>, info: map<nat, Timeout>, now: int, ps: seq<Pending>, stamp: nat,
    calls: seq<Call>, later: nat)
  {
    && Denotes(ids, info, now, AfterTick(ps, now, stamp))
    && calls == CallsOf(Due(ps, now)) && later == stamp + Repeats(Due(ps, now))
  }

  lemma EmptyTick(info: map<nat, Timeout>, now: int, ps: seq<Pending>, stamp: nat)
    requires Denotes([], info, now, ps)
    ensures ps == [] && Ticked([], info, now, ps, stamp, [], stamp)
  {
    assert Due(ps, now) == [] && ps[0..] == [];
  }

  /** timer_managedhandler on the pointers, with something pending. */
  method TickPending(ring: Ring, info: map<nat, Timeout>, elapsed: nat, stamp: nat, ghost now: int, ghost reached: int,
    ghost ps: seq<Pending>)
    returns (next: map<nat, Timeout>, calls: seq<Call>, later: nat)
    requires ring.Valid() && Denotes(ring.Ids(), info, now, ps)
    requires ring.Ids() != [] && info[ring.Ids()[0]].remaining >= 1
    requires reached == now + Advance(Queue(ring.Ids(), info), elapsed)
    modifies ring.list, ring.list.ring, ring.entries.Values
    ensures ring.Valid() && Ticked(ring.Ids(), next, reached, ps, stamp, calls, later)
  {
    var t := ring.First();
    ElapsedStands(ring.Ids(), info, elapsed, now, ps);
    next, calls, later := FireDue(ring, info[t := Lessened(info[t], elapsed)], stamp, reached, ps);
  }

  /** timer_managedhandler on the pointers.  `headless` says that the loop
      condition was evaluated with no head left. */
  method Tick(ring: Ring, info: map<nat, Timeout>, elapsed: nat, stamp: nat, ghost now: int, ghost reached: int,
    ghost ps: seq<Pending>)
    returns (next: map<nat, Timeout>, calls: seq<Call>, later: nat, headless: bool)
    requires ring.Valid() && Denotes(ring.Ids(), info, now, ps)
    requires ring.Ids() != [] ==> info[ring.Ids()[0]].remaining >= 1
    requires reached == now + Advance(Queue(ring.Ids(), info), elapsed)
    modifies ring.list, ring.list.ring, ring.entries.Values
    ensures ring.Valid() && Ticked(ring.Ids(), next, reached, ps, stamp, calls, later)
    ensures headless <==> ps != [] && Exhausted(ps, reached)
  {
    TickEmpties(ps, reached, stamp);
    var empty := ring.IsEmpty();
    if empty {
      EmptyTick(info, now, ps, stamp);
      next, calls, later, headless := info, [], stamp, false;
    } else {
      next, calls, later := TickPending(ring, info, elapsed, stamp, now, reached, ps);
      headless := ring.IsEmpty();
    }
  }
}
