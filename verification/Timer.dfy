/** core/timer.c: timeouts kept as differences to their predecessor, on top of
    one hardware timer that is armed for the head. */
module Timers {
  import opened ListSpec
  import opened Deadlines
  import opened Systicks

  /** struct timer_managed_timeout.  `tag` stands for the block's identity and
      `stamp` records when it was last inserted. */
  datatype Timeout = Timeout(tag: nat, stamp: nat, remaining: int, reset: int, handler: nat, context: nat)

  function PendingAt(t: Timeout, deadline: int): Pending {
    Pending(t.tag, t.stamp, deadline, t.reset, t.handler, t.context)
  }

  function Total(q: seq<Timeout>): int {
    if q == [] then 0 else q[0].remaining + Total(q[1..])
  }

  /** The absolute deadlines that a queue of differences denotes. */
  function Absolute(q: seq<Timeout>, now: int): (ps: seq<Pending>)
    ensures |ps| == |q|
  {
    if q == [] then []
    else [PendingAt(q[0], now + q[0].remaining)] + Absolute(q[1..], now + q[0].remaining)
  }

  lemma {:induction false} AbsoluteConcat(a: seq<Timeout>, b: seq<Timeout>, now: int)
    ensures Total(a + b) == Total(a) + Total(b)
    ensures Absolute(a + b, now) == Absolute(a, now) + Absolute(b, now + Total(a))
  {
    if a == [] {
      assert a + b == b;
    } else {
      assert (a + b)[1..] == a[1..] + b;
      AbsoluteConcat(a[1..], b, now + a[0].remaining);
    }
  }

  lemma {:induction false} AbsoluteSnoc(a: seq<Timeout>, t: Timeout, now: int)
    ensures Total(a + [t]) == Total(a) + t.remaining
    ensures Absolute(a + [t], now) == Absolute(a, now) + [PendingAt(t, now + Total(a) + t.remaining)]
  {
    AbsoluteConcat(a, [t], now);
  }

  ghost predicate NonNegative(q: seq<Timeout>) {
    forall i :: 0 <= i < |q| ==> q[i].remaining >= 0
  }

  /** What the 32-bit fields can hold: every deadline is in reach. */
  ghost predicate Bounded(q: seq<Timeout>) {
    && NonNegative(q)
    && Total(q) <= INT32_MAX
    && (forall i :: 0 <= i < |q| ==> 0 <= q[i].reset <= INT32_MAX)
  }

  lemma {:induction false} TotalNonNegative(q: seq<Timeout>)
    requires NonNegative(q)
    ensures Total(q) >= 0
    ensures forall i :: 0 <= i < |q| ==> q[i].remaining <= Total(q)
  {
    if q != [] {
      TotalNonNegative(q[1..]);
      assert forall i :: 1 <= i < |q| ==> q[i] == q[1..][i - 1];
    }
  }

  lemma {:induction false} AbsoluteBounds(q: seq<Timeout>, now: int)
    requires NonNegative(q)
    ensures forall p :: p in Absolute(q, now) ==> now <= p.deadline <= now + Total(q)
  {
    if q != [] {
      assert NonNegative(q[1..]);
      TotalNonNegative(q[1..]);
      AbsoluteBounds(q[1..], now + q[0].remaining);
    }
  }

  /** `t` goes in front of position `i`: the difference there is split in two
      and no other deadline moves. */
  function Split(q: seq<Timeout>, i: nat, t: Timeout): seq<Timeout>
    requires i < |q|
  {
    q[..i] + ([t, q[i].(remaining := q[i].remaining - t.remaining)] + q[i + 1..])
  }

  lemma SplitView(q: seq<Timeout>, i: nat, t: Timeout, now: int)
    requires i < |q|
    ensures Total(Split(q, i, t)) == Total(q)
    ensures var base := now + Total(q[..i]);
            Absolute(Split(q, i, t), now) ==
            Absolute(q[..i], now) + ([PendingAt(t, base + t.remaining)] + Absolute(q[i..], base))
  {
    var next := q[i].(remaining := q[i].remaining - t.remaining);
    var tail := [t, next] + q[i + 1..];
    AbsoluteConcat(q[..i], tail, now);
    AbsoluteConcat(q[..i], q[i..], now);
    assert q == q[..i] + q[i..];
    assert tail[1..] == [next] + q[i + 1..];
    assert tail[1..][1..] == q[i + 1..] == q[i..][1..];
  }

  lemma SplitBounded(q: seq<Timeout>, i: nat, t: Timeout)
    requires Bounded(q) && i < |q|
    requires 0 <= t.remaining <= q[i].remaining && 0 <= t.reset <= INT32_MAX
    ensures Bounded(Split(q, i, t))
  {
    SplitView(q, i, t, 0);
  }

  lemma SnocBounded(q: seq<Timeout>, t: Timeout)
    requires Bounded(q)
    requires 0 <= t.remaining <= INT32_MAX - Total(q) && 0 <= t.reset <= INT32_MAX
    ensures Bounded(q + [t])
  {
    AbsoluteSnoc(q, t, 0);
  }

  /** The entries in front of position `i` are all due before `p`. */
  ghost predicate PlacedFrom(q: seq<Timeout>, i: nat, now: int, p: Pending)
    requires i <= |q|
  {
    Placed(Absolute(q, now), p) == Absolute(q[..i], now) + Placed(Absolute(q[i..], now + Total(q[..i])), p)
  }

  lemma PlacedFromNext(q: seq<Timeout>, i: nat, now: int, p: Pending)
    requires i < |q| && PlacedFrom(q, i, now, p)
    requires p.deadline > now + Total(q[..i]) + q[i].remaining
    ensures PlacedFrom(q, i + 1, now, p)
    ensures Total(q[..i + 1]) == Total(q[..i]) + q[i].remaining
  {
    var base := now + Total(q[..i]);
    var first := PendingAt(q[i], base + q[i].remaining);
    var later := Absolute(q[i + 1..], base + q[i].remaining);
    assert q[..i + 1] == q[..i] + [q[i]];
    AbsoluteSnoc(q[..i], q[i], now);
    assert Placed(Absolute(q[i..], base), p) == [first] + Placed(later, p) by {
      assert q[i..][1..] == q[i + 1..];
      assert Absolute(q[i..], base) == [first] + later;
      assert ([first] + later)[1..] == later;
    }
    assert Absolute(q[..i], now) + ([first] + Placed(later, p)) == (Absolute(q[..i], now) + [first]) + Placed(later, p);
  }

  lemma PlacedFromStart(q: seq<Timeout>, now: int, p: Pending)
    ensures PlacedFrom(q, 0, now, p) && Total(q[..0]) == 0
  {
    assert q[0..] == q;
  }

  lemma SplitPlaces(q: seq<Timeout>, i: nat, t: Timeout, now: int, p: Pending)
    requires i < |q| && PlacedFrom(q, i, now, p)
    requires t.remaining <= q[i].remaining
    requires p == PendingAt(t, now + Total(q[..i]) + t.remaining)
    ensures Absolute(Split(q, i, t), now) == Placed(Absolute(q, now), p)
  {
    var base := now + Total(q[..i]);
    var later := Absolute(q[i..], base);
    SplitView(q, i, t, now);
    assert later[0].deadline == base + q[i].remaining;
    assert Placed(later, p) == [p] + later;
  }

  lemma SnocPlaces(q: seq<Timeout>, t: Timeout, now: int, p: Pending)
    requires PlacedFrom(q, |q|, now, p)
    requires p == PendingAt(t, now + Total(q) + t.remaining)
    ensures Absolute(q + [t], now) == Placed(Absolute(q, now), p)
  {
    assert q[..|q|] == q;
    AbsoluteSnoc(q, t, now);
  }

  lemma {:induction false} AbsoluteAt(q: seq<Timeout>, now: int, k: nat)
    requires k < |q|
    ensures Absolute(q, now)[k] == PendingAt(q[k], now + Total(q[..k + 1]))
  {
    if k == 0 {
      assert q[..1] == [q[0]];
    } else {
      AbsoluteAt(q[1..], now + q[0].remaining, k - 1);
      assert q[..k + 1][1..] == q[1..][..k];
    }
  }

  /** Position `i` deleted and its difference given to its successor. */
  function Joined(q: seq<Timeout>, i: nat): seq<Timeout>
    requires i < |q|
  {
    q[..i] + (if i + 1 == |q| then [] else [q[i + 1].(remaining := q[i + 1].remaining + q[i].remaining)] + q[i + 2..])
  }

  lemma NoMatch(q: seq<Timeout>, handler: nat, context: nat, now: int)
    requires forall k :: 0 <= k < |q| ==> !(q[k].handler == handler && q[k].context == context)
    ensures forall p :: p in Absolute(q, now) ==> !Matches(p, handler, context)
    ensures Dropped(Absolute(q, now), handler, context) == Absolute(q, now)
  {
    var ps := Absolute(q, now);
    forall k | 0 <= k < |ps|
      ensures !Matches(ps[k], handler, context)
    {
      AbsoluteAt(q, now, k);
    }
    DroppedAfter(ps, [], handler, context);
    assert ps + [] == ps;
  }

  /** Deleting an entry moves no other deadline. */
  lemma JoinedView(q: seq<Timeout>, i: nat, now: int)
    requires i < |q|
    ensures Absolute(Joined(q, i), now) == Absolute(q[..i], now) + Absolute(q[i..], now + Total(q[..i]))[1..]
    ensures i + 1 < |q| ==> Total(Joined(q, i)) == Total(q)
    ensures i + 1 == |q| ==> Total(Joined(q, i)) + q[i].remaining == Total(q)
  {
    var b := q[i..];
    var tail := Joined(q, i)[i..];
    assert q == q[..i] + b;
    assert Joined(q, i) == q[..i] + tail;
    AbsoluteConcat(q[..i], b, now);
    AbsoluteConcat(q[..i], tail, now);
    assert b[1..] == q[i + 1..];
    if i + 1 < |q| {
      assert b[1..][1..] == q[i + 2..] == tail[1..];
    }
  }

  lemma JoinedBounded(q: seq<Timeout>, i: nat)
    requires Bounded(q) && i < |q|
    ensures Bounded(Joined(q, i))
  {
    JoinedView(q, i, 0);
  }

  /** Deleting the first match is what cancelling means on deadlines. */
  lemma JoinedDrops(q: seq<Timeout>, i: nat, handler: nat, context: nat, now: int)
    requires i < |q| && q[i].handler == handler && q[i].context == context
    requires forall k :: 0 <= k < i ==> !(q[k].handler == handler && q[k].context == context)
    ensures Absolute(Joined(q, i), now) == Dropped(Absolute(q, now), handler, context)
  {
    var base := now + Total(q[..i]);
    assert q == q[..i] + q[i..];
    AbsoluteConcat(q[..i], q[i..], now);
    NoMatch(q[..i], handler, context, now);
    DroppedAfter(Absolute(q[..i], now), Absolute(q[i..], base), handler, context);
    JoinedView(q, i, now);
  }

  /** The queue as the tick loop reads it: a head that is overdue counts as
      due now. */
  function Lifted(q: seq<Timeout>): seq<Timeout> {
    if q != [] && q[0].remaining < 0 then q[0 := q[0].(remaining := 0)] else q
  }

  /** The logical time that a tick adds: never past the head's deadline. */
  function Advance(q: seq<Timeout>, elapsed: nat): int {
    if q == [] then 0 else if elapsed < q[0].remaining then elapsed else q[0].remaining
  }

  lemma ElapsedView(q: seq<Timeout>, elapsed: nat, now: int)
    requires Bounded(q) && q != [] && q[0].remaining >= 1
    ensures var r := Lifted(q[0 := q[0].(remaining := q[0].remaining - elapsed)]);
            Bounded(r) && Absolute(r, now + Advance(q, elapsed)) == Absolute(q, now)
  {
    var r := Lifted(q[0 := q[0].(remaining := q[0].remaining - elapsed)]);
    assert r[1..] == q[1..];
  }

  lemma TailBounded(q: seq<Timeout>)
    requires Bounded(q) && q != []
    ensures Bounded(q[1..])
  {
  }

  /** An overdue head is due now, and the others are as far behind it as before. */
  lemma OverdueView(q: seq<Timeout>, now: int)
    requires q != [] && q[0].remaining <= 0 && Bounded(Lifted(q))
    ensures Bounded(q[1..]) && 0 <= q[0].reset <= INT32_MAX
    ensures Absolute(Lifted(q), now) == [PendingAt(q[0], now)] + Absolute(q[1..], now)
  {
    assert Lifted(q)[1..] == q[1..];
    TailBounded(Lifted(q));
  }

  class Timer {
    const device: Systick
    var timeouts: seq<Timeout>
    var scheduled: nat // schedule calls so far; names the next block
    var inserted: nat  // insertions so far; history only
    ghost var now: int // logical clock

    ghost function View(): seq<Pending>
      reads this
    {
      Absolute(timeouts, now)
    }

    /** The device is armed for the head, or off when nothing is pending. */
    ghost predicate Armed()
      reads this, device
    {
      if timeouts == [] then !device.enabled
      else timeouts[0].remaining >= 1 && device.Valid() && device.enabled && device.armed == timeouts[0].remaining
    }

    ghost predicate Valid()
      reads this, device
    {
      && Bounded(timeouts)
      && (timeouts != [] ==> timeouts[0].remaining >= 1)
      && Armed()
    }

    constructor (device: Systick)
      requires !device.enabled
      ensures Valid() && View() == [] && this.device == device
      ensures scheduled == inserted == 0 && now == 0
    {
      this.device := device;
      timeouts, scheduled, inserted, now := [], 0, 0, 0;
    }

    /** timer_set refuses a time that is not positive. */
    method Recalculate()
      requires timeouts != [] ==> 1 <= timeouts[0].remaining <= INT32_MAX
      modifies device
      ensures Armed()
    {
      if timeouts != [] {
        device.Set(timeouts[0].remaining);
      } else {
        device.Disable();
      }
    }

    /** Links `added` in front of position `i` and takes it off the entry there. */
    method InsertAt(i: nat, added: Timeout)
      requires i < |timeouts|
      requires 1 <= added.remaining <= INT32_MAX
      modifies this`timeouts, device
      ensures timeouts == Split(old(timeouts), i, added)
      ensures i == 0 ==> Armed()
      ensures i > 0 ==> unchanged(device)
    {
      var t := timeouts[i];
      timeouts := InsertedBefore(timeouts, i, added);
      if i == 0 {
        timeouts := RightRotated(timeouts);
        Recalculate();
      }
      timeouts := timeouts[i + 1 := t.(remaining := t.remaining - added.remaining)];
    }

    method Insert(timeout: Timeout)
      requires Bounded(timeouts)
      requires 1 <= timeout.remaining <= INT32_MAX && 0 <= timeout.reset <= INT32_MAX
      modifies this`timeouts, device
      ensures Bounded(timeouts)
      ensures View() == Placed(old(View()), PendingAt(timeout, now + timeout.remaining))
      ensures timeouts != []
      ensures old(timeouts) == [] || timeout.remaining <= old(timeouts)[0].remaining ==>
                timeouts[0].remaining == timeout.remaining && Armed()
      ensures old(timeouts) != [] && timeout.remaining > old(timeouts)[0].remaining ==>
                timeouts[0] == old(timeouts)[0] && unchanged(device)
    {
      if timeouts == [] {
        PlacedFromStart(timeouts, now, PendingAt(timeout, now + timeout.remaining));
        SnocPlaces(timeouts, timeout, now, PendingAt(timeout, now + timeout.remaining));
        SnocBounded(timeouts, timeout);
        timeouts := timeouts + [timeout];
        Recalculate();
        return;
      }
      ghost var p := PendingAt(timeout, now + timeout.remaining);
      ghost var q := timeouts;
      var left := timeout.remaining;
      var i := 0;
      PlacedFromStart(q, now, p);
      while i < |timeouts|
        invariant 0 <= i <= |q| && timeouts == q
        invariant 1 <= left <= timeout.remaining && left == timeout.remaining - Total(q[..i])
        invariant PlacedFrom(q, i, now, p)
        invariant unchanged(device)
        invariant i > 0 ==> timeout.remaining > q[0].remaining
      {
        var t := timeouts[i];
        if left <= t.remaining {
          var added := timeout.(remaining := left);
          InsertAt(i, added);
          SplitPlaces(q, i, added, now, p);
          SplitBounded(q, i, added);
          return;
        }
        left := left - t.remaining;
        PlacedFromNext(q, i, now, p);
        i := i + 1;
      }
      var added := timeout.(remaining := left);
      timeouts := timeouts + [added];
      assert q[..|q|] == q;
      SnocPlaces(q, added, now, p);
      SnocBounded(q, added);
    }

    method Schedule(timeout: int, repeat: bool, handler: nat, context: nat)
      requires Valid() && 1 <= timeout <= INT32_MAX
      modifies this, device
      ensures Valid() && now == old(now)
      ensures scheduled == old(scheduled) + 1 && inserted == old(inserted) + 1
      ensures View() == Placed(old(View()), Pending(old(scheduled), old(inserted), now + timeout,
                if repeat then timeout else 0, handler, context))
    {
      var t := Timeout(scheduled, inserted, timeout, if repeat then timeout else 0, handler, context);
      scheduled, inserted := scheduled + 1, inserted + 1;
      Insert(t);
    }

    method DeleteAt(i: nat)
      requires Valid() && i < |timeouts|
      modifies this`timeouts, device
      ensures Valid() && timeouts == Joined(old(timeouts), i)
    {
      JoinedBounded(timeouts, i);
      TotalNonNegative(Joined(timeouts, i));
      var t := timeouts[i];
      if i + 1 < |timeouts| {
        timeouts := timeouts[i + 1 := timeouts[i + 1].(remaining := timeouts[i + 1].remaining + t.remaining)];
      }
      timeouts := timeouts[..i] + timeouts[i + 1..];
      assert timeouts == Joined(old(timeouts), i);
      if i == 0 {
        Recalculate();
      }
    }

    method Cancel(handler: nat, context: nat)
      requires Valid()
      modifies this`timeouts, device
      ensures Valid()
      ensures View() == Dropped(old(View()), handler, context)
    {
      ghost var q := timeouts;
      var i := 0;
      while i < |timeouts|
        invariant 0 <= i <= |q| && timeouts == q
        invariant forall k :: 0 <= k < i ==> !(q[k].handler == handler && q[k].context == context)
        invariant Armed()
      {
        var t := timeouts[i];
        if t.handler == handler && t.context == context {
          JoinedDrops(q, i, handler, context, now);
          DeleteAt(i);
          return;
        }
        i := i + 1;
      }
      NoMatch(q, handler, context, now);
    }

    /** One round of the tick loop: the head is taken off, put back when it
        repeats, and its handler is called. */
    method FireHead() returns (call: Call)
      requires timeouts != [] && timeouts[0].remaining <= 0 && Bounded(Lifted(timeouts))
      modifies this`timeouts, this`inserted, device
      ensures Bounded(timeouts)
      ensures View() == HeadFired(old(Absolute(Lifted(timeouts), now)), now, old(inserted))
      ensures inserted == old(inserted) + if old(timeouts)[0].reset > 0 then 1 else 0
      ensures call == CallOf(old(Absolute(Lifted(timeouts), now))[0])
    {
      var t := timeouts[0];
      OverdueView(timeouts, now);
      timeouts := timeouts[1..];
      if t.reset > 0 {
        Insert(t.(remaining := t.reset, stamp := inserted));
        inserted := inserted + 1;
      }
      call := Call(t.tag, t.stamp, t.handler, t.context);
    }

    /** The loop of timer_managedhandler. */
    method FireDue(ghost v: seq<Pending>) returns (calls: seq<Call>)
      requires Bounded(Lifted(timeouts)) && v == Absolute(Lifted(timeouts), now)
      modifies this`timeouts, this`inserted, device
      ensures Bounded(timeouts) && (timeouts != [] ==> timeouts[0].remaining >= 1)
      ensures calls == CallsOf(Due(v, now))
      ensures View() == AfterTick(v, now, old(inserted))
      ensures inserted == old(inserted) + Repeats(Due(v, now))
    {
      calls := [];
      ghost var t, stamp0 := now, inserted;
      ghost var ps := v;
      TickingStart(v, t, stamp0);
      while timeouts != [] && timeouts[0].remaining <= 0
        invariant Bounded(Lifted(timeouts)) && ps == Absolute(Lifted(timeouts), now)
        invariant Ticking(v, ps, t, stamp0, inserted, calls)
        decreases |Due(ps, t)|
      {
        ghost var before, stamp, made := ps, inserted, calls;
        TickingStep(v, before, t, stamp0, stamp, made);
        var call := FireHead();
        calls := calls + [call];
        ps := HeadFired(before, t, stamp);
        assert calls == made + [CallOf(before[0])];
        assert inserted == stamp + if before[0].period > 0 then 1 else 0;
      }
      TickingDone(v, ps, t, stamp0, inserted, calls);
    }

    /** timer_managedhandler.  Time past the head's deadline is dropped.  `headless`
        says that the loop condition was evaluated with no head left, which the
        source does through a null pointer. */
    method Tick(elapsed: nat) returns (calls: seq<Call>, headless: bool)
      requires Valid() && elapsed <= INT32_MAX
      modifies this`timeouts, this`inserted, this`now, device
      ensures Valid()
      ensures now == old(now) + Advance(old(timeouts), elapsed)
      ensures calls == CallsOf(Due(old(View()), now))
      ensures View() == AfterTick(old(View()), now, old(inserted))
      ensures inserted == old(inserted) + Repeats(Due(old(View()), now))
      ensures headless <==> old(View()) != [] && Exhausted(old(View()), now)
    {
      calls, headless := [], false;
      if timeouts != [] {
        ElapsedView(timeouts, elapsed, now);
        now := now + Advance(timeouts, elapsed);
        timeouts := timeouts[0 := timeouts[0].(remaining := timeouts[0].remaining - elapsed)];
        calls := FireDue(old(View()));
        headless := timeouts == [];
        TickEmpties(old(View()), now, old(inserted));
        TotalNonNegative(timeouts);
        Recalculate();
      }
    }
  }
}
