/** The simple view of core/timer.c: pending timeouts as a list of absolute
    deadlines on the logical clock, which is the sum of reported times. */
module Deadlines {

  /** One pending timeout.  `tag` names the schedule call it came from and
      `stamp` counts insertions into the queue. */
  datatype Pending = Pending(tag: nat, stamp: nat, deadline: int, period: int, handler: nat, context: nat)

  datatype Call = Call(tag: nat, stamp: nat, handler: nat, context: nat)

  function CallOf(p: Pending): Call {
    Call(p.tag, p.stamp, p.handler, p.context)
  }

  function CallsOf(ps: seq<Pending>): (cs: seq<Call>)
    ensures |cs| == |ps|
  {
    if ps == [] then [] else [CallOf(ps[0])] + CallsOf(ps[1..])
  }

  lemma CallsOfCons(p: Pending, ps: seq<Pending>)
    ensures CallsOf([p] + ps) == [CallOf(p)] + CallsOf(ps)
  {
    assert ([p] + ps)[1..] == ps;
  }

  /** `p` in front of the first entry that is not due before it. */
  function Placed(ps: seq<Pending>, p: Pending): seq<Pending> {
    if ps == [] || p.deadline <= ps[0].deadline then [p] + ps
    else [ps[0]] + Placed(ps[1..], p)
  }

  predicate Matches(p: Pending, handler: nat, context: nat) {
    p.handler == handler && p.context == context
  }

  /** The first entry registered with this handler and context taken out. */
  function Dropped(ps: seq<Pending>, handler: nat, context: nat): seq<Pending> {
    if ps == [] then []
    else if Matches(ps[0], handler, context) then ps[1..]
    else [ps[0]] + Dropped(ps[1..], handler, context)
  }

  /** The entries due at `now`, in queue order. */
  function Due(ps: seq<Pending>, now: int): (r: seq<Pending>)
    ensures r <= ps
  {
    if ps == [] || ps[0].deadline > now then [] else [ps[0]] + Due(ps[1..], now)
  }

  /** A fired entry as it goes back into the queue. */
  function Renewed(p: Pending, now: int, stamp: nat): Pending {
    p.(deadline := now + p.period, stamp := stamp)
  }

  /** `rest` after every repeating entry of `fired` was put back. */
  function Rearmed(fired: seq<Pending>, rest: seq<Pending>, now: int, stamp: nat): seq<Pending>
    decreases fired
  {
    if fired == [] then rest
    else if fired[0].period > 0 then Rearmed(fired[1..], Placed(rest, Renewed(fired[0], now, stamp)), now, stamp + 1)
    else Rearmed(fired[1..], rest, now, stamp)
  }

  function Repeats(fired: seq<Pending>): nat {
    if fired == [] then 0 else (if fired[0].period > 0 then 1 else 0) + Repeats(fired[1..])
  }

  /** A tick that reaches logical time `now`: what fires is renewed or gone. */
  function AfterTick(ps: seq<Pending>, now: int, stamp: nat): seq<Pending> {
    Rearmed(Due(ps, now), ps[|Due(ps, now)|..], now, stamp)
  }

  lemma {:induction false} PlacedMembers(ps: seq<Pending>, p: Pending)
    ensures forall q :: q in Placed(ps, p) <==> q == p || q in ps
    ensures multiset(Placed(ps, p)) == multiset(ps) + multiset{p}
  {
    if ps == [] || p.deadline <= ps[0].deadline {
    } else {
      PlacedMembers(ps[1..], p);
      assert ps == [ps[0]] + ps[1..];
    }
  }

  lemma {:induction false} PlacedAfter(a: seq<Pending>, b: seq<Pending>, p: Pending)
    requires forall q :: q in a ==> q.deadline < p.deadline
    ensures Placed(a + b, p) == a + Placed(b, p)
  {
    if a == [] {
      assert a + b == b;
    } else {
      assert a[0] in a;
      assert (a + b)[1..] == a[1..] + b;
      PlacedAfter(a[1..], b, p);
    }
  }

  lemma {:induction false} DroppedAfter(a: seq<Pending>, b: seq<Pending>, handler: nat, context: nat)
    requires forall q :: q in a ==> !Matches(q, handler, context)
    ensures Dropped(a + b, handler, context) == a + Dropped(b, handler, context)
  {
    if a == [] {
      assert a + b == b;
    } else {
      assert a[0] in a;
      assert (a + b)[1..] == a[1..] + b;
      DroppedAfter(a[1..], b, handler, context);
    }
  }

  lemma {:induction false} DuePrefix(ps: seq<Pending>, now: int)
    ensures forall p :: p in Due(ps, now) ==> p.deadline <= now
    ensures |Due(ps, now)| < |ps| ==> ps[|Due(ps, now)|].deadline > now
  {
    if ps != [] && ps[0].deadline <= now {
      DuePrefix(ps[1..], now);
    }
  }

  lemma {:induction false} DueConcat(a: seq<Pending>, b: seq<Pending>, now: int)
    requires forall p :: p in a ==> p.deadline <= now
    ensures Due(a + b, now) == a + Due(b, now)
  {
    if a == [] {
      assert a + b == b;
    } else {
      assert a[0] in a;
      assert (a + b)[1..] == a[1..] + b;
      DueConcat(a[1..], b, now);
    }
  }

  /** Putting a later entry back does not disturb what is due now. */
  lemma DuePlaced(ps: seq<Pending>, p: Pending, now: int)
    requires p.deadline > now
    ensures Due(Placed(ps, p), now) == Due(ps, now)
    ensures Placed(ps, p)[|Due(ps, now)|..] == Placed(ps[|Due(ps, now)|..], p)
  {
    var due := Due(ps, now);
    var rest := ps[|due|..];
    DuePrefix(ps, now);
    assert ps == due + rest;
    PlacedAfter(due, rest, p);
    DueConcat(due, Placed(rest, p), now);
    assert Due(Placed(rest, p), now) == [];
  }

  /** The head as the tick loop leaves it: renewed or gone. */
  function HeadFired(ps: seq<Pending>, now: int, stamp: nat): seq<Pending>
    requires ps != []
  {
    if ps[0].period > 0 then Placed(ps[1..], Renewed(ps[0], now, stamp)) else ps[1..]
  }

  /** Firing the head alone does not change where the tick ends. */
  lemma TickStep(ps: seq<Pending>, now: int, stamp: nat)
    requires ps != [] && ps[0].deadline <= now
    ensures var next := HeadFired(ps, now, stamp);
            var stamp' := stamp + if ps[0].period > 0 then 1 else 0;
            && Due(ps, now) == [ps[0]] + Due(next, now)
            && AfterTick(ps, now, stamp) == AfterTick(next, now, stamp')
            && Repeats(Due(ps, now)) == stamp' - stamp + Repeats(Due(next, now))
  {
    var due := Due(ps[1..], now);
    assert Due(ps, now) == [ps[0]] + due;
    assert Due(ps, now)[1..] == due;
    assert ps[1..][|due|..] == ps[1 + |due|..];
    if ps[0].period > 0 {
      DuePlaced(ps[1..], Renewed(ps[0], now, stamp), now);
    }
  }

  /** Everything pending is due and nothing of it repeats. */
  ghost predicate Exhausted(ps: seq<Pending>, now: int) {
    Due(ps, now) == ps && forall p :: p in ps ==> p.period <= 0
  }

  lemma {:induction false} RearmedEmpty(fired: seq<Pending>, rest: seq<Pending>, now: int, stamp: nat)
    ensures Rearmed(fired, rest, now, stamp) == [] <==> rest == [] && forall p :: p in fired ==> p.period <= 0
    decreases fired
  {
    if fired != [] {
      var p := fired[0];
      assert forall q :: q in fired <==> q == p || q in fired[1..];
      if p.period > 0 {
        var next := Placed(rest, Renewed(p, now, stamp));
        assert next != [];
        RearmedEmpty(fired[1..], next, now, stamp + 1);
      } else {
        RearmedEmpty(fired[1..], rest, now, stamp);
      }
    }
  }

  /** A tick leaves nothing behind exactly when it exhausts the queue. */
  lemma TickEmpties(ps: seq<Pending>, now: int, stamp: nat)
    ensures AfterTick(ps, now, stamp) == [] <==> Exhausted(ps, now)
  {
    var due := Due(ps, now);
    RearmedEmpty(due, ps[|due|..], now, stamp);
    assert ps == due + ps[|due|..];
  }

  /** The tick to `now` that started from `v` has called `calls` and is left
      with `ps`. */
  ghost predicate Ticking(v: seq<Pending>, ps: seq<Pending>, now: int, stamp0: nat, stamp: nat, calls: seq<Call>) {
    && AfterTick(ps, now, stamp) == AfterTick(v, now, stamp0)
    && calls + CallsOf(Due(ps, now)) == CallsOf(Due(v, now))
    && stamp + Repeats(Due(ps, now)) == stamp0 + Repeats(Due(v, now))
  }

  lemma TickingStart(v: seq<Pending>, now: int, stamp: nat)
    ensures Ticking(v, v, now, stamp, stamp, [])
  {
    assert [] + CallsOf(Due(v, now)) == CallsOf(Due(v, now));
  }

  lemma TickingStep(v: seq<Pending>, ps: seq<Pending>, now: int, stamp0: nat, stamp: nat, calls: seq<Call>)
    requires Ticking(v, ps, now, stamp0, stamp, calls)
    requires ps != [] && ps[0].deadline <= now
    ensures Ticking(v, HeadFired(ps, now, stamp), now, stamp0, stamp + (if ps[0].period > 0 then 1
              else 0), calls + [CallOf(ps[0])])
    ensures |Due(HeadFired(ps, now, stamp), now)| < |Due(ps, now)|
  {
    TickStep(ps, now, stamp);
    var next := Due(HeadFired(ps, now, stamp), now);
    CallsOfCons(ps[0], next);
    assert calls + ([CallOf(ps[0])] + CallsOf(next)) == (calls + [CallOf(ps[0])]) + CallsOf(next);
  }

  lemma TickingDone(v: seq<Pending>, ps: seq<Pending>, now: int, stamp0: nat, stamp: nat, calls: seq<Call>)
    requires Ticking(v, ps, now, stamp0, stamp, calls)
    requires ps != [] ==> ps[0].deadline > now
    ensures ps == AfterTick(v, now, stamp0)
    ensures calls == CallsOf(Due(v, now))
    ensures stamp == stamp0 + Repeats(Due(v, now))
  {
    assert Due(ps, now) == [];
    assert calls + [] == calls;
  }
}
