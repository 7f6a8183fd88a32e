/** top/init.c: the hooks in the order the linker placed them, run by level in
    repeated passes. */
module InitHooks {

  /** Hooks of one level among the first `n`, in link order. */
  function AtLevel(levels: seq<nat>, level: nat, n: nat): seq<nat>
    requires n <= |levels|
  {
    if n == 0 then [] else AtLevel(levels, level, n - 1) + if levels[n - 1] == level then [n - 1] else []
  }

  /** The hooks with a level above `low` and up to `high`: lower levels first,
      link order within a level. */
  function Due(levels: seq<nat>, low: nat, high: nat): seq<nat> {
    if high <= low then [] else Due(levels, low, high - 1) + AtLevel(levels, high, |levels|)
  }

  // ----- the schedule is a stable sort of the due hooks

  lemma {:induction false} AtLevelMembers(levels: seq<nat>, level: nat, n: nat)
    requires n <= |levels|
    ensures forall i :: i in AtLevel(levels, level, n) <==> 0 <= i < n && levels[i] == level
    ensures forall a, b :: 0 <= a < b < |AtLevel(levels, level, n)| ==>
              AtLevel(levels, level, n)[a] < AtLevel(levels, level, n)[b]
  {
    if n > 0 {
      AtLevelMembers(levels, level, n - 1);
      var s := AtLevel(levels, level, n - 1);
      assert forall a :: 0 <= a < |s| ==> s[a] in s;
    }
  }

  /** By level and then by link order, no hook twice. */
  ghost predicate Ordered(levels: seq<nat>, s: seq<nat>) {
    && (forall a :: 0 <= a < |s| ==> s[a] < |levels|)
    && (forall a, b :: 0 <= a < b < |s| ==>
          levels[s[a]] < levels[s[b]] || (levels[s[a]] == levels[s[b]] && s[a] < s[b]))
  }

  lemma LevelMember(levels: seq<nat>, level: nat, i: nat)
    ensures i in AtLevel(levels, level, |levels|) <==> i < |levels| && levels[i] == level
  {
    AtLevelMembers(levels, level, |levels|);
  }

  lemma {:induction false} DueMember(levels: seq<nat>, low: nat, high: nat, i: nat)
    ensures i in Due(levels, low, high) <==> i < |levels| && low < levels[i] <= high
    decreases high
  {
    if high > low {
      DueMember(levels, low, high - 1, i);
      LevelMember(levels, high, i);
    }
  }

  lemma DueMembers(levels: seq<nat>, low: nat, high: nat)
    ensures forall i :: i in Due(levels, low, high) <==> 0 <= i < |levels| && low < levels[i] <= high
  {
    forall i: nat
      ensures i in Due(levels, low, high) <==> i < |levels| && low < levels[i] <= high
    {
      DueMember(levels, low, high, i);
    }
  }

  lemma OrderedJoin(levels: seq<nat>, s: seq<nat>, t: seq<nat>, level: nat)
    requires Ordered(levels, s) && Ordered(levels, t)
    requires forall a :: 0 <= a < |s| ==> levels[s[a]] < level
    requires forall a :: 0 <= a < |t| ==> levels[t[a]] == level
    ensures Ordered(levels, s + t)
  {
    var r := s + t;
    assert forall a :: 0 <= a < |r| ==> r[a] == if a < |s| then s[a] else t[a - |s|];
  }

  lemma LevelOrdered(levels: seq<nat>, level: nat)
    ensures Ordered(levels, AtLevel(levels, level, |levels|))
    ensures forall a :: 0 <= a < |AtLevel(levels, level, |levels|)| ==>
              levels[AtLevel(levels, level, |levels|)[a]] == level
  {
    AtLevelMembers(levels, level, |levels|);
    var t := AtLevel(levels, level, |levels|);
    forall a | 0 <= a < |t|
      ensures t[a] < |levels| && levels[t[a]] == level
    {
      assert t[a] in t;
    }
  }

  lemma {:induction false} DueOrdered(levels: seq<nat>, low: nat, high: nat)
    ensures Ordered(levels, Due(levels, low, high))
    ensures forall a :: 0 <= a < |Due(levels, low, high)| ==> levels[Due(levels, low, high)[a]] <= high
    decreases high
  {
    if high > low {
      var s, t := Due(levels, low, high - 1), AtLevel(levels, high, |levels|);
      DueOrdered(levels, low, high - 1);
      LevelOrdered(levels, high);
      OrderedJoin(levels, s, t, high);
      forall a | 0 <= a < |s + t|
        ensures levels[(s + t)[a]] <= high
      {
        assert (s + t)[a] == if a < |s| then s[a] else t[a - |s|];
      }
    }
  }

  /** Exactly the due hooks, each once, by level and then by link order. */
  lemma DueIsStableSort(levels: seq<nat>, low: nat, high: nat)
    ensures forall i :: i in Due(levels, low, high) <==> 0 <= i < |levels| && low < levels[i] <= high
    ensures Ordered(levels, Due(levels, low, high))
  {
    DueMembers(levels, low, high);
    DueOrdered(levels, low, high);
  }

  // ----- several calls

  lemma {:induction false} DueSplits(levels: seq<nat>, low: nat, mid: nat, high: nat)
    requires low <= mid <= high
    ensures Due(levels, low, high) == Due(levels, low, mid) + Due(levels, mid, high)
    decreases high
  {
    if mid == high {
      assert Due(levels, low, mid) + [] == Due(levels, low, mid);
    } else {
      DueSplits(levels, low, mid, high - 1);
      var t := AtLevel(levels, high, |levels|);
      assert (Due(levels, low, mid) + Due(levels, mid, high - 1)) + t ==
          Due(levels, low, mid) + (Due(levels, mid, high - 1) + t);
    }
  }

  /** All calls of a sequence of `fw_init_run`. */
  function Trace(levels: seq<nat>, last: nat, runs: seq<nat>): seq<nat>
    decreases runs
  {
    if runs == [] then [] else Due(levels, last, runs[0]) + Trace(levels, runs[0], runs[1..])
  }

  /** Stepping up in any number of calls runs what one call would. */
  lemma {:induction false} RunsCompose(levels: seq<nat>, last: nat, runs: seq<nat>)
    requires runs != [] && last <= runs[0]
    requires forall i, j :: 0 <= i < j < |runs| ==> runs[i] <= runs[j]
    ensures Trace(levels, last, runs) == Due(levels, last, runs[|runs| - 1])
    decreases runs
  {
    if |runs| == 1 {
      assert Trace(levels, runs[0], runs[1..]) == [];
    } else {
      RunsCompose(levels, runs[0], runs[1..]);
      DueSplits(levels, last, runs[0], runs[|runs| - 1]);
    }
  }

  // ----- the passes

  lemma {:induction false} NoneAtLevel(levels: seq<nat>, level: nat, m: nat, n: nat)
    requires m <= n <= |levels|
    requires forall i :: m <= i < n ==> levels[i] != level
    ensures AtLevel(levels, level, n) == AtLevel(levels, level, m)
    decreases n
  {
    if m < n {
      NoneAtLevel(levels, level, m, n - 1);
    }
  }

  /** A level without hooks adds nothing. */
  lemma DueSkips(levels: seq<nat>, low: nat, high: nat)
    requires low < high && forall i :: 0 <= i < |levels| ==> levels[i] != high
    ensures Due(levels, low, high) == Due(levels, low, high - 1)
  {
    NoneAtLevel(levels, high, 0, |levels|);
    assert Due(levels, low, high - 1) + [] == Due(levels, low, high - 1);
  }

  lemma {:induction false} NoneBetween(levels: seq<nat>, low: nat, mid: nat, high: nat)
    requires low <= mid <= high
    requires forall i :: 0 <= i < |levels| ==> !(mid < levels[i] <= high)
    ensures Due(levels, low, high) == Due(levels, low, mid)
    decreases high
  {
    if mid < high {
      NoneBetween(levels, low, mid, high - 1);
      DueSkips(levels, low, high);
    }
  }

  /** Which hook a pass settles on after the one called last: the next of the
      same level, or the first of the next higher level.  `last` is -1 before
      the first call. */
  ghost predicate IsNext(levels: seq<nat>, level: nat, reached: nat, last: int, f: nat) {
    && -1 <= last < |levels| && f < |levels| && reached <= levels[f] <= level
    && (levels[f] == reached ==> last >= 0 && last < f && forall i :: last < i < f ==> levels[i] != reached)
    && (levels[f] > reached ==>
          && (last >= 0 ==> forall i :: last < i < |levels| ==> levels[i] != reached)
          && (forall i :: 0 <= i < |levels| && reached < levels[i] <= level ==> levels[f] <= levels[i])
          && (forall i :: 0 <= i < f ==> levels[i] != levels[f]))
  }

  ghost predicate NoNext(levels: seq<nat>, level: nat, reached: nat, last: int) {
    && -1 <= last < |levels|
    && (forall i :: 0 <= i < |levels| ==> !(reached < levels[i] <= level))
    && (last >= 0 ==> forall i :: last < i < |levels| ==> levels[i] != reached)
  }

  /** The calls made when `last`, of level `reached`, was the latest. */
  ghost function Called(levels: seq<nat>, low: nat, reached: nat, last: int): seq<nat>
    requires -1 <= last < |levels| && (last >= 0 ==> reached >= 1)
  {
    if last < 0 then [] else Due(levels, low, reached - 1) + AtLevel(levels, reached, last + 1)
  }

  lemma CalledSameLevel(levels: seq<nat>, low: nat, level: nat, reached: nat, last: int, f: nat)
    requires IsNext(levels, level, reached, last, f) && levels[f] == reached >= 1
    ensures Called(levels, low, reached, f) == Called(levels, low, reached, last) + [f]
  {
    NoneAtLevel(levels, reached, last + 1, f);
    var d, t := Due(levels, low, reached - 1), AtLevel(levels, reached, last + 1);
    assert d + (t + [f]) == d + t + [f];
  }

  lemma FirstOfLevel(levels: seq<nat>, f: nat)
    requires f < |levels| && forall i :: 0 <= i < f ==> levels[i] != levels[f]
    ensures AtLevel(levels, levels[f], f + 1) == [f]
  {
    NoneAtLevel(levels, levels[f], 0, f);
  }

  /** With no hook of this level left, the calls are the whole level. */
  lemma LevelExhausted(levels: seq<nat>, low: nat, reached: nat, last: int)
    requires -1 <= last < |levels| && (last < 0 ==> reached == low) && (last >= 0 ==> reached > low)
    requires last >= 0 ==> forall i :: last < i < |levels| ==> levels[i] != reached
    ensures Called(levels, low, reached, last) == Due(levels, low, reached)
  {
    if last >= 0 {
      NoneAtLevel(levels, reached, last + 1, |levels|);
    }
  }

  /** Before the first hook of a higher level everything below it was called. */
  lemma BelowLevel(levels: seq<nat>, low: nat, level: nat, reached: nat, last: int, f: nat)
    requires IsNext(levels, level, reached, last, f) && levels[f] > reached >= low
    requires (last < 0 ==> reached == low) && (last >= 0 ==> reached > low)
    ensures Called(levels, low, reached, last) == Due(levels, low, levels[f] - 1)
  {
    LevelExhausted(levels, low, reached, last);
    NoneBetween(levels, low, reached, levels[f] - 1);
  }

  lemma CalledNextLevel(levels: seq<nat>, low: nat, level: nat, reached: nat, last: int, f: nat)
    requires IsNext(levels, level, reached, last, f) && levels[f] > reached >= low
    requires (last < 0 ==> reached == low) && (last >= 0 ==> reached > low)
    ensures Called(levels, low, levels[f], f) == Called(levels, low, reached, last) + [f]
  {
    FirstOfLevel(levels, f);
    BelowLevel(levels, low, level, reached, last, f);
  }

  lemma CalledNext(levels: seq<nat>, low: nat, level: nat, reached: nat, last: int, f: nat)
    requires IsNext(levels, level, reached, last, f) && reached >= low
    requires (last < 0 ==> reached == low) && (last >= 0 ==> reached > low)
    ensures Called(levels, low, levels[f], f) == Called(levels, low, reached, last) + [f]
  {
    if levels[f] == reached {
      CalledSameLevel(levels, low, level, reached, last, f);
    } else {
      CalledNextLevel(levels, low, level, reached, last, f);
    }
  }

  lemma CalledAll(levels: seq<nat>, low: nat, level: nat, reached: nat, last: int)
    requires NoNext(levels, level, reached, last)
    requires low <= reached && (last < 0 ==> reached == low) && (last >= 0 ==>
              low < reached <= level && levels[last] == reached)
    ensures Called(levels, low, reached, last) == Due(levels, low, level)
  {
    if last >= 0 {
      LevelExhausted(levels, low, reached, last);
      NoneBetween(levels, low, reached, level);
    } else if low <= level {
      NoneBetween(levels, low, low, level);
    }
  }

  class Runner {
    const levels: seq<nat>
    var lastLevel: nat

    constructor (levels: seq<nat>)
      ensures this.levels == levels && lastLevel == 0
    {
      this.levels, lastLevel := levels, 0;
    }

    /** One pass over the table. */
    method FindNext(level: nat, reached: nat, last: int) returns (found: int)
      requires -1 <= last < |levels| && lastLevel <= reached
      requires last < 0 ==> reached == lastLevel
      requires last >= 0 ==> levels[last] == reached > lastLevel && reached <= level
      ensures -1 <= found < |levels|
      ensures found >= 0 ==> IsNext(levels, level, reached, last, found)
      ensures found < 0 ==> NoNext(levels, level, reached, last)
    {
      found := -1;
      var seenLast := false;
      var p := 0;
      while p < |levels|
        invariant 0 <= p <= |levels| && -1 <= found < p
        invariant seenLast <==> 0 <= last < p
        invariant last >= 0 ==> forall i :: last < i < p ==> levels[i] != reached
        invariant found < 0 ==> forall i :: 0 <= i < p ==> !(reached < levels[i] <= level)
        invariant found >= 0 ==> reached < levels[found] <= level
        invariant found >= 0 ==> forall i :: 0 <= i < p && reached < levels[i] <= level ==> levels[found] <= levels[i]
        invariant found >= 0 ==> forall i :: 0 <= i < found ==> levels[i] != levels[found]
      {
        if p == last {
          seenLast := true;
        }
        if levels[p] > level || levels[p] < reached || (found >= 0 && levels[found] <= levels[p]) {
        } else if levels[p] > lastLevel && levels[p] > reached {
          found := p;
        } else if levels[p] == reached && p != last && seenLast {
          found := p;
          return;
        }
        p := p + 1;
      }
    }

    /** fw_init_run. */
    method Run(level: nat) returns (calls: seq<nat>)
      modifies this
      ensures lastLevel == level
      ensures calls == Due(levels, old(lastLevel), level)
    {
      var reached, last := lastLevel, -1;
      calls := [];
      while true
        invariant lastLevel == old(lastLevel) <= reached && -1 <= last < |levels|
        invariant last < 0 ==> reached == lastLevel
        invariant last >= 0 ==> lastLevel < reached <= level && levels[last] == reached
        invariant calls == Called(levels, lastLevel, reached, last)
        decreases level - reached, |levels| - last
      {
        var found := FindNext(level, reached, last);
        if found < 0 {
          CalledAll(levels, lastLevel, level, reached, last);
          break;
        }
        CalledNext(levels, lastLevel, level, reached, last, found);
        calls := calls + [found];
        reached, last := levels[found], found;
      }
      lastLevel := level;
    }
  }
}
