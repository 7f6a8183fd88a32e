/** The sequence operations that core/list.c performs on its circular lists.
    The pointer implementation in `Lists` is proved against them, and the
    timer and kernel models use them as the meaning of a list call. */
module ListSpec {

  /** `e` taken out of `s`; `s` itself when `e` is not a member. */
  function Removed<T(==)>(s: seq<T>, e: T): (r: seq<T>)
    ensures e !in s ==> r == s
  {
    if s == [] then []
    else if s[0] == e then s[1..]
    else [s[0]] + Removed(s[1..], e)
  }

  function Without<T>(s: seq<T>, i: nat): seq<T>
    requires i < |s|
  {
    s[..i] + s[i + 1..]
  }

  /** Appending a member first takes it out, so it moves to the tail. */
  function Appended<T(==)>(s: seq<T>, e: T): seq<T> {
    Removed(s, e) + [e]
  }

  /** A new entry linked in front of position `i`.  In a ring the place in
      front of the head is the tail. */
  function InsertedBefore<T>(s: seq<T>, i: nat, e: T): seq<T>
    requires i < |s|
  {
    if i == 0 then s + [e] else s[..i] + [e] + s[i..]
  }

  function LeftRotated<T>(s: seq<T>): seq<T> {
    if s == [] then [] else s[1..] + [s[0]]
  }

  function RightRotated<T>(s: seq<T>): seq<T> {
    if s == [] then [] else [s[|s| - 1]] + s[..|s| - 1]
  }

  ghost predicate Distinct<T>(s: seq<T>) {
    forall i, j :: 0 <= i < j < |s| ==> s[i] != s[j]
  }

  lemma WithoutTail<T>(s: seq<T>, i: nat)
    requires 0 < i < |s|
    ensures Without(s, i) == [s[0]] + Without(s[1..], i - 1)
  {
    assert s[..i] == [s[0]] + s[1..][..i - 1];
    assert s[i + 1..] == s[1..][i..];
  }

  /** In a sequence without duplicates, removal drops exactly one position. */
  lemma {:induction false} RemovedAt<T>(s: seq<T>, i: nat)
    requires i < |s| && Distinct(s)
    ensures Removed(s, s[i]) == Without(s, i)
  {
    if i == 0 {
      assert Without(s, 0) == s[1..];
    } else {
      assert s[0] != s[i];
      assert s[1..][i - 1] == s[i];
      RemovedAt(s[1..], i - 1);
      WithoutTail(s, i);
    }
  }

  lemma {:induction false} RemovedMembers<T>(s: seq<T>, e: T)
    requires Distinct(s)
    ensures forall x :: x in Removed(s, e) <==> x in s && x != e
    ensures Distinct(Removed(s, e))
    ensures |Removed(s, e)| == |s| - (if e in s then 1 else 0)
  {
    if e in s {
      var i :| 0 <= i < |s| && s[i] == e;
      RemovedAt(s, i);
      var r := Removed(s, e);
      forall x | x in s && x != e
        ensures x in r
      {
        var j :| 0 <= j < |s| && s[j] == x;
        assert r[if j < i then j else j - 1] == x;
      }
    }
  }

  lemma WithoutDistinct<T>(s: seq<T>, i: nat)
    requires i < |s| && Distinct(s)
    ensures Distinct(Without(s, i)) && s[i] !in Without(s, i)
  {
  }

  lemma InsertedDistinct<T>(s: seq<T>, i: nat, e: T)
    requires i < |s| && Distinct(s) && e !in s
    ensures Distinct(InsertedBefore(s, i, e))
  {
  }

  lemma RotatedDistinct<T>(s: seq<T>)
    requires Distinct(s)
    ensures Distinct(LeftRotated(s)) && Distinct(RightRotated(s))
  {
  }

  lemma RotationsUndo<T>(s: seq<T>)
    ensures RightRotated(LeftRotated(s)) == s
    ensures LeftRotated(RightRotated(s)) == s
  {
    if s != [] {
      assert s == s[..|s| - 1] + [s[|s| - 1]];
    }
  }
}

/** core/list.c and include/list.h: an intrusive circular doubly linked list. */
module Lists {
  import opened ListSpec

  /** `owner` stands for the structure around the entry, which container_of
      finds from the entry's address. */
  class Entry {
    const owner: nat
    var next: Entry?
    var prev: Entry?

    constructor (owner: nat)
      ensures this.owner == owner && next == null && prev == null
    {
      this.owner := owner;
      next, prev := null, null;
    }
  }

  function After(i: nat, n: nat): (r: nat)
    requires i < n
    ensures r < n
  {
    if i + 1 == n then 0 else i + 1
  }

  function Before(i: nat, n: nat): (r: nat)
    requires i < n
    ensures r < n
  {
    if i == 0 then n - 1 else i - 1
  }

  class List {
    var head: Entry?
    ghost var ring: seq<Entry>  // the entries, from the head on

    /** Every entry of `r` points at its neighbours, the last at the first. */
    static ghost predicate Closed(r: seq<Entry>)
      reads r
    {
      Distinct(r) && Forward(r) && Backward(r)
    }

    static ghost predicate Forward(r: seq<Entry>)
      reads r
    {
      forall i {:trigger r[i].next} :: 0 <= i < |r| ==> r[i].next == r[After(i, |r|)]
    }

    static ghost predicate Backward(r: seq<Entry>)
      reads r
    {
      forall i {:trigger r[i].prev} :: 0 <= i < |r| ==> r[i].prev == r[Before(i, |r|)]
    }

    ghost predicate Valid()
      reads this, ring
    {
      && (head == null <==> ring == [])
      && (ring != [] ==> head == ring[0])
      && Closed(ring)
    }

    /** An entry on which `Delete` and `Append` are meaningful: a member of
        this list, or one that is in no list. */
    ghost predicate MemberOrUnlinked(entry: Entry)
      reads this, entry
    {
      entry in ring || entry.next == null || entry.prev == null
    }

    constructor ()
      ensures Valid() && ring == []
    {
      head, ring := null, [];
    }

    method IsEmpty() returns (empty: bool)
      requires Valid()
      ensures empty <==> ring == []
    {
      empty := head == null;
    }

    method First() returns (entry: Entry?)
      requires Valid()
      ensures if ring == [] then entry == null else entry == ring[0]
    {
      entry := head;
    }

    method Last() returns (entry: Entry?)
      requires Valid()
      ensures if ring == [] then entry == null else entry == ring[|ring| - 1]
    {
      if head == null {
        return null;
      }
      entry := head.prev;
    }

    /** The entry after position `i`, or null at the end of the round. */
    method Next(entry: Entry, ghost i: nat) returns (next: Entry?)
      requires Valid() && i < |ring| && ring[i] == entry
      ensures if i + 1 == |ring| then next == null else next == ring[i + 1]
    {
      next := entry.next;
      if next == head {
        next := null;
      }
    }

    method InsertBefore(entry: Entry, added: Entry, ghost i: nat)
      requires Valid() && i < |ring| && ring[i] == entry
      requires added !in ring
      modifies this`ring, added, entry, entry.prev
      ensures Valid() && ring == InsertedBefore(old(ring), i, added)
    {
      ghost var r, n := ring, |ring|;
      ghost var b := Before(i, n);
      assert entry.prev == r[b];
      added.prev := entry.prev;
      entry.prev.next := added;
      entry.prev := added;
      added.next := entry;
      ring := InsertedBefore(ring, i, added);
      assert forall k {:trigger r[k].next} :: 0 <= k < n ==> r[k].next == if k == b then added else r[After(k, n)];
      assert forall k {:trigger r[k].prev} :: 0 <= k < n ==> r[k].prev == if k == i then added else r[Before(k, n)];
      ForwardGrown(r, i, added);
      BackwardGrown(r, i, added);
      InsertedDistinct(r, i, added);
    }

    /** The links around a freshly inserted entry close the larger ring. */
    static lemma ForwardGrown(r: seq<Entry>, i: nat, added: Entry)
      requires i < |r|
      requires forall k {:trigger r[k].next} :: 0 <= k < |r| ==>
                r[k].next == if k == Before(i, |r|) then added else r[After(k, |r|)]
      requires added.next == r[i]
      ensures Forward(InsertedBefore(r, i, added))
    {
      var s := InsertedBefore(r, i, added);
      var p := if i == 0 then |r| else i;
      forall k | 0 <= k < |s|
        ensures s[k].next == s[After(k, |s|)]
      {
        assert s[k] == if k < p then r[k] else if k > p then r[k - 1] else added;
      }
    }

    static lemma BackwardGrown(r: seq<Entry>, i: nat, added: Entry)
      requires i < |r|
      requires forall k {:trigger r[k].prev} :: 0 <= k < |r| ==>
                r[k].prev == if k == i then added else r[Before(k, |r|)]
      requires added.prev == r[Before(i, |r|)]
      ensures Backward(InsertedBefore(r, i, added))
    {
      var s := InsertedBefore(r, i, added);
      var p := if i == 0 then |r| else i;
      forall k | 0 <= k < |s|
        ensures s[k].prev == s[Before(k, |s|)]
      {
        assert s[k] == if k < p then r[k] else if k > p then r[k - 1] else added;
      }
    }

    method Delete(entry: Entry)
      requires Valid() && MemberOrUnlinked(entry)
      modifies this, ring
      ensures Valid() && ring == Removed(old(ring), entry)
      ensures entry !in ring && (entry.next == null || entry.prev == null)
      ensures entry !in old(ring) ==> unchanged(this) && unchanged(old(ring))
      ensures entry !in old(ring) ==> entry.next == old(entry.next) && entry.prev == old(entry.prev)
      ensures forall x: Entry :: x in old(ring) && x != entry && x != old(entry.prev) ==> x.next == old(x.next)
      ensures forall x: Entry :: x in old(ring) && x != entry && x != old(entry.next) ==> x.prev == old(x.prev)
    {
      if entry.next == null || entry.prev == null {
        assert forall i {:trigger ring[i].next} :: 0 <= i < |ring| ==> ring[i].next != null && ring[i].prev != null;
        return;
      }
      ghost var i :| 0 <= i < |ring| && ring[i] == entry;
      RemovedAt(ring, i);
      DeleteMember(entry, i);
    }

    method DeleteMember(entry: Entry, ghost i: nat)
      requires Valid() && i < |ring| && ring[i] == entry
      modifies this, ring
      ensures Valid() && ring == Without(old(ring), i)
      ensures entry !in ring && entry.next == null && entry.prev == null
      ensures forall x: Entry :: x in old(ring) && x != entry && x != old(entry.prev) ==> x.next == old(x.next)
      ensures forall x: Entry :: x in old(ring) && x != entry && x != old(entry.next) ==> x.prev == old(x.prev)
    {
      ghost var s := Without(ring, i);
      assert head == entry <==> i == 0;
      if head == entry {
        assert entry.next == ring[After(0, |ring|)];
        head := if entry.next == head then null else entry.next;
      }
      assert head == if s == [] then null else s[0];
      ring := s;
      Unlink(entry, old(ring), i);
    }

    /** Makes the neighbours of `entry` point past it and clears its links. */
    static method Unlink(entry: Entry, ghost r: seq<Entry>, ghost i: nat)
      requires Closed(r) && i < |r| && r[i] == entry
      modifies r
      ensures entry.next == null && entry.prev == null
      ensures Closed(Without(r, i))
      ensures forall x: Entry :: x in r && x != entry && x != old(entry.prev) ==> x.next == old(x.next)
      ensures forall x: Entry :: x in r && x != entry && x != old(entry.next) ==> x.prev == old(x.prev)
    {
      ghost var n := |r|;
      assert entry.next == r[After(i, n)] && entry.prev == r[Before(i, n)];
      entry.prev.next := entry.next;
      entry.next.prev := entry.prev;
      entry.next, entry.prev := null, null;
      assert forall k {:trigger r[k].next} :: 0 <= k < n && k != i ==>
          r[k].next == if After(k, n) == i then r[After(i, n)] else r[After(k, n)];
      assert forall k {:trigger r[k].prev} :: 0 <= k < n && k != i ==>
          r[k].prev == if Before(k, n) == i then r[Before(i, n)] else r[Before(k, n)];
      ForwardShrunk(r, i);
      BackwardShrunk(r, i);
      WithoutDistinct(r, i);
    }

    static lemma ForwardShrunk(r: seq<Entry>, i: nat)
      requires i < |r|
      requires forall k {:trigger r[k].next} :: 0 <= k < |r| && k != i ==>
                r[k].next == if After(k, |r|) == i then r[After(i, |r|)] else r[After(k, |r|)]
      ensures Forward(Without(r, i))
    {
      var s := Without(r, i);
      forall k | 0 <= k < |s|
        ensures s[k].next == s[After(k, |s|)]
      {
        assert s[k] == r[if k < i then k else k + 1];
      }
    }

    static lemma BackwardShrunk(r: seq<Entry>, i: nat)
      requires i < |r|
      requires forall k {:trigger r[k].prev} :: 0 <= k < |r| && k != i ==>
                r[k].prev == if Before(k, |r|) == i then r[Before(i, |r|)] else r[Before(k, |r|)]
      ensures Backward(Without(r, i))
    {
      var s := Without(r, i);
      forall k | 0 <= k < |s|
        ensures s[k].prev == s[Before(k, |s|)]
      {
        assert s[k] == r[if k < i then k else k + 1];
      }
    }

    method Append(entry: Entry)
      requires Valid() && MemberOrUnlinked(entry)
      modifies this, ring, entry
      ensures Valid() && ring == Appended(old(ring), entry)
    {
      ghost var rest := Removed(ring, entry);
      RemovedMembers(ring, entry);
      Delete(entry);
      if head != null {
        assert rest[0] in rest && rest[|rest| - 1] in rest;
        assert head.prev == rest[Before(0, |rest|)];
        InsertBefore(head, entry, 0);
      } else {
        entry.next, entry.prev := entry, entry;
        head := entry;
        ring := [entry];
      }
    }

    static lemma LeftRotatedClosed(r: seq<Entry>)
      requires Closed(r) && r != []
      ensures Forward(LeftRotated(r)) && Backward(LeftRotated(r))
    {
      var s, n := LeftRotated(r), |r|;
      assert forall k {:trigger s[k]} :: 0 <= k < n ==> s[k] == r[After(k, n)];
    }

    static lemma RightRotatedClosed(r: seq<Entry>)
      requires Closed(r) && r != []
      ensures Forward(RightRotated(r)) && Backward(RightRotated(r))
    {
      var s, n := RightRotated(r), |r|;
      assert forall k {:trigger s[k]} :: 0 <= k < n ==> s[k] == r[Before(k, n)];
    }

    method LeftRotate()
      requires Valid()
      modifies this
      ensures Valid() && ring == LeftRotated(old(ring))
    {
      if head != null {
        head := head.next;
        ring := LeftRotated(ring);
        LeftRotatedClosed(old(ring));
        RotatedDistinct(old(ring));
      }
    }

    method RightRotate()
      requires Valid()
      modifies this
      ensures Valid() && ring == RightRotated(old(ring))
    {
      if head != null {
        head := head.prev;
        ring := RightRotated(ring);
        RightRotatedClosed(old(ring));
        RotatedDistinct(old(ring));
      }
    }

    /** The iteration of list_foreach: every entry once, head first. */
    method Visit() returns (visited: seq<Entry>)
      requires Valid()
      ensures visited == ring
    {
      visited := [];
      var pos := head;
      while pos != null
        invariant visited <= ring
        invariant if |visited| == |ring| then pos == null else pos == ring[|visited|]
        decreases |ring| - |visited|
      {
        var next := Next(pos, |visited|);
        visited := visited + [pos];
        pos := next;
      }
    }
  }
}
