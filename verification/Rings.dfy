/** Queues of structures that embed a list entry: the operations of core/list.c on
    pointers, seen as operations on the sequence of owners. */
module Rings {
  import opened ListSpec
  import opened Lists

  function Owners(r: seq<Entry>): (s: seq<nat>)
    ensures |s| == |r| && forall i :: 0 <= i < |r| ==> s[i] == r[i].owner
  {
    seq(|r|, i requires 0 <= i < |r| => r[i].owner)
  }

  /** `entries` names each entry by its owner, and those of `r` are among them. */
  ghost predicate Owned(r: seq<Entry>, entries: map<nat, Entry>) {
    && (forall t :: t in entries ==> entries[t].owner == t)
    && (forall e :: e in r ==> e.owner in entries && entries[e.owner] == e)
  }

  lemma OwnedRemoved(r: seq<Entry>, entries: map<nat, Entry>, e: Entry)
    requires Owned(r, entries) && Distinct(r)
    ensures Owned(Removed(r, e), entries)
    ensures forall x :: x in Removed(r, e) <==> x in r && x != e
  {
    RemovedMembers(r, e);
  }

  lemma OwnedAppended(r: seq<Entry>, entries: map<nat, Entry>, t: nat)
    requires Owned(r, entries) && Distinct(r) && t in entries
    ensures Owned(Appended(r, entries[t]), entries)
    ensures forall x :: x in Appended(r, entries[t]) <==> x in r || x == entries[t]
  {
    var rest := Removed(r, entries[t]);
    assert entries[t].owner == t;
    OwnedRemoved(r, entries, entries[t]);
    assert Appended(r, entries[t]) == rest + [entries[t]];
    forall x | x in rest + [entries[t]]
      ensures x.owner in entries && entries[x.owner] == x
    {
      assert x in rest || x == entries[t];
      assert x in rest ==> x in r;
    }
  }

  lemma OwnersCons(e: Entry, r: seq<Entry>)
    ensures Owners([e] + r) == [e.owner] + Owners(r)
  {
  }

  lemma {:induction false} OwnersRemoved(r: seq<Entry>, e: Entry)
    requires forall x :: x in r && x.owner == e.owner ==> x == e
    ensures Owners(Removed(r, e)) == Removed(Owners(r), e.owner)
  {
    if r != [] {
      assert r[0] in r && Owners(r)[1..] == Owners(r[1..]);
      if r[0] != e {
        OwnersRemoved(r[1..], e);
        OwnersCons(r[0], Removed(r[1..], e));
      }
    }
  }

  lemma OwnersAppended(r: seq<Entry>, e: Entry)
    requires forall x :: x in r && x.owner == e.owner ==> x == e
    ensures Owners(Appended(r, e)) == Appended(Owners(r), e.owner)
  {
    OwnersRemoved(r, e);
    assert Owners(Removed(r, e) + [e]) == Owners(Removed(r, e)) + [e.owner];
  }

  lemma OwnersMoved(r: seq<Entry>)
    ensures Owners(LeftRotated(r)) == LeftRotated(Owners(r))
    ensures Owners(RightRotated(r)) == RightRotated(Owners(r))
  {
  }

  lemma OwnersInserted(r: seq<Entry>, i: nat, e: Entry)
    requires i < |r|
    ensures Owners(InsertedBefore(r, i, e)) == InsertedBefore(Owners(r), i, e.owner)
  {
  }

  class Ring {
    const list: List
    var entries: map<nat, Entry>

    ghost predicate Valid()
      reads this, list, list.ring, entries.Values
    {
      list.Valid() && Owned(list.ring, entries)
      && forall t :: t in entries && entries[t] !in list.ring ==> entries[t].next == null || entries[t].prev == null
    }

    ghost function Ids(): seq<nat>
      reads list
    {
      Owners(list.ring)
    }

    /** What is linked is among the entries. */
    lemma Members()
      requires Valid()
      ensures forall e :: e in list.ring ==> e in entries.Values
    {
    }

    constructor ()
      ensures Valid() && Ids() == [] && entries == map[] && fresh(list)
    {
      list := new List();
      entries := map[];
    }

    /** A ring whose only structure is not linked in. */
    constructor Of(t: nat)
      ensures Valid() && Ids() == [] && entries.Keys == {t}
      ensures fresh(list) && fresh(list.ring) && fresh(entries.Values)
    {
      list := new List();
      var e := new Entry(t);
      entries := map[t := e];
    }

    /** list_entry_init for a new structure. */
    method Enroll(t: nat)
      requires Valid() && t !in entries
      modifies this
      ensures Valid() && Ids() == old(Ids())
      ensures entries.Keys == old(entries.Keys) + {t} && fresh(entries.Values - old(entries.Values))
      ensures t !in Ids() && t in entries && fresh(entries[t])
    {
      var e := new Entry(t);
      entries := entries[t := e];
    }

    method Delete(t: nat)
      requires Valid() && t in entries
      modifies list, list.ring
      ensures Valid() && Ids() == Removed(old(Ids()), t)
    {
      OwnersRemoved(list.ring, entries[t]);
      OwnedRemoved(list.ring, entries, entries[t]);
      list.Delete(entries[t]);
      forall s | s in entries && entries[s] !in list.ring
        ensures entries[s].next == null || entries[s].prev == null
      {
        if s != t {
          assert entries[s] !in old(list.ring);
        }
      }
    }

    method Append(t: nat)
      requires Valid() && t in entries
      modifies list, list.ring, entries[t]
      ensures Valid() && Ids() == Appended(old(Ids()), t)
    {
      OwnersAppended(list.ring, entries[t]);
      OwnedAppended(list.ring, entries, t);
      list.Append(entries[t]);
    }

    method IsEmpty() returns (empty: bool)
      requires Valid()
      ensures empty <==> Ids() == []
    {
      empty := list.IsEmpty();
    }

    /** container_of the head. */
    method First() returns (t: nat)
      requires Valid() && Ids() != []
      ensures t == Ids()[0]
    {
      var e := list.First();
      t := e.owner;
    }

    /** Deletes the head. */
    method RemoveFirst() returns (t: nat)
      requires Valid() && Ids() != []
      modifies list, list.ring
      ensures Valid() && Ids() == Removed(old(Ids()), t) && t == old(Ids())[0] && t in entries
      ensures forall e :: e in list.ring ==> e in old(list.ring)
    {
      t := First();
      assert list.ring[0] in list.ring && list.ring[0].owner == t;
      OwnedRemoved(list.ring, entries, entries[t]);
      Delete(t);
    }

    /** Rotates and gives the new head, unless there is none. */
    method Advance() returns (empty: bool, t: nat)
      requires Valid()
      modifies list
      ensures Valid() && Ids() == LeftRotated(old(Ids()))
      ensures empty <==> old(Ids()) == []
      ensures !empty ==> t == Ids()[0]
    {
      t := 0;
      empty := IsEmpty();
      if !empty {
        LeftRotate();
        t := First();
      }
    }

    method LeftRotate()
      requires Valid()
      modifies list
      ensures Valid() && Ids() == LeftRotated(old(Ids()))
    {
      OwnersMoved(list.ring);
      list.LeftRotate();
    }

    method RightRotate()
      requires Valid()
      modifies list
      ensures Valid() && Ids() == RightRotated(old(Ids()))
    {
      OwnersMoved(list.ring);
      list.RightRotate();
    }

    method InsertBefore(t: nat, pos: Entry, ghost i: nat)
      requires Valid() && t in entries && t !in Ids() && i < |Ids()| && list.ring[i] == pos
      modifies list, list.ring, entries[t]
      ensures Valid() && Ids() == InsertedBefore(old(Ids()), i, t)
    {
      OwnersInserted(list.ring, i, entries[t]);
      assert pos.prev == list.ring[Before(i, |list.ring|)];
      list.InsertBefore(pos, entries[t], i);
    }
  }
}
