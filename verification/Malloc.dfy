/** core/malloc.c on lists of free blocks: what each call does to the list. */
module FreeLists {

  /** sizeof(struct free_header). */
  const HEADER := 8

  datatype Block = Block(addr: int, size: int)

  /** Where the list continues: the address of element `i`, or NULL. */
  function AddrAt(bs: seq<Block>, i: nat): int {
    if i < |bs| then bs[i].addr else 0
  }

  function Total(bs: seq<Block>): int {
    if bs == [] then 0 else bs[0].size + Total(bs[1..])
  }

  predicate Adjacent(a: Block, b: Block) {
    a.addr + a.size == b.addr
  }

  function InsertedAt(bs: seq<Block>, i: nat, x: Block): seq<Block>
    requires i <= |bs|
  {
    bs[..i] + [x] + bs[i..]
  }

  function MergedAt(bs: seq<Block>, i: nat): seq<Block>
    requires i + 1 < |bs|
  {
    bs[..i] + [Block(bs[i].addr, bs[i].size + bs[i + 1].size)] + bs[i + 2..]
  }

  /** Element `i` joined with its successor in the list if they touch. */
  function TryMerge(bs: seq<Block>, i: nat): seq<Block> {
    if i + 1 < |bs| && Adjacent(bs[i], bs[i + 1]) then MergedAt(bs, i) else bs
  }

  /** `x` linked in behind element `i`, or joined onto it when they touch; what
      results is then joined with its successor if possible. */
  function FreedAfter(bs: seq<Block>, i: nat, x: Block): seq<Block>
    requires i < |bs|
  {
    var s := InsertedAt(bs, i + 1, x);
    if Adjacent(bs[i], x) then TryMerge(MergedAt(s, i), i) else TryMerge(s, i + 1)
  }

  /** The first element below `p`, or else the last one. */
  function StopsAt(bs: seq<Block>, p: int): (i: nat)
    requires bs != []
    ensures i < |bs|
    ensures bs[i].addr < p || i + 1 == |bs|
    ensures forall k :: 0 <= k < i ==> bs[k].addr >= p && k + 1 < |bs|
  {
    if bs[0].addr < p || |bs| == 1 then 0 else 1 + StopsAt(bs[1..], p)
  }

  /** The block lies below the head of the list. */
  predicate BelowHead(bs: seq<Block>, x: Block) {
    bs != [] && bs[0].addr > x.addr
  }

  /** free_raw.  Below the head it first makes the block the new head and then
      runs the loop on top of that, which either counts the block twice or
      drops every element up to where the loop stops. */
  function Freed(bs: seq<Block>, x: Block): seq<Block> {
    if bs == [] then [x]
    else if !BelowHead(bs, x) then FreedAfter(bs, 0, x)
    else
      FreedInFront(bs, StopsAt(bs, x.addr), x)
  }

  /** What becomes of a block below the head when the search stops at `i`. */
  function FreedInFront(bs: seq<Block>, i: nat, x: Block): seq<Block>
    requires i < |bs|
  {
    if Adjacent(bs[i], x) then [x] + TryMerge(bs[i := Block(bs[i].addr, bs[i].size + x.size)], i)
    else TryMerge([x] + bs[i + 1..], 0)
  }

  /** The first block that is large enough, in list order. */
  function FirstFit(bs: seq<Block>, size: int): (i: nat)
    ensures i <= |bs| && (i < |bs| ==> bs[i].size >= size)
    ensures forall k :: 0 <= k < i ==> bs[k].size < size
  {
    if bs == [] || bs[0].size >= size then 0 else 1 + FirstFit(bs[1..], size)
  }

  function Unlinked(bs: seq<Block>, i: nat): seq<Block>
    requires i < |bs|
  {
    bs[..i] + bs[i + 1..]
  }

  /** What is left of a block after handing out its first `size` bytes. */
  function Rest(b: Block, size: int): Block {
    Block(b.addr + size, b.size - size)
  }

  /** malloc_raw: the list afterwards.  A remainder too small for a header stays
      with the allocation. */
  function Allocated(bs: seq<Block>, size: int): seq<Block> {
    var i := FirstFit(bs, size);
    if i == |bs| then bs
    else if bs[i].size - size >= HEADER then Freed(Unlinked(bs, i), Rest(bs[i], size))
    else Unlinked(bs, i)
  }

  /** Freeing not below the head, in addresses: a block that touches the head joins
      it, any other goes behind it, and what results is joined with the next block
      if they touch. */
  lemma FreedShape(bs: seq<Block>, x: Block)
    requires bs != [] && bs[0].addr <= x.addr
    ensures var touches := bs[0].addr + bs[0].size == x.addr;
            var y := if touches then Block(bs[0].addr, bs[0].size + x.size) else x;
            var next := |bs| > 1 && y.addr + y.size == bs[1].addr;
            Freed(bs, x) == (if touches then [] else [bs[0]]) +
              (if next then [Block(y.addr, y.size + bs[1].size)] + bs[2..] else [y] + bs[1..])
  {
    var s := InsertedAt(bs, 1, x);
    assert s == [bs[0], x] + bs[1..];
    if bs[0].addr + bs[0].size == x.addr {
      var m := MergedAt(s, 0);
      assert m == [Block(bs[0].addr, bs[0].size + x.size)] + bs[1..];
      assert |bs| > 1 ==> MergedAt(m, 0) == [Block(m[0].addr, m[0].size + bs[1].size)] + bs[2..];
    } else if |bs| > 1 {
      assert MergedAt(s, 1) == [bs[0]] + ([Block(x.addr, x.size + bs[1].size)] + bs[2..]);
    }
  }

  /** So freeing the block right behind the head makes room for both together. */
  lemma FreedServes(bs: seq<Block>, x: Block, size: int)
    requires bs != [] && bs[0].size >= 0 && x.size >= 0 && bs[0].addr + bs[0].size == x.addr
    requires size <= bs[0].size + x.size && forall k :: 0 <= k < |bs| ==> bs[k].size >= 0
    ensures FirstFit(Freed(bs, x), size) == 0 && AddrAt(Freed(bs, x), 0) == bs[0].addr
  {
    FreedShape(bs, x);
  }

  // ----- conservation

  lemma {:induction false} TotalConcat(a: seq<Block>, b: seq<Block>)
    ensures Total(a + b) == Total(a) + Total(b)
    decreases a
  {
    if a == [] {
      assert a + b == b;
    } else {
      assert (a + b)[1..] == a[1..] + b;
      TotalConcat(a[1..], b);
    }
  }

  lemma {:induction false} InsertedTotal(bs: seq<Block>, i: nat, x: Block)
    requires i <= |bs|
    ensures Total(InsertedAt(bs, i, x)) == Total(bs) + x.size
    decreases i
  {
    var s := InsertedAt(bs, i, x);
    if i == 0 {
      assert s[0] == x && s[1..] == bs;
    } else {
      assert s[0] == bs[0] && s[1..] == InsertedAt(bs[1..], i - 1, x);
      InsertedTotal(bs[1..], i - 1, x);
    }
  }

  /** Replacing one size changes the total by the difference. */
  lemma {:induction false} GrownTotal(bs: seq<Block>, i: nat, more: int)
    requires i < |bs|
    ensures Total(bs[i := Block(bs[i].addr, bs[i].size + more)]) == Total(bs) + more
    decreases i
  {
    var s := bs[i := Block(bs[i].addr, bs[i].size + more)];
    if i == 0 {
      assert s[1..] == bs[1..];
    } else {
      assert s[1..] == bs[1..][i - 1 := s[i]];
      GrownTotal(bs[1..], i - 1, more);
    }
  }

  lemma {:induction false} UnlinkedTotal(bs: seq<Block>, i: nat)
    requires i < |bs|
    ensures Total(Unlinked(bs, i)) == Total(bs) - bs[i].size
    decreases i
  {
    var s := Unlinked(bs, i);
    if i == 0 {
      assert s == bs[1..];
    } else {
      assert s[0] == bs[0] && s[1..] == Unlinked(bs[1..], i - 1);
      UnlinkedTotal(bs[1..], i - 1);
    }
  }

  lemma {:induction false} MergedTotal(bs: seq<Block>, i: nat)
    requires i + 1 < |bs|
    ensures Total(MergedAt(bs, i)) == Total(bs)
    decreases i
  {
    var m := MergedAt(bs, i);
    if i == 0 {
      assert m[1..] == bs[2..] == bs[1..][1..];
    } else {
      assert m[0] == bs[0] && m[1..] == MergedAt(bs[1..], i - 1);
      MergedTotal(bs[1..], i - 1);
    }
  }

  lemma TryMergeTotal(bs: seq<Block>, i: nat)
    ensures Total(TryMerge(bs, i)) == Total(bs)
  {
    if i + 1 < |bs| && Adjacent(bs[i], bs[i + 1]) {
      MergedTotal(bs, i);
    }
  }

  lemma FreedAfterTotal(bs: seq<Block>, i: nat, x: Block)
    requires i < |bs|
    ensures Total(FreedAfter(bs, i, x)) == Total(bs) + x.size
  {
    var s := InsertedAt(bs, i + 1, x);
    InsertedTotal(bs, i + 1, x);
    if Adjacent(bs[i], x) {
      MergedTotal(s, i);
      TryMergeTotal(MergedAt(s, i), i);
    } else {
      TryMergeTotal(s, i + 1);
    }
  }

  ghost predicate Sized(bs: seq<Block>) {
    forall i :: 0 <= i < |bs| ==> bs[i].addr > 0 && bs[i].size >= HEADER
  }

  lemma {:induction false} SizedTotal(bs: seq<Block>)
    requires Sized(bs)
    ensures Total(bs) >= HEADER * |bs|
  {
    if bs != [] {
      SizedTotal(bs[1..]);
    }
  }

  lemma {:induction false} SuffixTotal(bs: seq<Block>, k: nat)
    requires Sized(bs) && 0 < k <= |bs|
    ensures Total(bs[k..]) < Total(bs)
  {
    if k > 1 {
      assert bs[1..][k - 1..] == bs[k..];
      SuffixTotal(bs[1..], k - 1);
    }
  }

  /** Below the head, the list loses blocks or counts one twice. */
  lemma BelowHeadTotal(bs: seq<Block>, x: Block)
    requires Sized(bs) && x.size >= HEADER && BelowHead(bs, x)
    ensures Total(Freed(bs, x)) != Total(bs) + x.size
  {
    var i := StopsAt(bs, x.addr);
    if Adjacent(bs[i], x) {
      GrownTotal(bs, i, x.size);
      TryMergeTotal(bs[i := Block(bs[i].addr, bs[i].size + x.size)], i);
      TotalConcat([x], TryMerge(bs[i := Block(bs[i].addr, bs[i].size + x.size)], i));
    } else {
      TryMergeTotal([x] + bs[i + 1..], 0);
      TotalConcat([x], bs[i + 1..]);
      SuffixTotal(bs, i + 1);
    }
  }

  /** Freeing conserves memory exactly when the block does not lie below the
      head of the free list. */
  lemma FreeConserves(bs: seq<Block>, x: Block)
    requires Sized(bs) && x.size >= HEADER
    ensures Total(Freed(bs, x)) == Total(bs) + x.size <==> !BelowHead(bs, x)
  {
    if BelowHead(bs, x) {
      BelowHeadTotal(bs, x);
    } else if bs != [] {
      FreedAfterTotal(bs, 0, x);
    }
  }

  /** malloc_raw takes `size` bytes out of the free list, or the whole block when
      no header fits behind them, unless its remainder lies below the head. */
  lemma AllocateConserves(bs: seq<Block>, size: int)
    requires Sized(bs) && size >= HEADER
    ensures var i := FirstFit(bs, size);
            if i == |bs| then Allocated(bs, size) == bs
            else if bs[i].size - size < HEADER then Total(Allocated(bs, size)) == Total(bs) - bs[i].size
            else Total(Allocated(bs, size)) == Total(bs) - size <==> !BelowHead(Unlinked(bs, i), Rest(bs[i], size))
  {
    var i := FirstFit(bs, size);
    if i < |bs| {
      UnlinkedTotal(bs, i);
      if bs[i].size - size >= HEADER {
        FreeConserves(Unlinked(bs, i), Rest(bs[i], size));
      }
    }
  }

  // ----- disjointness

  predicate Disjoint(a: Block, b: Block) {
    a.addr + a.size <= b.addr || b.addr + b.size <= a.addr
  }

  ghost predicate Apart(x: Block, bs: seq<Block>) {
    forall i :: 0 <= i < |bs| ==> Disjoint(x, bs[i])
  }

  ghost predicate AllApart(bs: seq<Block>) {
    forall i, j :: 0 <= i < j < |bs| ==> Disjoint(bs[i], bs[j])
  }

  lemma InsertedApart(bs: seq<Block>, i: nat, x: Block)
    requires i <= |bs| && Sized(bs) && AllApart(bs) && Apart(x, bs) && x.addr > 0 && x.size >= HEADER
    ensures Sized(InsertedAt(bs, i, x)) && AllApart(InsertedAt(bs, i, x))
    ensures forall y :: Apart(y, bs) && Disjoint(x, y) ==> Apart(y, InsertedAt(bs, i, x))
  {
    var s := InsertedAt(bs, i, x);
    assert forall k :: 0 <= k < |s| ==> s[k] == if k < i then bs[k] else if k == i then x else bs[k - 1];
  }

  lemma MergedApart(bs: seq<Block>, i: nat)
    requires i + 1 < |bs| && Sized(bs) && AllApart(bs) && Adjacent(bs[i], bs[i + 1])
    ensures Sized(MergedAt(bs, i)) && AllApart(MergedAt(bs, i))
    ensures forall y {:trigger Apart(y, bs)} :: Apart(y, bs) && y.size >= HEADER ==> Apart(y, MergedAt(bs, i))
  {
    var s := MergedAt(bs, i);
    assert forall k :: 0 <= k < |s| ==> s[k] == if k < i then bs[k]
        else if k == i then Block(bs[i].addr, bs[i].size + bs[i + 1].size) else bs[k + 1];
  }

  lemma UnlinkedApart(bs: seq<Block>, i: nat)
    requires i < |bs| && Sized(bs) && AllApart(bs)
    ensures Sized(Unlinked(bs, i)) && AllApart(Unlinked(bs, i)) && Apart(bs[i], Unlinked(bs, i))
    ensures forall y {:trigger Apart(y, bs)} :: Apart(y, bs) ==> Apart(y, Unlinked(bs, i))
  {
    var s := Unlinked(bs, i);
    assert forall k :: 0 <= k < |s| ==> s[k] == if k < i then bs[k] else bs[k + 1];
  }

  /** Freeing a block that lies apart and not below the head keeps the free
      blocks apart, from each other and from everything else. */
  lemma FreedApart(bs: seq<Block>, x: Block, y: Block)
    requires Sized(bs) && AllApart(bs) && Apart(x, bs) && x.addr > 0 && x.size >= HEADER && !BelowHead(bs, x)
    ensures Sized(Freed(bs, x)) && AllApart(Freed(bs, x))
    ensures Apart(y, bs) && Disjoint(x, y) && y.size >= HEADER ==> Apart(y, Freed(bs, x))
  {
    if bs != [] {
      var s := InsertedAt(bs, 1, x);
      InsertedApart(bs, 1, x);
      assert s[0] == bs[0] && s[1] == x;
      if Adjacent(bs[0], x) {
        MergedApart(s, 0);
        TryMergeApart(MergedAt(s, 0), 0, y);
      } else {
        TryMergeApart(s, 1, y);
      }
    }
  }

  lemma TryMergeApart(bs: seq<Block>, i: nat, y: Block)
    requires Sized(bs) && AllApart(bs)
    ensures Sized(TryMerge(bs, i)) && AllApart(TryMerge(bs, i))
    ensures Apart(y, bs) && y.size >= HEADER ==> Apart(y, TryMerge(bs, i))
  {
    if i + 1 < |bs| && Adjacent(bs[i], bs[i + 1]) {
      MergedApart(bs, i);
    }
  }
}

/** core/malloc.c itself: headers in memory, linked by address. */
module Heaps {
  import opened FreeLists

  datatype Header = Header(size: int, next: int)

  /** The list `bs` is what the headers starting at `head` spell out. */
  ghost predicate Linked(mem: map<int, Header>, head: int, bs: seq<Block>) {
    head == AddrAt(bs, 0) && Links(mem, bs)
  }

  ghost predicate Links(mem: map<int, Header>, bs: seq<Block>) {
    forall i :: 0 <= i < |bs| ==> LinkAt(mem, bs, i)
  }

  ghost predicate LinkAt(mem: map<int, Header>, bs: seq<Block>, i: nat)
    requires i < |bs|
  {
    bs[i].addr in mem && mem[bs[i].addr] == Header(bs[i].size, AddrAt(bs, i + 1))
  }

  lemma ApartDistinct(bs: seq<Block>)
    requires Sized(bs) && AllApart(bs)
    ensures forall i, j :: 0 <= i < |bs| && 0 <= j < |bs| && i != j ==> bs[i].addr != bs[j].addr
  {
    forall i, j | 0 <= i < |bs| && 0 <= j < |bs| && i != j
      ensures bs[i].addr != bs[j].addr
    {
      assert if i < j then Disjoint(bs[i], bs[j]) else Disjoint(bs[j], bs[i]);
    }
  }

  lemma ApartAddress(x: Block, bs: seq<Block>)
    requires Sized(bs) && Apart(x, bs) && x.size >= HEADER
    ensures forall i :: 0 <= i < |bs| ==> bs[i].addr != x.addr
  {
    forall i | 0 <= i < |bs|
      ensures bs[i].addr != x.addr
    {
      assert Disjoint(x, bs[i]);
    }
  }

  ghost predicate DistinctAddresses(bs: seq<Block>) {
    && (forall i, j :: 0 <= i < |bs| && 0 <= j < |bs| && i != j ==> bs[i].addr != bs[j].addr)
    && (forall i :: 0 <= i < |bs| ==> bs[i].addr > 0)
  }

  /** Joining a block with its successor in memory. */
  function Coalesced(mem: map<int, Header>, ptr: int): map<int, Header>
    requires ptr in mem
  {
    var next := mem[ptr].next;
    if next != 0 && next in mem && ptr + mem[ptr].size == next then
      mem[ptr := Header(mem[ptr].size + mem[next].size, mem[next].next)]
    else mem
  }

  lemma CoalescedMerges(mem: map<int, Header>, head: int, bs: seq<Block>, i: nat)
    requires Linked(mem, head, bs) && DistinctAddresses(bs) && i < |bs|
    ensures bs[i].addr in mem && Linked(Coalesced(mem, bs[i].addr), head, TryMerge(bs, i))
  {
    assert LinkAt(mem, bs, i);
    if i + 1 < |bs| && Adjacent(bs[i], bs[i + 1]) {
      assert LinkAt(mem, bs, i + 1);
      var s, after := MergedAt(bs, i), Coalesced(mem, bs[i].addr);
      forall k | 0 <= k < |s|
        ensures LinkAt(after, s, k)
      {
        var j := if k <= i then k else k + 1;
        assert LinkAt(mem, bs, j);
        assert s[k] == if k < i then bs[k] else if k == i then Block(bs[i].addr, bs[i].size + bs[i + 1].size)
            else bs[k + 1];
        assert AddrAt(s, k + 1) == if k < i then AddrAt(bs, k + 1) else AddrAt(bs, k + 2);
      }
    } else if i + 1 < |bs| {
      assert bs[i + 1].addr != 0;
    }
  }

  /** The body of the loop in free_raw, at the element where it stops. */
  function Spliced(mem: map<int, Header>, block: int, ptr: int): map<int, Header>
    requires block in mem && ptr in mem
  {
    if block + mem[block].size == ptr then
      Coalesced(mem[block := Header(mem[block].size + mem[ptr].size, mem[block].next)], block)
    else
      var linked := mem[ptr := Header(mem[ptr].size, mem[block].next)];
      Coalesced(linked[block := Header(linked[block].size, ptr)], ptr)
  }

  lemma LinkedIn(mem: map<int, Header>, head: int, bs: seq<Block>, i: nat, x: Block)
    requires Linked(mem, head, bs) && i < |bs| && x.addr in mem && mem[x.addr].size == x.size
    requires DistinctAddresses(bs) && x.addr > 0 && forall k :: 0 <= k < |bs| ==> bs[k].addr != x.addr
    ensures bs[i].addr in mem
    ensures var linked := mem[x.addr := Header(x.size, mem[bs[i].addr].next)][bs[i].addr := Header(bs[i].size, x.addr)];
            Linked(linked, head, InsertedAt(bs, i + 1, x)) && DistinctAddresses(InsertedAt(bs, i + 1, x))
  {
    assert LinkAt(mem, bs, i);
    var s := InsertedAt(bs, i + 1, x);
    var linked := mem[x.addr := Header(x.size, mem[bs[i].addr].next)][bs[i].addr := Header(bs[i].size, x.addr)];
    InsertedDistinct(bs, i + 1, x);
    forall k | 0 <= k < |s|
      ensures LinkAt(linked, s, k)
    {
      assert AddrAt(s, k + 1) == if k < i then AddrAt(bs, k + 1) else if k == i then x.addr else AddrAt(bs, k);
      if k == i + 1 {
        assert s[k] == x;
      } else {
        var j := if k <= i then k else k - 1;
        assert s[k] == bs[j] && LinkAt(mem, bs, j);
      }
    }
  }

  lemma InsertedDistinct(bs: seq<Block>, i: nat, x: Block)
    requires i <= |bs| && DistinctAddresses(bs) && x.addr > 0 && forall k :: 0 <= k < |bs| ==> bs[k].addr != x.addr
    ensures DistinctAddresses(InsertedAt(bs, i, x))
  {
    var s := InsertedAt(bs, i, x);
    assert forall k :: 0 <= k < |s| ==> s[k] == if k < i then bs[k] else if k == i then x else bs[k - 1];
  }

  lemma GrownIn(mem: map<int, Header>, head: int, bs: seq<Block>, i: nat, more: int)
    requires Linked(mem, head, bs) && i < |bs| && DistinctAddresses(bs)
    ensures bs[i].addr in mem
    ensures var grown := bs[i := Block(bs[i].addr, bs[i].size + more)];
            Linked(mem[bs[i].addr := Header(mem[bs[i].addr].size + more, mem[bs[i].addr].next)], head, grown) &&
                DistinctAddresses(grown)
  {
    assert LinkAt(mem, bs, i);
    var grown := bs[i := Block(bs[i].addr, bs[i].size + more)];
    var after := mem[bs[i].addr := Header(mem[bs[i].addr].size + more, mem[bs[i].addr].next)];
    forall k | 0 <= k < |bs|
      ensures LinkAt(after, grown, k)
    {
      assert LinkAt(mem, bs, k);
      assert AddrAt(grown, k + 1) == AddrAt(bs, k + 1);
    }
  }

  /** Joined onto element `i` or linked in behind it: the list that results. */
  lemma SplicedAfter(mem: map<int, Header>, head: int, bs: seq<Block>, i: nat, x: Block)
    requires Linked(mem, head, bs) && i < |bs| && x.addr in mem && mem[x.addr].size == x.size
    requires DistinctAddresses(bs) && x.addr > 0 && forall k :: 0 <= k < |bs| ==> bs[k].addr != x.addr
    ensures bs[i].addr in mem && Linked(Spliced(mem, bs[i].addr, x.addr), head, FreedAfter(bs, i, x))
  {
    assert LinkAt(mem, bs, i);
    var s := InsertedAt(bs, i + 1, x);
    if Adjacent(bs[i], x) {
      var grown := bs[i := Block(bs[i].addr, bs[i].size + x.size)];
      GrownIn(mem, head, bs, i, x.size);
      assert MergedAt(s, i) == grown;
      CoalescedMerges(mem[bs[i].addr := Header(bs[i].size + x.size, mem[bs[i].addr].next)], head, grown, i);
    } else {
      LinkedIn(mem, head, bs, i, x);
      assert s[i + 1] == x;
      CoalescedMerges(mem[x.addr := Header(x.size, mem[bs[i].addr].next)][bs[i].addr := Header(bs[i].size, x.addr)],
          head, s, i + 1);
    }
  }

  /** The same code when the block was made the head just before: joined onto
      element `i` it is in the list twice over, linked behind it everything in
      front is lost. */
  lemma SplicedOnto(mem: map<int, Header>, bs: seq<Block>, i: nat, x: Block)
    requires Linked(mem, x.addr, [x] + bs) && DistinctAddresses([x] + bs) && i < |bs| && Adjacent(bs[i], x)
    requires bs[i].addr in mem && x.addr in mem
    ensures Linked(Spliced(mem, bs[i].addr, x.addr), x.addr, FreedInFront(bs, i, x))
  {
    var all := [x] + bs;
    assert all[i + 1] == bs[i] && all[0] == x;
    assert LinkAt(mem, all, i + 1) && LinkAt(mem, all, 0);
    var taller := bs[i := Block(bs[i].addr, bs[i].size + x.size)];
    var grown := all[i + 1 := Block(bs[i].addr, bs[i].size + x.size)];
    assert grown == [x] + taller;
    GrownIn(mem, x.addr, all, i + 1, x.size);
    CoalescedMerges(mem[bs[i].addr := Header(bs[i].size + x.size, mem[bs[i].addr].next)], x.addr, grown, i + 1);
    TryMergeTail(x, taller, i);
  }

  lemma SplicedBelowHead(mem: map<int, Header>, bs: seq<Block>, i: nat, x: Block)
    requires Linked(mem, x.addr, [x] + bs) && DistinctAddresses([x] + bs) && i < |bs|
    ensures bs[i].addr in mem && x.addr in mem
    ensures Linked(Spliced(mem, bs[i].addr, x.addr), x.addr, FreedInFront(bs, i, x))
  {
    var all := [x] + bs;
    assert all[i + 1] == bs[i] && all[0] == x;
    assert LinkAt(mem, all, i + 1) && LinkAt(mem, all, 0);
    if Adjacent(bs[i], x) {
      SplicedOnto(mem, bs, i, x);
    } else {
      var kept := [x] + bs[i + 1..];
      var linked := mem[x.addr := Header(x.size, mem[bs[i].addr].next)][bs[i].addr := Header(bs[i].size, x.addr)];
      KeptTail(mem, bs, i, x);
      CoalescedMerges(linked, x.addr, kept, 0);
    }
  }

  lemma MergedTail(x: Block, bs: seq<Block>, i: nat)
    requires i + 1 < |bs|
    ensures MergedAt([x] + bs, i + 1) == [x] + MergedAt(bs, i)
  {
    var left, right := MergedAt([x] + bs, i + 1), [x] + MergedAt(bs, i);
    assert |left| == |right| == |bs|;
    forall k | 0 <= k < |bs|
      ensures left[k] == right[k]
    {
      if k > i + 1 {
        assert left[k] == bs[k] == right[k];
      }
    }
  }

  lemma TryMergeTail(x: Block, bs: seq<Block>, i: nat)
    ensures TryMerge([x] + bs, i + 1) == [x] + TryMerge(bs, i)
  {
    if i + 1 < |bs| {
      MergedTail(x, bs, i);
    }
  }

  lemma KeptTail(mem: map<int, Header>, bs: seq<Block>, i: nat, x: Block)
    requires Linked(mem, x.addr, [x] + bs) && DistinctAddresses([x] + bs) && i < |bs|
    ensures bs[i].addr in mem && x.addr in mem
    ensures var linked := mem[x.addr := Header(x.size, mem[bs[i].addr].next)][bs[i].addr := Header(bs[i].size, x.addr)];
            Linked(linked, x.addr, [x] + bs[i + 1..]) && DistinctAddresses([x] + bs[i + 1..])
  {
    var all, kept := [x] + bs, [x] + bs[i + 1..];
    assert LinkAt(mem, all, i + 1) && LinkAt(mem, all, 0);
    assert all[i + 1] == bs[i];
    var linked := mem[x.addr := Header(x.size, mem[bs[i].addr].next)][bs[i].addr := Header(bs[i].size, x.addr)];
    assert forall k :: 0 <= k < |kept| ==> kept[k] == all[if k == 0 then 0 else k + i + 1];
    forall k | 0 <= k < |kept|
      ensures LinkAt(linked, kept, k)
    {
      var j := if k == 0 then 0 else k + i + 1;
      assert LinkAt(mem, all, j);
      assert AddrAt(kept, k + 1) == AddrAt(all, k + i + 2);
    }
  }

  class Heap {
    var mem: map<int, Header>
    var head: int
    ghost var free: seq<Block>

    ghost predicate Valid()
      reads this
    {
      Linked(mem, head, free) && Sized(free) && AllApart(free)
    }

    constructor ()
      ensures Valid() && free == []
    {
      mem, head, free := map[], 0, [];
    }

    /** free_raw, on any block that overlaps no free one. */
    method FreeRaw(ptr: int, size: int)
      requires Valid() && ptr > 0 && size >= HEADER && Apart(Block(ptr, size), free)
      modifies this
      ensures Linked(mem, head, free) && free == Freed(old(free), Block(ptr, size))
      ensures !BelowHead(old(free), Block(ptr, size)) ==> Valid()
    {
      ghost var x, bs := Block(ptr, size), free;
      free := Freed(bs, x);
      ghost var all := bs;
      if head == 0 {
        mem := mem[ptr := Header(size, 0)];
        head := ptr;
        return;
      } else if head > ptr {
        // free_head + size never equals the lower address ptr
        mem := mem[ptr := Header(size, head)];
        FreedBelow(old(mem), mem, head, bs, x);
        FreedBelowSpliced(mem, bs, x);
        StopsPastHead(x, bs);
        head := ptr;
        all := [x] + bs;
      } else {
        mem := mem[ptr := Header(size, 0)];
        FreedAbove(old(mem), mem, head, bs, x);
        FreedApart(bs, x, x);
      }
      var block := FindStop(ptr, all);
      Splice(block, ptr);
    }

    /** The loop of free_raw: to the first element below the block, or else to
        the last one. */
    method FindStop(ptr: int, ghost all: seq<Block>) returns (block: int)
      requires all != [] && Linked(mem, head, all) && DistinctAddresses(all)
      ensures block == all[StopsAt(all, ptr)].addr && block in mem
    {
      ghost var stop := StopsAt(all, ptr);
      ghost var i := 0;
      block := head;
      assert LinkAt(mem, all, 0);
      while !(block < ptr || mem[block].next == 0)
        invariant 0 <= i <= stop && block == all[i].addr && LinkAt(mem, all, i)
        decreases stop - i
      {
        assert i + 1 < |all| && LinkAt(mem, all, i + 1);
        block := mem[block].next;
        i := i + 1;
      }
    }

    method Splice(block: int, ptr: int)
      requires block in mem && ptr in mem
      modifies this`mem
      ensures mem == Spliced(old(mem), block, ptr)
    {
      var joined := ptr;
      if block + mem[block].size == ptr {
        mem := mem[block := Header(mem[block].size + mem[ptr].size, mem[block].next)];
        joined := block;
      } else {
        mem := mem[ptr := Header(mem[ptr].size, mem[block].next)];
        mem := mem[block := Header(mem[block].size, ptr)];
      }
      var next := mem[joined].next;
      if next != 0 && next in mem && joined + mem[joined].size == next {
        mem := mem[joined := Header(mem[joined].size + mem[next].size, mem[next].next)];
      }
    }

    /** The loop of malloc_raw: the predecessor of the first block that fits, or 0
        when none behind the head does. */
    method FindFit(size: int) returns (prev: int)
      requires Linked(mem, head, free) && DistinctAddresses(free) && free != [] && free[0].size < size
      ensures var fit := FirstFit(free, size);
              fit >= 1 && prev == if fit == |free| then 0 else free[fit - 1].addr
    {
      assert LinkAt(mem, free, 0);
      prev := head;
      ghost var i := 0;
      while mem[prev].next != 0
        invariant 0 <= i < |free| && i < FirstFit(free, size) && prev == free[i].addr && LinkAt(mem, free, i)
        decreases |free| - i
      {
        assert i + 1 < |free| && LinkAt(mem, free, i + 1);
        var next := mem[prev].next;
        if mem[next].size >= size {
          return;
        }
        prev := next;
        i := i + 1;
      }
      prev := 0;
    }

    /** The first block that fits is taken out of the list; 0 when there is none. */
    method Take(size: int) returns (ptr: int)
      requires Linked(mem, head, free) && DistinctAddresses(free) && free != []
      modifies this`mem, this`head
      ensures ptr == AddrAt(free, FirstFit(free, size))
      ensures var fit := FirstFit(free, size);
              if fit == |free| then mem == old(mem) && head == old(head)
              else ptr in mem && mem[ptr].size == free[fit].size && Linked(mem, head, Unlinked(free, fit))
    {
      assert LinkAt(mem, free, 0);
      if mem[head].size >= size {
        ptr := head;
        UnlinkedLinks(mem, head, free, 0);
        head := mem[head].next;
        return;
      }
      var prev := FindFit(size);
      if prev == 0 {
        return 0;
      }
      ghost var fit := FirstFit(free, size);
      assert LinkAt(mem, free, fit - 1) && LinkAt(mem, free, fit);
      UnlinkedLinks(mem, head, free, fit);
      ptr := mem[prev].next;
      mem := mem[prev := Header(mem[prev].size, mem[ptr].next)];
    }

    /** malloc_raw: the first block that fits, in list order, or NULL when none
        does.  `headless` says that it read the size of a missing head; the source
        does so through a null pointer, the model finds nothing there. */
    method MallocRaw(size: int) returns (ptr: int, headless: bool)
      requires Valid() && size >= HEADER
      modifies this
      ensures headless <==> old(free) == []
      ensures Linked(mem, head, free) && free == Allocated(old(free), size)
      ensures ptr == AddrAt(old(free), FirstFit(old(free), size))
      ensures ptr == 0 <==> forall i :: 0 <= i < |old(free)| ==> old(free)[i].size < size
    {
      ptr, headless := 0, head == 0;
      if headless {
        return;
      }
      ghost var fit := FirstFit(free, size);
      ApartDistinct(free);
      ptr := Take(size);
      if ptr != 0 {
        UnlinkedApart(free, fit);
        Carve(ptr, size, free[fit], Unlinked(free, fit));
      }
    }

    /** The unlinked block is cut to size; what is left over goes back. */
    method Carve(ptr: int, size: int, ghost b: Block, ghost rest: seq<Block>)
      requires ptr == b.addr > 0 && HEADER <= size <= b.size && Sized(rest) && AllApart(rest) && Apart(b, rest)
      requires Linked(mem, head, rest) && ptr in mem && mem[ptr].size == b.size
      modifies this
      ensures Linked(mem, head, free)
      ensures free == if b.size - size >= HEADER then Freed(rest, Rest(b, size)) else rest
    {
      free := rest;
      var left := mem[ptr].size - size;
      if left >= HEADER {
        RestApart(b, rest, size);
        assert Block(ptr + size, left) == Rest(b, size);
        FreeRaw(ptr + size, left);
      }
    }

    /** The sum over the list. */
    method GetFreeSize() returns (size: int)
      requires Valid()
      ensures size == Total(free)
    {
      size := 0;
      var ptr := head;
      ghost var i := 0;
      while ptr != 0
        invariant 0 <= i <= |free| && ptr == AddrAt(free, i)
        invariant size + Total(free[i..]) == Total(free)
        decreases |free| - i
      {
        assert LinkAt(mem, free, i);
        assert free[i..][1..] == free[i + 1..];
        size := size + mem[ptr].size;
        ptr := mem[ptr].next;
        i := i + 1;
      }
    }
  }

  lemma LinksKept(mem: map<int, Header>, after: map<int, Header>, bs: seq<Block>, ptr: int, h: Header)
    requires Links(mem, bs) && after == mem[ptr := h]
    requires forall i :: 0 <= i < |bs| ==> bs[i].addr != ptr
    ensures Links(after, bs)
  {
    forall i | 0 <= i < |bs|
      ensures LinkAt(after, bs, i)
    {
      assert LinkAt(mem, bs, i);
    }
  }

  /** Freeing above the head: the loop stops at once, behind the head. */
  lemma FreedAbove(mem: map<int, Header>, after: map<int, Header>, head: int, bs: seq<Block>, x: Block)
    requires Linked(mem, head, bs) && Sized(bs) && AllApart(bs) && bs != []
    requires x.addr > 0 && x.size >= HEADER && Apart(x, bs) && !BelowHead(bs, x)
    requires after == mem[x.addr := Header(x.size, 0)]
    ensures Linked(after, head, bs) && DistinctAddresses(bs) && StopsAt(bs, x.addr) == 0 && bs[0].addr in after
    ensures Linked(Spliced(after, bs[0].addr, x.addr), head, Freed(bs, x))
  {
    ApartDistinct(bs);
    ApartAddress(x, bs);
    LinksKept(mem, after, bs, x.addr, Header(x.size, 0));
    SplicedAfter(after, head, bs, 0, x);
  }

  /** Freeing below the head: first the block becomes the head. */
  lemma FreedBelow(mem: map<int, Header>, after: map<int, Header>, head: int, bs: seq<Block>, x: Block)
    requires Linked(mem, head, bs) && Sized(bs) && AllApart(bs)
    requires x.addr > 0 && x.size >= HEADER && Apart(x, bs) && BelowHead(bs, x)
    requires after == mem[x.addr := Header(x.size, head)]
    ensures Linked(after, x.addr, [x] + bs) && DistinctAddresses([x] + bs)
  {
    ApartDistinct(bs);
    ApartAddress(x, bs);
    LinksKept(mem, after, bs, x.addr, Header(x.size, head));
    BelowHeadLinked(after, bs, x);
  }

  lemma FreedBelowSpliced(mem: map<int, Header>, bs: seq<Block>, x: Block)
    requires Linked(mem, x.addr, [x] + bs) && DistinctAddresses([x] + bs) && BelowHead(bs, x)
    ensures var block := bs[StopsAt(bs, x.addr)].addr;
            block in mem && x.addr in mem && Linked(Spliced(mem, block, x.addr), x.addr, Freed(bs, x))
  {
    SplicedBelowHead(mem, bs, StopsAt(bs, x.addr), x);
  }

  lemma StopsPastHead(x: Block, bs: seq<Block>)
    requires bs != []
    ensures ([x] + bs)[StopsAt([x] + bs, x.addr)] == bs[StopsAt(bs, x.addr)]
  {
    assert ([x] + bs)[1..] == bs;
  }

  lemma RestApart(b: Block, bs: seq<Block>, size: int)
    requires Apart(b, bs) && 0 < size < b.size
    ensures Apart(Rest(b, size), bs)
  {
    forall i | 0 <= i < |bs|
      ensures Disjoint(Rest(b, size), bs[i])
    {
      assert Disjoint(b, bs[i]);
    }
  }

  /** Taking element `i` out by redirecting whoever points at it. */
  lemma UnlinkedLinks(mem: map<int, Header>, head: int, bs: seq<Block>, i: nat)
    requires Linked(mem, head, bs) && DistinctAddresses(bs) && i < |bs|
    ensures bs[i].addr in mem && mem[bs[i].addr].size == bs[i].size
    ensures i == 0 ==> Linked(mem, mem[bs[i].addr].next, Unlinked(bs, i))
    ensures i > 0 ==> bs[i - 1].addr in mem
    ensures i > 0 ==> Linked(mem[bs[i - 1].addr := Header(mem[bs[i - 1].addr].size, mem[bs[i].addr].next)], head,
              Unlinked(bs, i))
  {
    assert LinkAt(mem, bs, i);
    var s := Unlinked(bs, i);
    if i > 0 {
      assert LinkAt(mem, bs, i - 1);
    }
    var after := if i == 0 then mem else mem[bs[i - 1].addr := Header(mem[bs[i - 1].addr].size, mem[bs[i].addr].next)];
    forall k | 0 <= k < |s|
      ensures LinkAt(after, s, k)
    {
      var j := if k < i then k else k + 1;
      assert LinkAt(mem, bs, j) && s[k] == bs[j];
      assert AddrAt(s, k + 1) == if k + 1 < i then AddrAt(bs, k + 1) else AddrAt(bs, k + 2);
    }
    assert i > 0 ==> s[0] == bs[0];
  }

  lemma BelowHeadLinked(mem: map<int, Header>, bs: seq<Block>, x: Block)
    requires bs != [] && Links(mem, bs)
    requires DistinctAddresses(bs) && x.addr > 0 && forall k :: 0 <= k < |bs| ==> bs[k].addr != x.addr
    requires x.addr in mem && mem[x.addr] == Header(x.size, bs[0].addr)
    ensures Linked(mem, x.addr, [x] + bs) && DistinctAddresses([x] + bs)
  {
    var all := [x] + bs;
    forall k | 0 <= k < |all|
      ensures LinkAt(mem, all, k)
    {
      if k > 0 {
        assert LinkAt(mem, bs, k - 1);
        assert AddrAt(all, k + 1) == AddrAt(bs, k);
      }
    }
  }
}
