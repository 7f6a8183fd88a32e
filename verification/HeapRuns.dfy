/** Runs of the allocator that never free, directly or as the remainder of an
    allocation, a block below the head of the free list. */
module HeapRuns {
  import opened FreeLists
  import opened Heaps

  /** `live` are the blocks handed out, with the size asked for; `slack` is what
      allocations kept because no header fitted into it. */
  datatype State = State(free: seq<Block>, live: seq<Block>, slack: int, allocations: nat)

  datatype Op = Malloc(size: int) | Free(k: nat)

  /** The runs on which the allocator is sound. */
  predicate Sound(s: State, op: Op) {
    match op
    case Malloc(size) =>
      size >= HEADER && s.free != [] &&
      var i := FirstFit(s.free, size);
      (i < |s.free| && s.free[i].size - size >= HEADER ==> !BelowHead(Unlinked(s.free, i), Rest(s.free[i], size)))
    case Free(k) => k < |s.live| && !BelowHead(s.free, s.live[k])
  }

  function Step(s: State, op: Op): State
    requires Sound(s, op)
  {
    match op
    case Malloc(size) =>
      var i := FirstFit(s.free, size);
      if i == |s.free| then s
      else
        var left := s.free[i].size - size;
        State(Allocated(s.free, size),
              s.live + [Block(s.free[i].addr, size)],
              s.slack + if left >= HEADER then 0 else left,
              s.allocations + 1)
    case Free(k) => s.(free := Freed(s.free, s.live[k]), live := Unlinked(s.live, k))
  }

  /** Free blocks are apart from each other and from live ones, live ones from
      each other, and every byte of the heap is free, live or slack, with less
      than one header of slack per allocation. */
  ghost predicate Inv(s: State, total: int) {
    && Sized(s.free) && AllApart(s.free) && Sized(s.live) && AllApart(s.live)
    && (forall k :: 0 <= k < |s.live| ==> Apart(s.live[k], s.free))
    && Total(s.free) + Total(s.live) + s.slack == total
    && 0 <= s.slack <= (HEADER - 1) * s.allocations
  }

  lemma Taken(b: Block, size: int, bs: seq<Block>)
    requires Apart(b, bs) && HEADER <= size <= b.size
    ensures Apart(Block(b.addr, size), bs)
    ensures size < b.size ==> Apart(Rest(b, size), bs)
  {
    forall i | 0 <= i < |bs|
      ensures Disjoint(Block(b.addr, size), bs[i]) && (size < b.size ==> Disjoint(Rest(b, size), bs[i]))
    {
      assert Disjoint(b, bs[i]);
    }
  }

  /** After an allocation, `y` is still apart from the free blocks. */
  lemma AllocatedApart(bs: seq<Block>, size: int, y: Block)
    requires Sized(bs) && AllApart(bs) && Sound(State(bs, [], 0, 0), Malloc(size)) && FirstFit(bs, size) < |bs|
    requires y.size >= HEADER && (Apart(y, bs) || y == Block(bs[FirstFit(bs, size)].addr, size))
    ensures Sized(Allocated(bs, size)) && AllApart(Allocated(bs, size)) && Apart(y, Allocated(bs, size))
  {
    var i := FirstFit(bs, size);
    var b, rest := bs[i], Unlinked(bs, i);
    UnlinkedApart(bs, i);
    Taken(b, size, rest);
    if b.size - size >= HEADER {
      assert Disjoint(Rest(b, size), y) by {
        if Apart(y, bs) {
          assert Disjoint(y, bs[i]);
        }
      }
      FreedApart(rest, Rest(b, size), y);
    }
  }

  lemma MallocTotals(s: State, size: int, total: int)
    requires Inv(s, total) && Sound(s, Malloc(size)) && FirstFit(s.free, size) < |s.free|
    ensures var t := Step(s, Malloc(size));
            Total(t.free) + Total(t.live) + t.slack == total && 0 <= t.slack <= (HEADER - 1) * t.allocations
  {
    AllocateConserves(s.free, size);
    TotalConcat(s.live, [Block(s.free[FirstFit(s.free, size)].addr, size)]);
  }

  lemma MallocKeeps(s: State, size: int, total: int)
    requires Inv(s, total) && Sound(s, Malloc(size))
    ensures Inv(Step(s, Malloc(size)), total)
  {
    var i := FirstFit(s.free, size);
    if i < |s.free| {
      var t, x := Step(s, Malloc(size)), Block(s.free[i].addr, size);
      MallocTotals(s, size, total);
      AllocatedApart(s.free, size, x);
      forall k | 0 <= k < |t.live|
        ensures Apart(t.live[k], t.free)
      {
        AllocatedApart(s.free, size, t.live[k]);
      }
      forall k | 0 <= k < |s.live|
        ensures Disjoint(s.live[k], x)
      {
        assert Apart(s.live[k], s.free) && Disjoint(s.live[k], s.free[i]);
      }
    }
  }

  lemma FreeKeeps(s: State, k: nat, total: int)
    requires Inv(s, total) && Sound(s, Free(k))
    ensures Inv(Step(s, Free(k)), total)
  {
    var t, x := Step(s, Free(k)), s.live[k];
    FreeConserves(s.free, x);
    UnlinkedTotal(s.live, k);
    UnlinkedApart(s.live, k);
    FreedApart(s.free, x, x);
    forall j | 0 <= j < |t.live|
      ensures Apart(t.live[j], t.free)
    {
      var i := if j < k then j else j + 1;
      assert t.live[j] == s.live[i] && Apart(s.live[i], s.free);
      assert Disjoint(x, t.live[j]);
      FreedApart(s.free, x, t.live[j]);
    }
  }

  predicate Path(s: State, ops: seq<Op>)
    decreases ops
  {
    ops == [] || (Sound(s, ops[0]) && Path(Step(s, ops[0]), ops[1..]))
  }

  function Final(s: State, ops: seq<Op>): State
    requires Path(s, ops)
    decreases ops
  {
    if ops == [] then s else Final(Step(s, ops[0]), ops[1..])
  }

  lemma {:induction false} RunKeeps(s: State, ops: seq<Op>, total: int)
    requires Inv(s, total) && Path(s, ops)
    ensures Inv(Final(s, ops), total)
    decreases ops
  {
    if ops != [] {
      StepKeeps(s, ops[0], total);
      RunKeeps(Step(s, ops[0]), ops[1..], total);
    }
  }

  /** From malloc_init on one region: nothing overlaps and nothing is lost but
      less than a header per allocation. */
  lemma AllocatorSound(start: int, size: int, ops: seq<Op>)
    requires start > 0 && size >= HEADER && Path(State(Freed([], Block(start, size)), [], 0, 0), ops)
    ensures Inv(Final(State(Freed([], Block(start, size)), [], 0, 0), ops), size)
  {
    RunKeeps(State([Block(start, size)], [], 0, 0), ops, size);
  }

  /** The plainest run that leaves them: allocating from a fresh heap and freeing
      again.  The freed block lies below the rest, which is lost. */
  lemma FreshHeapLoses(start: int, size: int, n: int)
    requires start > 0 && n >= HEADER && size - n >= HEADER
    ensures var bs := Allocated([Block(start, size)], n);
            && bs == [Block(start + n, size - n)] && BelowHead(bs, Block(start, n))
            && Freed(bs, Block(start, n)) == [Block(start, n)]
            && Total(Freed(bs, Block(start, n))) == Total(bs) + n - (size - n)
  {
    assert Unlinked([Block(start, size)], 0) == [];
    assert Total([Block(start, n)]) == n && Total([Block(start + n, size - n)]) == size - n;
  }

  lemma StepKeeps(s: State, op: Op, total: int)
    requires Inv(s, total) && Sound(s, op)
    ensures Inv(Step(s, op), total)
  {
    match op
    case Malloc(size) => MallocKeeps(s, size, total);
    case Free(k) => FreeKeeps(s, k, total);
  }

  /** One operation on the heap in memory; `live` is what its user holds. */
  method Perform(heap: Heap, op: Op, live: seq<Block>, ghost s: State, ghost total: int) returns (now: seq<Block>)
    requires heap.Valid() && heap.free == s.free && live == s.live && Inv(s, total) && Sound(s, op)
    modifies heap
    ensures heap.Valid() && heap.free == Step(s, op).free && now == Step(s, op).live
  {
    StepKeeps(s, op, total);
    match op {
      case Malloc(size) =>
        var ptr, headless := heap.MallocRaw(size);
        now := if ptr == 0 then live else live + [Block(ptr, size)];
      case Free(k) =>
        heap.FreeRaw(live[k].addr, live[k].size);
        now := Unlinked(live, k);
    }
  }

  /** malloc_init and a whole run on the headers in memory. */
  method Drive(start: int, size: int, ops: seq<Op>) returns (live: seq<Block>, left: int)
    requires start > 0 && size >= HEADER && Path(State(Freed([], Block(start, size)), [], 0, 0), ops)
    ensures var t := Final(State(Freed([], Block(start, size)), [], 0, 0), ops);
            live == t.live && left == Total(t.free)
    ensures AllApart(live) && left + Total(live) <= size
  {
    var heap := new Heap();
    heap.FreeRaw(start, size);
    live := [];
    ghost var s := State([Block(start, size)], [], 0, 0);
    ghost var t := Final(s, ops);
    for i := 0 to |ops|
      invariant heap.Valid() && heap.free == s.free && live == s.live && Inv(s, size)
      invariant fresh(heap)
      invariant Path(s, ops[i..]) && Final(s, ops[i..]) == t
    {
      assert ops[i..][1..] == ops[i + 1..];
      StepKeeps(s, ops[i], size);
      live := Perform(heap, ops[i], live, s, size);
      s := Step(s, ops[i]);
    }
    left := heap.GetFreeSize();
  }
}
