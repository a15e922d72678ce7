/** The allocator in memory, run from the empty heap: linked headers and the invariants of the
    block list, together and after every run. */
module HeapProgram {
  import opened Options
  import opened HeapList
  import opened HeapRuns
  import opened HeapMemory

  /** Memory links exactly the blocks of a heap that satisfies the invariant. */
  ghost predicate Refines(a: Allocator, h: Heap)
    reads a
  {
    a.Valid() && a.list == h.blocks && Inv(h)
  }

  /** What `vmalloc` promises of a region is what the code in memory needs of it. */
  lemma FreshForList(h: Heap, base: nat, bytes: nat)
    requires Inv(h) && FreshRegion(h, base, bytes) && bytes >= HDR
    ensures base > 0
    ensures forall x :: Holds(Blk(base, bytes - HDR, true), x) ==> !Covered(h.blocks, x)
  {
    forall x | Holds(Blk(base, bytes - HDR, true), x) ensures !Covered(h.blocks, x) {
      assert InChunk(Chunk(base, bytes), x);
    }
  }

  method DoAlloc(a: Allocator, size: nat, vm: Option<nat>, ghost h: Heap) returns (ptr: nat)
    requires Refines(a, h) && Enabled(h, Alloc(size, vm))
    modifies a
    ensures Refines(a, Next(h, Alloc(size, vm)))
    ensures ptr == 0 ==> Next(h, Alloc(size, vm)) == h
    ensures ptr != 0 ==> ptr !in h.live && Next(h, Alloc(size, vm)).live == h.live[ptr := size]
  {
    hide Inv, Covered, FreshRegion, GoodPlace, HeapList.Malloc;
    AllocKeeps(h, size, vm);
    if Grows(h, size) && vm.Some? {
      FreshForList(h, vm.value, GrowBytes(RequestSize(size)));
    }
    RequestRounds(size);
    ptr := a.Malloc(size, vm);
    NothingGiven(h.blocks, RequestSize(size), vm);
  }

  lemma NothingGiven(l: seq<Blk>, size: nat, vm: Option<nat>)
    ensures Malloc(l, size, vm).1.None? ==> Malloc(l, size, vm).0 == l
  {
  }

  method DoFree(a: Allocator, ptr: nat, ghost h: Heap)
    requires Refines(a, h) && Enabled(h, Dealloc(ptr))
    modifies a
    ensures Refines(a, Next(h, Dealloc(ptr)))
  {
    StepKeeps(h, Dealloc(ptr));
    if ptr != 0 {
      UsedAt(h, ptr);
    }
    a.Free(ptr, IndexOf(h.blocks, ptr));
  }

  /** One call. What a run needs of its actions is all that the code in memory needs. */
  method Perform(a: Allocator, act: Action, ghost h: Heap) returns (ptr: nat)
    requires Refines(a, h) && Enabled(h, act)
    modifies a
    ensures Refines(a, Next(h, act))
    ensures act.Alloc? && ptr == 0 ==> Next(h, act) == h
    ensures act.Alloc? && ptr != 0 ==> ptr !in h.live && Next(h, act).live == h.live[ptr := act.size]
  {
    hide Refines, Next, Enabled;
    ptr := 0;
    match act
    case Alloc(size, vm) => ptr := DoAlloc(a, size, vm, h);
    case Dealloc(p) => DoFree(a, p, h);
  }

  /** Any sequence of calls from the empty heap. */
  method PerformAll(actions: seq<Action>, ghost end: Heap) returns (a: Allocator)
    requires Runs(Empty, actions, end)
    ensures fresh(a) && Refines(a, end)
  {
    a := new Allocator();
    ghost var h := Empty;
    assert actions[0..] == actions;
    for i := 0 to |actions|
      invariant fresh(a) && Refines(a, h) && Runs(h, actions[i..], end)
    {
      assert actions[i..][0] == actions[i] && actions[i..][1..] == actions[i + 1..];
      var _ := Perform(a, actions[i], h);
      h := Next(h, actions[i]);
    }
  }

  /** After every run, in one: links are inverse and ascending, blocks tile the obtained bytes,
      and live payloads are aligned, obtained, large enough and disjoint. */
  lemma AfterEveryRun(a: Allocator, actions: seq<Action>, h: Heap)
    requires Runs(Empty, actions, h) && Refines(a, h)
    ensures forall i :: 0 <= i < |h.blocks| ==> LinkedBothWays(h.blocks, a.mem, i)
    ensures forall x :: Covered(h.blocks, x) <==> InChunks(h.chunks, x)
    ensures forall p, q :: p in h.live && q in h.live && p != q ==> PayloadsApart(h, p, q)
    ensures forall p :: p in h.live ==> p % 8 == 0 && HasRoom(h.chunks, p, h.live[p])
  {
    hide Inv, Next, Enabled;
    forall i | 0 <= i < |h.blocks| ensures LinkedBothWays(h.blocks, a.mem, i) {
      LinksInverse(a.list, a.head, a.mem, i);
      assert Stored(a.list, a.mem, i);
    }
    assert forall x :: Covered(h.blocks, x) <==> InChunks(h.chunks, x) by {
      InvTiles(h);
    }
    forall p, q | p in h.live && q in h.live && p != q ensures PayloadsApart(h, p, q) {
      LivePayloadsDisjoint(actions, h, p, q);
    }
    forall p | p in h.live ensures p % 8 == 0 && HasRoom(h.chunks, p, h.live[p]) {
      LivePayload(h, p);
    }
  }

  ghost predicate LinkedBothWays(l: seq<Blk>, mem: map<nat, Header>, i: nat)
    requires i < |l|
  {
    && l[i].addr in mem
    && var h := mem[l[i].addr];
       && h.size == l[i].size && h.free == l[i].free
       && (h.next == 0 <==> i == |l| - 1) && (h.prev == 0 <==> i == 0)
       && (h.next != 0 ==> l[i].addr < h.next && h.next in mem && mem[h.next].prev == l[i].addr)
       && (h.prev != 0 ==> h.prev < l[i].addr && h.prev in mem && mem[h.prev].next == l[i].addr)
  }

  predicate PayloadsApart(h: Heap, p: nat, q: nat)
    requires p in h.live && q in h.live
  {
    p + h.live[p] <= q || q + h.live[q] <= p
  }

  lemma InvTiles(h: Heap)
    requires Inv(h)
    ensures forall x :: Covered(h.blocks, x) <==> InChunks(h.chunks, x)
  {
  }

  lemma BlockIsShaped(h: Heap, i: nat)
    requires Inv(h) && i < |h.blocks|
    ensures Payload(h.blocks[i]) % 8 == 0
  {
    assert Shaped(h.blocks[i]);
  }

  lemma LivePayload(h: Heap, p: nat)
    requires Inv(h) && p in h.live
    ensures p % 8 == 0 && HasRoom(h.chunks, p, h.live[p])
  {
    hide Inv, IndexOf;
    UsedAt(h, p);
    InvTiles(h);
    var i := IndexOf(h.blocks, p);
    BlockIsShaped(h, i);
    var b := h.blocks[i];
    forall x | p <= x < p + h.live[p] ensures InChunks(h.chunks, x) {
      assert Holds(b, x) && Covered(h.blocks, x);
    }
  }
}
