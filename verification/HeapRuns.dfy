/** Whole runs of the allocator: any sequence of `mymalloc` and valid `myfree` calls, with
    `vmalloc` answering as it likes within its contract. */
module HeapRuns {
  import opened Options
  import opened HeapList

  datatype Heap = Heap(
    blocks: seq<Blk>,
    chunks: seq<Chunk>,       // what vmalloc has handed out
    live: map<nat, nat>)      // payload address -> bytes requested

  datatype Action =
    | Alloc(size: nat, vm: Option<nat>)
    | Dealloc(ptr: nat)

  const Empty := Heap([], [], map[])

  predicate InChunk(c: Chunk, x: nat) { c.base <= x < c.base + c.len }

  ghost predicate InChunks(chunks: seq<Chunk>, x: nat) {
    exists i :: 0 <= i < |chunks| && InChunk(chunks[i], x)
  }

  function Used(l: seq<Blk>): set<Blk> { set b | b in l && !b.free }

  function IndexOf(l: seq<Blk>, ptr: nat): (i: nat)
    ensures i <= |l| && (i < |l| ==> Payload(l[i]) == ptr)
    ensures forall j :: 0 <= j < i ==> Payload(l[j]) != ptr
  {
    if l == [] || Payload(l[0]) == ptr then 0
    else
      var i := IndexOf(l[1..], ptr);
      assert forall j :: 0 < j <= i ==> l[j] == l[1..][j - 1];
      1 + i
  }

  // ----- the contract of vmalloc, and the placement condition -----

  ghost predicate FreshRegion(h: Heap, base: nat, bytes: nat) {
    && base > 0 && base % PAGE == 0 && base + bytes <= WORD
    && forall x :: InChunk(Chunk(base, bytes), x) ==> !InChunks(h.chunks, x)
  }

  predicate Grows(h: Heap, size: nat) {
    FirstFit(h.blocks, RequestSize(size)) == |h.blocks|
  }

  ghost predicate Enabled(h: Heap, a: Action) {
    match a
    case Alloc(size, vm) =>
      && size <= MAX_REQUEST
      && (Grows(h, size) && vm.Some? ==>
            && FreshRegion(h, vm.value, GrowBytes(RequestSize(size)))
            && GoodPlace(h.blocks, vm.value))
    case Dealloc(ptr) => ptr == 0 || ptr in h.live
  }

  ghost function Next(h: Heap, a: Action): Heap
    requires Enabled(h, a)
  {
    match a
    case Alloc(size, vm) =>
      var n := RequestSize(size);
      var (blocks, r) := Malloc(h.blocks, n, vm);
      if r.None? then h
      else Heap(blocks,
                if Grows(h, size) && vm.Some? then h.chunks + [Chunk(vm.value, GrowBytes(n))] else h.chunks,
                h.live[r.value := size])
    case Dealloc(ptr) =>
      var i := IndexOf(h.blocks, ptr);
      if ptr == 0 || i == |h.blocks| then h
      else Heap(Release(h.blocks, i), h.chunks, h.live - {ptr})
  }

  // ----- the invariant -----

  /** The blocks tile exactly the bytes obtained from `vmalloc`. */
  ghost predicate Tiled(h: Heap) {
    forall x :: Covered(h.blocks, x) <==> InChunks(h.chunks, x)
  }

  /** A block has room for the request it was handed out for, and not the room of a further block
      behind it. */
  predicate Serves(b: Blk, size: nat) {
    size <= MAX_REQUEST && size <= b.size < RequestSize(size) + HDR + MIN_PAYLOAD
  }

  /** The blocks in use are exactly the live allocations, each fit for its request. */
  ghost predicate LiveOk(h: Heap) {
    && (forall b :: b in Used(h.blocks) ==> Payload(b) in h.live && Serves(b, h.live[Payload(b)]))
    && (forall p :: p in h.live ==> exists b :: b in Used(h.blocks) && Payload(b) == p)
  }

  ghost predicate Inv(h: Heap) {
    WellFormed(h.blocks) && Coalesced(h.blocks) && Tiled(h) && LiveOk(h)
  }

  // ----- which blocks are in use -----

  lemma UsedCoalesce(l: seq<Blk>, i: nat)
    requires i < |l|
    ensures Used(CoalesceAt(l, i)) == Used(l)
  {
    if i + 1 < |l| && Mergeable(l[i], l[i + 1]) {
      assert l == l[..i] + [l[i], l[i + 1]] + l[i + 2..];
    }
  }

  lemma UsedInsert(l: seq<Blk>, k: nat, b: Blk)
    requires k <= |l| && b.free
    ensures Used(InsertAt(l, k, b)) == Used(l)
  {
    assert l == l[..k] + l[k..];
  }

  lemma UsedTake(l: seq<Blk>, i: nat, size: nat)
    requires i < |l| && l[i].free && SplitSumFits(size)
    ensures Used(Take(l, i, size)) == Used(l) + {Take(l, i, size)[i]}
  {
    var s := SplitAt(l, i, size);
    var t := Take(l, i, size);
    assert l == l[..i] + [l[i]] + l[i + 1..];
    if |s| == |l| {
      assert t == l[..i] + [t[i]] + l[i + 1..];
    } else {
      assert t == l[..i] + [t[i], s[i + 1]] + l[i + 1..];
    }
  }

  lemma UsedRelease(l: seq<Blk>, i: nat)
    requires WellFormed(l) && i < |l| && !l[i].free
    ensures Used(Release(l, i)) == Used(l) - {l[i]}
  {
    var l1 := l[i := l[i].(free := true)];
    assert l == l[..i] + [l[i]] + l[i + 1..];
    assert l1 == l[..i] + [l1[i]] + l[i + 1..];
    assert l[i] !in l[..i] && l[i] !in l[i + 1..];
    CoalesceShapeOf(l, i);
    UsedCoalesce(l1, i);
    if i > 0 {
      UsedCoalesce(CoalesceAt(l1, i), i - 1);
    }
  }

  lemma CoalesceShapeOf(l: seq<Blk>, i: nat)
    requires i < |l|
    ensures var l1 := l[i := l[i].(free := true)];
            |CoalesceAt(l1, i)| > i
  {
  }

  // ----- each action keeps the invariant -----

  lemma TakeKeeps(h: Heap, i: nat, size: nat)
    requires Inv(h) && i < |h.blocks| && h.blocks[i].free
    requires size <= MAX_REQUEST && h.blocks[i].size >= RequestSize(size)
    ensures var p := Payload(h.blocks[i]);
            && p !in h.live && p % 8 == 0
            && Inv(Heap(Take(h.blocks, i, RequestSize(size)), h.chunks, h.live[p := size]))
  {
    var l, n := h.blocks, RequestSize(size);
    RequestSizeFits(size);
    RequestRounds(size);
    TakeBlocks(l, i, n);
    TakeCoalesces(l, i, n);
    TakeLive(h, i, size);
    assert Shaped(l[i]);
  }

  lemma TakeBlocks(l: seq<Blk>, i: nat, n: nat)
    requires WellFormed(l) && i < |l| && n % 8 == 0 && n >= MIN_PAYLOAD && SplitSumFits(n)
    ensures WellFormed(Take(l, i, n)) && SameBytes(l, Take(l, i, n))
  {
    hide SplitAt, WellFormed, SameBytes;
    SplitKeeps(l, i, n);
    SplitLonger(l, i, n);
    var l' := SplitAt(l, i, n);
    FlagKeeps(l', i, false);
    SameBytesTrans(l, l', Take(l, i, n));
  }

  lemma SplitLonger(l: seq<Blk>, i: nat, n: nat)
    requires i < |l|
    ensures |SplitAt(l, i, n)| > i
  {
  }

  lemma TakeLive(h: Heap, i: nat, size: nat)
    requires Inv(h) && i < |h.blocks| && h.blocks[i].free
    requires size <= MAX_REQUEST && h.blocks[i].size >= RequestSize(size)
    ensures Payload(h.blocks[i]) !in h.live
    ensures LiveOk(Heap(Take(h.blocks, i, RequestSize(size)), h.chunks, h.live[Payload(h.blocks[i]) := size]))
  {
    hide RequestSize, Serves, SplitAt, Take;
    var l, n := h.blocks, RequestSize(size);
    RequestRounds(size);
    UsedTake(l, i, n);
    var t := Take(l, i, n);
    var p := Payload(l[i]);
    FreePayloadNotLive(h, i);
    var h' := Heap(t, h.chunks, h.live[p := size]);
    TakenServes(l, i, size);
    assert t[i] in Used(t);
    forall q | q in h'.live ensures exists b :: b in Used(t) && Payload(b) == q {
      if q != p {
        var b :| b in Used(l) && Payload(b) == q;
        assert b in Used(t);
      }
    }
  }

  lemma TakenServes(l: seq<Blk>, i: nat, size: nat)
    requires i < |l| && size <= MAX_REQUEST && l[i].size >= RequestSize(size)
    ensures var t := Take(l, i, RequestSize(size));
            i < |t| && Payload(t[i]) == Payload(l[i]) && Serves(t[i], size)
  {
    hide RequestSize;
    RequestSizeFits(size);
    RequestRounds(size);
  }

  lemma FreePayloadNotLive(h: Heap, i: nat)
    requires Inv(h) && i < |h.blocks| && h.blocks[i].free
    ensures Payload(h.blocks[i]) !in h.live
  {
    var l := h.blocks;
    forall b | b in Used(l) ensures Payload(b) != Payload(l[i]) {
      PayloadsDistinct(l, b, l[i]);
    }
  }

  lemma ExtendBlocks(l: seq<Blk>, b: Blk)
    requires WellFormed(l) && Shaped(b) && b.free
    requires forall x :: Holds(b, x) ==> !Covered(l, x)
    ensures var l' := Extend(l, b.addr, HDR + b.size).0;
            && WellFormed(l') && Used(l') == Used(l)
            && forall x :: Covered(l', x) <==> Covered(l, x) || Holds(b, x)
  {
    var k := Slot(l, b.addr);
    InsertKeeps(l, b);
    UsedInsert(l, k, b);
    var l1 := InsertAt(l, k, b);
    var at := if k == 0 then 0 else k - 1;
    CoalesceKeeps(l1, at);
    UsedCoalesce(l1, at);
    var l2 := CoalesceAt(l1, at);
    CoalesceKeeps(l2, at);
    UsedCoalesce(l2, at);
  }

  lemma SameUsed(h: Heap, h': Heap)
    requires LiveOk(h) && Used(h'.blocks) == Used(h.blocks) && h'.live == h.live
    ensures LiveOk(h')
  {
  }

  /** A page-aligned chunk makes one well-shaped free block over exactly its bytes. */
  lemma ChunkShaped(base: nat, bytes: nat)
    requires base > 0 && base % PAGE == 0 && bytes >= CHUNK && bytes % PAGE == 0
    ensures var b := Blk(base, bytes - HDR, true);
            Shaped(b) && forall x :: Holds(b, x) <==> InChunk(Chunk(base, bytes), x)
  {
    PageIsAligned(base);
    BodyIsAligned(bytes);
    ChunkBytes(base, bytes);
  }

  lemma ChunkBytes(base: nat, bytes: nat)
    requires bytes >= HDR
    ensures forall x :: Holds(Blk(base, bytes - HDR, true), x) <==> InChunk(Chunk(base, bytes), x)
  {
  }

  lemma BodyIsAligned(bytes: nat)
    requires bytes >= CHUNK && bytes % PAGE == 0
    ensures (bytes - HDR) % 8 == 0
  {
    var n := 512 * (bytes / PAGE);
    assert bytes == 8 * n;
    LessHeader(n);
  }

  lemma LessHeader(n: int)
    ensures (8 * n - HDR) % 8 == 0
  {
    assert 8 * n - HDR == 8 * (n - 4);
  }

  lemma PageIsAligned(n: nat)
    requires n % PAGE == 0
    ensures n % 8 == 0
  {
    assert n == 8 * (512 * (n / PAGE));
  }

  lemma ExtendKeeps(h: Heap, base: nat, bytes: nat)
    requires Inv(h) && bytes >= CHUNK && bytes % PAGE == 0
    requires FreshRegion(h, base, bytes) && GoodPlace(h.blocks, base)
    ensures Inv(Heap(Extend(h.blocks, base, bytes).0, h.chunks + [Chunk(base, bytes)], h.live))
  {
    var b, c := Blk(base, bytes - HDR, true), Chunk(base, bytes);
    ChunkShaped(base, bytes);
    ExtendCoalesces(h.blocks, base, bytes);
    ExtendBlocks(h.blocks, b);
    ChunksGrow(h.chunks, c);
    var h' := Heap(Extend(h.blocks, base, bytes).0, h.chunks + [c], h.live);
    SameUsed(h, h');
    assert Tiled(h');
  }

  lemma ChunksGrow(chunks: seq<Chunk>, c: Chunk)
    ensures forall x :: InChunks(chunks + [c], x) <==> InChunks(chunks, x) || InChunk(c, x)
  {
    forall x ensures InChunks(chunks + [c], x) <==> InChunks(chunks, x) || InChunk(c, x) {
      if InChunks(chunks, x) {
        var i :| 0 <= i < |chunks| && InChunk(chunks[i], x);
        assert InChunk((chunks + [c])[i], x);
      }
      if InChunk(c, x) {
        assert InChunk((chunks + [c])[|chunks|], x);
      }
    }
  }

  lemma SameBytesTrans(l: seq<Blk>, l': seq<Blk>, l'': seq<Blk>)
    requires SameBytes(l, l') && SameBytes(l', l'')
    ensures SameBytes(l, l'')
  {
  }

  lemma ReleaseBlocks(l: seq<Blk>, i: nat)
    requires WellFormed(l) && i < |l| && !l[i].free
    ensures WellFormed(Release(l, i)) && SameBytes(l, Release(l, i))
  {
    hide CoalesceAt, WellFormed, SameBytes;
    var l1 := l[i := l[i].(free := true)];
    FlagKeeps(l, i, true);
    CoalesceKeeps(l1, i);
    var l2 := CoalesceAt(l1, i);
    SameBytesTrans(l, l1, l2);
    if i > 0 {
      CoalesceKeeps(l2, i - 1);
      SameBytesTrans(l, l2, CoalesceAt(l2, i - 1));
    }
  }

  lemma ReleaseLive(h: Heap, i: nat)
    requires Inv(h) && i < |h.blocks| && !h.blocks[i].free
    ensures LiveOk(Heap(Release(h.blocks, i), h.chunks, h.live - {Payload(h.blocks[i])}))
  {
    var l := h.blocks;
    var h' := Heap(Release(l, i), h.chunks, h.live - {Payload(l[i])});
    UsedRelease(l, i);
    forall b | b in Used(h'.blocks) ensures Payload(b) in h'.live && Serves(b, h'.live[Payload(b)]) {
      assert b in Used(l) && b != l[i];
      PayloadsDistinct(l, b, l[i]);
    }
    forall q | q in h'.live ensures exists b :: b in Used(h'.blocks) && Payload(b) == q {
      var b :| b in Used(l) && Payload(b) == q;
      assert b in Used(h'.blocks);
    }
  }

  lemma ReleaseKeeps(h: Heap, ptr: nat)
    requires Inv(h) && ptr in h.live
    ensures IndexOf(h.blocks, ptr) < |h.blocks|
    ensures Inv(Heap(Release(h.blocks, IndexOf(h.blocks, ptr)), h.chunks, h.live - {ptr}))
  {
    var i := IndexOf(h.blocks, ptr);
    UsedAt(h, ptr);
    ReleaseBlocks(h.blocks, i);
    ReleaseCoalesces(h.blocks, i);
    ReleaseLive(h, i);
  }

  lemma PayloadsAscend(l: seq<Blk>)
    requires WellFormed(l)
    ensures forall i, j :: 0 <= i < j < |l| ==> Payload(l[i]) < Payload(l[j])
  {
  }

  lemma BlockOf(l: seq<Blk>, b: Blk)
    requires WellFormed(l) && b in l
    ensures var i := IndexOf(l, Payload(b)); i < |l| && l[i] == b
  {
    PayloadsAscend(l);
  }

  lemma UsedAt(h: Heap, ptr: nat)
    requires Inv(h) && ptr in h.live
    ensures var i := IndexOf(h.blocks, ptr);
            i < |h.blocks| && !h.blocks[i].free && h.live[ptr] <= h.blocks[i].size
  {
    var b :| b in Used(h.blocks) && Payload(b) == ptr;
    BlockOf(h.blocks, b);
  }

  lemma PayloadsDistinct(l: seq<Blk>, b: Blk, c: Blk)
    requires WellFormed(l) && b in l && c in l && b != c
    ensures Payload(b) != Payload(c)
  {
    BlockOf(l, b);
    BlockOf(l, c);
  }

  lemma AllocKeeps(h: Heap, size: nat, vm: Option<nat>)
    requires Inv(h) && Enabled(h, Alloc(size, vm))
    ensures Inv(Next(h, Alloc(size, vm)))
    ensures var r := Malloc(h.blocks, RequestSize(size), vm).1;
            r.Some? ==> r.value > 0 && r.value !in h.live
  {
    var n := RequestSize(size);
    var i := FirstFit(h.blocks, n);
    if i < |h.blocks| {
      TakeKeeps(h, i, size);
    } else if vm.Some? {
      GrowBytesFit(size);
      ExtendKeeps(h, vm.value, GrowBytes(n));
      GrowthIff(h.blocks, vm.value, GrowBytes(n), n);
      var (l', k) := Extend(h.blocks, vm.value, GrowBytes(n));
      var h1 := Heap(l', h.chunks + [Chunk(vm.value, GrowBytes(n))], h.live);
      TakeKeeps(h1, k, size);
    }
  }

  lemma StepKeeps(h: Heap, a: Action)
    requires Inv(h) && Enabled(h, a)
    ensures Inv(Next(h, a))
  {
    match a
    case Alloc(size, vm) => AllocKeeps(h, size, vm);
    case Dealloc(ptr) =>
      if ptr != 0 {
        ReleaseKeeps(h, ptr);
      }
  }

  ghost predicate Runs(h: Heap, actions: seq<Action>, h': Heap)
    decreases |actions|
  {
    if actions == [] then h == h'
    else Enabled(h, actions[0]) && Runs(Next(h, actions[0]), actions[1..], h')
  }

  /** The invariant over whole runs: sorted, aligned, exactly tiling, fully coalesced, and
      with exactly the live allocations in use. */
  lemma {:induction false} RunKeeps(h: Heap, actions: seq<Action>, h': Heap)
    requires Inv(h) && Runs(h, actions, h')
    ensures Inv(h')
    decreases |actions|
  {
    if actions != [] {
      StepKeeps(h, actions[0]);
      RunKeeps(Next(h, actions[0]), actions[1..], h');
    }
  }

  /** In every reachable heap, live payloads are 8-aligned, lie in memory obtained from
      `vmalloc`, and do not overlap. */
  lemma LivePayloadsDisjoint(actions: seq<Action>, h: Heap, p: nat, q: nat)
    requires Runs(Empty, actions, h) && p in h.live && q in h.live && p != q
    ensures p % 8 == 0
    ensures p + h.live[p] <= q || q + h.live[q] <= p
    ensures forall x :: p <= x < p + h.live[p] ==> InChunks(h.chunks, x)
  {
    RunKeeps(Empty, actions, h);
    UsedAt(h, p);
    UsedAt(h, q);
    BlocksApart(h.blocks, IndexOf(h.blocks, p), IndexOf(h.blocks, q));
    forall x | p <= x < p + h.live[p] ensures InChunks(h.chunks, x) {
      assert Holds(h.blocks[IndexOf(h.blocks, p)], x);
    }
  }

  /** In every reachable heap, a block in use is less than 47 bytes larger than its request, or than
      the eight bytes a smaller request is given: what can be split off has been. */
  lemma LittleIsWasted(actions: seq<Action>, h: Heap, p: nat)
    requires Runs(Empty, actions, h) && p in h.live
    ensures var i := IndexOf(h.blocks, p);
            && i < |h.blocks| && !h.blocks[i].free
            && h.live[p] <= h.blocks[i].size < 47 + if h.live[p] < 8 then 8 else h.live[p]
  {
    RunKeeps(Empty, actions, h);
    UsedAt(h, p);
    var size, i := h.live[p], IndexOf(h.blocks, p);
    assert h.blocks[i] in Used(h.blocks);
    AlignUpIsLeast(if size < MIN_PAYLOAD then MIN_PAYLOAD else size, 8);
  }

  lemma BlocksApart(l: seq<Blk>, i: nat, j: nat)
    requires WellFormed(l) && i < |l| && j < |l| && i != j
    ensures Payload(l[i]) % 8 == 0
    ensures End(l[i]) <= l[j].addr || End(l[j]) <= l[i].addr
  {
    assert Shaped(l[i]);
    assert i < j ==> End(l[i]) <= l[j].addr;
    assert j < i ==> End(l[j]) <= l[i].addr;
  }

  // ----- the canonical form of an empty heap -----

  ghost predicate AllFree(l: seq<Blk>) {
    forall i :: 0 <= i < |l| ==> l[i].free
  }

  /** With nothing live, every block is free and is a maximal run of obtained bytes: the
      bytes just below and just above it were not obtained. */
  lemma FreeBlocksAreMaximalRuns(h: Heap, i: nat)
    requires Inv(h) && h.live == map[] && i < |h.blocks|
    ensures AllFree(h.blocks)
    ensures !InChunks(h.chunks, h.blocks[i].addr - 1) && !InChunks(h.chunks, End(h.blocks[i]))
  {
    var l := h.blocks;
    assert Used(l) == {};
    forall j | 0 <= j < |l| ensures l[j].free {
      assert l[j] !in Used(l);
    }
    assert Shaped(l[i]);
    Gaps(l, i);
  }

  lemma Gaps(l: seq<Blk>, i: nat)
    requires WellFormed(l) && Coalesced(l) && AllFree(l) && i < |l| && l[i].addr > 0
    ensures !Covered(l, l[i].addr - 1) && !Covered(l, End(l[i]))
  {
    forall j | 0 <= j < |l| ensures !Holds(l[j], l[i].addr - 1) && !Holds(l[j], End(l[i])) {
      if j < i {
        assert End(l[j]) <= l[i].addr;
        assert !Mergeable(l[i - 1], l[i]);
        assert End(l[i - 1]) <= l[i].addr;
        assert j < i - 1 ==> End(l[j]) <= l[i - 1].addr;
      } else if i < j {
        assert End(l[i]) <= l[j].addr;
        assert !Mergeable(l[i], l[i + 1]);
        assert End(l[i]) <= l[i + 1].addr;
        assert i + 1 < j ==> End(l[i + 1]) <= l[j].addr;
      }
    }
  }

  lemma CoveredTail(l: seq<Blk>, x: nat)
    requires WellFormed(l) && l != []
    ensures Covered(l[1..], x) <==> Covered(l, x) && End(l[0]) <= x
  {
    if Covered(l[1..], x) {
      var i :| 0 <= i < |l[1..]| && Holds(l[1..][i], x);
      assert Holds(l[i + 1], x) && End(l[0]) <= l[i + 1].addr;
    }
    if Covered(l, x) && End(l[0]) <= x {
      var i :| 0 <= i < |l| && Holds(l[i], x);
      assert Holds(l[1..][i - 1], x);
    }
  }

  lemma FirstBlock(l: seq<Blk>, m: seq<Blk>)
    requires WellFormed(l) && Coalesced(l) && AllFree(l) && l != []
    requires WellFormed(m) && Coalesced(m) && AllFree(m) && m != []
    requires SameBytes(l, m)
    ensures l[0].addr >= m[0].addr && (l[0].addr == m[0].addr ==> End(l[0]) >= End(m[0]))
  {
    assert Shaped(l[0]) && Shaped(m[0]);
    assert Holds(l[0], l[0].addr);
    assert Covered(l, l[0].addr);
    LeastCovered(m, l[0].addr);
    Gaps(l, 0);
    assert !Covered(m, End(l[0]));
    assert !Holds(m[0], End(l[0]));
  }

  lemma LeastCovered(m: seq<Blk>, x: nat)
    requires WellFormed(m) && Covered(m, x)
    ensures |m| > 0 && m[0].addr <= x
  {
    var i :| 0 <= i < |m| && Holds(m[i], x);
    assert i > 0 ==> End(m[0]) <= m[i].addr;
  }

  /** The free list of an empty heap is determined by the bytes it holds. */
  lemma {:induction false} CanonicalForm(l: seq<Blk>, m: seq<Blk>)
    requires WellFormed(l) && Coalesced(l) && AllFree(l)
    requires WellFormed(m) && Coalesced(m) && AllFree(m)
    requires SameBytes(l, m)
    ensures l == m
    decreases |l|
  {
    if l == [] || m == [] {
      if l != [] {
        assert Shaped(l[0]) && Holds(l[0], l[0].addr);
        assert Covered(l, l[0].addr);
      }
      if m != [] {
        assert Shaped(m[0]) && Holds(m[0], m[0].addr);
        assert Covered(m, m[0].addr);
      }
    } else {
      FirstBlock(l, m);
      FirstBlock(m, l);
      assert l[0] == m[0];
      forall x ensures Covered(l[1..], x) <==> Covered(m[1..], x) {
        CoveredTail(l, x);
        CoveredTail(m, x);
      }
      TailCoalesced(l);
      TailCoalesced(m);
      CanonicalForm(l[1..], m[1..]);
      assert l == [l[0]] + l[1..] && m == [m[0]] + m[1..];
    }
  }

  lemma TailCoalesced(l: seq<Blk>)
    requires Coalesced(l) && l != []
    ensures Coalesced(l[1..])
  {
    forall i | 0 <= i < |l[1..]| - 1 ensures !Mergeable(l[1..][i], l[1..][i + 1]) {
      assert !Mergeable(l[i + 1], l[i + 2]);
    }
  }

  /** Whatever was allocated and in whatever order it was freed: two runs that obtained the
      same bytes and have nothing live end with the same block list. */
  lemma FreeingAllIsCanonical(as1: seq<Action>, h1: Heap, as2: seq<Action>, h2: Heap)
    requires Runs(Empty, as1, h1) && Runs(Empty, as2, h2)
    requires h1.live == h2.live == map[]
    requires forall x :: InChunks(h1.chunks, x) <==> InChunks(h2.chunks, x)
    ensures h1.blocks == h2.blocks
  {
    RunKeeps(Empty, as1, h1);
    RunKeeps(Empty, as2, h2);
    if h1.blocks != [] {
      FreeBlocksAreMaximalRuns(h1, 0);
    }
    if h2.blocks != [] {
      FreeBlocksAreMaximalRuns(h2, 0);
    }
    CanonicalForm(h1.blocks, h2.blocks);
  }

  /** In every reachable heap, allocating without growing and freeing restores the list. */
  lemma RoundTrip(actions: seq<Action>, h: Heap, size: nat, vm: Option<nat>)
    requires Runs(Empty, actions, h) && size <= MAX_REQUEST && !Grows(h, size)
    ensures var h1 := Next(h, Alloc(size, vm));
            var p := Payload(h.blocks[FirstFit(h.blocks, RequestSize(size))]);
            p in h1.live && p !in h.live && Next(h1, Dealloc(p)) == h
  {
    RunKeeps(Empty, actions, h);
    RoundTripFrom(h, size, vm);
  }

  lemma RoundTripFrom(h: Heap, size: nat, vm: Option<nat>)
    requires Inv(h) && size <= MAX_REQUEST && !Grows(h, size)
    ensures var h1 := Next(h, Alloc(size, vm));
            var p := Payload(h.blocks[FirstFit(h.blocks, RequestSize(size))]);
            p in h1.live && p !in h.live && Next(h1, Dealloc(p)) == h
  {
    var n := RequestSize(size);
    var i := FirstFit(h.blocks, n);
    var p := Payload(h.blocks[i]);
    TakeKeeps(h, i, size);
    RequestRounds(size);
    MallocThenFree(h.blocks, n);
    var t := Take(h.blocks, i, n);
    SamePlace(t, i);
    FreesBack(h, Heap(t, h.chunks, h.live[p := size]), i, p, size);
  }

  lemma FreesBack(h: Heap, h1: Heap, i: nat, p: nat, size: nat)
    requires i < |h1.blocks| && Release(h1.blocks, i) == h.blocks && IndexOf(h1.blocks, p) == i
    requires p > 0 && p !in h.live && h1.live == h.live[p := size] && h1.chunks == h.chunks
    ensures Next(h1, Dealloc(p)) == h
  {
    assert h1.live - {p} == h.live;
  }

  lemma SamePlace(l: seq<Blk>, i: nat)
    requires WellFormed(l) && i < |l|
    ensures IndexOf(l, Payload(l[i])) == i
  {
    PayloadsAscend(l);
  }

  /** Off the placement condition the allocator breaks: if the fresh chunk's predecessor is
      in use, `mymalloc` hands out memory that is already live. */
  lemma BadPlaceHandsOutLiveMemory(h: Heap, size: nat, base: nat)
    requires Inv(h) && Grows(h, size)
    requires var k := Slot(h.blocks, base); k > 0 && !h.blocks[k - 1].free
    ensures var r := Malloc(h.blocks, RequestSize(size), Some(base)).1;
            r.Some? && r.value in h.live
  {
    var l := h.blocks;
    var k := Slot(l, base);
    var n := RequestSize(size);
    var l1 := InsertAt(l, k, Blk(base, GrowBytes(n) - HDR, true));
    assert l1[k - 1] == l[k - 1];
    assert l[k - 1] in Used(l);
  }

  /** A lawful run that meets it: the first chunk is used up, the second comes right behind it,
      and the next request is given the address of the first allocation. */
  lemma BadPlaceIsReached()
    ensures var size := CHUNK - HDR;
            var h := Heap([Blk(PAGE, size, false)], [Chunk(PAGE, CHUNK)], map[PAGE + HDR := size]);
            && Runs(Empty, [Alloc(size, Some(PAGE))], h)
            && Grows(h, 8) && FreshRegion(h, PAGE + CHUNK, GrowBytes(RequestSize(8)))
            && Malloc(h.blocks, RequestSize(8), Some(PAGE + CHUNK)).1 == Some(PAGE + HDR) && PAGE + HDR in h.live
  {
    hide Runs, Malloc, RequestSize, GrowBytes, FirstFit;
    FirstChunkTaken();
    SecondChunkMissed(Blk(PAGE, CHUNK - HDR, false));
  }

  /** The first request takes the whole of the first chunk. */
  lemma FirstChunkTaken()
    ensures var size := CHUNK - HDR;
            var h := Heap([Blk(PAGE, size, false)], [Chunk(PAGE, CHUNK)], map[PAGE + HDR := size]);
            Runs(Empty, [Alloc(size, Some(PAGE))], h)
  {
    var size := CHUNK - HDR;
    var a := Alloc(size, Some(PAGE));
    var b := Blk(PAGE, size, true);
    var h := Heap([b.(free := false)], [Chunk(PAGE, CHUNK)], map[PAGE + HDR := size]);
    assert RequestSize(size) == size && GrowBytes(size) == CHUNK;
    assert InsertAt([], 0, b) == [b];
    assert Extend([], PAGE, CHUNK) == ([b], 0);
    assert Take([b], 0, size) == h.blocks;
    assert Next(Empty, a) == h;
    assert Runs(h, [a][1..], h);
  }

  /** The second chunk stands behind a used block, and that block is returned. */
  lemma SecondChunkMissed(u: Blk)
    requires u == Blk(PAGE, CHUNK - HDR, false)
    ensures RequestSize(8) == 8 && GrowBytes(8) == CHUNK && FirstFit([u], 8) == 1
    ensures Malloc([u], 8, Some(PAGE + CHUNK)).1 == Some(PAGE + HDR)
  {
    assert FirstFit([u][1..], 8) == 0;
    var c := Blk(PAGE + CHUNK, CHUNK - HDR, true);
    assert Slot([u][1..], PAGE + CHUNK) == 0;
    assert InsertAt([u], 1, c) == [u, c];
  }

  // ----- which requests can be served -----

  /** Obtained memory lies in the address space, and not in its first page. */
  ghost predicate InSpace(chunks: seq<Chunk>) {
    forall x: nat :: InChunks(chunks, x) ==> PAGE <= x < WORD
  }

  lemma FreshInSpace(h: Heap, base: nat, bytes: nat)
    requires InSpace(h.chunks) && FreshRegion(h, base, bytes)
    ensures InSpace(h.chunks + [Chunk(base, bytes)])
  {
    ChunksGrow(h.chunks, Chunk(base, bytes));
    assert base >= PAGE;
  }

  lemma {:induction false} RunInSpace(h: Heap, actions: seq<Action>, h': Heap)
    requires InSpace(h.chunks) && Runs(h, actions, h')
    ensures InSpace(h'.chunks)
    decreases |actions|
  {
    if actions != [] {
      var a := actions[0];
      if a.Alloc? && Grows(h, a.size) && a.vm.Some? {
        FreshInSpace(h, a.vm.value, GrowBytes(RequestSize(a.size)));
      }
      RunInSpace(Next(h, a), actions[1..], h');
    }
  }

  /** The chunks after a `mymalloc`. */
  function ChunksAfter(h: Heap, size: nat, vm: Option<nat>): seq<Chunk> {
    if Grows(h, size) && vm.Some? then h.chunks + [Chunk(vm.value, GrowBytes(RequestSize(size)))] else h.chunks
  }

  /** All bytes of the payload a request was given have been obtained. */
  ghost predicate HasRoom(chunks: seq<Chunk>, p: nat, size: nat) {
    forall x :: p <= x < p + size ==> InChunks(chunks, x)
  }

  /** For every request of 64 bits on every reachable heap, served from the list or by growing
      in a good place: the memory handed out has room for it if and only if it is at most
      MAX_REQUEST. Above that the code does not return null but a block that is too small. */
  lemma MallocRoomIff(actions: seq<Action>, h: Heap, size: nat, vm: Option<nat>)
    requires Runs(Empty, actions, h) && size < WORD
    requires Grows(h, size) && vm.Some? ==>
               FreshRegion(h, vm.value, GrowBytes(RequestSize(size))) && GoodPlace(h.blocks, vm.value)
    ensures var r := Malloc(h.blocks, RequestSize(size), vm).1;
            r.Some? ==> (HasRoom(ChunksAfter(h, size, vm), r.value, size) <==> size <= MAX_REQUEST)
  {
    hide Extend, Take, HasRoom, FreshRegion, GoodPlace;
    RunKeeps(Empty, actions, h);
    RunInSpace(Empty, actions, h);
    var i := FirstFit(h.blocks, RequestSize(size));
    if i < |h.blocks| {
      if size <= MAX_REQUEST {
        RequestSizeFits(size);
      }
      RoomInBlock(h.blocks, h.chunks, i, size);
    } else if vm.Some? {
      RoomByGrowing(h, size, vm.value);
    }
  }

  lemma RoomByGrowing(h: Heap, size: nat, base: nat)
    requires Inv(h) && InSpace(h.chunks) && size < WORD && Grows(h, size)
    requires FreshRegion(h, base, GrowBytes(RequestSize(size))) && GoodPlace(h.blocks, base)
    ensures var bytes := GrowBytes(RequestSize(size));
            var (l', k) := Extend(h.blocks, base, bytes);
            HasRoom(h.chunks + [Chunk(base, bytes)], Payload(l'[k]), size) <==> size <= MAX_REQUEST
  {
    hide Extend, HasRoom, InSpace, CoalesceAt, RequestSize, GrowBytes, InChunks;
    var n := RequestSize(size);
    var bytes := GrowBytes(n);
    GrowBytesFit(size);
    ChunkShaped(base, bytes);
    ExtendBlocks(h.blocks, Blk(base, bytes - HDR, true));
    ChunksGrow(h.chunks, Chunk(base, bytes));
    FreshInSpace(h, base, bytes);
    var (l', k) := Extend(h.blocks, base, bytes);
    if size <= MAX_REQUEST {
      RequestSizeFits(size);
      GrowthIff(h.blocks, base, bytes, n);
    }
    RoomInBlock(l', h.chunks + [Chunk(base, bytes)], k, size);
  }

  /** For every reachable heap, every growing request of 64 bits and every lawful answer of
      `vmalloc`: what is handed out is not live and has room if and only if the chunk is in a
      good place and the request is at most MAX_REQUEST. */
  lemma MallocServesIff(actions: seq<Action>, h: Heap, size: nat, base: nat)
    requires Runs(Empty, actions, h) && size < WORD && Grows(h, size)
    requires FreshRegion(h, base, GrowBytes(RequestSize(size)))
    ensures var r := Malloc(h.blocks, RequestSize(size), Some(base)).1;
            && r.Some?
            && (r.value !in h.live && HasRoom(ChunksAfter(h, size, Some(base)), r.value, size)
                <==> GoodPlace(h.blocks, base) && size <= MAX_REQUEST)
  {
    hide Extend, Take, HasRoom, FreshRegion, InSpace;
    RunKeeps(Empty, actions, h);
    RunInSpace(Empty, actions, h) by {
      NothingInSpace();
    }
    if GoodPlace(h.blocks, base) {
      RoomByGrowing(h, size, base);
      if size <= MAX_REQUEST {
        AllocKeeps(h, size, Some(base));
      }
    } else if h.blocks[Slot(h.blocks, base) - 1].free {
      ApartPredecessor(h, size, base);
    } else {
      BadPlaceHandsOutLiveMemory(h, size, base);
    }
  }

  lemma NothingInSpace()
    ensures InSpace(Empty.chunks)
  {
  }

  /** The block `extend_heap` returns when the chunk does not merge with its predecessor. */
  lemma ReturnsPredecessor(l: seq<Blk>, base: nat, bytes: nat)
    requires bytes >= HDR && !GoodPlace(l, base)
    ensures var (l', k) := Extend(l, base, bytes); l'[k] == l[Slot(l, base) - 1]
  {
    var k := Slot(l, base);
    var l1 := InsertAt(l, k, Blk(base, bytes - HDR, true));
    assert l1[k - 1] == l[k - 1] && l1[k].addr == base;
    assert CoalesceAt(l1, k - 1) == l1;
  }

  /** A free predecessor the chunk does not touch is too small, and memory ends right behind it. */
  lemma ApartPredecessor(h: Heap, size: nat, base: nat)
    requires Inv(h) && size < WORD && Grows(h, size) && FreshRegion(h, base, GrowBytes(RequestSize(size)))
    requires !GoodPlace(h.blocks, base) && h.blocks[Slot(h.blocks, base) - 1].free
    ensures !HasRoom(ChunksAfter(h, size, Some(base)), Malloc(h.blocks, RequestSize(size), Some(base)).1.value, size)
  {
    hide Extend, Take;
    var l, k, bytes := h.blocks, Slot(h.blocks, base), GrowBytes(RequestSize(size));
    ReturnsPredecessor(l, base, bytes);
    TooSmall(l, k - 1, size);
    GapBehind(h, base, bytes);
    ChunksGrow(h.chunks, Chunk(base, bytes));
    assert !InChunks(h.chunks + [Chunk(base, bytes)], End(l[k - 1]));
  }

  lemma TooSmall(l: seq<Blk>, i: nat, size: nat)
    requires WellFormed(l) && i < |l| && l[i].free && size < WORD && FirstFit(l, RequestSize(size)) == |l|
    ensures l[i].size < size
  {
    hide RequestSize;
    assert Shaped(l[i]) && !(l[i].free && l[i].size >= RequestSize(size));
    RequestIsNear(size);
    NextMultiple(l[i].size, RequestSize(size));
  }

  lemma RequestIsNear(size: nat)
    requires size < WORD
    ensures RequestSize(size) % 8 == 0 && RequestSize(size) < (if size < 8 then 8 else size) + 8
  {
    if size <= WORD - 8 {
      AlignUpIsLeast(if size < MIN_PAYLOAD then MIN_PAYLOAD else size, 8);
    }
  }

  lemma NextMultiple(a: nat, b: nat)
    requires a % 8 == 0 && b % 8 == 0 && a < b
    ensures a + 8 <= b
  {
  }

  lemma GapBehind(h: Heap, base: nat, bytes: nat)
    requires Inv(h) && FreshRegion(h, base, bytes) && bytes >= HDR && !GoodPlace(h.blocks, base)
    requires h.blocks[Slot(h.blocks, base) - 1].free
    ensures var e := End(h.blocks[Slot(h.blocks, base) - 1]); e < base && !InChunks(h.chunks, e)
  {
    var l, k := h.blocks, Slot(h.blocks, base);
    SlotSplits(l, base);
    assert InChunk(Chunk(base, bytes), base);
    assert !Covered(l, base);
    assert !Holds(l[k - 1], base);
    NotInNext(l, k, base);
    assert !Covered(l, End(l[k - 1]));
  }

  /** Where a block ends in front of `base`, and the next begins behind it, nothing stands. */
  lemma NotInNext(l: seq<Blk>, k: nat, base: nat)
    requires Ordered(l) && 0 < k <= |l| && End(l[k - 1]) < base
    requires forall i :: k <= i < |l| ==> base < l[i].addr
    ensures !Covered(l, End(l[k - 1]))
  {
    var e := End(l[k - 1]);
    forall j | 0 <= j < |l| ensures !Holds(l[j], e) {
      assert j < k - 1 ==> End(l[j]) <= l[k - 1].addr;
    }
  }

  /** A block has room for what fits into it, and no block has room above MAX_REQUEST. */
  lemma RoomInBlock(l: seq<Blk>, chunks: seq<Chunk>, i: nat, size: nat)
    requires i < |l| && InSpace(chunks) && forall x :: Covered(l, x) <==> InChunks(chunks, x)
    ensures l[i].size >= size ==> HasRoom(chunks, Payload(l[i]), size)
    ensures size > MAX_REQUEST ==> !HasRoom(chunks, Payload(l[i]), size)
  {
    var p := Payload(l[i]);
    if l[i].size >= size {
      forall x | p <= x < p + size ensures InChunks(chunks, x) {
        assert Holds(l[i], x);
      }
    }
    if size > MAX_REQUEST {
      assert Holds(l[i], l[i].addr) && Covered(l, l[i].addr);
      assert !InChunks(chunks, p + size - 1);
    }
  }
}
