/** The allocator's block list as a sequence, and its operations on that sequence. */
module HeapList {
  import opened Options

  const HDR: nat := 32
  const PAGE: nat := 4096
  const CHUNK: nat := 64 * 1024
  const MIN_PAYLOAD: nat := 8
  const WORD: nat := 0x1_0000_0000_0000_0000

  datatype Blk = Blk(addr: nat, size: nat, free: bool)
  datatype Chunk = Chunk(base: nat, len: nat)

  function End(b: Blk): nat { b.addr + HDR + b.size }

  function Payload(b: Blk): nat { b.addr + HDR }

  // ----- sizes, in 64-bit arithmetic -----

  /** Rounding up with the sum taken modulo the word size, as the mask expression does for
      the powers of two it is used with. */
  function AlignUp(x: nat, align: nat): nat
    requires align > 0
  {
    var y := (x + align - 1) % WORD;
    y - y % align
  }

  function RequestSize(size: nat): nat {
    AlignUp(if size < MIN_PAYLOAD then MIN_PAYLOAD else size, 8)
  }

  function GrowBytes(size: nat): (bytes: nat)
    ensures bytes >= CHUNK
  {
    var bytes := AlignUp(HDR + size, PAGE);
    if bytes < CHUNK then CHUNK else bytes
  }

  /** The largest request with a header and a page in front of it in the address space. */
  const MAX_REQUEST: nat := WORD - PAGE - HDR

  lemma AlignUpIsLeast(x: nat, align: nat)
    requires align == 8 || align == PAGE
    requires x + align <= WORD
    ensures AlignUp(x, align) % align == 0 && x <= AlignUp(x, align) < x + align
  {
  }

  /** Rounding a request keeps room for it exactly while the sum does not wrap. */
  lemma RequestSizeFits(size: nat)
    requires size < WORD
    ensures RequestSize(size) >= size <==> size <= WORD - 8
    ensures size <= WORD - 8 ==> RequestSize(size) % 8 == 0 && RequestSize(size) >= MIN_PAYLOAD
  {
    if size <= WORD - 8 {
      AlignUpIsLeast(if size < MIN_PAYLOAD then MIN_PAYLOAD else size, 8);
    } else {
      assert size + 7 - WORD < 8;
      assert (size + 7) % WORD == size + 7 - WORD;
    }
  }

  /** A fresh chunk has room for a rounded request exactly up to MAX_REQUEST; above it the
      page rounding wraps and only the minimum chunk is obtained. */
  lemma ChunkFitsIff(n: nat)
    requires n % 8 == 0 && n < WORD
    ensures GrowBytes(n) >= HDR + n <==> n <= MAX_REQUEST
    ensures n <= MAX_REQUEST ==> GrowBytes(n) % PAGE == 0
    ensures n > MAX_REQUEST ==> GrowBytes(n) == CHUNK
  {
    if n <= MAX_REQUEST {
      assert HDR + n + PAGE <= WORD;
      AlignUpIsLeast(HDR + n, PAGE);
    } else {
      assert (HDR + n + PAGE - 1) % WORD == HDR + n + PAGE - 1 - WORD;
    }
  }

  /** The same for the request itself, over all of its 64-bit values: of the two roundings
      the first wraps in the last seven bytes, the second already in the last page. */
  lemma GrowBytesFit(size: nat)
    requires size < WORD
    ensures GrowBytes(RequestSize(size)) >= HDR + size <==> size <= MAX_REQUEST
    ensures size <= MAX_REQUEST ==>
              var n := GrowBytes(RequestSize(size)); n % PAGE == 0 && n >= HDR + RequestSize(size)
    ensures size > MAX_REQUEST ==> GrowBytes(RequestSize(size)) == CHUNK
  {
    RequestSizeFits(size);
    if size <= WORD - 8 {
      RequestRounds(size);
      ChunkFitsIff(RequestSize(size));
    } else {
      assert (size + 7) % WORD == size + 7 - WORD;
      assert RequestSize(size) == 0;
      ChunkFitsIff(0);
    }
  }

  /** A request is rounded to the least multiple of eight that holds it and eight bytes, for
      all sizes whose rounding does not wrap. */
  lemma RequestSizeIsLeast(size: nat, m: nat)
    requires size <= WORD - 8
    ensures RequestSize(size) % 8 == 0 && RequestSize(size) >= 8 && RequestSize(size) >= size
    ensures m % 8 == 0 && m >= 8 && m >= size ==> RequestSize(size) <= m
  {
    var x := if size < MIN_PAYLOAD then MIN_PAYLOAD else size;
    AlignUpIsLeast(x, 8);
    LeastMultiple(x, 8, AlignUp(x, 8), m);
  }

  /** The chunk asked for is the least number of whole pages, and of at least 64 KiB, that holds
      a header and the rounded request. */
  lemma GrowBytesIsLeast(n: nat, m: nat)
    requires n <= MAX_REQUEST
    ensures var bytes := GrowBytes(n); bytes % 4096 == 0 && bytes >= 65536 && bytes >= 32 + n
    ensures m % 4096 == 0 && m >= 65536 && m >= 32 + n ==> GrowBytes(n) <= m
  {
    AlignUpIsLeast(HDR + n, PAGE);
    LeastMultiple(HDR + n, PAGE, AlignUp(HDR + n, PAGE), m);
  }

  lemma LeastMultiple(x: nat, align: nat, y: nat, m: nat)
    requires (align == 8 || align == PAGE) && y % align == 0 && y < x + align
    ensures m % align == 0 && m >= x ==> y <= m
  {
  }

  lemma RequestRounds(size: nat)
    requires size <= WORD - 8
    ensures RequestSize(size) <= MAX_REQUEST <==> size <= MAX_REQUEST
    ensures RequestSize(size) < WORD && (size <= MAX_REQUEST ==> SplitSumFits(RequestSize(size)))
  {
    AlignUpIsLeast(if size < MIN_PAYLOAD then MIN_PAYLOAD else size, 8);
  }

  // ----- operations -----

  predicate Mergeable(a: Blk, b: Blk) {
    a.free && b.free && End(a) == b.addr
  }

  function CoalesceAt(l: seq<Blk>, i: nat): seq<Blk>
    requires i < |l|
  {
    if i + 1 < |l| && Mergeable(l[i], l[i + 1])
    then l[..i] + [Blk(l[i].addr, l[i].size + HDR + l[i + 1].size, true)] + l[i + 2..]
    else l
  }

  /** The sum `split_block` compares with does not wrap. */
  predicate SplitSumFits(size: nat) { size + HDR + MIN_PAYLOAD < WORD }

  /** `split_block`, in 64-bit arithmetic. */
  function SplitAt(l: seq<Blk>, i: nat, size: nat): seq<Blk>
    requires i < |l|
  {
    if !SplitSumFits(size) then WrappedSplit(l, i, size)
    else if l[i].size < size + HDR + MIN_PAYLOAD then l
    else l[..i] + [Blk(l[i].addr, size, l[i].free),
                   Blk(l[i].addr + HDR + size, l[i].size - size - HDR, true)] + l[i + 1..]
  }

  /** Where the sum wraps, so do the address and the size of the rest. */
  function WrappedSplit(l: seq<Blk>, i: nat, size: nat): seq<Blk>
    requires i < |l|
  {
    if l[i].size < (size + HDR + MIN_PAYLOAD) % WORD then l
    else l[..i] + [Blk(l[i].addr, size, l[i].free),
                   Blk((l[i].addr + HDR + size) % WORD, (l[i].size - size - HDR) % WORD, true)] + l[i + 1..]
  }

  /** First fit: the index of the first free block of at least `size` bytes. */
  function FirstFit(l: seq<Blk>, size: nat): (i: nat)
    ensures i <= |l|
    ensures i < |l| ==> l[i].free && l[i].size >= size
    ensures forall j :: 0 <= j < i ==> !(l[j].free && l[j].size >= size)
  {
    if l == [] || (l[0].free && l[0].size >= size) then 0
    else
      var i := FirstFit(l[1..], size);
      assert forall j :: 0 < j <= i ==> l[j] == l[1..][j - 1];
      1 + i
  }

  /** Where the address-ordered insertion puts a block. */
  function Slot(l: seq<Blk>, addr: nat): (k: nat)
    ensures k <= |l|
  {
    if l == [] || addr < l[0].addr then 0 else 1 + Slot(l[1..], addr)
  }

  function InsertAt(l: seq<Blk>, k: nat, b: Blk): seq<Blk>
    requires k <= |l|
  {
    l[..k] + [b] + l[k..]
  }

  /** `extend_heap`: the new list and the index of the block it returns. Where there is a
      predecessor, it is the predecessor that is returned, merged or not. */
  function Extend(l: seq<Blk>, base: nat, bytes: nat): (r: (seq<Blk>, nat))
    requires bytes >= HDR
    ensures r.1 < |r.0|
  {
    var k := Slot(l, base);
    var l1 := InsertAt(l, k, Blk(base, bytes - HDR, true));
    if k == 0 then (CoalesceAt(l1, 0), 0)
    else
      var l2 := CoalesceAt(l1, k - 1);
      (CoalesceAt(l2, k - 1), k - 1)
  }

  function Take(l: seq<Blk>, i: nat, size: nat): seq<Blk>
    requires i < |l|
  {
    var l' := SplitAt(l, i, size);
    l'[i := l'[i].(free := false)]
  }

  /** `myfree` of the block at index `i`. */
  function Release(l: seq<Blk>, i: nat): seq<Blk>
    requires i < |l|
  {
    var l1 := l[i := l[i].(free := true)];
    var l2 := CoalesceAt(l1, i);
    if i == 0 then l2 else CoalesceAt(l2, i - 1)
  }

  /** `mymalloc` of a rounded size; `vm` is what `vmalloc` answers if it is asked. */
  function Malloc(l: seq<Blk>, size: nat, vm: Option<nat>): (seq<Blk>, Option<nat>) {
    var i := FirstFit(l, size);
    if i < |l| then (Take(l, i, size), Some(Payload(l[i])))
    else if vm.None? then (l, None)
    else
      var (l', k) := Extend(l, vm.value, GrowBytes(size));
      (Take(l', k, size), Some(Payload(l'[k])))
  }

  // ----- invariants -----

  ghost predicate Ordered(l: seq<Blk>) {
    forall i, j :: 0 <= i < j < |l| ==> End(l[i]) <= l[j].addr
  }

  predicate Shaped(b: Blk) {
    b.addr > 0 && b.addr % 8 == 0 && b.size % 8 == 0 && b.size >= MIN_PAYLOAD
  }

  ghost predicate AllShaped(l: seq<Blk>) {
    forall i :: 0 <= i < |l| ==> Shaped(l[i])
  }

  ghost predicate Coalesced(l: seq<Blk>) {
    forall i :: 0 <= i < |l| - 1 ==> !Mergeable(l[i], l[i + 1])
  }

  predicate Holds(b: Blk, x: nat) { b.addr <= x < End(b) }

  /** Byte `x` lies in some block. */
  ghost predicate Covered(l: seq<Blk>, x: nat) {
    exists i :: 0 <= i < |l| && Holds(l[i], x)
  }

  ghost predicate SameBytes(l: seq<Blk>, l': seq<Blk>) {
    forall x :: Covered(l, x) <==> Covered(l', x)
  }

  ghost predicate WellFormed(l: seq<Blk>) {
    Ordered(l) && AllShaped(l)
  }

  // ----- what the operations keep -----

  lemma CoveredSplit(a: seq<Blk>, b: seq<Blk>, x: nat)
    ensures Covered(a + b, x) <==> Covered(a, x) || Covered(b, x)
  {
    if Covered(a, x) {
      var i :| 0 <= i < |a| && Holds(a[i], x);
      assert Holds((a + b)[i], x);
    }
    if Covered(b, x) {
      var i :| 0 <= i < |b| && Holds(b[i], x);
      assert Holds((a + b)[|a| + i], x);
    }
  }

  /** Replacing a stretch of blocks by another over the same bytes keeps the bytes. */
  lemma CoveredReplace(a: seq<Blk>, b: seq<Blk>, b': seq<Blk>, c: seq<Blk>)
    requires SameBytes(b, b')
    ensures SameBytes(a + b + c, a + b' + c)
  {
    forall x ensures Covered(a + b + c, x) <==> Covered(a + b' + c, x) {
      CoveredSplit(a + b, c, x);
      CoveredSplit(a + b', c, x);
      CoveredSplit(a, b, x);
      CoveredSplit(a, b', x);
    }
  }

  lemma TwoForOne(b: Blk, b1: Blk, b2: Blk)
    requires b1.addr == b.addr && End(b1) == b2.addr && End(b2) == End(b)
    ensures SameBytes([b1, b2], [b])
  {
    forall x ensures Covered([b1, b2], x) <==> Covered([b], x) {
      if Holds(b1, x) { assert Holds([b1, b2][0], x) && Holds([b][0], x); }
      if Holds(b2, x) { assert Holds([b1, b2][1], x) && Holds([b][0], x); }
    }
  }

  lemma CoalesceBytes(l: seq<Blk>, i: nat)
    requires i < |l|
    ensures SameBytes(l, CoalesceAt(l, i))
  {
    if i + 1 < |l| && Mergeable(l[i], l[i + 1]) {
      var b := Blk(l[i].addr, l[i].size + HDR + l[i + 1].size, true);
      TwoForOne(b, l[i], l[i + 1]);
      CoveredReplace(l[..i], [l[i], l[i + 1]], [b], l[i + 2..]);
      assert l == l[..i] + [l[i], l[i + 1]] + l[i + 2..];
    }
  }

  lemma CoalesceShape(l: seq<Blk>, i: nat)
    requires WellFormed(l) && i < |l|
    ensures WellFormed(CoalesceAt(l, i)) && |CoalesceAt(l, i)| > i
  {
    var l' := CoalesceAt(l, i);
    if i + 1 < |l| && Mergeable(l[i], l[i + 1]) {
      assert Shaped(l[i]) && Shaped(l[i + 1]);
      assert End(l'[i]) == End(l[i + 1]);
      forall j, k | 0 <= j < k < |l'| ensures End(l'[j]) <= l'[k].addr {
        MergedOrder(l, i, j, k);
      }
    }
  }

  lemma MergedOrder(l: seq<Blk>, i: nat, j: nat, k: nat)
    requires Ordered(l) && i + 1 < |l| && Mergeable(l[i], l[i + 1])
    requires j < k < |CoalesceAt(l, i)|
    ensures End(CoalesceAt(l, i)[j]) <= CoalesceAt(l, i)[k].addr
  {
    var j' := if j >= i then j + 1 else j;
    var k' := if k > i then k + 1 else k;
    assert End(l[j']) <= l[k'].addr;
  }

  lemma CoalesceKeeps(l: seq<Blk>, i: nat)
    requires WellFormed(l) && i < |l|
    ensures WellFormed(CoalesceAt(l, i)) && SameBytes(l, CoalesceAt(l, i))
    ensures |CoalesceAt(l, i)| > i
  {
    CoalesceBytes(l, i);
    CoalesceShape(l, i);
  }

  lemma SplitBytes(l: seq<Blk>, i: nat, size: nat)
    requires i < |l| && SplitSumFits(size)
    ensures SameBytes(l, SplitAt(l, i, size))
  {
    if l[i].size >= size + HDR + MIN_PAYLOAD {
      var b1 := Blk(l[i].addr, size, l[i].free);
      var b2 := Blk(l[i].addr + HDR + size, l[i].size - size - HDR, true);
      TwoForOne(l[i], b1, b2);
      CoveredReplace(l[..i], [l[i]], [b1, b2], l[i + 1..]);
      assert l == l[..i] + [l[i]] + l[i + 1..];
    }
  }

  lemma SplitKeeps(l: seq<Blk>, i: nat, size: nat)
    requires WellFormed(l) && i < |l| && size % 8 == 0 && size >= MIN_PAYLOAD && SplitSumFits(size)
    ensures WellFormed(SplitAt(l, i, size)) && SameBytes(l, SplitAt(l, i, size))
  {
    SplitBytes(l, i, size);
    SplitShape(l, i, size);
  }

  lemma SplitShape(l: seq<Blk>, i: nat, size: nat)
    requires WellFormed(l) && i < |l| && size % 8 == 0 && size >= MIN_PAYLOAD && SplitSumFits(size)
    ensures WellFormed(SplitAt(l, i, size))
  {
    var l' := SplitAt(l, i, size);
    if l[i].size >= size + HDR + MIN_PAYLOAD {
      forall j | 0 <= j < |l'| ensures Shaped(l'[j]) {
        SplitShaped(l, i, size, j);
      }
      forall j, k | 0 <= j < k < |l'| ensures End(l'[j]) <= l'[k].addr {
        SplitOrder(l, i, size, j, k);
      }
    }
  }

  lemma SplitShaped(l: seq<Blk>, i: nat, size: nat, j: nat)
    requires AllShaped(l) && i < |l| && size % 8 == 0 && size >= MIN_PAYLOAD && SplitSumFits(size)
    requires l[i].size >= size + HDR + MIN_PAYLOAD && j < |SplitAt(l, i, size)|
    ensures Shaped(SplitAt(l, i, size)[j])
  {
    var j' := if j > i then j - 1 else j;
    assert Shaped(l[j']);
  }

  lemma SplitOrder(l: seq<Blk>, i: nat, size: nat, j: nat, k: nat)
    requires Ordered(l) && i < |l| && l[i].size >= size + HDR + MIN_PAYLOAD && SplitSumFits(size)
    requires j < k < |SplitAt(l, i, size)|
    ensures End(SplitAt(l, i, size)[j]) <= SplitAt(l, i, size)[k].addr
  {
    var j' := if j > i then j - 1 else j;
    var k' := if k > i then k - 1 else k;
    assert j' < k' ==> End(l[j']) <= l[k'].addr;
  }

  /** For every size of 64 bits and every block in the address space: a split keeps the list
      well formed if and only if its sum does not wrap or it does nothing. */
  lemma SplitKeepsIff(l: seq<Blk>, i: nat, size: nat)
    requires WellFormed(l) && i < |l| && size % 8 == 0 && MIN_PAYLOAD <= size < WORD && End(l[i]) <= WORD
    ensures WellFormed(SplitAt(l, i, size)) <==> SplitSumFits(size) || SplitAt(l, i, size) == l
  {
    if SplitSumFits(size) {
      SplitShape(l, i, size);
    } else if SplitAt(l, i, size) != l {
      var l' := SplitAt(l, i, size);
      assert l'[i].addr == l[i].addr && l'[i].size == size;
      assert Shaped(l[i]);
      assert l'[i + 1].addr == l[i].addr + HDR + size - WORD < End(l'[i]);
    }
  }

  /** Only the address and the size of a block decide which bytes it holds. */
  lemma FlagKeeps(l: seq<Blk>, i: nat, free: bool)
    requires WellFormed(l) && i < |l|
    ensures var l' := l[i := l[i].(free := free)]; WellFormed(l') && SameBytes(l, l')
  {
    var l' := l[i := l[i].(free := free)];
    forall x ensures Covered(l, x) <==> Covered(l', x) {
      if Covered(l, x) {
        var j :| 0 <= j < |l| && Holds(l[j], x);
        assert Holds(l'[j], x);
      }
      if Covered(l', x) {
        var j :| 0 <= j < |l'| && Holds(l'[j], x);
        assert Holds(l[j], x);
      }
    }
  }

  lemma {:induction false} SlotSplits(l: seq<Blk>, addr: nat)
    requires Ordered(l)
    ensures forall i :: 0 <= i < Slot(l, addr) ==> l[i].addr <= addr
    ensures forall i :: Slot(l, addr) <= i < |l| ==> addr < l[i].addr
    decreases |l|
  {
    if l != [] && addr >= l[0].addr {
      SlotSplits(l[1..], addr);
    }
  }

  /** A block over bytes nobody holds falls between its neighbours. */
  lemma InsertFits(l: seq<Blk>, b: Blk, i: nat)
    requires Ordered(l) && i < |l|
    requires forall x :: Holds(b, x) ==> !Covered(l, x)
    ensures i < Slot(l, b.addr) ==> End(l[i]) <= b.addr
    ensures i >= Slot(l, b.addr) ==> End(b) <= l[i].addr
  {
    SlotSplits(l, b.addr);
    if i < Slot(l, b.addr) {
      assert Holds(b, b.addr);
      assert !Holds(l[i], b.addr);
    } else {
      assert Holds(l[i], l[i].addr);
      assert !Holds(b, l[i].addr);
    }
  }

  lemma InsertKeeps(l: seq<Blk>, b: Blk)
    requires WellFormed(l) && Shaped(b)
    requires forall x :: Holds(b, x) ==> !Covered(l, x)
    ensures var l' := InsertAt(l, Slot(l, b.addr), b);
            WellFormed(l') && (forall x :: Covered(l', x) <==> Covered(l, x) || Holds(b, x))
  {
    var k := Slot(l, b.addr);
    forall i | 0 <= i < |l|
      ensures i < k ==> End(l[i]) <= b.addr
      ensures i >= k ==> End(b) <= l[i].addr
    {
      InsertFits(l, b, i);
    }
    InsertBytes(l, k, b);
    assert Ordered(InsertAt(l, k, b));
  }

  lemma InsertBytes(l: seq<Blk>, k: nat, b: Blk)
    requires k <= |l|
    ensures forall x :: Covered(InsertAt(l, k, b), x) <==> Covered(l, x) || Holds(b, x)
  {
    forall x ensures Covered(InsertAt(l, k, b), x) <==> Covered(l, x) || Holds(b, x) {
      CoveredSplit(l[..k] + [b], l[k..], x);
      CoveredSplit(l[..k], [b], x);
      CoveredSplit(l[..k], l[k..], x);
      assert l[..k] + l[k..] == l;
      assert Covered([b], x) <==> Holds([b][0], x);
    }
  }

  // ----- coalescing -----

  /** Merging at `i` repairs the pair at `i` and spoils no other. */
  lemma CoalesceRepairs(l: seq<Blk>, i: nat)
    requires i < |l|
    requires forall j :: 0 <= j < |l| - 1 && j != i && j + 1 != i ==> !Mergeable(l[j], l[j + 1])
    ensures var l' := CoalesceAt(l, i);
            && |l'| > i && l'[i].addr == l[i].addr && l'[i].free == l[i].free
            && (forall j :: 0 <= j < |l'| - 1 && j + 1 != i ==> !Mergeable(l'[j], l'[j + 1]))
            && (i > 0 ==> l'[i - 1] == l[i - 1])
  {
    var l' := CoalesceAt(l, i);
    if i + 1 < |l| && Mergeable(l[i], l[i + 1]) {
      forall j | 0 <= j < |l'| - 1 && j + 1 != i ensures !Mergeable(l'[j], l'[j + 1]) {
        if j == i {
          assert !Mergeable(l[i + 1], l[i + 2]);
        } else if j > i {
          assert l'[j] == l[j + 1] && l'[j + 1] == l[j + 2];
        }
      }
    }
  }

  /** `myfree` leaves no two touching free blocks. */
  lemma ReleaseCoalesces(l: seq<Blk>, i: nat)
    requires Coalesced(l) && i < |l|
    ensures Coalesced(Release(l, i))
  {
    var l1 := l[i := l[i].(free := true)];
    forall j | 0 <= j < |l1| - 1 && j != i && j + 1 != i ensures !Mergeable(l1[j], l1[j + 1]) {
      assert !Mergeable(l[j], l[j + 1]);
    }
    CoalesceRepairs(l1, i);
    if i > 0 {
      var l2 := CoalesceAt(l1, i);
      CoalesceRepairs(l2, i - 1);
      var l3 := CoalesceAt(l2, i - 1);
      if i > 1 {
        assert !Mergeable(l2[i - 2], l2[i - 1]);
      }
    }
  }

  lemma TakeCoalesces(l: seq<Blk>, i: nat, size: nat)
    requires Coalesced(l) && i < |l| && l[i].free && SplitSumFits(size)
    ensures Coalesced(Take(l, i, size))
  {
    var l' := Take(l, i, size);
    forall j | 0 <= j < |l'| - 1 ensures !Mergeable(l'[j], l'[j + 1]) {
      if |l'| == |l| {
        assert !Mergeable(l[j], l[j + 1]);
      } else if j < i {
        assert !Mergeable(l[j], l[j + 1]);
      } else if j > i {
        assert l'[j + 1] == l[j];
        assert !Mergeable(l[j - 1], l[j]);
      }
    }
  }

  /** The placement under which growing is sound: the fresh chunk lies below the list, or
      it touches a free predecessor. */
  predicate GoodPlace(l: seq<Blk>, base: nat) {
    var k := Slot(l, base);
    k == 0 || (l[k - 1].free && End(l[k - 1]) == base)
  }

  lemma ExtendCoalesces(l: seq<Blk>, base: nat, bytes: nat)
    requires Coalesced(l) && bytes >= HDR && GoodPlace(l, base)
    ensures Coalesced(Extend(l, base, bytes).0)
  {
    var k := Slot(l, base);
    var l1 := InsertAt(l, k, Blk(base, bytes - HDR, true));
    forall j | 0 <= j < |l1| - 1 && j != k && j + 1 != k ensures !Mergeable(l1[j], l1[j + 1]) {
      if j < k {
        assert !Mergeable(l[j], l[j + 1]);
      } else {
        assert !Mergeable(l[j - 1], l[j]);
      }
    }
    if k == 0 {
      CoalesceRepairs(l1, 0);
    } else {
      MergeTwice(l1, k - 1);
    }
  }

  /** Merging twice at `i` absorbs both following blocks if they touch. */
  lemma MergeTwice(l: seq<Blk>, i: nat)
    requires i + 1 < |l| && Mergeable(l[i], l[i + 1])
    requires forall j :: 0 <= j < |l| - 1 && j != i && j != i + 1 ==> !Mergeable(l[j], l[j + 1])
    ensures Coalesced(CoalesceAt(CoalesceAt(l, i), i))
  {
    var l2 := CoalesceAt(l, i);
    forall j | 0 <= j < |l2| - 1 && j != i ensures !Mergeable(l2[j], l2[j + 1]) {
      if j < i {
        assert !Mergeable(l[j], l[j + 1]);
      } else {
        assert !Mergeable(l[j + 1], l[j + 2]);
      }
    }
    CoalesceRepairs(l2, i);
    if i > 0 {
      assert !Mergeable(l2[i - 1], l2[i]);
    }
  }

  // ----- growth -----

  /** When no block fits, the block `extend_heap` returns is free and large enough if and
      only if the fresh chunk has no predecessor or touches a free one. */
  lemma GrowthIff(l: seq<Blk>, base: nat, bytes: nat, size: nat)
    requires FirstFit(l, size) == |l| && bytes >= HDR + size
    ensures var (l', i) := Extend(l, base, bytes);
            l'[i].free && l'[i].size >= size <==> GoodPlace(l, base)
  {
    var k := Slot(l, base);
    var b := Blk(base, bytes - HDR, true);
    var l1 := InsertAt(l, k, b);
    if k > 0 {
      assert l1[k - 1] == l[k - 1] && l1[k] == b;
      if !Mergeable(l1[k - 1], l1[k]) {
        assert CoalesceAt(l1, k - 1) == l1;
      }
    }
  }

  /** A request the page rounding wraps for: all but one page of the address space is asked
      for, and a block of the minimum chunk is handed out. */
  lemma HugeRequestGetsSmallBlock(base: nat)
    ensures var size := WORD - PAGE;
            Malloc([], RequestSize(size), Some(base)) == ([Blk(base, CHUNK - HDR, false)], Some(base + HDR))
  {
    var size := WORD - PAGE;
    AlignUpIsLeast(size, 8);
    assert RequestSize(size) == size;
    GrowBytesFit(size);
    var b := Blk(base, CHUNK - HDR, true);
    assert InsertAt([], 0, b) == [b];
    assert Take([b], 0, size) == [b.(free := false)];
  }

  // ----- round trip -----

  /** A malloc served from the list followed by a free of its result restores the list. */
  lemma MallocThenFree(l: seq<Blk>, size: nat)
    requires Coalesced(l) && FirstFit(l, size) < |l| && SplitSumFits(size)
    ensures var i := FirstFit(l, size);
            Release(Take(l, i, size), i) == l
  {
    var i := FirstFit(l, size);
    var t := Take(l, i, size);
    var l1 := t[i := t[i].(free := true)];
    assert l1 == SplitAt(l, i, size);
    SplitThenMerge(l, i, size);
    assert CoalesceAt(l1, i) == l;
    assert i > 0 ==> !Mergeable(l[i - 1], l[i]);
  }

  lemma SplitThenMerge(l: seq<Blk>, i: nat, size: nat)
    requires i < |l| && l[i].free && SplitSumFits(size) && (i + 1 < |l| ==> !Mergeable(l[i], l[i + 1]))
    ensures CoalesceAt(SplitAt(l, i, size), i) == l
  {
    if l[i].size >= size + HDR + MIN_PAYLOAD {
      var l1 := SplitAt(l, i, size);
      assert l1[..i] == l[..i] && l1[i + 2..] == l[i + 1..];
      assert l == l[..i] + [l[i]] + l[i + 1..];
    }
  }
}
