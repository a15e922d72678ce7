/** The allocator itself: block headers in memory, linked by addresses, changed in place.
    Every operation is shown to do to the linked headers what the corresponding function
    of `HeapList` does to the block sequence. */
module HeapMemory {
  import opened Options
  import opened HeapList

  /** A block header; address 0 is the null pointer. */
  datatype Header = Header(size: nat, free: bool, prev: nat, next: nat)

  function AddrAt(l: seq<Blk>, i: int): nat {
    if 0 <= i < |l| then l[i].addr else 0
  }

  function HeaderAt(l: seq<Blk>, i: nat): Header
    requires i < |l|
  {
    Header(l[i].size, l[i].free, AddrAt(l, i - 1), AddrAt(l, i + 1))
  }

  predicate Stored(l: seq<Blk>, mem: map<nat, Header>, i: nat)
    requires i < |l|
  {
    l[i].addr in mem && mem[l[i].addr] == HeaderAt(l, i)
  }

  /** The headers reachable from `head` are exactly the blocks of `l`, in order, and their
      prev and next links are inverse to each other. */
  ghost predicate Linked(l: seq<Blk>, head: nat, mem: map<nat, Header>) {
    && head == AddrAt(l, 0)
    && (forall i :: 0 <= i < |l| ==> Stored(l, mem, i))
  }

  ghost predicate Placed(l: seq<Blk>) {
    Ordered(l) && forall i :: 0 <= i < |l| ==> l[i].addr > 0
  }

  /** Different positions hold different, non-null addresses. */
  predicate Apart(l: seq<Blk>, i: int, j: int) {
    && (0 <= i < |l| ==> l[i].addr > 0)
    && (0 <= i < |l| && 0 <= j < |l| && i != j ==> l[i].addr != l[j].addr)
  }

  lemma AddrsApart(l: seq<Blk>, i: int, j: int)
    requires Placed(l)
    ensures Apart(l, i, j)
  {
    assert 0 <= i < j < |l| ==> End(l[i]) <= l[j].addr;
    assert 0 <= j < i < |l| ==> End(l[j]) <= l[i].addr;
  }

  /** In a linked list of headers prev and next are inverse to each other, addresses ascend
      along next, and only the ends have null links. */
  lemma LinksInverse(l: seq<Blk>, head: nat, mem: map<nat, Header>, i: nat)
    requires Placed(l) && Linked(l, head, mem) && i < |l|
    ensures l[i].addr in mem
    ensures var h := mem[l[i].addr];
            && (h.next == 0 <==> i == |l| - 1) && (h.prev == 0 <==> i == 0) && (i == 0 <==> head == l[i].addr)
            && (h.next != 0 ==> l[i].addr < h.next && h.next in mem && mem[h.next].prev == l[i].addr)
            && (h.prev != 0 ==> h.prev < l[i].addr && h.prev in mem && mem[h.prev].next == l[i].addr)
  {
    assert Stored(l, mem, i);
    AddrsApart(l, 0, i);
    if i + 1 < |l| {
      assert Stored(l, mem, i + 1) && End(l[i]) <= l[i + 1].addr;
    }
    if i > 0 {
      assert Stored(l, mem, i - 1) && End(l[i - 1]) <= l[i].addr;
    }
  }

  // ----- each pointer manipulation, on values -----

  function SetPrev(mem: map<nat, Header>, at: nat, p: nat): map<nat, Header> {
    if at != 0 && at in mem then mem[at := mem[at].(prev := p)] else mem
  }

  function SetNext(mem: map<nat, Header>, at: nat, n: nat): map<nat, Header> {
    if at != 0 && at in mem then mem[at := mem[at].(next := n)] else mem
  }

  function InsertMem(l: seq<Blk>, mem: map<nat, Header>, k: nat, b: Blk): map<nat, Header> {
    var mem1 := mem[b.addr := Header(b.size, b.free, AddrAt(l, k - 1), AddrAt(l, k))];
    SetNext(SetPrev(mem1, AddrAt(l, k), b.addr), AddrAt(l, k - 1), b.addr)
  }

  /** The two or three header writes of an insertion before the first block. */
  lemma InsertFront(l: seq<Blk>, head: nat, mem: map<nat, Header>, b: Blk)
    requires Linked(l, head, mem) && b.addr in mem && mem[b.addr].size == b.size && mem[b.addr].free == b.free
    ensures head == 0 || head in mem
    ensures var mem1 := mem[b.addr := mem[b.addr].(prev := 0, next := head)];
            InsertMem(l, mem, 0, b) == if head == 0 then mem1 else mem1[head := mem1[head].(prev := b.addr)]
  {
    assert l == [] || Stored(l, mem, 0);
  }

  /** The header writes of an insertion behind block `c`. */
  lemma InsertBehind(l: seq<Blk>, mem: map<nat, Header>, c: nat, b: Blk)
    requires Placed(l) && c < |l| && Stored(l, mem, c) && (c + 1 < |l| ==> Stored(l, mem, c + 1))
    requires b.addr in mem && mem[b.addr].size == b.size && mem[b.addr].free == b.free
    ensures var cur := l[c].addr;
            var next := mem[cur].next;
            var mem1 := mem[b.addr := mem[b.addr].(prev := cur, next := next)];
            && (next == 0 || next in mem)
            && var mem2 := if next == 0 then mem1 else mem1[next := mem1[next].(prev := b.addr)];
               InsertMem(l, mem, c + 1, b) == mem2[cur := mem2[cur].(next := b.addr)]
  {
  }

  lemma InsertAddr(l: seq<Blk>, k: nat, b: Blk, j: int)
    requires k <= |l|
    ensures AddrAt(InsertAt(l, k, b), j)
         == if j < k then AddrAt(l, j) else if j == k then b.addr else AddrAt(l, j - 1)
  {
  }

  /** The header of old block `i` after the insertion. */
  lemma InsertStored(l: seq<Blk>, mem: map<nat, Header>, k: nat, b: Blk, i: nat)
    requires k <= |l| && i < |l| && Stored(l, mem, i)
    requires Apart(l, i, k) && Apart(l, i, k - 1) && Apart(l, k, k - 1) && l[i].addr != b.addr
    ensures Stored(InsertAt(l, k, b), InsertMem(l, mem, k, b), if i < k then i else i + 1)
  {
    var i' := if i < k then i else i + 1;
    InsertAddr(l, k, b, i' - 1);
    InsertAddr(l, k, b, i' + 1);
    assert InsertAt(l, k, b)[i'] == l[i];
  }

  lemma InsertedStored(l: seq<Blk>, mem: map<nat, Header>, k: nat, b: Blk)
    requires k <= |l| && AddrAt(l, k) != b.addr && AddrAt(l, k - 1) != b.addr
    ensures Stored(InsertAt(l, k, b), InsertMem(l, mem, k, b), k)
  {
    InsertAddr(l, k, b, k - 1);
    InsertAddr(l, k, b, k + 1);
  }

  lemma LinkInsert(l: seq<Blk>, head: nat, mem: map<nat, Header>, k: nat, b: Blk)
    requires Placed(l) && Linked(l, head, mem) && k <= |l| && b.addr > 0
    requires forall i :: 0 <= i < |l| ==> l[i].addr != b.addr
    ensures Linked(InsertAt(l, k, b), if k == 0 then b.addr else head, InsertMem(l, mem, k, b))
  {
    InsertAddr(l, k, b, 0);
    InsertedStored(l, mem, k, b);
    AddrsApart(l, k, k - 1);
    forall i | 0 <= i <= |l| ensures Stored(InsertAt(l, k, b), InsertMem(l, mem, k, b), i) {
      if i != k {
        var x := if i < k then i else i - 1;
        AddrsApart(l, x, k);
        AddrsApart(l, x, k - 1);
        InsertStored(l, mem, k, b, x);
      }
    }
  }

  function MergeMem(l: seq<Blk>, mem: map<nat, Header>, i: nat): map<nat, Header>
    requires i + 1 < |l|
  {
    var size := l[i].size + HDR + l[i + 1].size;
    var mem1 := mem[l[i].addr := Header(size, true, AddrAt(l, i - 1), AddrAt(l, i + 2))];
    SetPrev(mem1, AddrAt(l, i + 2), l[i].addr)
  }

  lemma MergeAddr(l: seq<Blk>, i: nat, j: int)
    requires i + 1 < |l| && Mergeable(l[i], l[i + 1])
    ensures AddrAt(CoalesceAt(l, i), j) == if j <= i then AddrAt(l, j) else AddrAt(l, j + 1)
  {
  }

  lemma MergeStored(l: seq<Blk>, mem: map<nat, Header>, i: nat, j: nat)
    requires i + 1 < |l| && Mergeable(l[i], l[i + 1]) && j < |l| - 1
    requires var x := if j <= i then j else j + 1;
             && Stored(l, mem, x) && Apart(l, x, i) && Apart(l, x, i + 2) && Apart(l, i, i + 2)
    ensures |CoalesceAt(l, i)| == |l| - 1 && Stored(CoalesceAt(l, i), MergeMem(l, mem, i), j)
  {
    MergeAddr(l, i, j - 1);
    MergeAddr(l, i, j + 1);
  }

  lemma LinkMerge(l: seq<Blk>, head: nat, mem: map<nat, Header>, i: nat)
    requires Placed(l) && Linked(l, head, mem) && i + 1 < |l| && Mergeable(l[i], l[i + 1])
    ensures Linked(CoalesceAt(l, i), head, MergeMem(l, mem, i))
  {
    MergeAddr(l, i, 0);
    var l' := CoalesceAt(l, i);
    forall j | 0 <= j < |l'| ensures Stored(l', MergeMem(l, mem, i), j) {
      var x := if j <= i then j else j + 1;
      AddrsApart(l, x, i);
      AddrsApart(l, x, i + 2);
      AddrsApart(l, i, i + 2);
      MergeStored(l, mem, i, j);
    }
  }

  function SplitMem(l: seq<Blk>, mem: map<nat, Header>, i: nat, size: nat): map<nat, Header>
    requires i < |l| && l[i].size >= size + HDR
  {
    var rest := l[i].addr + HDR + size;
    var mem1 := mem[rest := Header(l[i].size - size - HDR, true, l[i].addr, AddrAt(l, i + 1))];
    var mem2 := SetPrev(mem1, AddrAt(l, i + 1), rest);
    mem2[l[i].addr := Header(size, l[i].free, AddrAt(l, i - 1), rest)]
  }

  lemma SplitAddr(l: seq<Blk>, i: nat, size: nat, j: int)
    requires i < |l| && l[i].size >= size + HDR + MIN_PAYLOAD && SplitSumFits(size)
    ensures AddrAt(SplitAt(l, i, size), j)
         == if j <= i then AddrAt(l, j)
            else if j == i + 1 then l[i].addr + HDR + size else AddrAt(l, j - 1)
  {
  }

  lemma SplitStored(l: seq<Blk>, mem: map<nat, Header>, i: nat, size: nat, j: nat)
    requires i < |l| && j <= |l| && l[i].size >= size + HDR + MIN_PAYLOAD && SplitSumFits(size)
    requires var x := if j <= i then j else j - 1;
             var rest := l[i].addr + HDR + size;
             && Stored(l, mem, x) && Apart(l, x, i) && Apart(l, x, i + 1) && Apart(l, i, i + 1)
             && l[x].addr != rest && AddrAt(l, i + 1) != rest
    ensures |SplitAt(l, i, size)| == |l| + 1
    ensures Stored(SplitAt(l, i, size), SplitMem(l, mem, i, size), j)
  {
    SplitAddr(l, i, size, j - 1);
    SplitAddr(l, i, size, j + 1);
  }

  lemma LinkSplit(l: seq<Blk>, head: nat, mem: map<nat, Header>, i: nat, size: nat)
    requires Placed(l) && Linked(l, head, mem) && i < |l|
    requires l[i].size >= size + HDR + MIN_PAYLOAD && SplitSumFits(size)
    ensures Linked(SplitAt(l, i, size), head, SplitMem(l, mem, i, size))
  {
    SplitAddr(l, i, size, 0);
    var l' := SplitAt(l, i, size);
    forall j | 0 <= j < |l'| ensures Stored(l', SplitMem(l, mem, i, size), j) {
      var x := if j <= i then j else j - 1;
      RestApart(l, i, l[i].addr + HDR + size);
      AddrsApart(l, x, i);
      AddrsApart(l, x, i + 1);
      AddrsApart(l, i, i + 1);
      SplitStored(l, mem, i, size, j);
    }
  }

  /** An address strictly inside a block is not the address of any block. */
  lemma RestApart(l: seq<Blk>, i: nat, x: nat)
    requires Ordered(l) && i < |l| && l[i].addr < x < End(l[i])
    ensures forall j :: 0 <= j < |l| ==> l[j].addr != x
  {
    forall j | 0 <= j < |l| ensures l[j].addr != x {
      assert j < i ==> End(l[j]) <= l[i].addr;
      assert i < j ==> End(l[i]) <= l[j].addr;
    }
  }

  lemma LinkFlag(l: seq<Blk>, head: nat, mem: map<nat, Header>, i: nat, free: bool)
    requires Placed(l) && Linked(l, head, mem) && i < |l|
    ensures l[i].addr in mem
    ensures Linked(l[i := l[i].(free := free)], head, mem[l[i].addr := mem[l[i].addr].(free := free)])
  {
    var l' := l[i := l[i].(free := free)];
    assert Stored(l, mem, i);
    var mem' := mem[l[i].addr := mem[l[i].addr].(free := free)];
    forall j | 0 <= j < |l'| ensures Stored(l', mem', j) {
      AddrsApart(l, i, j);
      assert Stored(l, mem, j);
      assert AddrAt(l', j - 1) == AddrAt(l, j - 1) && AddrAt(l', j + 1) == AddrAt(l, j + 1);
    }
  }

  lemma PlacedCoalesce(l: seq<Blk>, i: nat)
    requires Placed(l) && i < |l|
    ensures Placed(CoalesceAt(l, i)) && |CoalesceAt(l, i)| > i && CoalesceAt(l, i)[i].addr == l[i].addr
    ensures i > 0 ==> CoalesceAt(l, i)[i - 1] == l[i - 1]
  {
    var l' := CoalesceAt(l, i);
    if i + 1 < |l| && Mergeable(l[i], l[i + 1]) {
      forall j, k | 0 <= j < k < |l'| ensures End(l'[j]) <= l'[k].addr {
        MergedOrder(l, i, j, k);
      }
      assert forall j :: i < j < |l'| ==> l'[j] == l[j + 1];
    }
  }

  lemma PlacedSplit(l: seq<Blk>, i: nat, size: nat)
    requires Placed(l) && i < |l|
    ensures SplitSumFits(size) ==> Placed(SplitAt(l, i, size))
    ensures |SplitAt(l, i, size)| > i && SplitAt(l, i, size)[i].addr == l[i].addr
  {
    var l' := SplitAt(l, i, size);
    if SplitSumFits(size) && l[i].size >= size + HDR + MIN_PAYLOAD {
      forall j, k | 0 <= j < k < |l'| ensures End(l'[j]) <= l'[k].addr {
        SplitOrder(l, i, size, j, k);
      }
      assert forall j :: i + 1 < j < |l'| ==> l'[j] == l[j - 1];
    }
  }

  lemma PlacedInsert(l: seq<Blk>, b: Blk)
    requires Placed(l) && b.addr > 0
    requires forall x :: Holds(b, x) ==> !Covered(l, x)
    ensures Placed(InsertAt(l, Slot(l, b.addr), b))
    ensures forall i :: 0 <= i < |l| ==> l[i].addr != b.addr
  {
    hide Covered, Holds, Slot;
    var k := Slot(l, b.addr);
    var l' := InsertAt(l, k, b);
    forall i, j | 0 <= i < j < |l'| ensures End(l'[i]) <= l'[j].addr {
      InsertedPair(l, b, i, j);
    }
    forall i | 0 <= i < |l| ensures l[i].addr != b.addr {
      InsertFits(l, b, i);
    }
  }

  lemma InsertedPair(l: seq<Blk>, b: Blk, i: nat, j: nat)
    requires Ordered(l) && i < j <= |l| && forall x :: Holds(b, x) ==> !Covered(l, x)
    ensures var l' := InsertAt(l, Slot(l, b.addr), b); End(l'[i]) <= l'[j].addr
  {
    hide Covered, Holds, Slot;
    var k := Slot(l, b.addr);
    if i != k && j != k {
      InsertedOrder(l, k, b, i, j);
    } else if j == k {
      InsertFits(l, b, i);
    } else {
      InsertFits(l, b, j - 1);
    }
  }

  lemma InsertedOrder(l: seq<Blk>, k: nat, b: Blk, i: nat, j: nat)
    requires Ordered(l) && k <= |l| && i < j <= |l| && i != k && j != k
    ensures End(InsertAt(l, k, b)[i]) <= InsertAt(l, k, b)[j].addr
  {
    var x, y := if i < k then i else i - 1, if j < k then j else j - 1;
    assert End(l[x]) <= l[y].addr;
  }

  lemma NoNext(l: seq<Blk>, i: nat)
    requires Placed(l) && i < |l| && AddrAt(l, i + 1) == 0
    ensures CoalesceAt(l, i) == l
  {
  }

  lemma FirstSlot(l: seq<Blk>, k: nat)
    requires Placed(l) && k <= |l|
    ensures AddrAt(l, k - 1) == 0 <==> k == 0
  {
  }

  /** Writing a header where no block stands leaves the list as it is. */
  lemma LinkWrite(l: seq<Blk>, head: nat, mem: map<nat, Header>, at: nat, h: Header)
    requires Linked(l, head, mem) && forall i :: 0 <= i < |l| ==> l[i].addr != at
    ensures Linked(l, head, mem[at := h])
  {
    var mem' := mem[at := h];
    forall j | 0 <= j < |l| ensures Stored(l, mem', j) {
      assert Stored(l, mem, j);
    }
  }

  // ----- the walk of an insertion -----

  lemma HeadStored(l: seq<Blk>, head: nat, mem: map<nat, Header>)
    requires Placed(l) && Linked(l, head, mem)
    ensures head == AddrAt(l, 0) && (head == 0 <==> l == []) && (l != [] ==> Stored(l, mem, 0))
  {
  }

  lemma NextStored(l: seq<Blk>, head: nat, mem: map<nat, Header>, c: nat)
    requires Placed(l) && Linked(l, head, mem) && c < |l|
    ensures AddrAt(l, c + 1) == 0 <==> c + 1 == |l|
    ensures c + 1 < |l| ==> Stored(l, mem, c + 1)
  {
  }

  lemma SlotFirst(l: seq<Blk>, addr: nat)
    requires l == [] || addr < l[0].addr
    ensures Slot(l, addr) == 0
  {
  }

  /** The walk stops in front of the slot. */
  lemma SlotBehind(l: seq<Blk>, b: Blk, c: nat)
    requires Placed(l) && c < |l| && l[c].addr <= b.addr && (c + 1 < |l| ==> b.addr <= l[c + 1].addr)
    requires forall x :: Holds(b, x) ==> !Covered(l, x)
    ensures Slot(l, b.addr) == c + 1
  {
    SlotSplits(l, b.addr);
    if c + 1 < |l| {
      InsertFits(l, b, c + 1);
    }
  }

  lemma Inserted(l: seq<Blk>, head: nat, mem: map<nat, Header>, b: Blk)
    requires Placed(l) && Linked(l, head, mem) && b.addr > 0
    requires forall x :: Holds(b, x) ==> !Covered(l, x)
    ensures var k := Slot(l, b.addr);
            && Placed(InsertAt(l, k, b))
            && Linked(InsertAt(l, k, b), if k == 0 then b.addr else head, InsertMem(l, mem, k, b))
            && (AddrAt(l, k - 1) == 0 || AddrAt(l, k - 1) != b.addr) && (AddrAt(l, k) != b.addr)
  {
    PlacedInsert(l, b);
    LinkInsert(l, head, mem, Slot(l, b.addr), b);
  }

  // ----- the allocator -----

  class Allocator {
    var head: nat
    var mem: map<nat, Header>
    var mallocCount: nat
    ghost var list: seq<Blk>

    ghost predicate Valid()
      reads this
    {
      Placed(list) && Linked(list, head, mem)
    }

    constructor ()
      ensures Valid() && list == [] && mallocCount == 0
    {
      head, mem, mallocCount, list := 0, map[], 0, [];
    }

    /** `insert_block` of a header written at `addr`. */
    method InsertBlock(addr: nat) returns (ghost k: nat)
      requires Valid() && addr > 0 && addr in mem
      requires forall x :: Holds(Blk(addr, mem[addr].size, mem[addr].free), x) ==> !Covered(list, x)
      modifies this`head, this`mem, this`list
      ensures Valid() && k == Slot(old(list), addr)
      ensures list == InsertAt(old(list), k, Blk(addr, old(mem)[addr].size, old(mem)[addr].free))
      ensures addr in mem && mem[addr].prev == AddrAt(old(list), k - 1)
    {
      hide Covered, Holds, Slot, InsertMem, InsertAt, Placed, Linked;
      ghost var b := Blk(addr, mem[addr].size, mem[addr].free);
      k := Slot(list, addr);
      Inserted(list, head, mem, b);
      HeadStored(list, head, mem);
      if head == 0 || addr < head {
        SlotFirst(list, addr);
        InsertFront(list, head, mem, b);
        mem := mem[addr := mem[addr].(prev := 0, next := head)];
        if head != 0 {
          mem := mem[head := mem[head].(prev := addr)];
        }
        head := addr;
        list := InsertAt(list, k, b);
        return;
      }

      var cur := head;
      ghost var c := 0;
      while mem[cur].next != 0 && mem[cur].next < addr
        invariant list == old(list) && mem == old(mem) && head == old(head)
        invariant c < |list| && cur == list[c].addr && Stored(list, mem, c)
        invariant cur <= addr
        decreases |list| - c
      {
        NextStored(list, head, mem, c);
        cur, c := mem[cur].next, c + 1;
      }
      NextStored(list, head, mem, c);
      SlotBehind(list, b, c);
      InsertBehind(list, mem, c, b);
      var next := mem[cur].next;
      mem := mem[addr := mem[addr].(prev := cur, next := next)];
      if next != 0 {
        mem := mem[next := mem[next].(prev := addr)];
      }
      mem := mem[cur := mem[cur].(next := addr)];
      list := InsertAt(list, k, b);
    }

    /** `coalesce_with_next`. */
    method CoalesceWithNext(addr: nat, ghost i: nat)
      requires Valid() && i < |list| && list[i].addr == addr
      modifies this`mem, this`list
      ensures Valid() && list == CoalesceAt(old(list), i)
    {
      assert Stored(list, mem, i);
      PlacedCoalesce(list, i);
      var next := mem[addr].next;
      if next == 0 {
        NoNext(list, i);
        return;
      }
      assert Stored(list, mem, i + 1);
      if !(mem[addr].free && mem[next].free && addr + HDR + mem[addr].size == next) {
        return;
      }
      LinkMerge(list, head, mem, i);
      ghost var merged := MergeMem(list, mem, i);
      var after := mem[next].next;
      assert i + 2 < |list| ==> Stored(list, mem, i + 2);
      mem := mem[addr := mem[addr].(size := mem[addr].size + HDR + mem[next].size, next := after)];
      if after != 0 {
        mem := mem[after := mem[after].(prev := addr)];
      }
      assert mem == merged;
      list := CoalesceAt(list, i);
    }

    /** `split_block`. Where its sum wraps, the rest is written to a wrapped address and the
        headers no longer form a list. */
    method SplitBlock(addr: nat, size: nat, ghost i: nat)
      requires Valid() && i < |list| && list[i].addr == addr
      modifies this`mem, this`list
      ensures list == SplitAt(old(list), i, size) && addr in mem
      ensures SplitSumFits(size) || list == old(list) ==> Valid()
    {
      assert Stored(list, mem, i);
      PlacedSplit(list, i, size);
      var h := mem[addr];
      if h.size < (size + HDR + MIN_PAYLOAD) % WORD {
        return;
      }
      ghost var split := mem;
      var rest, restSize: int := addr + HDR + size, h.size - size - HDR;
      if size + HDR + MIN_PAYLOAD >= WORD {
        rest, restSize := rest % WORD, restSize % WORD;
      } else {
        LinkSplit(list, head, mem, i, size);
        split := SplitMem(list, mem, i, size);
      }
      assert i + 1 < |list| ==> Stored(list, mem, i + 1);
      mem := mem[rest := Header(restSize, true, addr, h.next)];
      if h.next != 0 {
        mem := mem[h.next := mem[h.next].(prev := rest)];
      }
      mem := mem[addr := h.(size := size, next := rest)];
      assert SplitSumFits(size) ==> mem == split;
      list := SplitAt(list, i, size);
    }

    /** `find_free_block`: the first block that fits, or null. */
    method FindFreeBlock(size: nat) returns (addr: nat)
      requires Valid()
      ensures addr == AddrAt(list, FirstFit(list, size))
    {
      addr := head;
      ghost var c := 0;
      while addr != 0
        invariant c <= |list| && addr == AddrAt(list, c)
        invariant forall j :: 0 <= j < c ==> !(list[j].free && list[j].size >= size)
        decreases |list| - c
      {
        assert Stored(list, mem, c);
        if mem[addr].free && mem[addr].size >= size {
          return;
        }
        addr, c := mem[addr].next, c + 1;
      }
    }

    /** Makes one free block of a fresh chunk and inserts it. */
    method PlaceChunk(vm: nat, bytes: nat) returns (prev: nat, ghost k: nat)
      requires Valid() && vm > 0 && bytes >= HDR
      requires forall x :: Holds(Blk(vm, bytes - HDR, true), x) ==> !Covered(list, x)
      modifies this`head, this`mem, this`list
      ensures Valid() && k == Slot(old(list), vm)
      ensures list == InsertAt(old(list), k, Blk(vm, bytes - HDR, true))
      ensures list[k].addr == vm
      ensures if prev == 0 then k == 0 else k > 0 && list[k - 1].addr == prev
    {
      ghost var l := list;
      PlacedInsert(list, Blk(vm, bytes - HDR, true));
      LinkWrite(list, head, mem, vm, Header(bytes - HDR, true, 0, 0));
      mem := mem[vm := Header(bytes - HDR, true, 0, 0)];
      k := InsertBlock(vm);
      prev := mem[vm].prev;
      FirstSlot(l, k);
    }

    /** `extend_heap`, once the chunk of `bytes` bytes at `vm` has been obtained. */
    method ExtendHeap(vm: nat, bytes: nat) returns (addr: nat, ghost i: nat)
      requires Valid() && vm > 0 && bytes >= HDR
      requires forall x :: Holds(Blk(vm, bytes - HDR, true), x) ==> !Covered(list, x)
      modifies this`head, this`mem, this`list
      ensures Valid() && (list, i) == Extend(old(list), vm, bytes)
      ensures i < |list| && addr == list[i].addr
    {
      hide Placed, Linked, Covered, CoalesceAt;
      var prev, k := PlaceChunk(vm, bytes);
      addr, i := vm, k;
      if prev != 0 {
        addr, i := prev, k - 1;
        PlacedCoalesce(list, i);
        CoalesceWithNext(addr, i);
      }
      PlacedCoalesce(list, i);
      CoalesceWithNext(addr, i);
    }

    method SetFree(addr: nat, free: bool, ghost i: nat)
      requires i < |list| && list[i].addr == addr && addr in mem
      modifies this`mem, this`list
      ensures list == old(list)[i := old(list)[i].(free := free)]
      ensures old(Valid()) ==> Valid()
    {
      if Valid() {
        LinkFlag(list, head, mem, i, free);
      }
      mem := mem[addr := mem[addr].(free := free)];
      list := list[i := list[i].(free := free)];
    }

    /** `mymalloc`: the payload address, or null when `vmalloc` has nothing to give. */
    method Malloc(request: nat, vm: Option<nat>) returns (ptr: nat)
      requires Valid()
      requires vm.Some? && FirstFit(list, RequestSize(request)) == |list| ==>
                 && vm.value > 0
                 && forall x :: Holds(Blk(vm.value, GrowBytes(RequestSize(request)) - HDR, true), x)
                                ==> !Covered(list, x)
      modifies this
      ensures SplitSumFits(RequestSize(request)) ==> Valid()
      ensures var (l, r) := HeapList.Malloc(old(list), RequestSize(request), vm);
              list == l && ptr == (if r.Some? then r.value else 0)
      ensures mallocCount == old(mallocCount) + 1
    {
      var size := RequestSize(request);
      mallocCount := mallocCount + 1;
      var addr := FindFreeBlock(size);
      ghost var i := FirstFit(list, size);
      if addr == 0 {
        if vm.None? {
          return 0;
        }
        addr, i := ExtendHeap(vm.value, GrowBytes(size));
      }
      PlacedSplit(list, i, size);
      SplitBlock(addr, size, i);
      SetFree(addr, false, i);
      ptr := addr + HDR;
    }

    /** `myfree` of null, or of the payload of block `i`. */
    method Free(ptr: nat, ghost i: nat)
      requires Valid()
      requires ptr != 0 ==> i < |list| && Payload(list[i]) == ptr
      modifies this`mem, this`list
      ensures Valid()
      ensures list == if ptr == 0 then old(list) else Release(old(list), i)
    {
      if ptr == 0 {
        return;
      }
      var addr := ptr - HDR;
      assert Stored(list, mem, i);
      SetFree(addr, true, i);
      PlacedCoalesce(list, i);
      CoalesceWithNext(addr, i);
      assert Stored(list, mem, i);
      if mem[addr].prev != 0 {
        CoalesceWithNext(mem[addr].prev, i - 1);
      }
    }
  }
}
