/** Why the kernels may run in parallel: every step of an index stores into a cell of that
    index a value computed from its own and shared cells only, whatever the value is. */
module KernelLocality {
  import opened ParallelRuns
  import opened AttentionIndex
  import opened AttentionColumns

  /** What a step can see of memory. */
  function View<V>(m: seq<V>, cells: set<nat>): map<nat, V> {
    map c | c in cells && c < |m| :: m[c]
  }

  /** The stores of a kernel: where step n of index i stores, and what, given what it sees. */
  datatype Stores<!V> = Stores(
    own: int -> set<nat>, shared: set<nat>,
    steps: int -> nat, target: (int, nat) -> nat, value: (int, nat, map<nat, V>) -> V)

  function StoreStep<V>(k: Stores<V>, i: int, n: nat, m: seq<V>): seq<V> {
    var c := k.target(i, n);
    if c in k.own(i) && c < |m| then m[c := k.value(i, n, View(m, k.own(i) + k.shared))] else m
  }

  function StoreKernel<V>(k: Stores<V>): Kernel<V> {
    Kernel(k.steps, (i: int, n: nat, m: seq<V>) => StoreStep(k, i, n, m), k.own, k.shared)
  }

  lemma StoreKernelIsLocal<V(!new)>(k: Stores<V>, begin: int, end: int)
    requires forall i, j :: begin <= i < end && begin <= j < end ==> Apart(StoreKernel(k), i, j)
    ensures Local(StoreKernel(k), begin, end)
  {
    var kernel := StoreKernel(k);
    forall i, n, m ensures WritesOwn(kernel, i, n, m) {
    }
    forall i: int, n: nat, m: seq<V>, m': seq<V> ensures ReadsOwn(kernel, i, n, m, m') {
      var cells := k.own(i) + k.shared;
      if SameOn(m, m', cells) {
        assert View(m, cells) == View(m', cells);
      }
    }
  }

  // ----- attention -----

  /** Where the four tensors of one layer lie in the activation memory. */
  datatype Layout = Layout(inp: nat, preatt: nat, att: nat, out: nat,
                           B: nat, T: nat, C: nat, NH: nat)

  function AttSize(l: Layout): nat { l.B * l.NH * l.T * l.T }
  function OutSize(l: Layout): nat { l.B * l.T * l.C }
  function InpSize(l: Layout): nat { l.B * l.T * (3 * l.C) }
  function Units(l: Layout): nat { l.B * (l.T * l.NH) }

  predicate Before(a: nat, size: nat, b: nat, size': nat) {
    a + size <= b || b + size' <= a
  }

  predicate LayoutOk(l: Layout) {
    && l.T > 0 && l.NH > 0
    && Before(l.preatt, AttSize(l), l.att, AttSize(l))
    && Before(l.preatt, AttSize(l), l.out, OutSize(l))
    && Before(l.att, AttSize(l), l.out, OutSize(l))
    && Before(l.inp, InpSize(l), l.preatt, AttSize(l))
    && Before(l.inp, InpSize(l), l.att, AttSize(l))
    && Before(l.inp, InpSize(l), l.out, OutSize(l))
  }

  /** The cells a unit writes. */
  ghost function AttentionOwn(l: Layout, unit: int): set<nat>
    requires l.T > 0 && l.NH > 0
  {
    if unit < 0 then {}
    else
      var u := Decode(unit, l.T, l.NH);
      (set t2: nat | t2 < l.T :: l.preatt + AttCell(u, l.T, l.NH, t2))
      + (set t2: nat | t2 < l.T :: l.att + AttCell(u, l.T, l.NH, t2))
      + (set i: nat | i < l.C / l.NH :: l.out + OutCell(u, l.T, l.C, l.C / l.NH, i))
  }

  predicate InInput(l: Layout, c: nat) { l.inp <= c < l.inp + InpSize(l) }

  /** Where a cell of a unit lies: in which tensor, and at which place of the unit. */
  lemma OwnCell(l: Layout, unit: nat, c: nat) returns (u: Unit, which: nat, x: nat)
    requires LayoutOk(l) && unit < Units(l) && c in AttentionOwn(l, unit)
    ensures u == Decode(unit, l.T, l.NH) && u.t < l.T && u.h < l.NH && which < 3
    ensures which == 0 ==> x < l.T && c == l.preatt + AttCell(u, l.T, l.NH, x) < l.preatt + AttSize(l)
    ensures which == 1 ==> x < l.T && c == l.att + AttCell(u, l.T, l.NH, x) < l.att + AttSize(l)
    ensures which == 2 ==> x < l.C / l.NH && c == l.out + OutCell(u, l.T, l.C, l.C / l.NH, x)
    ensures which == 2 ==> c < l.out + OutSize(l)
  {
    u := Decode(unit, l.T, l.NH);
    DecodeInRange(unit, l.B, l.T, l.NH);
    if t2: nat :| t2 < l.T && c == l.preatt + AttCell(u, l.T, l.NH, t2) {
      which, x := 0, t2;
      AttCellInside(u, l.B, l.T, l.NH, x);
    } else if t2: nat :| t2 < l.T && c == l.att + AttCell(u, l.T, l.NH, t2) {
      which, x := 1, t2;
      AttCellInside(u, l.B, l.T, l.NH, x);
    } else {
      which := 2;
      x :| x < l.C / l.NH && c == l.out + OutCell(u, l.T, l.C, l.C / l.NH, x);
      OutCellInside(u, l.B, l.T, l.C, l.NH, x);
    }
  }

  lemma UnitsApart(l: Layout, unit: nat, other: nat, c: nat)
    requires LayoutOk(l) && unit < Units(l) && other < Units(l)
    requires c in AttentionOwn(l, unit) && c in AttentionOwn(l, other)
    ensures unit == other && !InInput(l, c)
  {
    var u, a, x := OwnCell(l, unit, c);
    var v, b, y := OwnCell(l, other, c);
    DecodeInRange(unit, l.B, l.T, l.NH);
    DecodeInRange(other, l.B, l.T, l.NH);
    assert a == b;
    if a == 2 {
      OutCellsDisjoint(u, v, l.T, l.C, l.NH, x, y);
    } else {
      AttCellsDisjoint(u, v, l.T, l.NH, x, y);
    }
  }

  /** The attention kernel, with any values: its stores go to the cells of the unit, and it
      reads the queries, keys and values besides. */
  ghost predicate IsAttention<V>(k: Stores<V>, l: Layout) {
    && l.T > 0 && l.NH > 0
    && (forall unit :: k.own(unit) == AttentionOwn(l, unit))
    && (forall c :: c in k.shared ==> InInput(l, c))
  }

  lemma AttentionIsLocal<V(!new)>(k: Stores<V>, l: Layout)
    requires LayoutOk(l) && IsAttention(k, l)
    ensures Local(StoreKernel(k), 0, Units(l))
  {
    forall i, j | 0 <= i < Units(l) && 0 <= j < Units(l) ensures Apart(StoreKernel(k), i, j) {
      forall c | c in AttentionOwn(l, i) ensures c !in k.shared && (i != j ==> c !in AttentionOwn(l, j)) {
        UnitsApart(l, i, i, c);
        if c in AttentionOwn(l, j) {
          UnitsApart(l, i, j, c);
        }
      }
    }
    StoreKernelIsLocal(k, 0, Units(l));
  }

  /** Attention in parallel leaves the memory of the serial loop, for every worker count and
      every interleaving of its stores. */
  lemma AttentionInParallel<V(!new)>(k: Stores<V>, l: Layout, workers: int, m0: seq<V>,
                                     schedule: seq<nat>, s: State<V>)
    requires LayoutOk(l) && IsAttention(k, l) && Units(l) > 0
    requires var slices := SlicesFor(0, Units(l), workers);
             Runs(StoreKernel(k), slices, State(m0, Begin(slices), []), schedule, s) && Finished(slices, s)
    ensures s.mem == Serial(StoreKernel(k), 0, Units(l), m0)
  {
    AttentionIsLocal(k, l);
    ParallelForIsSerial(StoreKernel(k), 0, Units(l), workers, m0, schedule, s);
  }

  // ----- the cells of out that no unit owns -----

  /** The cells of `out` a unit owns are those of its part. */
  lemma OwnedIsPart(l: Layout, unit: nat, c: nat)
    requires LayoutOk(l) && unit < Units(l) && c < OutSize(l)
    ensures l.out + c in AttentionOwn(l, unit) <==> InPart(c, unit, l.T, l.C, l.NH)
  {
    hide Decode, AttCell;
    if l.out + c in AttentionOwn(l, unit) {
      var u, which, x := OwnCell(l, unit, l.out + c);
    }
    if InPart(c, unit, l.T, l.C, l.NH) {
      var i := c - OutStart(unit, l.T, l.C, l.NH);
      assert l.out + c == l.out + OutCell(Decode(unit, l.T, l.NH), l.T, l.C, l.C / l.NH, i);
    }
  }

  ghost predicate OwnedCell(l: Layout, c: nat)
    requires l.T > 0 && l.NH > 0
  {
    exists unit :: 0 <= unit < Units(l) && c in AttentionOwn(l, unit)
  }

  lemma OwnedInSomePart(l: Layout, c: nat)
    requires LayoutOk(l) && c < OutSize(l)
    ensures OwnedCell(l, l.out + c) <==> InSomePart(c, 0, Units(l), l.T, l.C, l.NH)
  {
    hide AttentionOwn, InPart;
    forall unit | 0 <= unit < Units(l)
      ensures l.out + c in AttentionOwn(l, unit) <==> InPart(c, unit, l.T, l.C, l.NH)
    {
      OwnedIsPart(l, unit, c);
    }
  }

  /** Every cell of `out` is owned by a unit if and only if the head count divides the channels. */
  lemma OutOwnedIff(l: Layout)
    requires LayoutOk(l) && l.B > 0 && l.C > 0
    ensures (forall c: nat :: InOut(l, c) ==> OwnedCell(l, c)) <==> l.C % l.NH == 0
  {
    hide OwnedCell, InSomePart;
    AllOwnedIff(l.B, l.T, l.C, l.NH);
    if l.C % l.NH == 0 {
      forall c: nat | InOut(l, c) ensures OwnedCell(l, c) {
        OwnedInSomePart(l, c - l.out);
      }
    } else {
      var c :| 0 <= c < l.B * l.T * l.C && !InSomePart(c, 0, l.B * (l.T * l.NH), l.T, l.C, l.NH);
      OwnedInSomePart(l, c);
      assert InOut(l, l.out + c);
    }
  }

  predicate InOut(l: Layout, c: nat) { l.out <= c < l.out + OutSize(l) }

  /** A cell of `out` that no unit owns keeps what it held, whatever the kernel stores and
      however its stores are interleaved. */
  lemma UnownedCellKept<V(!new)>(k: Stores<V>, l: Layout, workers: int, m0: seq<V>, schedule: seq<nat>, s: State<V>, c: nat)
    requires LayoutOk(l) && IsAttention(k, l) && Units(l) > 0
    requires var slices := SlicesFor(0, Units(l), workers);
             Runs(StoreKernel(k), slices, State(m0, Begin(slices), []), schedule, s) && Finished(slices, s)
    requires c < |m0| && !OwnedCell(l, c)
    ensures |s.mem| == |m0| && s.mem[c] == m0[c]
  {
    hide Runs, Finished, Serial, AttentionOwn, LayoutOk;
    AttentionInParallel(k, l, workers, m0, schedule, s);
    AttentionIsLocal(k, l);
    SerialOutcome(StoreKernel(k), 0, Units(l), Units(l), m0);
    assert !Owned(StoreKernel(k), 0, Units(l), c);
  }
}
