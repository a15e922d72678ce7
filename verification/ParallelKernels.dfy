/** Kernels whose indices write their cells in order, once or in several passes, run by
    `parallel_for`: what any interleaving leaves, down to the rows of the forward pass. */
module ParallelKernels {
  import opened Floats
  import opened KernelLocality
  import T = Transformer
  import B = Buffers
  import PR = ParallelRuns
  import Indexing

  /** Index i goes over its `width` cells `passes` times. A store is computed from what the
      cell holds and from the cells in `sees`, which nobody writes. */
  datatype Filler<!V> = Filler(
    rows: nat, width: nat, passes: nat, target: (int, nat) -> nat, sees: set<nat>,
    cell: (int, nat, nat, V, map<nat, V>) -> V, none: V)

  function FillStores<V>(f: Filler<V>): Stores<V> {
    Stores(
      (i: int) => set j: nat | j < f.width :: f.target(i, j),
      f.sees,
      (i: int) => f.passes * f.width,
      (i: int, n: nat) => if f.width == 0 then 0 else f.target(i, n % f.width),
      (i: int, n: nat, seen: map<nat, V>) => FillValue(f, i, n, seen))
  }

  function FillValue<V>(f: Filler<V>, i: int, n: nat, seen: map<nat, V>): V {
    if f.width == 0 then f.none
    else
      var c := f.target(i, n % f.width);
      f.cell(i, n / f.width, n % f.width, if c in seen then seen[c] else f.none,
             map c | c in f.sees && c in seen :: seen[c])
  }

  predicate IsCell<V>(f: Filler<V>, i: int, j: nat) { 0 <= i < f.rows && j < f.width }

  /** Every cell is one place of memory, no two cells are the same, and none is read by
      other indices. */
  ghost predicate Placed<V>(f: Filler<V>, m: seq<V>) {
    && f.rows > 0
    && (forall i, j: nat :: IsCell(f, i, j) ==> f.target(i, j) < |m| && f.target(i, j) !in f.sees)
    && (forall i, j: nat, i', j': nat :: IsCell(f, i, j) && IsCell(f, i', j') && f.target(i, j) == f.target(i', j')
          ==> i == i' && j == j')
    && (forall c :: c in f.sees ==> c < |m|)
  }

  lemma FillIsLocal<V(!new)>(f: Filler<V>, m: seq<V>)
    requires Placed(f, m)
    ensures PR.Local(StoreKernel(FillStores(f)), 0, f.rows)
  {
    hide FillValue;
    var k := FillStores(f);
    forall i, i' | 0 <= i < f.rows && 0 <= i' < f.rows ensures PR.Apart(StoreKernel(k), i, i') {
      forall c | c in k.own(i) ensures c !in k.shared && (i != i' ==> c !in k.own(i')) {
        var j: nat :| j < f.width && c == f.target(i, j);
        assert IsCell(f, i, j);
        if c in k.own(i') {
          var j': nat :| j' < f.width && c == f.target(i', j');
          assert IsCell(f, i', j');
        }
      }
    }
    StoreKernelIsLocal(k, 0, f.rows);
  }

  // ----- one index alone -----

  /** What cell j of index i holds after p passes. */
  function Value<V>(f: Filler<V>, i: int, j: nat, p: nat, m0: seq<V>): V
    decreases p
  {
    if p == 0 then (if f.target(i, j) < |m0| then m0[f.target(i, j)] else f.none)
    else f.cell(i, p - 1, j, Value(f, i, j, p - 1, m0), View(m0, f.sees))
  }

  /** How often n steps have stored cell j. */
  function TimesStored(width: nat, n: nat, j: nat): nat
    requires width > 0
  {
    n / width + if j < n % width then 1 else 0
  }

  ghost predicate RowFilled<V>(f: Filler<V>, i: int, n: nat, m0: seq<V>, m: seq<V>)
    requires f.width > 0
  {
    && |m| == |m0|
    && (forall j: nat :: IsCell(f, i, j) && f.target(i, j) < |m| ==>
          m[f.target(i, j)] == Value(f, i, j, TimesStored(f.width, n, j), m0))
    && (forall c :: c in f.sees && c < |m| ==> m[c] == m0[c])
  }

  /** The steps of one index, run alone. */
  lemma {:induction false} FillAfter<V>(f: Filler<V>, i: nat, n: nat, m0: seq<V>)
    requires Placed(f, m0) && i < f.rows && f.width > 0
    ensures RowFilled(f, i, n, m0, PR.After(StoreKernel(FillStores(f)), i, n, m0))
    decreases n
  {
    hide Placed, RowFilled, StoreStep, PR.After, FillStores;
    AfterStep(StoreKernel(FillStores(f)), i, n, m0);
    if n == 0 {
      NothingFilled(f, i, m0);
    } else {
      FillAfter(f, i, n - 1, m0);
      StoreNext(f, i, n - 1, m0, PR.After(StoreKernel(FillStores(f)), i, n - 1, m0));
    }
  }

  lemma AfterStep<V>(k: PR.Kernel<V>, i: int, n: nat, m: seq<V>)
    ensures PR.After(k, i, n, m) == if n == 0 then m else k.act(i, n - 1, PR.After(k, i, n - 1, m))
  {
  }

  lemma NothingFilled<V>(f: Filler<V>, i: nat, m: seq<V>)
    requires f.width > 0
    ensures RowFilled(f, i, 0, m, m)
  {
    Indexing.Split(0, 0, f.width);
  }

  lemma StoredNext(width: nat, n: nat, j: nat)
    requires width > 0 && j < width
    ensures TimesStored(width, n + 1, j) == TimesStored(width, n, j) + if j == n % width then 1 else 0
    ensures j == n % width ==> TimesStored(width, n, j) == n / width
  {
    Indexing.NextCell(n, width);
  }

  lemma StoreNext<V>(f: Filler<V>, i: nat, n: nat, m0: seq<V>, m: seq<V>)
    requires Placed(f, m0) && i < f.rows && f.width > 0 && RowFilled(f, i, n, m0, m)
    ensures RowFilled(f, i, n + 1, m0, StoreStep(FillStores(f), i, n, m))
  {
    hide TimesStored;
    var k, at := FillStores(f), n % f.width;
    assert IsCell(f, i, at);
    var c := f.target(i, at);
    assert c in k.own(i) && c < |m|;
    var seen := View(m, k.own(i) + k.shared);
    assert (map d | d in f.sees && d in seen :: seen[d]) == View(m0, f.sees);
    var m' := StoreStep(k, i, n, m);
    StoredNext(f.width, n, at);
    assert m'[c] == Value(f, i, at, TimesStored(f.width, n + 1, at), m0);
    forall j: nat | IsCell(f, i, j) ensures m'[f.target(i, j)] == Value(f, i, j, TimesStored(f.width, n + 1, j), m0) {
      StoredNext(f.width, n, j);
    }
  }

  // ----- all indices, in any order -----

  /** `parallel_for` runs the filler from memory m0 and finishes in state s. */
  ghost predicate Finishes<V>(f: Filler<V>, workers: int, m0: seq<V>, schedule: seq<nat>, s: PR.State<V>) {
    && f.rows > 0
    && var slices := PR.SlicesFor(0, f.rows, workers);
       && PR.Runs(StoreKernel(FillStores(f)), slices, PR.State(m0, PR.Begin(slices), []), schedule, s)
       && PR.Finished(slices, s)
  }

  lemma FinishesRows<V>(f: Filler<V>, workers: int, m0: seq<V>, schedule: seq<nat>, s: PR.State<V>)
    requires Finishes(f, workers, m0, schedule, s)
    ensures f.rows > 0
  {
  }

  /** Only cells of the filler have changed. */
  ghost predicate OnlyCells<V>(f: Filler<V>, m0: seq<V>, m: seq<V>) {
    && |m| == |m0|
    && forall c :: 0 <= c < |m| ==> m[c] == m0[c] || exists i, j: nat :: IsCell(f, i, j) && f.target(i, j) == c
  }

  /** A filler under `parallel_for`: for every worker count and every interleaving, each cell
      has had all its passes, and all else is as it was. */
  lemma FillInParallel<V(!new)>(f: Filler<V>, workers: int, m0: seq<V>, schedule: seq<nat>, s: PR.State<V>)
    requires Placed(f, m0) && Finishes(f, workers, m0, schedule, s) && f.width > 0
    ensures OnlyCells(f, m0, s.mem)
    ensures forall i, j: nat :: IsCell(f, i, j) ==>
              f.target(i, j) < |s.mem| && s.mem[f.target(i, j)] == Value(f, i, j, f.passes, m0)
  {
    hide PR.Serial, PR.After, PR.Runs, PR.Finished, FillValue, Value, TimesStored;
    var k := StoreKernel(FillStores(f));
    FillIsLocal(f, m0);
    PR.ParallelForIsSerial(k, 0, f.rows, workers, m0, schedule, s);
    PR.SerialOutcome(k, 0, f.rows, f.rows, m0);
    forall i, j: nat | IsCell(f, i, j)
      ensures f.target(i, j) < |s.mem| && s.mem[f.target(i, j)] == Value(f, i, j, f.passes, m0)
    {
      FillAfter(f, i, f.passes * f.width, m0);
      AllPasses(f.passes, f.width, j);
      assert PR.CellsOk(k, m0, s.mem, i, k.steps(i));
      assert f.target(i, j) in k.own(i);
    }
    forall c | 0 <= c < |m0| ensures s.mem[c] == m0[c] || exists i, j: nat :: IsCell(f, i, j) && f.target(i, j) == c {
      if PR.Owned(k, 0, f.rows, c) {
        var i :| 0 <= i < f.rows && c in k.own(i);
        var j: nat :| j < f.width && c == f.target(i, j);
        assert IsCell(f, i, j);
      }
    }
  }

  lemma AllPasses(passes: nat, width: nat, j: nat)
    requires j < width
    ensures TimesStored(width, passes * width, j) == passes
  {
    Indexing.Split(passes, 0, width);
  }

  // ----- from cells to tensors -----

  /** Cell j < W of index i is stored at, and ends as, cell i * W + j of tensor `y`. */
  ghost predicate Computes<F>(f: Filler<F>, m0: seq<F>, out: nat, y: seq<Row<F>>, C: nat, W: nat, i: nat, j: nat) {
    f.target(i, j) == out + (i * W + j) && B.CellIs(Value(f, i, j, f.passes, m0), y, C, i * W + j)
  }

  /** The stretch of memory at `at` holds the tensor. */
  ghost predicate HoldsAt<F>(m: seq<F>, at: nat, y: seq<Row<F>>, C: nat) {
    at + |y| * C <= |m| && B.Holds(m[at..at + |y| * C], y, C)
  }

  lemma TensorInParallel<F(!new)>(f: Filler<F>, out: nat, y: seq<Row<F>>, C: nat, W: nat,
                                  workers: int, m0: seq<F>, schedule: seq<nat>, s: PR.State<F>)
    requires Placed(f, m0) && Finishes(f, workers, m0, schedule, s)
    requires C > 0 && 0 < W <= f.width && T.Width(y, C) && f.rows * W == |y| * C && out + |y| * C <= |m0|
    requires forall i: nat, j: nat :: i < f.rows && j < W ==> Computes(f, m0, out, y, C, W, i, j)
    ensures HoldsAt(s.mem, out, y, C) && OnlyCells(f, m0, s.mem)
  {
    hide Finishes, B.CellIs, Value, Placed;
    FillInParallel(f, workers, m0, schedule, s);
    var t := s.mem[out..out + |y| * C];
    forall p | 0 <= p < |t| ensures B.CellIs(t[p], y, C, p) {
      var i, j := p / W, p % W;
      Indexing.Join(p, W);
      Indexing.RowBound(p, f.rows, W);
      assert Computes(f, m0, out, y, C, W, i, j) && IsCell(f, i, j);
    }
  }

  // ----- what the kernels see, and where they write -----

  predicate InStretch(c: nat, at: nat, n: nat) { at <= c < at + n }

  function Stretch(at: nat, n: nat): set<nat> { set c: nat | c < at + n && InStretch(c, at, n) }

  /** The stretch of `n` cells at `at`, as far as it is seen. */
  function Read<F>(seen: map<nat, F>, at: nat, n: nat, default: F): (s: seq<F>)
    ensures |s| == n
  {
    seq(n, j requires 0 <= j < n => if at + j in seen then seen[at + j] else default)
  }

  lemma ReadIs<F>(m: seq<F>, sees: set<nat>, at: nat, n: nat, default: F)
    requires at + n <= |m| && Stretch(at, n) <= sees
    ensures Read(View(m, sees), at, n, default) == m[at..at + n]
  {
    var s := Read(View(m, sees), at, n, default);
    forall j | 0 <= j < n ensures s[j] == m[at + j] {
      assert at + j in Stretch(at, n);
    }
  }

  /** Cell j of row i of a tensor of rows of length W at `out`. */
  function RowMajor(out: nat, W: nat, i: int, j: nat): nat {
    if i < 0 then 0 else out + (i * W + j)
  }

  /** A filler that writes one tensor row by row. */
  ghost predicate OneTensor<V>(f: Filler<V>, out: nat, W: nat) {
    f.width == W && forall i, j: nat :: IsCell(f, i, j) ==> f.target(i, j) == RowMajor(out, W, i, j)
  }

  lemma TensorPlaced<V>(f: Filler<V>, out: nat, W: nat, m: seq<V>, a: nat, n: nat, b: nat, n': nat)
    requires OneTensor(f, out, W) && f.rows > 0 && out + f.rows * W <= |m| && a + n <= |m| && b + n' <= |m|
    requires f.sees == Stretch(a, n) + Stretch(b, n')
    requires Before(a, n, out, f.rows * W) && Before(b, n', out, f.rows * W)
    ensures Placed(f, m)
  {
    hide RowMajor;
    forall i, j: nat | IsCell(f, i, j) ensures f.target(i, j) < |m| && f.target(i, j) !in f.sees {
      RowMajorInside(out, W, f.rows, i, j);
    }
    forall i, j: nat, i', j': nat | IsCell(f, i, j) && IsCell(f, i', j') && f.target(i, j) == f.target(i', j')
      ensures i == i' && j == j'
    {
      RowMajorInjective(out, W, i, j, i', j');
    }
  }

  lemma RowMajorInside(out: nat, W: nat, rows: nat, i: nat, j: nat)
    requires i < rows && j < W
    ensures out <= RowMajor(out, W, i, j) < out + rows * W
  {
    Indexing.Inside(i, j, rows, W);
  }

  lemma RowMajorInjective(out: nat, W: nat, i: nat, j: nat, i': nat, j': nat)
    requires j < W && j' < W && RowMajor(out, W, i, j) == RowMajor(out, W, i', j')
    ensures i == i' && j == j'
  {
    Indexing.Injective(i, j, i', j', W);
  }
}
