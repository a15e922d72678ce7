/** The kernels other than attention under `parallel_for`: for every worker count and every
    interleaving of their stores they leave the tensors of the row model. */
module KernelsInParallel {
  import opened Options
  import opened Floats
  import opened KernelLocality
  import opened ParallelKernels
  import T = Transformer
  import B = Buffers
  import PR = ParallelRuns
  import Kernels
  import Indexing

  // ----- matmul -----

  /** What `matmul_range` stores in row `row` and column `o`, from the input it sees. */
  function MatmulCell<F>(ops: Ops<F>, inp: seq<F>, w: Row<F>, bias: Option<Row<F>>, C: nat, row: nat, o: nat): F {
    var a, b := T.Slice(inp, row, C), T.Slice(w, o, C);
    var start := if bias.Some? && o < |bias.value| then bias.value[o] else ops.zero;
    if |a| == C && |b| == C then Dot(ops, start, a, b, C) else ops.zero
  }

  function MatmulFiller<F>(ops: Ops<F>, inp: nat, out: nat, w: Row<F>, bias: Option<Row<F>>,
                           rows: nat, C: nat, OC: nat): Filler<F> {
    Filler(rows * OC, 1, 1, (idx: int, j: nat) => RowMajor(out, 1, idx, j), Stretch(inp, rows * C),
           (idx: int, pass: nat, j: nat, held: F, seen: map<nat, F>) =>
             if idx < 0 || OC == 0 then ops.zero
             else MatmulCell(ops, Read(seen, inp, rows * C, ops.zero), w, bias, C, idx / OC, idx % OC),
           ops.zero)
  }

  lemma MatmulCellIs<F>(ops: Ops<F>, inp: seq<F>, w: Row<F>, bias: Option<Row<F>>, C: nat, OC: nat,
                        x: seq<Row<F>>, row: nat, o: nat)
    requires B.Holds(inp, x, C) && T.Matrix(w, bias, C, OC) && row < |x| && o < OC
    ensures B.CellIs(MatmulCell(ops, inp, w, bias, C, row, o), T.Matmul(ops, x, w, bias, C, OC), OC, row * OC + o)
  {
    hide B.Filled, B.CellIs, Dot, T.Slice, T.Matmul;
    Kernels.MatmulIndex(ops, inp, w, bias, C, OC, x, row, o);
  }

  /** A filler of one pass ends with what that pass computes. */
  lemma OnePass<F>(f: Filler<F>, i: int, j: nat, m0: seq<F>)
    requires f.passes == 1
    ensures Value(f, i, j, 1, m0) == f.cell(i, 0, j, Value(f, i, j, 0, m0), View(m0, f.sees))
  {
  }

  /** `matmul_forward`. */
  lemma MatmulInParallel<F(!new)>(ops: Ops<F>, inp: nat, out: nat, w: Row<F>, bias: Option<Row<F>>,
                                  C: nat, OC: nat, x: seq<Row<F>>,
                                  workers: int, m0: seq<F>, schedule: seq<nat>, s: PR.State<F>)
    requires T.Matrix(w, bias, C, OC) && HoldsAt(m0, inp, x, C) && T.Width(x, C)
    requires out + |x| * OC <= |m0| && Before(inp, |x| * C, out, |x| * OC)
    requires Finishes(MatmulFiller(ops, inp, out, w, bias, |x|, C, OC), workers, m0, schedule, s)
    ensures HoldsAt(s.mem, out, T.Matmul(ops, x, w, bias, C, OC), OC)
    ensures OnlyCells(MatmulFiller(ops, inp, out, w, bias, |x|, C, OC), m0, s.mem)
  {
    hide B.Holds, T.Matmul, Finishes, MatmulCell, B.CellIs, Read, View, Stretch, OnlyCells, Placed, Value;
    var f := MatmulFiller(ops, inp, out, w, bias, |x|, C, OC);
    FinishesRows(f, workers, m0, schedule, s);
    TensorPlaced(f, out, 1, m0, inp, |x| * C, inp, |x| * C);
    ReadIs(m0, f.sees, inp, |x| * C, ops.zero);
    var y, data := T.Matmul(ops, x, w, bias, C, OC), m0[inp..inp + |x| * C];
    forall i: nat, j: nat | i < f.rows && j < 1 ensures Computes(f, m0, out, y, OC, 1, i, j) {
      OnePass(f, i, j, m0);
      Indexing.Join(i, OC);
      Indexing.RowBound(i, |x|, OC);
      MatmulCellIs(ops, data, w, bias, C, OC, x, i / OC, i % OC);
    }
    TensorInParallel(f, out, y, OC, 1, workers, m0, schedule, s);
  }

  // ----- gelu and residual -----

  function GeluFiller<F>(ops: Ops<F>, inp: nat, out: nat, n: nat): Filler<F> {
    Filler(n, 1, 1, (i: int, j: nat) => RowMajor(out, 1, i, j), Stretch(inp, n),
           (i: int, pass: nat, j: nat, held: F, seen: map<nat, F>) =>
             if 0 <= i < n then T.Gelu(ops, Read(seen, inp, n, ops.zero)[i]) else ops.zero,
           ops.zero)
  }

  /** `gelu_forward`. */
  lemma GeluInParallel<F(!new)>(ops: Ops<F>, inp: nat, out: nat, C: nat, x: seq<Row<F>>,
                                workers: int, m0: seq<F>, schedule: seq<nat>, s: PR.State<F>)
    requires HoldsAt(m0, inp, x, C) && T.Width(x, C)
    requires out + |x| * C <= |m0| && Before(inp, |x| * C, out, |x| * C)
    requires Finishes(GeluFiller(ops, inp, out, |x| * C), workers, m0, schedule, s)
    ensures HoldsAt(s.mem, out, T.GeluAll(ops, x, C), C)
    ensures OnlyCells(GeluFiller(ops, inp, out, |x| * C), m0, s.mem)
  {
    hide B.Filled, T.GeluAll, T.Gelu, Finishes, B.CellIs, Read, View, Stretch, OnlyCells, Placed, Value;
    var f, n := GeluFiller(ops, inp, out, |x| * C), |x| * C;
    FinishesRows(f, workers, m0, schedule, s);
    TensorPlaced(f, out, 1, m0, inp, n, inp, n);
    ReadIs(m0, f.sees, inp, n, ops.zero);
    var y, data := T.GeluAll(ops, x, C), m0[inp..inp + n];
    forall i: nat, j: nat | i < f.rows && j < 1 ensures Computes(f, m0, out, y, C, 1, i, j) {
      OnePass(f, i, j, m0);
      Kernels.GeluCell(ops, data, C, x, i);
    }
    TensorInParallel(f, out, y, C, 1, workers, m0, schedule, s);
  }

  function ResidualFiller<F>(ops: Ops<F>, inp1: nat, inp2: nat, out: nat, n: nat): Filler<F> {
    Filler(n, 1, 1, (i: int, j: nat) => RowMajor(out, 1, i, j), Stretch(inp1, n) + Stretch(inp2, n),
           (i: int, pass: nat, j: nat, held: F, seen: map<nat, F>) =>
             if 0 <= i < n then ops.add(Read(seen, inp1, n, ops.zero)[i], Read(seen, inp2, n, ops.zero)[i])
             else ops.zero,
           ops.zero)
  }

  /** `residual_forward`. */
  lemma ResidualInParallel<F(!new)>(ops: Ops<F>, inp1: nat, inp2: nat, out: nat, C: nat,
                                    x: seq<Row<F>>, x': seq<Row<F>>,
                                    workers: int, m0: seq<F>, schedule: seq<nat>, s: PR.State<F>)
    requires |x| == |x'| && HoldsAt(m0, inp1, x, C) && HoldsAt(m0, inp2, x', C)
    requires T.Width(x, C) && T.Width(x', C) && out + |x| * C <= |m0|
    requires Before(inp1, |x| * C, out, |x| * C) && Before(inp2, |x| * C, out, |x| * C)
    requires Finishes(ResidualFiller(ops, inp1, inp2, out, |x| * C), workers, m0, schedule, s)
    ensures HoldsAt(s.mem, out, T.Residual(ops, x, x', C), C)
    ensures OnlyCells(ResidualFiller(ops, inp1, inp2, out, |x| * C), m0, s.mem)
  {
    hide B.Filled, T.Residual, Finishes, B.CellIs, Read, View, Stretch, OnlyCells, Placed, Value;
    var f, n := ResidualFiller(ops, inp1, inp2, out, |x| * C), |x| * C;
    FinishesRows(f, workers, m0, schedule, s);
    TensorPlaced(f, out, 1, m0, inp1, n, inp2, n);
    ReadIs(m0, f.sees, inp1, n, ops.zero);
    ReadIs(m0, f.sees, inp2, n, ops.zero);
    var y, a, b := T.Residual(ops, x, x', C), m0[inp1..inp1 + n], m0[inp2..inp2 + n];
    forall i: nat, j: nat | i < f.rows && j < 1 ensures Computes(f, m0, out, y, C, 1, i, j) {
      OnePass(f, i, j, m0);
      Kernels.ResidualCell(ops, a, b, C, x, x', i);
    }
    TensorInParallel(f, out, y, C, 1, workers, m0, schedule, s);
  }

  // ----- encoder -----

  /** What `encoder_range` stores in column i of row `row`. */
  function EncoderCell<F>(ops: Ops<F>, m: T.Model<F>, tokens: seq<nat>, len: nat, row: int, i: nat): F {
    if 0 <= row < |tokens| && len > 0 then
      var C := m.config.channels;
      var a, b := T.Slice(m.wte, tokens[row], C), T.Slice(m.wpe, row % len, C);
      if i < |a| && i < |b| then ops.add(a[i], b[i]) else ops.zero
    else ops.zero
  }

  function EncoderFiller<F>(ops: Ops<F>, out: nat, m: T.Model<F>, tokens: seq<nat>, len: nat): Filler<F> {
    var C := m.config.channels;
    Filler(|tokens|, C, 1, (row: int, i: nat) => RowMajor(out, C, row, i), {},
           (row: int, pass: nat, i: nat, held: F, seen: map<nat, F>) => EncoderCell(ops, m, tokens, len, row, i),
           ops.zero)
  }

  lemma EncoderCellIs<F>(ops: Ops<F>, m: T.Model<F>, tokens: seq<nat>, len: nat, row: nat, i: nat)
    requires T.ModelOk(m) && T.TokensOk(m, tokens, len) && row < |tokens| && i < m.config.channels
    ensures T.Encode(ops, m, tokens, len)[row][i] == EncoderCell(ops, m, tokens, len, row, i)
  {
    hide T.Slice;
    T.SliceFits(tokens[row], m.config.channels, m.config.vocab);
    T.SliceFits(row % len, m.config.channels, len);
  }

  /** `encoder_forward`. */
  lemma EncoderInParallel<F(!new)>(ops: Ops<F>, out: nat, m: T.Model<F>, tokens: seq<nat>, len: nat,
                                   workers: int, m0: seq<F>, schedule: seq<nat>, s: PR.State<F>)
    requires T.ModelOk(m) && T.TokensOk(m, tokens, len)
    requires out + |tokens| * m.config.channels <= |m0|
    requires Finishes(EncoderFiller(ops, out, m, tokens, len), workers, m0, schedule, s)
    ensures HoldsAt(s.mem, out, T.Encode(ops, m, tokens, len), m.config.channels)
    ensures OnlyCells(EncoderFiller(ops, out, m, tokens, len), m0, s.mem)
  {
    hide B.CellIs, Finishes, T.Encode, EncoderCell, OnlyCells, Placed, Value, View;
    var f, y, C := EncoderFiller(ops, out, m, tokens, len), T.Encode(ops, m, tokens, len), m.config.channels;
    FinishesRows(f, workers, m0, schedule, s);
    TensorPlaced(f, out, C, m0, 0, 0, 0, 0);
    forall row: nat, i: nat | row < f.rows && i < C ensures Computes(f, m0, out, y, C, C, row, i) {
      OnePass(f, row, i, m0);
      EncoderCellIs(ops, m, tokens, len, row, i);
      B.CellAt(y[row][i], y, C, row, i);
    }
    TensorInParallel(f, out, y, C, C, workers, m0, schedule, s);
  }

  // ----- softmax -----

  /** The two passes of `softmax_range` over a row of logits: exponentials, then division of
      what has been stored. */
  function SoftmaxCell<F>(ops: Ops<F>, x: Row<F>, pass: nat, j: nat, held: F): F {
    if j >= |x| then ops.zero
    else if pass == 0 then ops.exp(ops.sub(x[j], Max(ops, x, |x|)))
    else
      var e := T.ExpRow(ops, x);
      ops.div(held, Sum(ops, ops.zero, e, |e|))
  }

  function SoftmaxFiller<F>(ops: Ops<F>, inp: nat, out: nat, rows: nat, V: nat): Filler<F> {
    Filler(rows, V, 2, (i: int, j: nat) => RowMajor(out, V, i, j), Stretch(inp, rows * V),
           (i: int, pass: nat, j: nat, held: F, seen: map<nat, F>) =>
             if i < 0 then ops.zero
             else SoftmaxCell(ops, T.Slice(Read(seen, inp, rows * V, ops.zero), i, V), pass, j, held),
           ops.zero)
  }

  lemma TwoPasses<F>(f: Filler<F>, i: int, j: nat, m0: seq<F>)
    requires f.passes == 2
    ensures Value(f, i, j, 2, m0)
         == f.cell(i, 1, j, f.cell(i, 0, j, Value(f, i, j, 0, m0), View(m0, f.sees)), View(m0, f.sees))
  {
    assert Value(f, i, j, 1, m0) == f.cell(i, 0, j, Value(f, i, j, 0, m0), View(m0, f.sees));
  }

  lemma SoftmaxCellIs<F>(ops: Ops<F>, x: Row<F>, j: nat, held: F)
    requires j < |x|
    ensures SoftmaxCell(ops, x, 1, j, SoftmaxCell(ops, x, 0, j, held)) == T.SoftmaxRow(ops, x)[j]
  {
    Kernels.ExpAt(ops, x, j);
  }

  /** `softmax_forward`. */
  lemma SoftmaxInParallel<F(!new)>(ops: Ops<F>, inp: nat, out: nat, V: nat, x: seq<Row<F>>,
                                   workers: int, m0: seq<F>, schedule: seq<nat>, s: PR.State<F>)
    requires HoldsAt(m0, inp, x, V) && T.Width(x, V)
    requires out + |x| * V <= |m0| && Before(inp, |x| * V, out, |x| * V)
    requires Finishes(SoftmaxFiller(ops, inp, out, |x|, V), workers, m0, schedule, s)
    ensures HoldsAt(s.mem, out, T.Softmax(ops, x, V), V)
    ensures OnlyCells(SoftmaxFiller(ops, inp, out, |x|, V), m0, s.mem)
  {
    hide B.Filled, T.SoftmaxRow, SoftmaxCell, Finishes, B.CellIs, Read, View, Stretch, OnlyCells, Placed, Value, T.Slice;
    var f, n := SoftmaxFiller(ops, inp, out, |x|, V), |x| * V;
    FinishesRows(f, workers, m0, schedule, s);
    TensorPlaced(f, out, V, m0, inp, n, inp, n);
    ReadIs(m0, f.sees, inp, n, ops.zero);
    var y, data := T.Softmax(ops, x, V), m0[inp..inp + n];
    forall i: nat, j: nat | i < f.rows && j < V ensures Computes(f, m0, out, y, V, V, i, j) {
      TwoPasses(f, i, j, m0);
      B.RowAt(data, x, V, i);
      SoftmaxCellIs(ops, x[i], j, Value(f, i, j, 0, m0));
      B.CellAt(y[i][j], y, V, i, j);
    }
    TensorInParallel(f, out, y, V, V, workers, m0, schedule, s);
  }

  // ----- layer norm -----

  /** Column j of the normalised row; behind it the mean and the reciprocal deviation. */
  function LayerNormCell<F>(ops: Ops<F>, x: Row<F>, w: Row<F>, b: Row<F>, C: nat, j: nat): F {
    var m, s := T.Mean(ops, x), T.Rstd(ops, x);
    if j == C then m
    else if j > C then s
    else if j < |x| && j < |w| && j < |b| then ops.add(ops.mul(ops.mul(s, ops.sub(x[j], m)), w[j]), b[j])
    else ops.zero
  }

  /** Where `layernorm_range` stores: the row, then its mean and reciprocal deviation. */
  function LayerNormTarget(out: nat, mean: nat, rstd: nat, C: nat, i: int, j: nat): nat {
    if i < 0 then 0 else if j < C then RowMajor(out, C, i, j) else if j == C then mean + i else rstd + i
  }

  function LayerNormFiller<F>(ops: Ops<F>, inp: nat, out: nat, mean: nat, rstd: nat, w: Row<F>, b: Row<F>,
                              rows: nat, C: nat): Filler<F> {
    Filler(rows, C + 2, 1, (i: int, j: nat) => LayerNormTarget(out, mean, rstd, C, i, j), Stretch(inp, rows * C),
           (i: int, pass: nat, j: nat, held: F, seen: map<nat, F>) =>
             if i < 0 then ops.zero
             else LayerNormCell(ops, T.Slice(Read(seen, inp, rows * C, ops.zero), i, C), w, b, C, j),
           ops.zero)
  }

  /** The three tensors and the input lie in memory and apart from each other. */
  predicate NormPlaces(inp: nat, out: nat, mean: nat, rstd: nat, rows: nat, C: nat, size: nat) {
    && inp + rows * C <= size && out + rows * C <= size && mean + rows <= size && rstd + rows <= size
    && Before(inp, rows * C, out, rows * C) && Before(inp, rows * C, mean, rows) && Before(inp, rows * C, rstd, rows)
    && Before(out, rows * C, mean, rows) && Before(out, rows * C, rstd, rows) && Before(mean, rows, rstd, rows)
  }

  lemma NormTargetInside(inp: nat, out: nat, mean: nat, rstd: nat, rows: nat, C: nat, size: nat, i: nat, j: nat)
    requires NormPlaces(inp, out, mean, rstd, rows, C, size) && i < rows && j < C + 2
    ensures var c := LayerNormTarget(out, mean, rstd, C, i, j);
            && c < size && !InStretch(c, inp, rows * C)
            && (j < C ==> InStretch(c, out, rows * C)) && (j == C ==> InStretch(c, mean, rows))
            && (j == C + 1 ==> InStretch(c, rstd, rows))
  {
    hide RowMajor;
    if j < C {
      RowMajorInside(out, C, rows, i, j);
    }
  }

  lemma NormTargetsDiffer(inp: nat, out: nat, mean: nat, rstd: nat, rows: nat, C: nat, size: nat,
                          i: nat, j: nat, i': nat, j': nat)
    requires NormPlaces(inp, out, mean, rstd, rows, C, size) && i < rows && j < C + 2 && i' < rows && j' < C + 2
    requires LayerNormTarget(out, mean, rstd, C, i, j) == LayerNormTarget(out, mean, rstd, C, i', j')
    ensures i == i' && j == j'
  {
    hide RowMajor;
    NormTargetInside(inp, out, mean, rstd, rows, C, size, i, j);
    NormTargetInside(inp, out, mean, rstd, rows, C, size, i', j');
    if j < C && j' < C {
      RowMajorInjective(out, C, i, j, i', j');
    }
  }

  lemma NormPlaced<F>(ops: Ops<F>, inp: nat, out: nat, mean: nat, rstd: nat, w: Row<F>, b: Row<F>,
                      rows: nat, C: nat, m: seq<F>)
    requires rows > 0 && NormPlaces(inp, out, mean, rstd, rows, C, |m|)
    ensures Placed(LayerNormFiller(ops, inp, out, mean, rstd, w, b, rows, C), m)
  {
    hide LayerNormTarget, LayerNormCell, NormPlaces;
    NormInput(inp, out, mean, rstd, rows, C, |m|);
    var f := LayerNormFiller(ops, inp, out, mean, rstd, w, b, rows, C);
    forall i, j: nat | IsCell(f, i, j) ensures f.target(i, j) < |m| && f.target(i, j) !in f.sees {
      NormTargetInside(inp, out, mean, rstd, rows, C, |m|, i, j);
    }
    forall i, j: nat, i', j': nat | IsCell(f, i, j) && IsCell(f, i', j') && f.target(i, j) == f.target(i', j')
      ensures i == i' && j == j'
    {
      NormTargetsDiffer(inp, out, mean, rstd, rows, C, |m|, i, j, i', j');
    }
  }

  lemma NormInput(inp: nat, out: nat, mean: nat, rstd: nat, rows: nat, C: nat, size: nat)
    requires NormPlaces(inp, out, mean, rstd, rows, C, size)
    ensures inp + rows * C <= size && out + rows * C <= size
  {
  }

  /** `layernorm_forward`: the normalised tensor, and the means and deviations of its rows. */
  lemma LayerNormInParallel<F(!new)>(ops: Ops<F>, inp: nat, out: nat, mean: nat, rstd: nat, w: Row<F>, b: Row<F>,
                                     C: nat, x: seq<Row<F>>,
                                     workers: int, m0: seq<F>, schedule: seq<nat>, s: PR.State<F>)
    requires HoldsAt(m0, inp, x, C) && T.Width(x, C) && |w| == |b| == C
    requires NormPlaces(inp, out, mean, rstd, |x|, C, |m0|)
    requires Finishes(LayerNormFiller(ops, inp, out, mean, rstd, w, b, |x|, C), workers, m0, schedule, s)
    ensures HoldsAt(s.mem, out, T.LayerNorm(ops, x, w, b), C)
    ensures OnlyCells(LayerNormFiller(ops, inp, out, mean, rstd, w, b, |x|, C), m0, s.mem)
    ensures forall r: nat :: r < |x| ==> StatsAt(ops, s.mem, mean, rstd, r, x[r])
  {
    hide B.Filled, T.LayerNormRow, T.Mean, T.Rstd, LayerNormCell, Finishes, B.CellIs, Read, View, Stretch, OnlyCells;
    hide Placed, Value, T.Slice, NormPlaces;
    var f, n := LayerNormFiller(ops, inp, out, mean, rstd, w, b, |x|, C), |x| * C;
    FinishesRows(f, workers, m0, schedule, s);
    NormInput(inp, out, mean, rstd, |x|, C, |m0|);
    NormPlaced(ops, inp, out, mean, rstd, w, b, |x|, C, m0);
    ReadIs(m0, f.sees, inp, n, ops.zero);
    var y, data := T.LayerNorm(ops, x, w, b), m0[inp..inp + n];
    forall i: nat, j: nat | i < f.rows && j < C + 2
      ensures Value(f, i, j, 1, m0) == LayerNormCell(ops, x[i], w, b, C, j)
    {
      OnePass(f, i, j, m0);
      B.RowAt(data, x, C, i);
    }
    forall i: nat, j: nat | i < f.rows && j < C ensures Computes(f, m0, out, y, C, C, i, j) {
      NormCells(ops, x[i], w, b, C, j);
      B.CellAt(y[i][j], y, C, i, j);
    }
    TensorInParallel(f, out, y, C, C, workers, m0, schedule, s);
    FillInParallel(f, workers, m0, schedule, s);
    forall r: nat | r < |x| ensures StatsAt(ops, s.mem, mean, rstd, r, x[r]) {
      assert IsCell(f, r, C) && IsCell(f, r, C + 1);
      NormCells(ops, x[r], w, b, C, C);
      NormCells(ops, x[r], w, b, C, C + 1);
    }
  }

  ghost predicate StatsAt<F>(ops: Ops<F>, m: seq<F>, mean: nat, rstd: nat, r: nat, row: Row<F>) {
    mean + r < |m| && rstd + r < |m| && m[mean + r] == T.Mean(ops, row) && m[rstd + r] == T.Rstd(ops, row)
  }

  lemma NormCells<F>(ops: Ops<F>, x: Row<F>, w: Row<F>, b: Row<F>, C: nat, j: nat)
    requires |w| == |b| == |x| == C && j < C + 2
    ensures LayerNormCell(ops, x, w, b, C, j)
         == if j < C then T.LayerNormRow(ops, x, w, b)[j] else if j == C then T.Mean(ops, x) else T.Rstd(ops, x)
  {
  }
}
