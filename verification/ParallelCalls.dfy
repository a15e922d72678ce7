/** The calls of the forward pass, each a `parallel_for` with an interleaving of its own, on one
    block of activations: what tensor each leaves, and that it touches no other. */
module ParallelCalls {
  import opened Options
  import opened Floats
  import opened Activations
  import opened KernelLocality
  import opened ParallelKernels
  import opened KernelsInParallel
  import opened AttentionParallel
  import opened AttentionDetermined
  import T = Transformer
  import B = Buffers
  import PR = ParallelRuns

  /** Tensor `t` holds `y`, whose rows have length C. */
  ghost predicate Has<F>(z: Dims, m: seq<F>, t: Tensor, y: seq<Row<F>>, C: nat) {
    && Valid(z, t) && |y| == z.B * z.T && Size(z, t.kind) == |y| * C && T.Width(y, C)
    && HoldsAt(m, At(z, t), y, C)
  }

  lemma HasKept<F>(z: Dims, outs: set<Tensor>, m: seq<F>, m': seq<F>, t: Tensor, y: seq<Row<F>>, C: nat)
    requires Wrote(z, outs, m, m') && Has(z, m, t, y, C) && t !in outs && (forall o :: o in outs ==> Valid(z, o))
    ensures Has(z, m', t, y, C)
  {
    hide Wrote, B.Holds, Valid, Size, At;
    TensorKept(z, outs, m, m', t);
    assert |m'| == |m| by {
      WroteSize(z, outs, m, m');
    }
  }

  lemma WroteSize<F>(z: Dims, outs: set<Tensor>, m: seq<F>, m': seq<F>)
    requires Wrote(z, outs, m, m')
    ensures |m'| == |m| == Total(z)
  {
  }

  lemma OneTensorWrote<F>(f: Filler<F>, z: Dims, out: Tensor, W: nat, m: seq<F>, m': seq<F>)
    requires OneTensor(f, At(z, out), W) && f.rows * W == Size(z, out.kind)
    requires OnlyCells(f, m, m') && |m| == Total(z)
    ensures Wrote(z, {out}, m, m')
  {
    hide At, Size, Total, OnlyCells, Wrote, RowMajor;
    forall i, j: nat | IsCell(f, i, j) ensures InSome(z, {out}, f.target(i, j)) {
      RowMajorInside(At(z, out), W, f.rows, i, j);
      assert InTensor(z, out, f.target(i, j));
    }
    FillerWrote(f, z, {out}, m, m');
  }

  // ----- the calls -----

  /** `parallel_for` over the filler may take memory m to m'. */
  ghost predicate Runs<F(!new)>(f: Filler<F>, workers: int, m: seq<F>, m': seq<F>) {
    exists schedule, s: PR.State<F> :: Finishes(f, workers, m, schedule, s) && s.mem == m'
  }

  ghost function MatmulOf<F>(ops: Ops<F>, z: Dims, inp: Tensor, out: Tensor, w: Row<F>, bias: Option<Row<F>>,
                             C: nat, OC: nat): Filler<F> {
    MatmulFiller(ops, At(z, inp), At(z, out), w, bias, z.B * z.T, C, OC)
  }

  lemma MatmulCall<F(!new)>(ops: Ops<F>, z: Dims, workers: int, inp: Tensor, out: Tensor, w: Row<F>,
                            bias: Option<Row<F>>, C: nat, OC: nat, m: seq<F>, m': seq<F>, x: seq<Row<F>>)
    requires Runs(MatmulOf(ops, z, inp, out, w, bias, C, OC), workers, m, m') && |m| == Total(z)
    requires Has(z, m, inp, x, C) && T.Matrix(w, bias, C, OC)
    requires Valid(z, out) && out != inp && Size(z, out.kind) == |x| * OC
    ensures Has(z, m', out, T.Matmul(ops, x, w, bias, C, OC), OC) && Wrote(z, {out}, m, m')
  {
    hide Finishes, At, Size, Total, Valid, B.Holds, T.Matmul, OnlyCells, Wrote, MatmulCell, Stretch;
    var f := MatmulOf(ops, z, inp, out, w, bias, C, OC);
    var schedule, s: PR.State<F> :| Finishes(f, workers, m, schedule, s) && s.mem == m';
    InsideTotal(z, out);
    TensorsApart(z, inp, out);
    MatmulInParallel(ops, At(z, inp), At(z, out), w, bias, C, OC, x, workers, m, schedule, s);
    OneTensorWrote(f, z, out, 1, m, m');
  }

  ghost function GeluOf<F>(ops: Ops<F>, z: Dims, inp: Tensor, out: Tensor, C: nat): Filler<F> {
    GeluFiller(ops, At(z, inp), At(z, out), RowCount(z) * C)
  }

  lemma GeluCall<F(!new)>(ops: Ops<F>, z: Dims, workers: int, inp: Tensor, out: Tensor, C: nat,
                          m: seq<F>, m': seq<F>, x: seq<Row<F>>)
    requires Runs(GeluOf(ops, z, inp, out, C), workers, m, m') && |m| == Total(z)
    requires Has(z, m, inp, x, C) && Valid(z, out) && out != inp && Size(z, out.kind) == |x| * C
    ensures Has(z, m', out, T.GeluAll(ops, x, C), C) && Wrote(z, {out}, m, m')
  {
    hide Finishes, At, Size, Total, Valid, B.Holds, T.GeluAll, OnlyCells, Wrote, Stretch;
    var f := GeluOf(ops, z, inp, out, C);
    var schedule, s: PR.State<F> :| Finishes(f, workers, m, schedule, s) && s.mem == m';
    InsideTotal(z, out);
    TensorsApart(z, inp, out);
    GeluInParallel(ops, At(z, inp), At(z, out), C, x, workers, m, schedule, s);
    OneTensorWrote(f, z, out, 1, m, m');
  }

  ghost function ResidualOf<F>(ops: Ops<F>, z: Dims, inp1: Tensor, inp2: Tensor, out: Tensor): Filler<F> {
    ResidualFiller(ops, At(z, inp1), At(z, inp2), At(z, out), RowCount(z) * z.C)
  }

  lemma ResidualCall<F(!new)>(ops: Ops<F>, z: Dims, workers: int, inp1: Tensor, inp2: Tensor, out: Tensor,
                              m: seq<F>, m': seq<F>, x: seq<Row<F>>, y: seq<Row<F>>)
    requires Runs(ResidualOf(ops, z, inp1, inp2, out), workers, m, m') && |m| == Total(z)
    requires Has(z, m, inp1, x, z.C) && Has(z, m, inp2, y, z.C)
    requires Valid(z, out) && out != inp1 && out != inp2 && Size(z, out.kind) == |x| * z.C
    ensures Has(z, m', out, T.Residual(ops, x, y, z.C), z.C) && Wrote(z, {out}, m, m')
  {
    hide Finishes, At, Size, Total, Valid, B.Holds, T.Residual, OnlyCells, Wrote, Stretch;
    var f := ResidualOf(ops, z, inp1, inp2, out);
    var schedule, s: PR.State<F> :| Finishes(f, workers, m, schedule, s) && s.mem == m';
    InsideTotal(z, out);
    TensorsApart(z, inp1, out);
    TensorsApart(z, inp2, out);
    ResidualInParallel(ops, At(z, inp1), At(z, inp2), At(z, out), z.C, x, y, workers, m, schedule, s);
    OneTensorWrote(f, z, out, 1, m, m');
  }

  ghost function SoftmaxOf<F>(ops: Ops<F>, z: Dims, inp: Tensor, out: Tensor): Filler<F> {
    SoftmaxFiller(ops, At(z, inp), At(z, out), z.B * z.T, z.V)
  }

  lemma SoftmaxCall<F(!new)>(ops: Ops<F>, z: Dims, workers: int, inp: Tensor, out: Tensor,
                             m: seq<F>, m': seq<F>, x: seq<Row<F>>)
    requires Runs(SoftmaxOf(ops, z, inp, out), workers, m, m') && |m| == Total(z)
    requires Has(z, m, inp, x, z.V) && Valid(z, out) && out != inp && Size(z, out.kind) == |x| * z.V
    ensures Has(z, m', out, T.Softmax(ops, x, z.V), z.V) && Wrote(z, {out}, m, m')
  {
    hide Finishes, At, Size, Total, Valid, B.Holds, T.Softmax, OnlyCells, Wrote, Stretch, SoftmaxCell;
    var f := SoftmaxOf(ops, z, inp, out);
    var schedule, s: PR.State<F> :| Finishes(f, workers, m, schedule, s) && s.mem == m';
    InsideTotal(z, out);
    TensorsApart(z, inp, out);
    SoftmaxInParallel(ops, At(z, inp), At(z, out), z.V, x, workers, m, schedule, s);
    OneTensorWrote(f, z, out, z.V, m, m');
  }

  ghost function EncoderOf<F>(ops: Ops<F>, z: Dims, out: Tensor, model: T.Model<F>, tokens: seq<nat>): Filler<F> {
    EncoderFiller(ops, At(z, out), model, tokens, z.T)
  }

  lemma EncoderCall<F(!new)>(ops: Ops<F>, z: Dims, workers: int, out: Tensor, model: T.Model<F>, tokens: seq<nat>,
                             m: seq<F>, m': seq<F>)
    requires Runs(EncoderOf(ops, z, out, model, tokens), workers, m, m') && |m| == Total(z)
    requires T.ModelOk(model) && T.TokensOk(model, tokens, z.T) && |tokens| == z.B * z.T
    requires z.C == model.config.channels && Valid(z, out) && Size(z, out.kind) == |tokens| * z.C
    ensures Has(z, m', out, T.Encode(ops, model, tokens, z.T), z.C) && Wrote(z, {out}, m, m')
  {
    hide Finishes, At, Size, Total, Valid, B.Holds, T.Encode, T.ModelOk, T.TokensOk, EncoderCell, OnlyCells, Wrote;
    var f := EncoderOf(ops, z, out, model, tokens);
    var schedule, s: PR.State<F> :| Finishes(f, workers, m, schedule, s) && s.mem == m';
    InsideTotal(z, out);
    EncoderInParallel(ops, At(z, out), model, tokens, z.T, workers, m, schedule, s);
    OneTensorWrote(f, z, out, z.C, m, m');
  }

  ghost function NormOf<F>(ops: Ops<F>, z: Dims, inp: Tensor, out: Tensor, mean: Tensor, rstd: Tensor,
                           w: Row<F>, b: Row<F>): Filler<F> {
    LayerNormFiller(ops, At(z, inp), At(z, out), At(z, mean), At(z, rstd), w, b, z.B * z.T, z.C)
  }

  predicate NormTensors(z: Dims, inp: Tensor, out: Tensor, mean: Tensor, rstd: Tensor) {
    && Valid(z, out) && Valid(z, mean) && Valid(z, rstd)
    && Size(z, out.kind) == z.B * z.T * z.C && Size(z, mean.kind) == Size(z, rstd.kind) == z.B * z.T
    && inp != out && inp != mean && inp != rstd && out != mean && out != rstd && mean != rstd
  }

  lemma NormCall<F(!new)>(ops: Ops<F>, z: Dims, workers: int, inp: Tensor, out: Tensor, mean: Tensor, rstd: Tensor,
                          w: Row<F>, b: Row<F>, m: seq<F>, m': seq<F>, x: seq<Row<F>>)
    requires Runs(NormOf(ops, z, inp, out, mean, rstd, w, b), workers, m, m') && |m| == Total(z)
    requires Has(z, m, inp, x, z.C) && |w| == |b| == z.C && NormTensors(z, inp, out, mean, rstd)
    ensures Has(z, m', out, T.LayerNorm(ops, x, w, b), z.C) && Wrote(z, {out, mean, rstd}, m, m')
  {
    hide Finishes, At, Size, Total, Valid, B.Holds, T.LayerNorm, OnlyCells, Wrote, Stretch, LayerNormCell, LayerNormTarget;
    hide StatsAt;
    var f := NormOf(ops, z, inp, out, mean, rstd, w, b);
    var schedule, s: PR.State<F> :| Finishes(f, workers, m, schedule, s) && s.mem == m';
    NormLies(z, inp, out, mean, rstd);
    LayerNormInParallel(ops, At(z, inp), At(z, out), At(z, mean), At(z, rstd), w, b, z.C, x, workers, m, schedule, s);
    var outs := {out, mean, rstd};
    forall i, j: nat | IsCell(f, i, j) ensures InSome(z, outs, f.target(i, j)) {
      NormTargetInside(At(z, inp), At(z, out), At(z, mean), At(z, rstd), z.B * z.T, z.C, Total(z), i, j);
      assert InTensor(z, if j < z.C then out else if j == z.C then mean else rstd, f.target(i, j));
    }
    FillerWrote(f, z, outs, m, m');
  }

  lemma NormLies(z: Dims, inp: Tensor, out: Tensor, mean: Tensor, rstd: Tensor)
    requires Valid(z, inp) && Size(z, inp.kind) == z.B * z.T * z.C && NormTensors(z, inp, out, mean, rstd)
    ensures NormPlaces(At(z, inp), At(z, out), At(z, mean), At(z, rstd), z.B * z.T, z.C, Total(z))
  {
    hide At, Size, Total, Valid;
    InsideTotal(z, inp);
    InsideTotal(z, out);
    InsideTotal(z, mean);
    InsideTotal(z, rstd);
    TensorsApart(z, inp, out);
    TensorsApart(z, inp, mean);
    TensorsApart(z, inp, rstd);
    TensorsApart(z, out, mean);
    TensorsApart(z, out, rstd);
    TensorsApart(z, mean, rstd);
  }

  // ----- attention -----

  function LayoutOf(z: Dims, l: nat): Layout {
    Layout(At(z, Tensor(QKV, l)), At(z, Tensor(PREATT, l)), At(z, Tensor(ATT, l)), At(z, Tensor(ATTY, l)),
           z.B, z.T, z.C, z.NH)
  }

  ghost predicate RunsAttention<F(!new)>(ops: Ops<F>, z: Dims, l: nat, workers: int, m: seq<F>, m': seq<F>) {
    AttentionRuns(ops, LayoutOf(z, l), workers, m, m')
  }

  predicate DimsOk(z: Dims) {
    z.B > 0 && z.T > 0 && z.C > 0 && z.NH > 0 && z.V > 0
  }

  lemma AttentionLies(z: Dims, l: nat)
    requires DimsOk(z) && l < z.L
    ensures LayoutOk(LayoutOf(z, l)) && InMemory(LayoutOf(z, l), Total(z)) && Units(LayoutOf(z, l)) > 0
    ensures OutSize(LayoutOf(z, l)) == Size(z, ATTY) && AttSize(LayoutOf(z, l)) == Size(z, ATT) == Size(z, PREATT)
    ensures InpSize(LayoutOf(z, l)) == Size(z, QKV)
  {
    hide At, Total;
    var q, p, a, o := Tensor(QKV, l), Tensor(PREATT, l), Tensor(ATT, l), Tensor(ATTY, l);
    InsideTotal(z, q);
    InsideTotal(z, p);
    InsideTotal(z, a);
    InsideTotal(z, o);
    TensorsApart(z, p, a);
    TensorsApart(z, p, o);
    TensorsApart(z, a, o);
    TensorsApart(z, q, p);
    TensorsApart(z, q, a);
    TensorsApart(z, q, o);
    assert z.T * z.NH > 0 && z.B * (z.T * z.NH) > 0;
  }

  /** What the attention outputs of layer l hold in memory m. */
  ghost function GapIn<F>(z: Dims, m: seq<F>, l: nat): (gap: seq<Row<F>>)
    requires DimsOk(z) && l < z.L && |m| == Total(z)
    ensures |gap| == z.B * z.T && T.Width(gap, z.C)
  {
    AttentionLies(z, l);
    B.RowsHold(m[At(z, Tensor(ATTY, l))..At(z, Tensor(ATTY, l)) + OutSize(LayoutOf(z, l))], z.B * z.T, z.C);
    GapAt(m, LayoutOf(z, l))
  }

  lemma AttentionCall<F(!new)>(ops: Ops<F>, z: Dims, workers: int, l: nat, m: seq<F>, m': seq<F>, x: seq<Row<F>>)
    requires RunsAttention(ops, z, l, workers, m, m') && |m| == Total(z)
    requires DimsOk(z) && l < z.L && Has(z, m, Tensor(QKV, l), x, 3 * z.C)
    ensures Has(z, m', Tensor(ATTY, l), T.Attention(ops, x, z.T, z.C, z.NH, GapIn(z, m, l)), z.C)
    ensures Wrote(z, {Tensor(PREATT, l), Tensor(ATT, l), Tensor(ATTY, l)}, m, m')
  {
    hide At, Total, B.Holds, T.Attention, PR.Runs, PR.Finished, LayoutOk, InMemory, Units, UnitDone, AttentionStores;
    hide OnlyOutputs;
    var y := LayoutOf(z, l);
    var schedule, s: PR.State<F> :| AttentionRun(ops, y, workers, m, schedule, s) && s.mem == m';
    AttentionLies(z, l);
    AttentionTensorInParallel(ops, y, x, workers, m, schedule, s);
    OutputsWrote(z, l, m, m');
  }

  lemma OutputsWrote<F>(z: Dims, l: nat, m: seq<F>, m': seq<F>)
    requires DimsOk(z) && l < z.L && OnlyOutputs(LayoutOf(z, l), m, m') && |m| == Total(z)
    ensures Wrote(z, {Tensor(PREATT, l), Tensor(ATT, l), Tensor(ATTY, l)}, m, m')
  {
    hide At, Total, Size, AttSize, OutSize, LayoutOk, InMemory, Units;
    AttentionLies(z, l);
    var outs := {Tensor(PREATT, l), Tensor(ATT, l), Tensor(ATTY, l)};
    forall c | 0 <= c < |m| && !InSome(z, outs, c) ensures m'[c] == m[c] {
      assert !InTensor(z, Tensor(PREATT, l), c) && !InTensor(z, Tensor(ATT, l), c) && !InTensor(z, Tensor(ATTY, l), c);
    }
  }
}
