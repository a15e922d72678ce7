/** The whole forward pass as a sequence of `parallel_for` calls on one block of activations,
    each with its own interleaving: it leaves the logits and probabilities of the row model. */
module ParallelForward {
  import opened Options
  import opened Floats
  import opened Activations
  import opened ParallelCalls
  import T = Transformer
  import B = Buffers
  import Causality

  // ----- what the attention outputs hold until their layer runs -----

  /** The cells of the attention outputs of layer l. */
  function Atty<F>(z: Dims, m: seq<F>, l: nat): seq<F> {
    var a, n := At(z, Tensor(ATTY, l)), Size(z, ATTY);
    if a + n <= |m| then m[a..a + n] else []
  }

  /** The attention outputs of layers `from` on are as they were. */
  ghost predicate AttyKept<F>(z: Dims, from: nat, m: seq<F>, m': seq<F>) {
    |m'| == |m| == Total(z) && forall l :: from <= l < z.L ==> Atty(z, m', l) == Atty(z, m, l)
  }

  lemma WroteKeepsAtty<F>(z: Dims, outs: set<Tensor>, from: nat, m: seq<F>, m': seq<F>)
    requires Wrote(z, outs, m, m') && (forall o :: o in outs ==> Valid(z, o))
    requires forall l :: from <= l < z.L ==> Tensor(ATTY, l) !in outs
    ensures AttyKept(z, from, m, m')
  {
    hide Wrote, At, Size, Total;
    WroteSize(z, outs, m, m');
    forall l | from <= l < z.L ensures Atty(z, m', l) == Atty(z, m, l) {
      TensorKept(z, outs, m, m', Tensor(ATTY, l));
    }
  }

  lemma AttyKeptOn<F>(z: Dims, from: nat, m: seq<F>, m': seq<F>, from': nat, m'': seq<F>)
    requires AttyKept(z, from, m, m') && AttyKept(z, from', m', m'')
    ensures AttyKept(z, if from < from' then from' else from, m, m'')
  {
    hide Total, Atty;
  }

  lemma SameGap<F>(z: Dims, m: seq<F>, m': seq<F>, l: nat)
    requires DimsOk(z) && l < z.L && |m| == |m'| == Total(z) && Atty(z, m', l) == Atty(z, m, l)
    ensures GapIn(z, m', l) == GapIn(z, m, l)
  {
    hide At, Total;
    AttentionLies(z, l);
    InsideTotal(z, Tensor(ATTY, l));
  }

  /** What the attention outputs of all layers hold. */
  ghost function GapsIn<F>(z: Dims, m: seq<F>): (gaps: T.Gaps<F>)
    requires DimsOk(z) && |m| == Total(z)
    ensures |gaps| == z.L
  {
    seq(z.L, l requires 0 <= l < z.L => GapIn(z, m, l))
  }

  // ----- a layer -----

  /** The residual stream that layer l starts from. */
  function ResidualOfLayer(l: nat): Tensor {
    if l == 0 then Tensor(ENCODED, 0) else Tensor(RESIDUAL3, l - 1)
  }

  /** The calls of the attention half of layer l, from memory to memory. */
  ghost predicate AttendRun<F(!new)>(ops: Ops<F>, z: Dims, workers: int, w: T.Layer<F>, l: nat, ms: seq<seq<F>>) {
    && |ms| == 6
    && Runs(NormOf(ops, z, ResidualOfLayer(l), Tensor(LN1, l), Tensor(LN1_MEAN, l), Tensor(LN1_RSTD, l), w.ln1w, w.ln1b),
            workers, ms[0], ms[1])
    && Runs(MatmulOf(ops, z, Tensor(LN1, l), Tensor(QKV, l), w.qkvw, Some(w.qkvb), z.C, 3 * z.C), workers, ms[1], ms[2])
    && RunsAttention(ops, z, l, workers, ms[2], ms[3])
    && Runs(MatmulOf(ops, z, Tensor(ATTY, l), Tensor(ATTPROJ, l), w.attprojw, Some(w.attprojb), z.C, z.C),
            workers, ms[3], ms[4])
    && Runs(ResidualOf(ops, z, ResidualOfLayer(l), Tensor(ATTPROJ, l), Tensor(RESIDUAL2, l)), workers, ms[4], ms[5])
  }

  /** The calls of its feed-forward half. */
  ghost predicate FeedRun<F(!new)>(ops: Ops<F>, z: Dims, workers: int, w: T.Layer<F>, l: nat, ms: seq<seq<F>>) {
    && |ms| == 6
    && Runs(NormOf(ops, z, Tensor(RESIDUAL2, l), Tensor(LN2, l), Tensor(LN2_MEAN, l), Tensor(LN2_RSTD, l), w.ln2w, w.ln2b),
            workers, ms[0], ms[1])
    && Runs(MatmulOf(ops, z, Tensor(LN2, l), Tensor(FCH, l), w.fcw, Some(w.fcb), z.C, 4 * z.C), workers, ms[1], ms[2])
    && Runs(GeluOf(ops, z, Tensor(FCH, l), Tensor(FCH_GELU, l), 4 * z.C), workers, ms[2], ms[3])
    && Runs(MatmulOf(ops, z, Tensor(FCH_GELU, l), Tensor(FCPROJ, l), w.fcprojw, Some(w.fcprojb), 4 * z.C, z.C),
            workers, ms[3], ms[4])
    && Runs(ResidualOf(ops, z, Tensor(RESIDUAL2, l), Tensor(FCPROJ, l), Tensor(RESIDUAL3, l)), workers, ms[4], ms[5])
  }

  lemma AttendLeaves<F(!new)>(ops: Ops<F>, z: Dims, workers: int, w: T.Layer<F>, l: nat, ms: seq<seq<F>>, x: seq<Row<F>>)
    requires DimsOk(z) && l < z.L && T.LayerOk(w, z.C) && AttendRun(ops, z, workers, w, l, ms)
    requires |ms[0]| == Total(z) && Has(z, ms[0], ResidualOfLayer(l), x, z.C)
    ensures AttyKept(z, l + 1, ms[0], ms[5])
    ensures Has(z, ms[5], Tensor(RESIDUAL2, l), T.AttendHalf(ops, w, x, z.T, z.C, z.NH, GapIn(z, ms[0], l)), z.C)
  {
    hide Runs, RunsAttention, Has, Wrote, Total, T.LayerNorm, T.Matmul, T.Attention, T.Residual;
    hide NormOf, MatmulOf, ResidualOf, AttyKept, GapIn, Atty;
    HasShape(z, ms[0], ResidualOfLayer(l), x, z.C);
    var r, ln := ResidualOfLayer(l), {Tensor(LN1, l), Tensor(LN1_MEAN, l), Tensor(LN1_RSTD, l)};
    NormCall(ops, z, workers, r, Tensor(LN1, l), Tensor(LN1_MEAN, l), Tensor(LN1_RSTD, l), w.ln1w, w.ln1b, ms[0], ms[1], x);
    Kept(z, ln, l, ms[0], ms[1], r, x);
    var n := T.LayerNorm(ops, x, w.ln1w, w.ln1b);
    MatmulCall(ops, z, workers, Tensor(LN1, l), Tensor(QKV, l), w.qkvw, Some(w.qkvb), z.C, 3 * z.C, ms[1], ms[2], n);
    Kept(z, {Tensor(QKV, l)}, l, ms[1], ms[2], r, x);
    var q := T.Matmul(ops, n, w.qkvw, Some(w.qkvb), z.C, 3 * z.C);
    AttyKeptOn(z, l, ms[0], ms[1], l, ms[2]);
    GapUntil(z, l, ms[0], ms[2]);
    AttentionCall(ops, z, workers, l, ms[2], ms[3], q);
    Kept(z, {Tensor(PREATT, l), Tensor(ATT, l), Tensor(ATTY, l)}, l + 1, ms[2], ms[3], r, x);
    AttyKeptOn(z, l, ms[0], ms[2], l + 1, ms[3]);
    var a := T.Attention(ops, q, z.T, z.C, z.NH, GapIn(z, ms[0], l));
    MatmulCall(ops, z, workers, Tensor(ATTY, l), Tensor(ATTPROJ, l), w.attprojw, Some(w.attprojb), z.C, z.C, ms[3], ms[4], a);
    Kept(z, {Tensor(ATTPROJ, l)}, l + 1, ms[3], ms[4], r, x);
    AttyKeptOn(z, l + 1, ms[0], ms[3], l + 1, ms[4]);
    var p := T.Matmul(ops, a, w.attprojw, Some(w.attprojb), z.C, z.C);
    ResidualCall(ops, z, workers, r, Tensor(ATTPROJ, l), Tensor(RESIDUAL2, l), ms[4], ms[5], x, p);
    WroteKeepsAtty(z, {Tensor(RESIDUAL2, l)}, l + 1, ms[4], ms[5]);
    AttyKeptOn(z, l + 1, ms[0], ms[4], l + 1, ms[5]);
  }

  /** A call that writes neither the residual stream nor the attention outputs from a layer on. */
  lemma Kept<F>(z: Dims, outs: set<Tensor>, from: nat, m: seq<F>, m': seq<F>, r: Tensor, x: seq<Row<F>>)
    requires Wrote(z, outs, m, m') && (forall o :: o in outs ==> Valid(z, o))
    requires forall l :: from <= l < z.L ==> Tensor(ATTY, l) !in outs
    requires Has(z, m, r, x, z.C) && r !in outs
    ensures AttyKept(z, from, m, m') && Has(z, m', r, x, z.C) && |m'| == Total(z)
  {
    hide Has, Wrote;
    WroteSize(z, outs, m, m');
    WroteKeepsAtty(z, outs, from, m, m');
    HasKept(z, outs, m, m', r, x, z.C);
  }

  lemma GapUntil<F>(z: Dims, l: nat, m: seq<F>, m': seq<F>)
    requires DimsOk(z) && l < z.L && AttyKept(z, l, m, m')
    ensures |m| == |m'| == Total(z) && GapIn(z, m', l) == GapIn(z, m, l)
  {
    SameGap(z, m, m', l);
  }

  lemma HasShape<F>(z: Dims, m: seq<F>, t: Tensor, y: seq<Row<F>>, C: nat)
    requires Has(z, m, t, y, C)
    ensures |y| == z.B * z.T && T.Width(y, C) && Valid(z, t)
  {
  }

  lemma FeedLeaves<F(!new)>(ops: Ops<F>, z: Dims, workers: int, w: T.Layer<F>, l: nat, ms: seq<seq<F>>, x: seq<Row<F>>)
    requires DimsOk(z) && l < z.L && T.LayerOk(w, z.C) && FeedRun(ops, z, workers, w, l, ms)
    requires |ms[0]| == Total(z) && Has(z, ms[0], Tensor(RESIDUAL2, l), x, z.C)
    ensures AttyKept(z, l + 1, ms[0], ms[5])
    ensures T.Width(x, z.C) && Has(z, ms[5], Tensor(RESIDUAL3, l), T.FeedHalf(ops, w, x, z.C), z.C)
  {
    hide Runs, Has, Wrote, Total, T.LayerNorm, T.Matmul, T.GeluAll, T.Residual;
    hide NormOf, MatmulOf, ResidualOf, GeluOf, AttyKept, Atty;
    var r, ln := Tensor(RESIDUAL2, l), {Tensor(LN2, l), Tensor(LN2_MEAN, l), Tensor(LN2_RSTD, l)};
    HasShape(z, ms[0], r, x, z.C);
    NormCall(ops, z, workers, r, Tensor(LN2, l), Tensor(LN2_MEAN, l), Tensor(LN2_RSTD, l), w.ln2w, w.ln2b, ms[0], ms[1], x);
    Kept(z, ln, l + 1, ms[0], ms[1], r, x);
    var n := T.LayerNorm(ops, x, w.ln2w, w.ln2b);
    MatmulCall(ops, z, workers, Tensor(LN2, l), Tensor(FCH, l), w.fcw, Some(w.fcb), z.C, 4 * z.C, ms[1], ms[2], n);
    Kept(z, {Tensor(FCH, l)}, l + 1, ms[1], ms[2], r, x);
    AttyKeptOn(z, l + 1, ms[0], ms[1], l + 1, ms[2]);
    var f := T.Matmul(ops, n, w.fcw, Some(w.fcb), z.C, 4 * z.C);
    GeluCall(ops, z, workers, Tensor(FCH, l), Tensor(FCH_GELU, l), 4 * z.C, ms[2], ms[3], f);
    Kept(z, {Tensor(FCH_GELU, l)}, l + 1, ms[2], ms[3], r, x);
    AttyKeptOn(z, l + 1, ms[0], ms[2], l + 1, ms[3]);
    var g := T.GeluAll(ops, f, 4 * z.C);
    MatmulCall(ops, z, workers, Tensor(FCH_GELU, l), Tensor(FCPROJ, l), w.fcprojw, Some(w.fcprojb), 4 * z.C, z.C, ms[3], ms[4], g);
    Kept(z, {Tensor(FCPROJ, l)}, l + 1, ms[3], ms[4], r, x);
    AttyKeptOn(z, l + 1, ms[0], ms[3], l + 1, ms[4]);
    var p := T.Matmul(ops, g, w.fcprojw, Some(w.fcprojb), 4 * z.C, z.C);
    ResidualCall(ops, z, workers, r, Tensor(FCPROJ, l), Tensor(RESIDUAL3, l), ms[4], ms[5], x, p);
    WroteKeepsAtty(z, {Tensor(RESIDUAL3, l)}, l + 1, ms[4], ms[5]);
    AttyKeptOn(z, l + 1, ms[0], ms[4], l + 1, ms[5]);
  }

  // ----- the pass -----

  ghost predicate LayerRun<F(!new)>(ops: Ops<F>, z: Dims, workers: int, w: T.Layer<F>, l: nat, ms: seq<seq<F>>) {
    |ms| == 11 && AttendRun(ops, z, workers, w, l, ms[..6]) && FeedRun(ops, z, workers, w, l, ms[5..])
  }

  /** Memory m holds what layer l makes of the stream x. */
  ghost predicate LayerAt<F>(ops: Ops<F>, z: Dims, w: T.Layer<F>, l: nat, x: seq<Row<F>>, gap: seq<Row<F>>, m: seq<F>) {
    && DimsOk(z) && T.LayerOk(w, z.C) && T.Width(x, z.C) && |gap| == |x| && T.Width(gap, z.C)
    && Has(z, m, Tensor(RESIDUAL3, l), T.FeedHalf(ops, w, T.AttendHalf(ops, w, x, z.T, z.C, z.NH, gap), z.C), z.C)
  }

  lemma LayerLeaves<F(!new)>(ops: Ops<F>, z: Dims, workers: int, w: T.Layer<F>, l: nat, ms: seq<seq<F>>, x: seq<Row<F>>)
    requires DimsOk(z) && l < z.L && T.LayerOk(w, z.C) && LayerRun(ops, z, workers, w, l, ms)
    requires |ms[0]| == Total(z) && Has(z, ms[0], ResidualOfLayer(l), x, z.C)
    ensures AttyKept(z, l + 1, ms[0], ms[10]) && LayerAt(ops, z, w, l, x, GapIn(z, ms[0], l), ms[10])
  {
    hide AttendRun, FeedRun, Has, Atty, Total, T.AttendHalf, T.FeedHalf, T.LayerOk, GapIn;
    HasShape(z, ms[0], ResidualOfLayer(l), x, z.C);
    AttendLeaves(ops, z, workers, w, l, ms[..6], x);
    FeedLeaves(ops, z, workers, w, l, ms[5..], T.AttendHalf(ops, w, x, z.T, z.C, z.NH, GapIn(z, ms[0], l)));
    AttyKeptOn(z, l + 1, ms[0], ms[5], l + 1, ms[10]);
  }

  predicate Matches<F>(z: Dims, model: T.Model<F>, tokens: seq<nat>) {
    && z.C == model.config.channels && z.NH == model.config.heads && z.V == model.config.vocab
    && z.L == |model.layers| && |tokens| == z.B * z.T
  }

  /** The three calls behind the layers. */
  ghost predicate HeadRun<F(!new)>(ops: Ops<F>, z: Dims, workers: int, model: T.Model<F>, ms: seq<seq<F>>) {
    && |ms| == 4 && z.L > 0
    && Runs(NormOf(ops, z, Tensor(RESIDUAL3, z.L - 1), Tensor(LNF, 0), Tensor(LNF_MEAN, 0), Tensor(LNF_RSTD, 0), model.lnfw, model.lnfb),
            workers, ms[0], ms[1])
    && Runs(MatmulOf(ops, z, Tensor(LNF, 0), Tensor(LOGITS, 0), model.wte, None, z.C, z.V), workers, ms[1], ms[2])
    && Runs(SoftmaxOf(ops, z, Tensor(LOGITS, 0), Tensor(PROBS, 0)), workers, ms[2], ms[3])
  }

  /** The calls of a whole pass: the encoder, ten calls for each layer, and three at the end. */
  ghost predicate ForwardRun<F(!new)>(ops: Ops<F>, z: Dims, workers: int, model: T.Model<F>, tokens: seq<nat>, ms: seq<seq<F>>)
  {
    && |ms| == 5 + 10 * z.L && z.L == |model.layers|
    && Runs(EncoderOf(ops, z, Tensor(ENCODED, 0), model, tokens), workers, ms[0], ms[1])
    && (forall l :: 0 <= l < z.L ==> LayerRun(ops, z, workers, model.layers[l], l, LayerPart(ms, l)))
    && HeadRun(ops, z, workers, model, ms[1 + 10 * z.L..])
  }

  lemma RunsLayer<F(!new)>(ops: Ops<F>, z: Dims, workers: int, model: T.Model<F>, tokens: seq<nat>, ms: seq<seq<F>>, l: nat)
    requires ForwardRun(ops, z, workers, model, tokens, ms) && l < z.L
    ensures var part := LayerPart(ms, l);
            && |ms| == 5 + 10 * z.L && l < |model.layers| && |part| == 11
            && LayerRun(ops, z, workers, model.layers[l], l, part)
            && part[0] == ms[1 + 10 * l] && part[10] == ms[11 + 10 * l]
  {
    hide LayerRun, HeadRun, Runs, EncoderOf;
  }

  /** A whole pass over B sequences of T tokens each, from any memory of the right size. */
  ghost predicate Pass<F(!new)>(ops: Ops<F>, z: Dims, workers: int, model: T.Model<F>, tokens: seq<nat>, ms: seq<seq<F>>) {
    && T.ModelOk(model) && T.TokensOk(model, tokens, z.T) && Matches(z, model, tokens) && z.B > 0
    && ForwardRun(ops, z, workers, model, tokens, ms) && |ms[0]| == Total(z)
  }

  function Final<F>(ms: seq<seq<F>>): seq<F> {
    if ms == [] then [] else ms[|ms| - 1]
  }

  /** The memories before, between and after the ten calls of layer l. */
  function LayerPart<F>(ms: seq<seq<F>>, l: nat): seq<seq<F>> {
    if 12 + 10 * l <= |ms| then ms[1 + 10 * l..12 + 10 * l] else []
  }

  lemma {:induction false} LayersLeave<F(!new)>(ops: Ops<F>, z: Dims, workers: int, model: T.Model<F>, tokens: seq<nat>,
                                                ms: seq<seq<F>>, n: nat)
    requires Pass(ops, z, workers, model, tokens, ms) && DimsOk(z) && n <= z.L
    ensures |ms| > 1 + 10 * n && AttyKept(z, n, ms[0], ms[1 + 10 * n])
    ensures StreamAt(ops, z, model, tokens, GapsIn(z, ms[0]), n, ms[1 + 10 * n])
    decreases n
  {
    hide ForwardRun, LayerRun, Has, Total, T.AttendHalf, T.FeedHalf, T.Encode, T.LayerOk, GapIn, AttyKept;
    RunsEncoder(ops, z, workers, model, tokens, ms);
    GapsInFit(z, model, tokens, ms[0]);
    if n == 0 {
      EncoderCall(ops, z, workers, Tensor(ENCODED, 0), model, tokens, ms[0], ms[1]);
      WroteKeepsAtty(z, {Tensor(ENCODED, 0)}, 0, ms[0], ms[1]);
      AttySize(z, 0, ms[0], ms[1]);
    } else {
      var l := n - 1;
      var part, gaps := LayerPart(ms, l), GapsIn(z, ms[0]);
      LayersLeave(ops, z, workers, model, tokens, ms, l);
      RunsLayer(ops, z, workers, model, tokens, ms, l);
      GapUntil(z, l, ms[0], part[0]);
      LayerLeaves(ops, z, workers, model.layers[l], l, part, T.Stream(ops, model, tokens, z.T, gaps, l));
      AttyKeptOn(z, l, ms[0], part[0], n, part[10]);
      AttySize(z, n, ms[0], part[10]);
    }
  }

  lemma AttySize<F>(z: Dims, from: nat, m: seq<F>, m': seq<F>)
    requires AttyKept(z, from, m, m')
    ensures |m'| == |m| == Total(z)
  {
  }

  lemma GapsInFit<F>(z: Dims, model: T.Model<F>, tokens: seq<nat>, m: seq<F>)
    requires Matches(z, model, tokens) && DimsOk(z) && |m| == Total(z)
    ensures T.GapsOk(model, tokens, GapsIn(z, m))
  {
    hide GapIn, Total;
  }

  /** Memory m holds the residual stream after n layers. */
  ghost predicate StreamAt<F>(ops: Ops<F>, z: Dims, model: T.Model<F>, tokens: seq<nat>, gaps: T.Gaps<F>, n: nat, m: seq<F>) {
    && T.PassOk(model, tokens, z.T, gaps) && n <= |model.layers| && |m| == Total(z)
    && Has(z, m, ResidualOfLayer(n), T.Stream(ops, model, tokens, z.T, gaps, n), z.C)
  }

  lemma RunsEncoder<F(!new)>(ops: Ops<F>, z: Dims, workers: int, model: T.Model<F>, tokens: seq<nat>, ms: seq<seq<F>>)
    requires ForwardRun(ops, z, workers, model, tokens, ms)
    ensures |ms| == 5 + 10 * z.L && Runs(EncoderOf(ops, z, Tensor(ENCODED, 0), model, tokens), workers, ms[0], ms[1])
  {
  }

  /** Memory m holds the logits and probabilities of the row model. */
  ghost predicate Leaves<F>(ops: Ops<F>, z: Dims, model: T.Model<F>, tokens: seq<nat>, gaps: T.Gaps<F>, m: seq<F>) {
    && T.PassOk(model, tokens, z.T, gaps)
    && Has(z, m, Tensor(LOGITS, 0), T.Logits(ops, model, tokens, z.T, gaps), z.V)
    && Has(z, m, Tensor(PROBS, 0), T.Probs(ops, model, tokens, z.T, gaps), z.V)
  }

  /** `gpt2_forward` in one block of memory, with any worker count and any interleaving in
      each of its parallel loops: the tensors of logits and probabilities end as those of the
      row model. What the memory held enters only through columns that belong to no head. */
  lemma ForwardInParallel<F(!new)>(ops: Ops<F>, z: Dims, workers: int, model: T.Model<F>, tokens: seq<nat>, ms: seq<seq<F>>)
    requires Pass(ops, z, workers, model, tokens, ms)
    ensures DimsOk(z) && Leaves(ops, z, model, tokens, GapsIn(z, ms[0]), Final(ms))
  {
    hide ForwardRun, HeadRun, Has, Total, T.Stream, T.Logits, T.Probs, AttyKept, GapsIn;
    RunsEncoder(ops, z, workers, model, tokens, ms);
    LayersLeave(ops, z, workers, model, tokens, ms, z.L);
    HeadLeaves(ops, z, workers, model, tokens, GapsIn(z, ms[0]), ms[1 + 10 * z.L..]) by {
      RunsHead(ops, z, workers, model, tokens, ms);
    }
  }

  lemma RunsHead<F(!new)>(ops: Ops<F>, z: Dims, workers: int, model: T.Model<F>, tokens: seq<nat>, ms: seq<seq<F>>)
    requires ForwardRun(ops, z, workers, model, tokens, ms)
    ensures |ms| == 5 + 10 * z.L && HeadRun(ops, z, workers, model, ms[1 + 10 * z.L..])
  {
  }

  lemma HeadLeaves<F(!new)>(ops: Ops<F>, z: Dims, workers: int, model: T.Model<F>, tokens: seq<nat>, gaps: T.Gaps<F>, ms: seq<seq<F>>)
    requires Matches(z, model, tokens) && DimsOk(z) && HeadRun(ops, z, workers, model, ms)
    requires StreamAt(ops, z, model, tokens, gaps, z.L, ms[0])
    ensures Leaves(ops, z, model, tokens, gaps, ms[3])
  {
    hide Runs, Has, Wrote, Total, T.Stream, T.LayerNorm, T.Matmul, T.Softmax, NormOf, MatmulOf, SoftmaxOf;
    var r, x := Tensor(RESIDUAL3, z.L - 1), T.Stream(ops, model, tokens, z.T, gaps, z.L);
    var ln := {Tensor(LNF, 0), Tensor(LNF_MEAN, 0), Tensor(LNF_RSTD, 0)};
    NormCall(ops, z, workers, r, Tensor(LNF, 0), Tensor(LNF_MEAN, 0), Tensor(LNF_RSTD, 0), model.lnfw, model.lnfb, ms[0], ms[1], x);
    WroteSize(z, ln, ms[0], ms[1]);
    var lnf := T.LayerNorm(ops, x, model.lnfw, model.lnfb);
    MatmulCall(ops, z, workers, Tensor(LNF, 0), Tensor(LOGITS, 0), model.wte, None, z.C, z.V, ms[1], ms[2], lnf);
    WroteSize(z, {Tensor(LOGITS, 0)}, ms[1], ms[2]);
    var logits := T.Logits(ops, model, tokens, z.T, gaps);
    SoftmaxCall(ops, z, workers, Tensor(LOGITS, 0), Tensor(PROBS, 0), ms[2], ms[3], logits);
    HasKept(z, {Tensor(PROBS, 0)}, ms[2], ms[3], Tensor(LOGITS, 0), logits, z.V);
  }

  // ----- causality, down to the cells -----

  /** The row of position p of batch b. */
  function RowOf(b: nat, T: nat, p: nat): nat { b * T + p }

  /** Cell v of row r of a tensor with rows of length C. */
  function CellOf<F>(z: Dims, m: seq<F>, t: Tensor, C: nat, r: nat, v: nat): Option<F> {
    var c := At(z, t) + (r * C + v);
    if c < |m| then Some(m[c]) else None
  }

  lemma HasCell<F>(z: Dims, m: seq<F>, t: Tensor, y: seq<Row<F>>, C: nat, r: nat, v: nat)
    requires Has(z, m, t, y, C) && r < |y| && v < C
    ensures |y[r]| == C && CellOf(z, m, t, C, r, v) == Some(y[r][v])
  {
    hide At, Size, B.Filled;
    var a, n := At(z, t), |y| * C;
    B.HoldsAt(m[a..a + n], y, C, r, v);
    assert m[a..a + n][r * C + v] == m[a + (r * C + v)];
  }

  /** The memories two passes start from agree on positions 0..p of batch b in the columns that
      belong to no head. */
  ghost predicate SameGaps<F>(model: T.Model<F>, z: Dims, m: seq<F>, z': Dims, m': seq<F>, b: nat, p: nat) {
    && DimsOk(z) && |m| == Total(z) && DimsOk(z') && |m'| == Total(z') && z.L == z'.L && model.config.heads > 0
    && Causality.GapsAgree(model, z.T, GapsIn(z, m), z'.T, GapsIn(z', m'), b, p)
  }

  /** Where heads divide the channels, any two memories do. */
  lemma DividedHasSameGaps<F>(model: T.Model<F>, z: Dims, m: seq<F>, z': Dims, m': seq<F>, b: nat, p: nat)
    requires DimsOk(z) && |m| == Total(z) && DimsOk(z') && |m'| == Total(z') && z.L == z'.L
    requires model.config.heads > 0 && model.config.channels % model.config.heads == 0
    ensures SameGaps(model, z, m, z', m', b, p)
  {
    hide Total, GapsIn;
    Causality.DividedGapsAgree(model, z.T, GapsIn(z, m), z'.T, GapsIn(z', m'), b, p);
  }

  /** Two parallel passes over sequences that agree on positions 0..p of batch b, possibly of
      different lengths, with different worker counts, interleavings and initial memories:
      the cells of position p of that batch are the same, logits and probabilities. */
  lemma ParallelPassIsCausal<F(!new)>(ops: Ops<F>, model: T.Model<F>, b: nat, p: nat, v: nat,
                                      z: Dims, workers: int, tokens: seq<nat>, ms: seq<seq<F>>,
                                      z': Dims, workers': int, tokens': seq<nat>, ms': seq<seq<F>>)
    requires Pass(ops, z, workers, model, tokens, ms) && Pass(ops, z', workers', model, tokens', ms')
    requires Causality.SameTokens(tokens, z.T, tokens', z'.T, b, p) && v < z.V
    requires SameGaps(model, z, ms[0], z', ms'[0], b, p)
    ensures SameCell(z, Final(ms), z', Final(ms'), Tensor(LOGITS, 0), z.V, RowOf(b, z.T, p), RowOf(b, z'.T, p), v)
    ensures SameCell(z, Final(ms), z', Final(ms'), Tensor(PROBS, 0), z.V, RowOf(b, z.T, p), RowOf(b, z'.T, p), v)
  {
    hide ForwardRun, Has, T.Logits, T.Probs, T.ModelOk, CellOf, Final, GapsIn, Total;
    ForwardInParallel(ops, z, workers, model, tokens, ms);
    ForwardInParallel(ops, z', workers', model, tokens', ms');
    RunsEncoder(ops, z, workers, model, tokens, ms);
    RunsEncoder(ops, z', workers', model, tokens', ms');
    var g, g' := GapsIn(z, ms[0]), GapsIn(z', ms'[0]);
    Causality.ForwardIsCausal(ops, model, tokens, z.T, g, tokens', z'.T, g', b, p);
    var m, m', V, r, r' := Final(ms), Final(ms'), z.V, b * z.T + p, b * z'.T + p;
    HasCell(z, m, Tensor(LOGITS, 0), T.Logits(ops, model, tokens, z.T, g), V, r, v);
    HasCell(z', m', Tensor(LOGITS, 0), T.Logits(ops, model, tokens', z'.T, g'), V, r', v);
    HasCell(z, m, Tensor(PROBS, 0), T.Probs(ops, model, tokens, z.T, g), V, r, v);
    HasCell(z', m', Tensor(PROBS, 0), T.Probs(ops, model, tokens', z'.T, g'), V, r', v);
  }

  ghost predicate SameCell<F>(z: Dims, m: seq<F>, z': Dims, m': seq<F>, t: Tensor, C: nat, r: nat, r': nat, v: nat) {
    CellOf(z, m, t, C, r, v).Some? && CellOf(z, m, t, C, r, v) == CellOf(z', m', t, C, r', v)
  }
}
