/** `gpt2_forward`: the kernels chained over freshly allocated activation tensors. What an
    output buffer holds at the start does not matter where all of it is written, and is zero
    here; the attention outputs have columns that may not be written and start from anything. */
module ForwardPass {
  import opened Options
  import opened Floats
  import opened Transformer
  import opened Buffers
  import opened Kernels
  import opened AttentionRange

  /** `layernorm_forward`. */
  method LayerNormForward<F>(ops: Ops<F>, inp: seq<F>, w: Row<F>, b: Row<F>, rows: nat, C: nat,
                             ghost x: seq<Row<F>>) returns (r: seq<F>)
    requires Holds(inp, x, C) && |x| == rows && |w| == |b| == C
    ensures Holds(r, LayerNorm(ops, x, w, b), C)
  {
    hide Done, Filled, LayerNorm, Mean, Rstd;
    var out, mean, rstd := new F[rows * C](_ => ops.zero), new F[rows](_ => ops.zero), new F[rows](_ => ops.zero);
    ghost var before := out[..];
    LayerNormRange(ops, 0, rows, out, mean, rstd, inp, w, b, C, x);
    r := out[..];
    AllDone(r, before, LayerNorm(ops, x, w, b), C);
  }

  /** `matmul_forward`. */
  method MatmulForward<F>(ops: Ops<F>, inp: seq<F>, w: Row<F>, bias: Option<Row<F>>, rows: nat, C: nat, OC: nat,
                          ghost x: seq<Row<F>>) returns (r: seq<F>)
    requires Holds(inp, x, C) && |x| == rows && Matrix(w, bias, C, OC) && OC > 0
    ensures Holds(r, Matmul(ops, x, w, bias, C, OC), OC)
  {
    hide Done, Filled, Matmul;
    var out := new F[rows * OC](_ => ops.zero);
    ghost var before := out[..];
    MatmulRange(ops, 0, rows * OC, out, inp, w, bias, C, OC, x);
    r := out[..];
    AllDone(r, before, Matmul(ops, x, w, bias, C, OC), OC);
  }

  /** `attention_forward`, into a tensor that holds `held`. */
  method AttentionForward<F>(ops: Ops<F>, inp: seq<F>, held: seq<F>, B: nat, T: nat, C: nat, NH: nat,
                             ghost x: seq<Row<F>>, ghost gap: seq<Row<F>>) returns (r: seq<F>)
    requires Sizes(x, B, T, C, NH) && Holds(inp, x, 3 * C) && |gap| == |x| && Holds(held, gap, C)
    ensures Holds(r, Attention(ops, x, T, C, NH, gap), C)
  {
    hide RangeDone, Filled, Attention, WeightsStored;
    var out := new F[B * T * C](i requires 0 <= i < |held| => held[i]);
    var preatt, att := new F[B * NH * T * T](_ => ops.zero), new F[B * NH * T * T](_ => ops.zero);
    assert out[..] == held;
    AttentionRange.AttentionRange(ops, 0, B * (T * NH), out, preatt, att, inp, B, T, C, NH, x, gap);
    r := out[..];
    AllUnitsDone(ops, r, held, x, B, T, C, NH, gap);
  }

  /** `residual_forward`. */
  method ResidualForward<F>(ops: Ops<F>, inp1: seq<F>, inp2: seq<F>, C: nat,
                            ghost x: seq<Row<F>>, ghost y: seq<Row<F>>) returns (r: seq<F>)
    requires Holds(inp1, x, C) && Holds(inp2, y, C) && |x| == |y|
    ensures Holds(r, Residual(ops, x, y, C), C)
  {
    hide Done, Filled, Residual;
    var out := new F[|inp1|](_ => ops.zero);
    ghost var before := out[..];
    ResidualRange(ops, 0, |inp1|, out, inp1, inp2, C, x, y);
    r := out[..];
    AllDone(r, before, Residual(ops, x, y, C), C);
  }

  /** `gelu_forward`. */
  method GeluForward<F>(ops: Ops<F>, inp: seq<F>, C: nat, ghost x: seq<Row<F>>) returns (r: seq<F>)
    requires Holds(inp, x, C)
    ensures Holds(r, GeluAll(ops, x, C), C)
  {
    hide Done, Filled, GeluAll;
    var out := new F[|inp|](_ => ops.zero);
    ghost var before := out[..];
    GeluRange(ops, 0, |inp|, out, inp, C, x);
    r := out[..];
    AllDone(r, before, GeluAll(ops, x, C), C);
  }

  /** `softmax_forward`. */
  method SoftmaxForward<F>(ops: Ops<F>, logits: seq<F>, rows: nat, V: nat, ghost x: seq<Row<F>>) returns (r: seq<F>)
    requires Holds(logits, x, V) && |x| == rows
    ensures Holds(r, Softmax(ops, x, V), V)
  {
    hide Done, Filled, Softmax;
    var probs := new F[rows * V](_ => ops.zero);
    ghost var before := probs[..];
    SoftmaxRange(ops, 0, rows, probs, logits, V, x);
    r := probs[..];
    AllDone(r, before, Softmax(ops, x, V), V);
  }

  /** `encoder_forward`. */
  method EncoderForward<F>(ops: Ops<F>, m: Model<F>, tokens: seq<nat>, T: nat) returns (r: seq<F>)
    requires ModelOk(m) && TokensOk(m, tokens, T)
    ensures Holds(r, Encode(ops, m, tokens, T), m.config.channels)
  {
    hide Done, Filled, Encode;
    var C := m.config.channels;
    var out := new F[|tokens| * C](_ => ops.zero);
    ghost var before := out[..];
    EncoderRange(ops, 0, |tokens|, out, tokens, m, T);
    r := out[..];
    AllDone(r, before, Encode(ops, m, tokens, T), C);
  }

  /** Layer norm, attention and projection, added to the residual stream. */
  method AttentionHalf<F>(ops: Ops<F>, l: Layer<F>, residual: seq<F>, held: seq<F>, B: nat, T: nat, C: nat, NH: nat,
                          ghost x: seq<Row<F>>, ghost gap: seq<Row<F>>) returns (residual2: seq<F>)
    requires LayerOk(l, C) && Holds(residual, x, C) && |x| == B * T && |gap| == |x| && Holds(held, gap, C)
    requires T > 0 && C > 0 && NH > 0
    ensures Holds(residual2, AttendHalf(ops, l, x, T, C, NH, gap), C)
  {
    hide Filled, LayerNorm, Matmul, Attention, Residual;
    var ln1 := LayerNormForward(ops, residual, l.ln1w, l.ln1b, B * T, C, x);
    ghost var n := LayerNorm(ops, x, l.ln1w, l.ln1b);
    var qkv := MatmulForward(ops, ln1, l.qkvw, Some(l.qkvb), B * T, C, 3 * C, n);
    ghost var q := Matmul(ops, n, l.qkvw, Some(l.qkvb), C, 3 * C);
    var atty := AttentionForward(ops, qkv, held, B, T, C, NH, q, gap);
    ghost var a := Attention(ops, q, T, C, NH, gap);
    var attproj := MatmulForward(ops, atty, l.attprojw, Some(l.attprojb), B * T, C, C, a);
    ghost var p := Matmul(ops, a, l.attprojw, Some(l.attprojb), C, C);
    residual2 := ResidualForward(ops, residual, attproj, C, x, p);
  }

  /** Layer norm and the two feed-forward products, added to the residual stream. */
  method FeedForwardHalf<F>(ops: Ops<F>, l: Layer<F>, residual2: seq<F>, rows: nat, C: nat,
                            ghost x: seq<Row<F>>) returns (residual3: seq<F>)
    requires LayerOk(l, C) && Holds(residual2, x, C) && |x| == rows
    ensures Holds(residual3, FeedHalf(ops, l, x, C), C)
  {
    hide Filled, LayerNorm, Matmul, GeluAll, Residual;
    var ln2 := LayerNormForward(ops, residual2, l.ln2w, l.ln2b, rows, C, x);
    ghost var n := LayerNorm(ops, x, l.ln2w, l.ln2b);
    var fch := MatmulForward(ops, ln2, l.fcw, Some(l.fcb), rows, C, 4 * C, n);
    ghost var f := Matmul(ops, n, l.fcw, Some(l.fcb), C, 4 * C);
    var gelu := GeluForward(ops, fch, 4 * C, f);
    ghost var g := GeluAll(ops, f, 4 * C);
    var fcproj := MatmulForward(ops, gelu, l.fcprojw, Some(l.fcprojb), rows, 4 * C, C, g);
    ghost var p := Matmul(ops, g, l.fcprojw, Some(l.fcprojb), 4 * C, C);
    residual3 := ResidualForward(ops, residual2, fcproj, C, x, p);
  }

  /** The tensors the buffers `held` hold. */
  function GapsOf<F>(held: seq<seq<F>>, rows: nat, C: nat): (gaps: Gaps<F>)
    requires forall l :: 0 <= l < |held| ==> |held[l]| == rows * C
    ensures |gaps| == |held|
  {
    seq(|held|, l requires 0 <= l < |held| => RowsOf(held[l], rows, C))
  }

  lemma GapsFit<F>(m: Model<F>, tokens: seq<nat>, held: seq<seq<F>>)
    requires m.config.channels > 0 && |held| == |m.layers|
    requires forall l :: 0 <= l < |held| ==> |held[l]| == |tokens| * m.config.channels
    ensures GapsOk(m, tokens, GapsOf(held, |tokens|, m.config.channels))
    ensures forall l :: 0 <= l < |held| ==>
              Holds(held[l], GapsOf(held, |tokens|, m.config.channels)[l], m.config.channels)
  {
    hide Holds, Width;
    var gaps := GapsOf(held, |tokens|, m.config.channels);
    forall l | 0 <= l < |held|
      ensures |gaps[l]| == |tokens| && Width(gaps[l], m.config.channels) && Holds(held[l], gaps[l], m.config.channels)
    {
      RowsHold(held[l], |tokens|, m.config.channels);
    }
  }

  /** `gpt2_forward`, with `held` in the attention outputs of each layer at the start: the
      buffers it leaves hold the logits and probabilities of the row model. */
  method Forward<F>(ops: Ops<F>, m: Model<F>, tokens: seq<nat>, B: nat, T: nat, held: seq<seq<F>>)
      returns (logits: seq<F>, probs: seq<F>)
    requires ModelOk(m) && TokensOk(m, tokens, T) && |tokens| == B * T && |held| == |m.layers| > 0
    requires forall l :: 0 <= l < |held| ==> |held[l]| == |tokens| * m.config.channels
    ensures var gaps := GapsOf(held, |tokens|, m.config.channels);
            && PassOk(m, tokens, T, gaps)
            && Holds(logits, Logits(ops, m, tokens, T, gaps), m.config.vocab)
            && Holds(probs, Probs(ops, m, tokens, T, gaps), m.config.vocab)
  {
    hide Filled, LayerNorm, Matmul, Encode, AttendHalf, FeedHalf, Softmax, GapsOf;
    var C, NH, V, L := m.config.channels, m.config.heads, m.config.vocab, |m.layers|;
    ghost var gaps := GapsOf(held, |tokens|, C);
    GapsFit(m, tokens, held);
    var residual := EncoderForward(ops, m, tokens, T);
    for l := 0 to L
      invariant Holds(residual, Stream(ops, m, tokens, T, gaps, l), C)
    {
      ghost var x := Stream(ops, m, tokens, T, gaps, l);
      var residual2 := AttentionHalf(ops, m.layers[l], residual, held[l], B, T, C, NH, x, gaps[l]);
      ghost var mid := AttendHalf(ops, m.layers[l], x, T, C, NH, gaps[l]);
      residual := FeedForwardHalf(ops, m.layers[l], residual2, B * T, C, mid);
    }
    ghost var x := Stream(ops, m, tokens, T, gaps, L);
    var lnf := LayerNormForward(ops, residual, m.lnfw, m.lnfb, B * T, C, x);
    logits := MatmulForward(ops, lnf, m.wte, None, B * T, C, V, LayerNorm(ops, x, m.lnfw, m.lnfb));
    probs := SoftmaxForward(ops, logits, B * T, V, Logits(ops, m, tokens, T, gaps));
  }
}
