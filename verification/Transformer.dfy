/** The forward pass as a function of tokens and weights, row by row. A row is the vector of
    one position; row b * T + t belongs to position t of batch b. */
module Transformer {
  import opened Options
  import opened Floats
  import Indexing

  datatype Config = Config(channels: nat, heads: nat, vocab: nat)

  predicate ConfigOk(c: Config) {
    c.channels > 0 && c.heads > 0 && c.vocab > 0
  }

  datatype Layer<!F> = Layer(
    ln1w: Row<F>, ln1b: Row<F>, qkvw: Row<F>, qkvb: Row<F>, attprojw: Row<F>, attprojb: Row<F>,
    ln2w: Row<F>, ln2b: Row<F>, fcw: Row<F>, fcb: Row<F>, fcprojw: Row<F>, fcprojb: Row<F>)

  datatype Model<!F> = Model(
    config: Config, wte: Row<F>, wpe: Row<F>, layers: seq<Layer<F>>, lnfw: Row<F>, lnfb: Row<F>)

  ghost predicate LayerOk<F>(l: Layer<F>, C: nat) {
    && |l.ln1w| == |l.ln1b| == |l.ln2w| == |l.ln2b| == |l.attprojb| == |l.fcprojb| == C
    && |l.qkvw| == 3 * C * C && |l.qkvb| == 3 * C && |l.attprojw| == C * C
    && |l.fcw| == 4 * C * C && |l.fcb| == 4 * C && |l.fcprojw| == C * (4 * C)
  }

  ghost predicate ModelOk<F>(m: Model<F>) {
    && ConfigOk(m.config)
    && |m.wte| == m.config.vocab * m.config.channels
    && |m.wpe| % m.config.channels == 0
    && |m.lnfw| == |m.lnfb| == m.config.channels
    && forall l :: 0 <= l < |m.layers| ==> LayerOk(m.layers[l], m.config.channels)
  }

  ghost predicate Width<F>(x: seq<Row<F>>, C: nat) {
    forall r :: 0 <= r < |x| ==> |x[r]| == C
  }

  /** Row `o` of a matrix stored row after row; rows have length C. */
  function Slice<F>(w: Row<F>, o: nat, C: nat): (s: Row<F>)
    ensures o * C + C <= |w| ==> |s| == C
  {
    if o * C + C <= |w| then w[o * C..o * C + C] else []
  }

  // ----- the operations at one position -----

  function LayerNormRow<F>(ops: Ops<F>, x: Row<F>, w: Row<F>, b: Row<F>): (y: Row<F>)
    requires |w| == |b| == |x|
    ensures |y| == |x|
  {
    var m := Mean(ops, x);
    var s := Rstd(ops, x);
    seq(|x|, i requires 0 <= i < |x| =>
      ops.add(ops.mul(ops.mul(s, ops.sub(x[i], m)), w[i]), b[i]))
  }

  function Mean<F>(ops: Ops<F>, x: Row<F>): F {
    ops.div(Sum(ops, ops.zero, x, |x|), ops.ofInt(|x|))
  }

  function Rstd<F>(ops: Ops<F>, x: Row<F>): F {
    var v := ops.div(SquareSum(ops, Mean(ops, x), x, |x|), ops.ofInt(|x|));
    ops.div(ops.one, ops.sqrt(ops.add(v, ops.epsilon)))
  }

  predicate Matrix<F>(w: Row<F>, bias: Option<Row<F>>, C: nat, OC: nat) {
    |w| == OC * C && (bias.Some? ==> |bias.value| == OC)
  }

  lemma SliceFits(o: nat, C: nat, OC: nat)
    requires o < OC
    ensures o * C + C <= OC * C
  {
    Indexing.MulMono(o + 1, OC, C);
  }

  function MatmulAt<F>(ops: Ops<F>, x: Row<F>, w: Row<F>, bias: Option<Row<F>>, OC: nat, o: nat): F
    requires Matrix(w, bias, |x|, OC) && o < OC
  {
    SliceFits(o, |x|, OC);
    Dot(ops, if bias.Some? then bias.value[o] else ops.zero, x, Slice(w, o, |x|), |x|)
  }

  function MatmulRow<F>(ops: Ops<F>, x: Row<F>, w: Row<F>, bias: Option<Row<F>>, OC: nat): (y: Row<F>)
    requires Matrix(w, bias, |x|, OC)
    ensures |y| == OC
  {
    seq(OC, o requires 0 <= o < OC => MatmulAt(ops, x, w, bias, OC, o))
  }

  function ResidualRow<F>(ops: Ops<F>, x: Row<F>, y: Row<F>): (z: Row<F>)
    requires |x| == |y|
    ensures |z| == |x|
  {
    seq(|x|, i requires 0 <= i < |x| => ops.add(x[i], y[i]))
  }

  function Gelu<F>(ops: Ops<F>, x: F): F {
    var cube := ops.mul(ops.mul(ops.mul(ops.geluCube, x), x), x);
    ops.mul(ops.mul(ops.half, x), ops.add(ops.one, ops.tanh(ops.mul(ops.geluScale, ops.add(x, cube)))))
  }

  function GeluRow<F>(ops: Ops<F>, x: Row<F>): (y: Row<F>)
    ensures |y| == |x|
  {
    seq(|x|, i requires 0 <= i < |x| => Gelu(ops, x[i]))
  }

  /** exp(x[i] - max x), before the division by the sum. */
  function ExpRow<F>(ops: Ops<F>, x: Row<F>): (y: Row<F>)
    ensures |y| == |x|
  {
    var m := Max(ops, x, |x|);
    seq(|x|, i requires 0 <= i < |x| => ops.exp(ops.sub(x[i], m)))
  }

  function SoftmaxRow<F>(ops: Ops<F>, x: Row<F>): (y: Row<F>)
    ensures |y| == |x|
  {
    var e := ExpRow(ops, x);
    var sum := Sum(ops, ops.zero, e, |e|);
    seq(|x|, i requires 0 <= i < |x| => ops.div(e[i], sum))
  }

  // ----- attention -----

  /** The parts of a row of queries, keys and values that belong to head `h`. */
  function Part<F>(row: Row<F>, which: nat, h: nat, C: nat, hs: nat): (p: Row<F>)
    requires |row| == 3 * C && which < 3 && h * hs + hs <= C
    ensures |p| == hs
  {
    assert which * C + C <= 3 * C;
    row[which * C + h * hs..which * C + h * hs + hs]
  }

  /** Scaled products of the last row's query with every key of `xs`. */
  function Scores<F>(ops: Ops<F>, xs: seq<Row<F>>, h: nat, C: nat, hs: nat): (s: Row<F>)
    requires xs != [] && Width(xs, 3 * C) && h * hs + hs <= C
    ensures |s| == |xs|
  {
    var scale := ops.div(ops.one, ops.sqrt(ops.ofInt(hs)));
    var q := Part(xs[|xs| - 1], 0, h, C, hs);
    seq(|xs|, t2 requires 0 <= t2 < |xs| =>
      ops.mul(Dot(ops, ops.zero, q, Part(xs[t2], 1, h, C, hs), hs), scale))
  }

  function Weights<F>(ops: Ops<F>, scores: Row<F>): (w: Row<F>)
    ensures |w| == |scores|
  {
    var e := ExpRow(ops, scores);
    var sum := Sum(ops, ops.zero, e, |e|);
    var inv := if ops.isZero(sum) then ops.zero else ops.div(ops.one, sum);
    seq(|e|, t2 requires 0 <= t2 < |e| => ops.mul(e[t2], inv))
  }

  /** Element `i` of the weighted sum of the first `n` value vectors. */
  function Mix<F>(ops: Ops<F>, w: Row<F>, xs: seq<Row<F>>, h: nat, C: nat, hs: nat, i: nat, n: nat): F
    requires Width(xs, 3 * C) && h * hs + hs <= C && i < hs && n <= |xs| && n <= |w|
  {
    if n == 0 then ops.zero
    else ops.add(Mix(ops, w, xs, h, C, hs, i, n - 1),
                 ops.mul(w[n - 1], Part(xs[n - 1], 2, h, C, hs)[i]))
  }

  lemma HeadFits(C: nat, NH: nat, h: nat)
    requires NH > 0 && h < NH
    ensures h * (C / NH) + C / NH <= C
  {
    Indexing.Join(C, NH);
    Indexing.MulMono(h + 1, NH, C / NH);
  }

  /** Column c belongs to a head. Where the head count does not divide the channels, the last
      columns belong to none and are not written. */
  predicate InHead(C: nat, NH: nat, c: nat)
    requires NH > 0
  {
    c < NH * (C / NH)
  }

  /** Attention for the last of the rows `xs`, which are one batch's positions 0, 1, ...; `gap`
      is what the row held before. */
  function AttentionRow<F>(ops: Ops<F>, xs: seq<Row<F>>, C: nat, NH: nat, gap: Row<F>): (y: Row<F>)
    requires xs != [] && Width(xs, 3 * C) && NH > 0 && |gap| == C
    ensures |y| == C
  {
    seq(C, c requires 0 <= c < C => if InHead(C, NH, c) then AttentionAt(ops, xs, C, NH, c) else gap[c])
  }

  function AttentionAt<F>(ops: Ops<F>, xs: seq<Row<F>>, C: nat, NH: nat, c: nat): F
    requires xs != [] && Width(xs, 3 * C) && NH > 0 && InHead(C, NH, c)
  {
    var hs := C / NH;
    HeadOf(C, NH, c);
    var h, i := c / hs, c % hs;
    HeadFits(C, NH, h);
    Mix(ops, Weights(ops, Scores(ops, xs, h, C, hs)), xs, h, C, hs, i, |xs|)
  }

  lemma HeadOf(C: nat, NH: nat, c: nat)
    requires NH > 0 && InHead(C, NH, c)
    ensures C / NH > 0 && c / (C / NH) < NH
  {
    Indexing.RowBound(c, NH, C / NH);
  }

  /** All columns belong to heads if and only if the head count divides the channels. */
  lemma AllInHeadsIff(C: nat, NH: nat)
    requires NH > 0
    ensures (forall c: nat :: c < C ==> InHead(C, NH, c)) <==> C % NH == 0
    ensures NH * (C / NH) <= C
  {
    Indexing.Join(C, NH);
    assert C == NH * (C / NH) + C % NH;
    if C % NH != 0 {
      assert !InHead(C, NH, NH * (C / NH));
    }
  }

  // ----- whole tensors -----

  /** The rows of the same batch up to and including row r. */
  function History<F>(x: seq<Row<F>>, r: nat, T: nat): (xs: seq<Row<F>>)
    requires r < |x| && T > 0
    ensures xs != []
  {
    x[r - r % T..r + 1]
  }

  lemma HistoryWidth<F>(x: seq<Row<F>>, r: nat, T: nat, C: nat)
    requires r < |x| && T > 0 && Width(x, C)
    ensures Width(History(x, r, T), C)
  {
  }

  function Encode<F>(ops: Ops<F>, m: Model<F>, tokens: seq<nat>, T: nat): (y: seq<Row<F>>)
    requires ModelOk(m) && TokensOk(m, tokens, T)
    ensures |y| == |tokens| && Width(y, m.config.channels)
  {
    seq(|tokens|, r requires 0 <= r < |tokens| => EncodeAt(ops, m, tokens, T, r))
  }

  function EncodeAt<F>(ops: Ops<F>, m: Model<F>, tokens: seq<nat>, T: nat, r: nat): (y: Row<F>)
    requires ModelOk(m) && TokensOk(m, tokens, T) && r < |tokens|
    ensures |y| == m.config.channels
  {
    SliceFits(r % T, m.config.channels, T);
    EncodeRow(ops, m, tokens[r], r % T)
  }

  ghost predicate TokensOk<F>(m: Model<F>, tokens: seq<nat>, T: nat) {
    && T > 0 && T * m.config.channels <= |m.wpe|
    && forall i :: 0 <= i < |tokens| ==> tokens[i] < m.config.vocab
  }

  function EncodeRow<F>(ops: Ops<F>, m: Model<F>, token: nat, t: nat): (y: Row<F>)
    requires ModelOk(m) && token < m.config.vocab && t * m.config.channels + m.config.channels <= |m.wpe|
    ensures |y| == m.config.channels
  {
    var C := m.config.channels;
    SliceFits(token, C, m.config.vocab);
    ResidualRow(ops, Slice(m.wte, token, C), Slice(m.wpe, t, C))
  }

  function LayerNorm<F>(ops: Ops<F>, x: seq<Row<F>>, w: Row<F>, b: Row<F>): (y: seq<Row<F>>)
    requires |w| == |b| && Width(x, |w|)
    ensures |y| == |x| && Width(y, |w|)
  {
    seq(|x|, r requires 0 <= r < |x| => LayerNormRow(ops, x[r], w, b))
  }

  function Matmul<F>(ops: Ops<F>, x: seq<Row<F>>, w: Row<F>, bias: Option<Row<F>>, C: nat, OC: nat): (y: seq<Row<F>>)
    requires Width(x, C) && Matrix(w, bias, C, OC)
    ensures |y| == |x| && Width(y, OC)
  {
    seq(|x|, r requires 0 <= r < |x| => MatmulRow(ops, x[r], w, bias, OC))
  }

  function Attention<F>(ops: Ops<F>, x: seq<Row<F>>, T: nat, C: nat, NH: nat, gap: seq<Row<F>>): (y: seq<Row<F>>)
    requires Width(x, 3 * C) && T > 0 && NH > 0 && |gap| == |x| && Width(gap, C)
    ensures |y| == |x| && Width(y, C)
  {
    seq(|x|, r requires 0 <= r < |x| =>
      (HistoryWidth(x, r, T, 3 * C); AttentionRow(ops, History(x, r, T), C, NH, gap[r])))
  }

  function Residual<F>(ops: Ops<F>, x: seq<Row<F>>, y: seq<Row<F>>, C: nat): (z: seq<Row<F>>)
    requires |x| == |y| && Width(x, C) && Width(y, C)
    ensures |z| == |x| && Width(z, C)
  {
    seq(|x|, r requires 0 <= r < |x| => ResidualRow(ops, x[r], y[r]))
  }

  function GeluAll<F>(ops: Ops<F>, x: seq<Row<F>>, C: nat): (y: seq<Row<F>>)
    requires Width(x, C)
    ensures |y| == |x| && Width(y, C)
  {
    seq(|x|, r requires 0 <= r < |x| => GeluRow(ops, x[r]))
  }

  function Softmax<F>(ops: Ops<F>, x: seq<Row<F>>, V: nat): (y: seq<Row<F>>)
    requires Width(x, V)
    ensures |y| == |x| && Width(y, V)
  {
    seq(|x|, r requires 0 <= r < |x| => SoftmaxRow(ops, x[r]))
  }

  // ----- the network -----

  /** The attention half of a layer; `gap` is what the tensor of attention outputs held. */
  function AttendHalf<F>(ops: Ops<F>, l: Layer<F>, x: seq<Row<F>>, T: nat, C: nat, NH: nat, gap: seq<Row<F>>): (y: seq<Row<F>>)
    requires LayerOk(l, C) && Width(x, C) && T > 0 && NH > 0 && |gap| == |x| && Width(gap, C)
    ensures |y| == |x| && Width(y, C)
  {
    var ln1 := LayerNorm(ops, x, l.ln1w, l.ln1b);
    var qkv := Matmul(ops, ln1, l.qkvw, Some(l.qkvb), C, 3 * C);
    var atty := Attention(ops, qkv, T, C, NH, gap);
    var attproj := Matmul(ops, atty, l.attprojw, Some(l.attprojb), C, C);
    Residual(ops, x, attproj, C)
  }

  /** The feed-forward half of a layer. */
  function FeedHalf<F>(ops: Ops<F>, l: Layer<F>, x: seq<Row<F>>, C: nat): (y: seq<Row<F>>)
    requires LayerOk(l, C) && Width(x, C)
    ensures |y| == |x| && Width(y, C)
  {
    var ln2 := LayerNorm(ops, x, l.ln2w, l.ln2b);
    var fch := Matmul(ops, ln2, l.fcw, Some(l.fcb), C, 4 * C);
    var gelu := GeluAll(ops, fch, 4 * C);
    var fcproj := Matmul(ops, gelu, l.fcprojw, Some(l.fcprojb), 4 * C, C);
    Residual(ops, x, fcproj, C)
  }

  /** What each layer's tensor of attention outputs held before the pass. */
  type Gaps<F> = seq<seq<Row<F>>>

  ghost predicate GapsOk<F>(m: Model<F>, tokens: seq<nat>, gaps: Gaps<F>) {
    && |gaps| == |m.layers|
    && forall l :: 0 <= l < |gaps| ==> |gaps[l]| == |tokens| && Width(gaps[l], m.config.channels)
  }

  /** A pass is given a model, tokens and memory that fit together. */
  ghost predicate PassOk<F>(m: Model<F>, tokens: seq<nat>, T: nat, gaps: Gaps<F>) {
    ModelOk(m) && TokensOk(m, tokens, T) && GapsOk(m, tokens, gaps)
  }

  /** The residual stream after the first `n` layers. */
  function Stream<F>(ops: Ops<F>, m: Model<F>, tokens: seq<nat>, T: nat, gaps: Gaps<F>, n: nat): (x: seq<Row<F>>)
    requires PassOk(m, tokens, T, gaps) && n <= |m.layers|
    ensures |x| == |tokens| && Width(x, m.config.channels)
    decreases n
  {
    if n == 0 then Encode(ops, m, tokens, T)
    else
      var c := m.config;
      var x := Stream(ops, m, tokens, T, gaps, n - 1);
      var mid := AttendHalf(ops, m.layers[n - 1], x, T, c.channels, c.heads, gaps[n - 1]);
      FeedHalf(ops, m.layers[n - 1], mid, c.channels)
  }

  function Logits<F>(ops: Ops<F>, m: Model<F>, tokens: seq<nat>, T: nat, gaps: Gaps<F>): (y: seq<Row<F>>)
    requires PassOk(m, tokens, T, gaps)
    ensures |y| == |tokens| && Width(y, m.config.vocab)
  {
    var x := Stream(ops, m, tokens, T, gaps, |m.layers|);
    var lnf := LayerNorm(ops, x, m.lnfw, m.lnfb);
    Matmul(ops, lnf, m.wte, None, m.config.channels, m.config.vocab)
  }

  function Probs<F>(ops: Ops<F>, m: Model<F>, tokens: seq<nat>, T: nat, gaps: Gaps<F>): (y: seq<Row<F>>)
    requires PassOk(m, tokens, T, gaps)
    ensures |y| == |tokens| && Width(y, m.config.vocab)
  {
    Softmax(ops, Logits(ops, m, tokens, T, gaps), m.config.vocab)
  }
}
