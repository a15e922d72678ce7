/** The kernels other than attention, as loops over a range of flat indices. Each fills the
    cells of its range with what the row functions say and leaves all others alone. Buffers
    that a kernel only reads are passed as their contents. */
module Kernels {
  import opened Options
  import opened Floats
  import opened Transformer
  import opened Buffers
  import Indexing

  /** The inner loop of `encoder_range`: one row of sums. */
  method AddRow<F>(ops: Ops<F>, out: array<F>, at: nat, a: seq<F>, b: seq<F>, C: nat,
                   ghost y: seq<Row<F>>, ghost before: seq<F>, ghost lo: nat)
    requires |a| == |b| == C && at + C <= out.Length && lo <= at
    requires Done(out[..], before, y, C, lo, at) && RowFits(ResidualRow(ops, a, b), y, C, at)
    modifies out
    ensures Done(out[..], before, y, C, lo, at + C)
  {
    hide Done, CellIs, RowFits;
    for i := 0 to C
      invariant Done(out[..], before, y, C, lo, at + i)
    {
      var v := ops.add(a[i], b[i]);
      RowCell(ResidualRow(ops, a, b), y, C, at, i);
      CellDone(out[..], before, y, C, lo, at + i, v);
      ghost var s := out[..];
      out[at + i] := v;
      assert out[..] == s[at + i := v];
    }
  }

  /** `encoder_range`. */
  method EncoderRange<F>(ops: Ops<F>, begin: nat, end: nat, out: array<F>, inp: seq<nat>, m: Model<F>, T: nat)
    requires ModelOk(m) && TokensOk(m, inp, T) && begin <= end <= |inp|
    requires out.Length == |inp| * m.config.channels
    modifies out
    ensures var C := m.config.channels;
            Done(out[..], old(out[..]), Encode(ops, m, inp, T), C, begin * C, end * C)
  {
    hide Done, CellIs, RowFits, Slice, Encode, ModelOk;
    var C := m.config.channels;
    ghost var before, y := out[..], Encode(ops, m, inp, T);
    Indexing.MulMono(begin, |inp|, C);
    NothingDone(before, y, C, begin * C);
    for row := begin to end
      invariant Done(out[..], before, y, C, begin * C, row * C)
    {
      var ix, t := inp[row], row % T;
      EncodedRow(ops, m, inp, T, row);
      Indexing.MulMono(begin, row, C);
      Indexing.NextRow(row, C);
      AddRow(ops, out, row * C, Slice(m.wte, ix, C), Slice(m.wpe, t, C), C, y, before, begin * C);
    }
  }

  lemma EncodedRow<F>(ops: Ops<F>, m: Model<F>, inp: seq<nat>, T: nat, row: nat)
    requires ModelOk(m) && TokensOk(m, inp, T) && row < |inp|
    ensures var C, y := m.config.channels, Encode(ops, m, inp, T);
            var a, b := Slice(m.wte, inp[row], C), Slice(m.wpe, row % T, C);
            && |a| == |b| == C && row * C + C <= |inp| * C
            && RowFits(ResidualRow(ops, a, b), y, C, row * C)
  {
    SliceFits(inp[row], m.config.channels, m.config.vocab);
    SliceFits(row % T, m.config.channels, T);
    RowsFit(Encode(ops, m, inp, T), m.config.channels, row);
  }

  /** The accumulation loops: `start` plus the products of two vectors, left to right. */
  method DotLoop<F>(ops: Ops<F>, start: F, a: Row<F>, b: Row<F>, n: nat) returns (val: F)
    requires n <= |a| && n <= |b|
    ensures val == Dot(ops, start, a, b, n)
  {
    val := start;
    for i := 0 to n
      invariant val == Dot(ops, start, a, b, i)
    {
      val := ops.add(val, ops.mul(a[i], b[i]));
    }
  }

  /** `matmul_range`. */
  method MatmulRange<F>(ops: Ops<F>, begin: nat, end: nat, out: array<F>, inp: seq<F>,
                        w: Row<F>, bias: Option<Row<F>>, C: nat, OC: nat, ghost x: seq<Row<F>>)
    requires Holds(inp, x, C) && Matrix(w, bias, C, OC)
    requires OC > 0 && out.Length == |x| * OC && begin <= end <= out.Length
    modifies out
    ensures Done(out[..], old(out[..]), Matmul(ops, x, w, bias, C, OC), OC, begin, end)
  {
    hide Done, CellIs, Filled, Dot, Slice, Matmul;
    ghost var before, y := out[..], Matmul(ops, x, w, bias, C, OC);
    NothingDone(before, y, OC, begin);
    for idx := begin to end
      invariant Done(out[..], before, y, OC, begin, idx)
    {
      var row, o := idx / OC, idx % OC;
      Indexing.Join(idx, OC);
      Indexing.RowBound(idx, |x|, OC);
      MatmulIndex(ops, inp, w, bias, C, OC, x, row, o);
      var inpRow, wRow := Slice(inp, row, C), Slice(w, o, C);
      var start := if bias.Some? then bias.value[o] else ops.zero;
      var val := DotLoop(ops, start, inpRow, wRow, C);
      CellDone(out[..], before, y, OC, begin, idx, val);
      ghost var s := out[..];
      out[row * OC + o] := val;
      assert out[..] == s[idx := val];
    }
  }

  /** What the index of row `row` and column `o` of `matmul_range` reads and must store. */
  lemma MatmulIndex<F>(ops: Ops<F>, inp: seq<F>, w: Row<F>, bias: Option<Row<F>>, C: nat, OC: nat,
                       x: seq<Row<F>>, row: nat, o: nat)
    requires Holds(inp, x, C) && Matrix(w, bias, C, OC) && row < |x| && o < OC
    ensures var a, b := Slice(inp, row, C), Slice(w, o, C);
            var start := if bias.Some? then bias.value[o] else ops.zero;
            && |a| == |b| == C
            && CellIs(Dot(ops, start, a, b, C), Matmul(ops, x, w, bias, C, OC), OC, row * OC + o)
  {
    hide Filled, CellIs, Dot;
    RowAt(inp, x, C, row);
    SliceFits(o, C, OC);
    var y := Matmul(ops, x, w, bias, C, OC);
    assert y[row][o] == MatmulAt(ops, x[row], w, bias, OC, o);
    CellAt(y[row][o], y, OC, row, o);
  }

  /** `gelu_range`. */
  method GeluRange<F>(ops: Ops<F>, begin: nat, end: nat, out: array<F>, inp: seq<F>, C: nat, ghost x: seq<Row<F>>)
    requires Holds(inp, x, C) && out.Length == |inp| && begin <= end <= out.Length
    modifies out
    ensures Done(out[..], old(out[..]), GeluAll(ops, x, C), C, begin, end)
  {
    hide Done, CellIs, Filled, GeluAll;
    ghost var before, y := out[..], GeluAll(ops, x, C);
    NothingDone(before, y, C, begin);
    for i := begin to end
      invariant Done(out[..], before, y, C, begin, i)
    {
      var v := inp[i];
      var cube := ops.mul(ops.mul(ops.mul(ops.geluCube, v), v), v);
      var g := ops.mul(ops.mul(ops.half, v), ops.add(ops.one, ops.tanh(ops.mul(ops.geluScale, ops.add(v, cube)))));
      GeluCell(ops, inp, C, x, i);
      CellDone(out[..], before, y, C, begin, i, g);
      ghost var s := out[..];
      out[i] := g;
      assert out[..] == s[i := g];
    }
  }

  lemma GeluCell<F>(ops: Ops<F>, inp: seq<F>, C: nat, x: seq<Row<F>>, i: nat)
    requires Holds(inp, x, C) && i < |inp|
    ensures CellIs(Gelu(ops, inp[i]), GeluAll(ops, x, C), C, i)
  {
    hide CellIs, Gelu, Filled;
    var row, c := CellOf(inp, x, C, i);
    var y := GeluAll(ops, x, C);
    CellAt(y[row][c], y, C, row, c);
  }

  /** `residual_range`. */
  method ResidualRange<F>(ops: Ops<F>, begin: nat, end: nat, out: array<F>, inp1: seq<F>, inp2: seq<F>,
                          C: nat, ghost x: seq<Row<F>>, ghost y: seq<Row<F>>)
    requires Holds(inp1, x, C) && Holds(inp2, y, C) && |x| == |y|
    requires out.Length == |inp1| == |inp2| && begin <= end <= out.Length
    modifies out
    ensures Done(out[..], old(out[..]), Residual(ops, x, y, C), C, begin, end)
  {
    hide Done, CellIs, Filled;
    ghost var before, z := out[..], Residual(ops, x, y, C);
    NothingDone(before, z, C, begin);
    for i := begin to end
      invariant Done(out[..], before, z, C, begin, i)
    {
      var v := ops.add(inp1[i], inp2[i]);
      ResidualCell(ops, inp1, inp2, C, x, y, i);
      CellDone(out[..], before, z, C, begin, i, v);
      ghost var s := out[..];
      out[i] := v;
      assert out[..] == s[i := v];
    }
  }

  lemma ResidualCell<F>(ops: Ops<F>, inp1: seq<F>, inp2: seq<F>, C: nat, x: seq<Row<F>>, y: seq<Row<F>>, i: nat)
    requires Holds(inp1, x, C) && Holds(inp2, y, C) && |x| == |y| && i < |inp1| == |inp2|
    ensures CellIs(ops.add(inp1[i], inp2[i]), Residual(ops, x, y, C), C, i)
  {
    hide CellIs, Filled;
    var row, c := CellOf(inp1, x, C, i);
    HoldsAt(inp2, y, C, row, c);
    var z := Residual(ops, x, y, C);
    CellAt(z[row][c], z, C, row, c);
  }

  // ----- layer norm -----

  method SumLoop<F>(ops: Ops<F>, x: Row<F>) returns (m: F)
    ensures m == Sum(ops, ops.zero, x, |x|)
  {
    m := ops.zero;
    for i := 0 to |x|
      invariant m == Sum(ops, ops.zero, x, i)
    {
      m := ops.add(m, x[i]);
    }
  }

  /** Mean and reciprocal standard deviation of a row. */
  method RowStats<F>(ops: Ops<F>, x: Row<F>) returns (m: F, s: F)
    ensures m == Mean(ops, x) && s == Rstd(ops, x)
  {
    var C := |x|;
    m := SumLoop(ops, x);
    m := ops.div(m, ops.ofInt(C));
    var v := ops.zero;
    for i := 0 to C
      invariant v == SquareSum(ops, m, x, i)
    {
      var xshift := ops.sub(x[i], m);
      v := ops.add(v, ops.mul(xshift, xshift));
    }
    v := ops.div(v, ops.ofInt(C));
    s := ops.div(ops.one, ops.sqrt(ops.add(v, ops.epsilon)));
  }

  /** One row of `layernorm_range`. */
  method LayerNormOne<F>(ops: Ops<F>, out: array<F>, at: nat, x: Row<F>, w: Row<F>, b: Row<F>) returns (m: F, s: F)
    requires |w| == |b| == |x| && at + |x| <= out.Length
    modifies out
    ensures RowStored(out[..], old(out[..]), LayerNormRow(ops, x, w, b), at)
    ensures m == Mean(ops, x) && s == Rstd(ops, x)
  {
    hide Written, RowStored, Mean, Rstd;
    m, s := RowStats(ops, x);
    ghost var y, before, row := LayerNormRow(ops, x, w, b), out[..], out[at..at + |x|];
    StartWriting(before, at, y);
    for i := 0 to |x|
      invariant Written(out[..], before, at, y, row, i)
    {
      var n := ops.mul(s, ops.sub(x[i], m));
      var o := ops.add(ops.mul(n, w[i]), b[i]);
      StepWriting(out[..], before, at, y, row, i);
      ghost var now := out[..];
      out[at + i] := o;
      assert out[..] == now[at + i := o];
    }
    EndWriting(out[..], before, at, y, row);
  }

  /** The statistics of rows begin..row are stored, and all other cells are as they were. */
  ghost predicate StatsDone<F>(ops: Ops<F>, mean: seq<F>, rstd: seq<F>, mean0: seq<F>, rstd0: seq<F>,
                               x: seq<Row<F>>, begin: nat, row: nat) {
    && |mean| == |rstd| == |x| && begin <= row <= |x|
    && Kept(mean, mean0, begin, row) && Kept(rstd, rstd0, begin, row)
    && forall r :: begin <= r < row ==> mean[r] == Mean(ops, x[r]) && rstd[r] == Rstd(ops, x[r])
  }

  lemma StatsStep<F>(ops: Ops<F>, mean: seq<F>, rstd: seq<F>, mean0: seq<F>, rstd0: seq<F>,
                     x: seq<Row<F>>, begin: nat, row: nat)
    requires StatsDone(ops, mean, rstd, mean0, rstd0, x, begin, row) && row < |x|
    ensures StatsDone(ops, mean[row := Mean(ops, x[row])], rstd[row := Rstd(ops, x[row])], mean0, rstd0, x, begin, row + 1)
  {
    hide Mean, Rstd;
  }

  /** `layernorm_range`. */
  method LayerNormRange<F>(ops: Ops<F>, begin: nat, end: nat, out: array<F>, mean: array<F>, rstd: array<F>,
                           inp: seq<F>, w: Row<F>, b: Row<F>, C: nat, ghost x: seq<Row<F>>)
    requires Holds(inp, x, C) && |w| == |b| == C && begin <= end <= |x|
    requires out.Length == |x| * C && mean.Length == rstd.Length == |x|
    requires out != mean && out != rstd && mean != rstd
    modifies out, mean, rstd
    ensures Done(out[..], old(out[..]), LayerNorm(ops, x, w, b), C, begin * C, end * C)
    ensures forall r :: begin <= r < end ==> mean[r] == Mean(ops, x[r]) && rstd[r] == Rstd(ops, x[r])
    ensures Kept(mean[..], old(mean[..]), begin, end) && Kept(rstd[..], old(rstd[..]), begin, end)
  {
    hide Done, CellIs, RowFits, Slice, Filled, LayerNormRow, Mean, Rstd, RowStored;
    ghost var before, y := out[..], LayerNorm(ops, x, w, b);
    ghost var mean0, rstd0 := mean[..], rstd[..];
    Indexing.MulMono(begin, |x|, C);
    NothingDone(before, y, C, begin * C);
    for row := begin to end
      invariant Done(out[..], before, y, C, begin * C, row * C)
      invariant StatsDone(ops, mean[..], rstd[..], mean0, rstd0, x, begin, row)
    {
      RowAt(inp, x, C, row);
      RowsFit(y, C, row);
      Indexing.MulMono(begin, row, C);
      Indexing.NextRow(row, C);
      ghost var prev := out[..];
      var m, s := LayerNormOne(ops, out, row * C, Slice(inp, row, C), w, b);
      RowDone(out[..], prev, before, y, C, begin * C, row * C, y[row]);
      StatsStep(ops, mean[..], rstd[..], mean0, rstd0, x, begin, row);
      ghost var means, rstds := mean[..], rstd[..];
      mean[row] := m;
      rstd[row] := s;
      assert mean[..] == means[row := m] && rstd[..] == rstds[row := s];
    }
  }

  // ----- softmax -----

  /** The maximum of a row, as the softmax takes it. */
  method MaxLoop<F>(ops: Ops<F>, x: Row<F>) returns (maxval: F)
    ensures maxval == Max(ops, x, |x|)
  {
    maxval := ops.lowest;
    for i := 0 to |x|
      invariant maxval == Max(ops, x, i)
    {
      if ops.greater(x[i], maxval) {
        maxval := x[i];
      }
    }
  }

  /** The exponentials of a row, and their sum. */
  method ExpLoop<F>(ops: Ops<F>, out: array<F>, at: nat, x: Row<F>, maxval: F) returns (sum: F)
    requires at + |x| <= out.Length && maxval == Max(ops, x, |x|)
    modifies out
    ensures var e := ExpRow(ops, x);
            RowStored(out[..], old(out[..]), e, at) && sum == Sum(ops, ops.zero, e, |e|)
  {
    hide Written, RowStored, ExpRow, Max;
    ghost var e, before, row := ExpRow(ops, x), out[..], out[at..at + |x|];
    sum := ops.zero;
    StartWriting(before, at, e);
    for i := 0 to |x|
      invariant Written(out[..], before, at, e, row, i)
      invariant sum == Sum(ops, ops.zero, e, i)
    {
      var v := ops.exp(ops.sub(x[i], maxval));
      sum := ops.add(sum, v);
      ExpAt(ops, x, i);
      StepWriting(out[..], before, at, e, row, i);
      ghost var now := out[..];
      out[at + i] := v;
      assert out[..] == now[at + i := v];
    }
    EndWriting(out[..], before, at, e, row);
  }

  lemma ExpAt<F>(ops: Ops<F>, x: Row<F>, i: nat)
    requires i < |x|
    ensures ExpRow(ops, x)[i] == ops.exp(ops.sub(x[i], Max(ops, x, |x|)))
  {
  }

  /** One row of `softmax_range`: exponentials first, then divided in place by their sum. */
  method SoftmaxOne<F>(ops: Ops<F>, probs: array<F>, at: nat, x: Row<F>)
    requires at + |x| <= probs.Length
    modifies probs
    ensures RowStored(probs[..], old(probs[..]), SoftmaxRow(ops, x), at)
  {
    hide Written, RowStored, ExpRow, Max, Sum;
    var maxval := MaxLoop(ops, x);
    ghost var before := probs[..];
    var sum := ExpLoop(ops, probs, at, x, maxval);
    ghost var e, y := ExpRow(ops, x), SoftmaxRow(ops, x);
    StartRewriting(probs[..], before, at, y, e);
    for i := 0 to |x|
      invariant Written(probs[..], before, at, y, e, i)
    {
      StepWriting(probs[..], before, at, y, e, i);
      var v := ops.div(probs[at + i], sum);
      ghost var now := probs[..];
      probs[at + i] := v;
      assert probs[..] == now[at + i := v];
    }
    EndWriting(probs[..], before, at, y, e);
  }

  /** `softmax_range`. */
  method SoftmaxRange<F>(ops: Ops<F>, begin: nat, end: nat, probs: array<F>, logits: seq<F>, V: nat,
                         ghost x: seq<Row<F>>)
    requires Holds(logits, x, V) && probs.Length == |x| * V && begin <= end <= |x|
    modifies probs
    ensures Done(probs[..], old(probs[..]), Softmax(ops, x, V), V, begin * V, end * V)
  {
    hide Done, CellIs, RowFits, Slice, Filled, SoftmaxRow, RowStored;
    ghost var before, y := probs[..], Softmax(ops, x, V);
    Indexing.MulMono(begin, |x|, V);
    NothingDone(before, y, V, begin * V);
    for row := begin to end
      invariant Done(probs[..], before, y, V, begin * V, row * V)
    {
      RowAt(logits, x, V, row);
      RowsFit(y, V, row);
      Indexing.MulMono(begin, row, V);
      Indexing.NextRow(row, V);
      ghost var prev := probs[..];
      SoftmaxOne(ops, probs, row * V, Slice(logits, row, V));
      RowDone(probs[..], prev, before, y, V, begin * V, row * V, y[row]);
    }
  }
}
