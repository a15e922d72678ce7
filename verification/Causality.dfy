/** No position depends on a later one, on another batch, or on the sequence length. */
module Causality {
  import opened Options
  import opened Floats
  import opened Transformer
  import Indexing

  /** Row i of `x` is row j of `y`. */
  predicate SameRow<F(==)>(x: seq<Row<F>>, i: int, y: seq<Row<F>>, j: int) {
    0 <= i < |x| && 0 <= j < |y| && x[i] == y[j]
  }

  predicate SameAt<F(==)>(x: seq<Row<F>>, i: int, y: seq<Row<F>>, j: int, t: int) {
    SameRow(x, i + t, y, j + t)
  }

  /** The rows from i in `x` and from j in `y` agree up to and including position `p`. */
  ghost predicate Agree<F>(x: seq<Row<F>>, i: int, y: seq<Row<F>>, j: int, p: nat) {
    forall t :: 0 <= t <= p ==> SameAt(x, i, y, j, t)
  }

  /** What is computed row by row keeps the agreement. */
  ghost predicate RowWise<F>(x: seq<Row<F>>, y: seq<Row<F>>, x': seq<Row<F>>, y': seq<Row<F>>) {
    forall i, j :: SameRow(x, i, y, j) ==> SameRow(x', i, y', j)
  }

  lemma RowWiseAgree<F>(x: seq<Row<F>>, y: seq<Row<F>>, x': seq<Row<F>>, y': seq<Row<F>>, i: int, j: int, p: nat)
    requires Agree(x, i, y, j, p) && RowWise(x, y, x', y')
    ensures Agree(x', i, y', j, p)
  {
    forall t | 0 <= t <= p ensures SameAt(x', i, y', j, t) {
      assert SameAt(x, i, y, j, t);
    }
  }

  lemma ResidualAgree<F>(ops: Ops<F>, x: seq<Row<F>>, a: seq<Row<F>>, y: seq<Row<F>>, c: seq<Row<F>>,
                         C: nat, i: int, j: int, p: nat)
    requires |x| == |a| && |y| == |c| && Width(x, C) && Width(a, C) && Width(y, C) && Width(c, C)
    requires Agree(x, i, y, j, p) && Agree(a, i, c, j, p)
    ensures Agree(Residual(ops, x, a, C), i, Residual(ops, y, c, C), j, p)
  {
    var x', y' := Residual(ops, x, a, C), Residual(ops, y, c, C);
    forall t | 0 <= t <= p ensures SameAt(x', i, y', j, t) {
      assert SameAt(x, i, y, j, t) && SameAt(a, i, c, j, t);
    }
  }

  /** Attention at position t sees exactly positions 0..t of its own batch. */
  lemma SameHistory<F>(x: seq<Row<F>>, i: nat, T: nat, y: seq<Row<F>>, j: nat, U: nat, p: nat, t: nat)
    requires Agree(x, i, y, j, p) && t <= p && T > 0 && U > 0
    requires (i + t) % T == t && (j + t) % U == t
    ensures i + t < |x| && j + t < |y| && History(x, i + t, T) == History(y, j + t, U)
  {
    assert SameAt(x, i, y, j, t);
    var hx, hy := History(x, i + t, T), History(y, j + t, U);
    forall s | 0 <= s <= t ensures hx[s] == hy[s] {
      assert SameAt(x, i, y, j, s);
    }
  }

  predicate SameCell<F(==)>(gap: seq<Row<F>>, r: int, gap': seq<Row<F>>, s: int, c: nat) {
    0 <= r < |gap| && 0 <= s < |gap'| && c < |gap[r]| && c < |gap'[s]| && gap[r][c] == gap'[s][c]
  }

  /** Two rows agree in the columns no head writes. */
  ghost predicate SameGapRow<F>(C: nat, NH: nat, gap: seq<Row<F>>, r: int, gap': seq<Row<F>>, s: int)
    requires NH > 0
  {
    forall c: nat :: c < C && !InHead(C, NH, c) ==> SameCell(gap, r, gap', s, c)
  }

  ghost predicate SameGapAt<F>(C: nat, NH: nat, gap: seq<Row<F>>, i: int, gap': seq<Row<F>>, j: int, t: int)
    requires NH > 0
  {
    SameGapRow(C, NH, gap, i + t, gap', j + t)
  }

  /** The columns no head writes agree on positions 0..p; all others may differ. */
  ghost predicate GapAgree<F>(C: nat, NH: nat, gap: seq<Row<F>>, i: int, gap': seq<Row<F>>, j: int, p: nat)
    requires NH > 0
  {
    forall t :: 0 <= t <= p ==> SameGapAt(C, NH, gap, i, gap', j, t)
  }

  /** Where heads divide the channels there are no such columns. */
  lemma DividedGapAgree<F>(C: nat, NH: nat, gap: seq<Row<F>>, i: int, gap': seq<Row<F>>, j: int, p: nat)
    requires NH > 0 && C % NH == 0
    ensures GapAgree(C, NH, gap, i, gap', j, p)
  {
    hide InHead;
    AllInHeadsIff(C, NH);
  }

  lemma AttentionAgree<F>(ops: Ops<F>, x: seq<Row<F>>, y: seq<Row<F>>, C: nat, NH: nat,
                          T: nat, U: nat, b: nat, p: nat, gap: seq<Row<F>>, gap': seq<Row<F>>)
    requires Width(x, 3 * C) && Width(y, 3 * C) && NH > 0 && p < T && p < U
    requires |gap| == |x| && Width(gap, C) && |gap'| == |y| && Width(gap', C)
    requires Agree(x, b * T, y, b * U, p) && GapAgree(C, NH, gap, b * T, gap', b * U, p)
    ensures Agree(Attention(ops, x, T, C, NH, gap), b * T, Attention(ops, y, U, C, NH, gap'), b * U, p)
  {
    hide Attention, Width, History, SameRow;
    forall t | 0 <= t <= p
      ensures SameAt(Attention(ops, x, T, C, NH, gap), b * T, Attention(ops, y, U, C, NH, gap'), b * U, t)
    {
      Indexing.Split(b, t, T);
      Indexing.Split(b, t, U);
      SameHistory(x, b * T, T, y, b * U, U, p, t);
      assert SameGapAt(C, NH, gap, b * T, gap', b * U, t);
      AttentionOfHistory(ops, x, b * T + t, T, y, b * U + t, U, C, NH, gap, gap');
    }
  }

  lemma AttentionOfHistory<F>(ops: Ops<F>, x: seq<Row<F>>, r: nat, T: nat, y: seq<Row<F>>, s: nat, U: nat, C: nat, NH: nat,
                              gap: seq<Row<F>>, gap': seq<Row<F>>)
    requires Width(x, 3 * C) && Width(y, 3 * C) && NH > 0 && T > 0 && U > 0
    requires |gap| == |x| && Width(gap, C) && |gap'| == |y| && Width(gap', C)
    requires r < |x| && s < |y| && History(x, r, T) == History(y, s, U)
    requires SameGapRow(C, NH, gap, r, gap', s)
    ensures SameRow(Attention(ops, x, T, C, NH, gap), r, Attention(ops, y, U, C, NH, gap'), s)
  {
    hide AttentionAt, History, InHead;
    var a, a' := Attention(ops, x, T, C, NH, gap)[r], Attention(ops, y, U, C, NH, gap')[s];
    forall c | 0 <= c < C ensures a[c] == a'[c] {
      assert !InHead(C, NH, c) ==> SameCell(gap, r, gap', s, c);
    }
  }

  lemma AttendHalfAgree<F>(ops: Ops<F>, l: Layer<F>, x: seq<Row<F>>, y: seq<Row<F>>, C: nat, NH: nat,
                           T: nat, U: nat, b: nat, p: nat, gap: seq<Row<F>>, gap': seq<Row<F>>)
    requires LayerOk(l, C) && Width(x, C) && Width(y, C) && NH > 0 && p < T && p < U
    requires |gap| == |x| && Width(gap, C) && |gap'| == |y| && Width(gap', C)
    requires Agree(x, b * T, y, b * U, p) && GapAgree(C, NH, gap, b * T, gap', b * U, p)
    ensures Agree(AttendHalf(ops, l, x, T, C, NH, gap), b * T, AttendHalf(ops, l, y, U, C, NH, gap'), b * U, p)
  {
    var i, j := b * T, b * U;
    var x1, y1 := LayerNorm(ops, x, l.ln1w, l.ln1b), LayerNorm(ops, y, l.ln1w, l.ln1b);
    RowWiseAgree(x, y, x1, y1, i, j, p);
    var x2, y2 := Matmul(ops, x1, l.qkvw, Some(l.qkvb), C, 3 * C), Matmul(ops, y1, l.qkvw, Some(l.qkvb), C, 3 * C);
    RowWiseAgree(x1, y1, x2, y2, i, j, p);
    AttentionAgree(ops, x2, y2, C, NH, T, U, b, p, gap, gap');
    var x3, y3 := Attention(ops, x2, T, C, NH, gap), Attention(ops, y2, U, C, NH, gap');
    var x4, y4 := Matmul(ops, x3, l.attprojw, Some(l.attprojb), C, C), Matmul(ops, y3, l.attprojw, Some(l.attprojb), C, C);
    RowWiseAgree(x3, y3, x4, y4, i, j, p);
    ResidualAgree(ops, x, x4, y, y4, C, i, j, p);
  }

  lemma FeedHalfAgree<F>(ops: Ops<F>, l: Layer<F>, x: seq<Row<F>>, y: seq<Row<F>>, C: nat, i: int, j: int, p: nat)
    requires LayerOk(l, C) && Width(x, C) && Width(y, C) && Agree(x, i, y, j, p)
    ensures Agree(FeedHalf(ops, l, x, C), i, FeedHalf(ops, l, y, C), j, p)
  {
    var x1, y1 := LayerNorm(ops, x, l.ln2w, l.ln2b), LayerNorm(ops, y, l.ln2w, l.ln2b);
    RowWiseAgree(x, y, x1, y1, i, j, p);
    var x2, y2 := Matmul(ops, x1, l.fcw, Some(l.fcb), C, 4 * C), Matmul(ops, y1, l.fcw, Some(l.fcb), C, 4 * C);
    RowWiseAgree(x1, y1, x2, y2, i, j, p);
    var x3, y3 := GeluAll(ops, x2, 4 * C), GeluAll(ops, y2, 4 * C);
    RowWiseAgree(x2, y2, x3, y3, i, j, p);
    var x4, y4 := Matmul(ops, x3, l.fcprojw, Some(l.fcprojb), 4 * C, C), Matmul(ops, y3, l.fcprojw, Some(l.fcprojb), 4 * C, C);
    RowWiseAgree(x3, y3, x4, y4, i, j, p);
    ResidualAgree(ops, x, x4, y, y4, C, i, j, p);
  }

  // ----- tokens -----

  predicate SameToken(a: seq<nat>, i: int, c: seq<nat>, j: int, t: int) {
    0 <= i + t < |a| && 0 <= j + t < |c| && a[i + t] == c[j + t]
  }

  /** The same tokens in batch `b` up to and including position `p`. */
  ghost predicate SameTokens(a: seq<nat>, T: nat, c: seq<nat>, U: nat, b: nat, p: nat) {
    p < T && p < U && forall t :: 0 <= t <= p ==> SameToken(a, b * T, c, b * U, t)
  }

  lemma EncodeAgree<F>(ops: Ops<F>, m: Model<F>, a: seq<nat>, T: nat, c: seq<nat>, U: nat, b: nat, p: nat)
    requires ModelOk(m) && TokensOk(m, a, T) && TokensOk(m, c, U) && SameTokens(a, T, c, U, b, p)
    ensures Agree(Encode(ops, m, a, T), b * T, Encode(ops, m, c, U), b * U, p)
  {
    forall t | 0 <= t <= p
      ensures SameAt(Encode(ops, m, a, T), b * T, Encode(ops, m, c, U), b * U, t)
    {
      assert SameToken(a, b * T, c, b * U, t);
      Indexing.Split(b, t, T);
      Indexing.Split(b, t, U);
      SameEncoding(ops, m, a, T, b * T + t, c, U, b * U + t);
    }
  }

  lemma SameEncoding<F>(ops: Ops<F>, m: Model<F>, a: seq<nat>, T: nat, r: nat, c: seq<nat>, U: nat, s: nat)
    requires ModelOk(m) && TokensOk(m, a, T) && TokensOk(m, c, U)
    requires r < |a| && s < |c| && a[r] == c[s] && r % T == s % U
    ensures SameRow(Encode(ops, m, a, T), r, Encode(ops, m, c, U), s)
  {
  }

  /** In every layer the columns no head writes agree on positions 0..p. */
  ghost predicate GapsAgree<F>(m: Model<F>, T: nat, gaps: Gaps<F>, U: nat, gaps': Gaps<F>, b: nat, p: nat)
    requires m.config.heads > 0 && |gaps| == |gaps'|
  {
    forall l :: 0 <= l < |gaps| ==> GapAgree(m.config.channels, m.config.heads, gaps[l], b * T, gaps'[l], b * U, p)
  }

  lemma DividedGapsAgree<F>(m: Model<F>, T: nat, gaps: Gaps<F>, U: nat, gaps': Gaps<F>, b: nat, p: nat)
    requires m.config.heads > 0 && m.config.channels % m.config.heads == 0 && |gaps| == |gaps'|
    ensures GapsAgree(m, T, gaps, U, gaps', b, p)
  {
    hide GapAgree;
    forall l | 0 <= l < |gaps|
      ensures GapAgree(m.config.channels, m.config.heads, gaps[l], b * T, gaps'[l], b * U, p)
    {
      DividedGapAgree(m.config.channels, m.config.heads, gaps[l], b * T, gaps'[l], b * U, p);
    }
  }

  /** Agreeing up to a position is agreeing up to an earlier one. */
  lemma GapsAgreeBefore<F>(m: Model<F>, T: nat, gaps: Gaps<F>, U: nat, gaps': Gaps<F>, b: nat, p: nat, q: nat)
    requires m.config.heads > 0 && |gaps| == |gaps'| && GapsAgree(m, T, gaps, U, gaps', b, p) && q <= p
    ensures GapsAgree(m, T, gaps, U, gaps', b, q)
  {
    hide SameGapAt;
    forall l | 0 <= l < |gaps|
      ensures GapAgree(m.config.channels, m.config.heads, gaps[l], b * T, gaps'[l], b * U, q)
    {
      assert GapAgree(m.config.channels, m.config.heads, gaps[l], b * T, gaps'[l], b * U, p);
    }
  }

  /** The two passes fit, and agree on positions 0..p of batch b. */
  ghost predicate SamePast<F>(m: Model<F>, a: seq<nat>, T: nat, gaps: Gaps<F>, c: seq<nat>, U: nat, gaps': Gaps<F>, b: nat, p: nat) {
    && PassOk(m, a, T, gaps) && PassOk(m, c, U, gaps')
    && SameTokens(a, T, c, U, b, p) && GapsAgree(m, T, gaps, U, gaps', b, p)
  }

  lemma {:induction false} StreamAgree<F>(ops: Ops<F>, m: Model<F>, a: seq<nat>, T: nat, gaps: Gaps<F>,
                                          c: seq<nat>, U: nat, gaps': Gaps<F>, b: nat, p: nat, n: nat)
    requires SamePast(m, a, T, gaps, c, U, gaps', b, p) && n <= |m.layers|
    ensures Agree(Stream(ops, m, a, T, gaps, n), b * T, Stream(ops, m, c, U, gaps', n), b * U, p)
    decreases n
  {
    if n == 0 {
      EncodeAgree(ops, m, a, T, c, U, b, p);
    } else {
      var C, NH, l, g, g' := m.config.channels, m.config.heads, m.layers[n - 1], gaps[n - 1], gaps'[n - 1];
      StreamAgree(ops, m, a, T, gaps, c, U, gaps', b, p, n - 1);
      var x, y := Stream(ops, m, a, T, gaps, n - 1), Stream(ops, m, c, U, gaps', n - 1);
      AttendHalfAgree(ops, l, x, y, C, NH, T, U, b, p, g, g');
      FeedHalfAgree(ops, l, AttendHalf(ops, l, x, T, C, NH, g), AttendHalf(ops, l, y, U, C, NH, g'), C, b * T, b * U, p);
    }
  }

  /** Causality: for every number of layers, all weights and all lengths, two token
      sequences that agree on positions 0..p of a batch get the same logits and the same
      probabilities at position p of that batch, even if their lengths differ. What the memory
      held need only agree in columns that belong to no head. */
  lemma ForwardIsCausal<F>(ops: Ops<F>, m: Model<F>, a: seq<nat>, T: nat, gaps: Gaps<F>,
                           c: seq<nat>, U: nat, gaps': Gaps<F>, b: nat, p: nat)
    requires SamePast(m, a, T, gaps, c, U, gaps', b, p)
    ensures SameAt(Logits(ops, m, a, T, gaps), b * T, Logits(ops, m, c, U, gaps'), b * U, p)
    ensures SameAt(Probs(ops, m, a, T, gaps), b * T, Probs(ops, m, c, U, gaps'), b * U, p)
  {
    hide Stream, LayerNorm, Matmul, Softmax;
    StreamAgree(ops, m, a, T, gaps, c, U, gaps', b, p, |m.layers|);
    var x, y := Stream(ops, m, a, T, gaps, |m.layers|), Stream(ops, m, c, U, gaps', |m.layers|);
    assert SameAt(x, b * T, y, b * U, p);
    HeadIsRowWise(ops, m, x, y, b * T + p, b * U + p);
  }

  /** From the last residual stream to logits and probabilities each row goes on its own. */
  lemma HeadIsRowWise<F>(ops: Ops<F>, m: Model<F>, x: seq<Row<F>>, y: seq<Row<F>>, i: int, j: int)
    requires ModelOk(m) && Width(x, m.config.channels) && Width(y, m.config.channels) && SameRow(x, i, y, j)
    ensures var C, V := m.config.channels, m.config.vocab;
            var lx := Matmul(ops, LayerNorm(ops, x, m.lnfw, m.lnfb), m.wte, None, C, V);
            var ly := Matmul(ops, LayerNorm(ops, y, m.lnfw, m.lnfb), m.wte, None, C, V);
            SameRow(lx, i, ly, j) && SameRow(Softmax(ops, lx, V), i, Softmax(ops, ly, V), j)
  {
  }
}
