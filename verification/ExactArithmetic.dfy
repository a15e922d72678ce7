/** What the kernels compute where the float operations are those of the real numbers: softmax is a
    probability distribution in the order of its inputs, attention an average of values, layer
    normalisation centres and scales, and the sampled token is the median of the distribution. */
module ExactArithmetic {
  import opened Options
  import opened Floats
  import opened Transformer
  import Generation

  // ----- the operations -----

  ghost predicate Arithmetic(ops: Ops<real>) {
    && ops.zero == 0.0 && ops.one == 1.0 && ops.half == 0.5
    && (forall a, b :: ops.add(a, b) == a + b)
    && (forall a, b :: ops.sub(a, b) == a - b)
    && (forall a, b :: ops.mul(a, b) == a * b)
    && (forall a, b :: b != 0.0 ==> ops.div(a, b) == a / b)
    && (forall a, b :: ops.greater(a, b) <==> a > b)
    && (forall a :: ops.isZero(a) <==> a == 0.0)
    && (forall n :: ops.ofInt(n) == n as real)
  }

  /** Positive, strictly increasing, and 1 at 0. */
  ghost predicate Exponential(ops: Ops<real>) {
    && ops.exp(0.0) == 1.0
    && (forall a :: ops.exp(a) > 0.0)
    && (forall a, b :: a < b ==> ops.exp(a) < ops.exp(b))
  }

  ghost predicate Root(ops: Ops<real>) {
    ops.epsilon > 0.0 && forall a :: a > 0.0 ==> ops.sqrt(a) > 0.0 && ops.sqrt(a) * ops.sqrt(a) == a
  }

  /** Odd, and between -1 and 1 with the sign of its argument. */
  ghost predicate Tangent(ops: Ops<real>) {
    && (forall a :: ops.tanh(-a) == -ops.tanh(a))
    && (forall a :: a >= 0.0 ==> 0.0 <= ops.tanh(a) < 1.0)
  }

  lemma OpsAre(ops: Ops<real>, a: real, b: real)
    requires Arithmetic(ops)
    ensures ops.add(a, b) == a + b && ops.sub(a, b) == a - b && ops.mul(a, b) == a * b
    ensures b != 0.0 ==> ops.div(a, b) == a / b
    ensures ops.greater(a, b) <==> a > b
  {
  }

  lemma ConstantsAre(ops: Ops<real>, n: int, a: real)
    requires Arithmetic(ops)
    ensures ops.zero == 0.0 && ops.one == 1.0 && ops.half == 0.5 && ops.ofInt(n) == n as real
    ensures ops.isZero(a) <==> a == 0.0
  {
  }

  lemma RealsAreOrdered(ops: Ops<real>)
    requires Arithmetic(ops)
    ensures Orders(ops)
  {
  }

  // ----- the cells of rows -----

  lemma SoftmaxCell<F>(ops: Ops<F>, x: Row<F>, i: nat)
    requires i < |x|
    ensures SoftmaxRow(ops, x)[i] == ops.div(ExpRow(ops, x)[i], Sum(ops, ops.zero, ExpRow(ops, x), |x|))
  {
  }

  lemma WeightCell<F>(ops: Ops<F>, x: Row<F>, i: nat)
    requires i < |x|
    ensures var sum := Sum(ops, ops.zero, ExpRow(ops, x), |x|);
            var inv := if ops.isZero(sum) then ops.zero else ops.div(ops.one, sum);
            Weights(ops, x)[i] == ops.mul(ExpRow(ops, x)[i], inv)
  {
  }

  lemma LayerNormCell<F>(ops: Ops<F>, x: Row<F>, w: Row<F>, b: Row<F>, i: nat)
    requires i < |x| && |w| == |b| == |x|
    ensures var n := ops.mul(Rstd(ops, x), ops.sub(x[i], Mean(ops, x)));
            LayerNormRow(ops, x, w, b)[i] == ops.add(ops.mul(n, w[i]), b[i])
  {
  }

  lemma MatmulCell<F>(ops: Ops<F>, x: Row<F>, w: Row<F>, bias: Option<Row<F>>, OC: nat, o: nat, at: nat)
    requires Matrix(w, bias, |x|, OC) && o < OC && at == o * |x|
    ensures at + |x| <= |w|
    ensures MatmulRow(ops, x, w, bias, OC)[o]
         == Dot(ops, if bias.Some? then bias.value[o] else ops.zero, x, w[at..at + |x|], |x|)
  {
    SliceFits(o, |x|, OC);
  }

  // ----- sums -----

  function Total(x: Row<real>): real {
    if x == [] then 0.0 else x[0] + Total(x[1..])
  }

  lemma {:induction false} TotalAppend(x: Row<real>, a: real)
    ensures Total(x + [a]) == Total(x) + a
    decreases |x|
  {
    if x == [] {
      assert x + [a] == [a];
    } else {
      assert (x + [a])[1..] == x[1..] + [a];
      TotalAppend(x[1..], a);
    }
  }

  lemma {:induction false} SumIsTotal(ops: Ops<real>, acc: real, x: Row<real>, n: nat)
    requires Arithmetic(ops) && n <= |x|
    ensures Sum(ops, acc, x, n) == acc + Total(x[..n])
    decreases n
  {
    if n > 0 {
      SumIsTotal(ops, acc, x, n - 1);
      assert x[..n] == x[..n - 1] + [x[n - 1]];
      TotalAppend(x[..n - 1], x[n - 1]);
    }
  }

  lemma {:induction false} TotalScaled(x: Row<real>, y: Row<real>, k: real)
    requires |y| == |x| && forall i :: 0 <= i < |x| ==> y[i] == x[i] * k
    ensures Total(y) == Total(x) * k
    decreases |x|
  {
    if x != [] {
      TotalScaled(x[1..], y[1..], k);
    }
  }

  lemma {:induction false} TotalPositive(x: Row<real>)
    requires forall i :: 0 <= i < |x| ==> x[i] > 0.0
    ensures Total(x) >= 0.0 && forall i :: 0 <= i < |x| ==> x[i] <= Total(x)
    decreases |x|
  {
    if x != [] {
      TotalPositive(x[1..]);
      forall i | 0 <= i < |x| ensures x[i] <= Total(x) {
        if i > 0 {
          assert x[i] == x[1..][i - 1];
        }
      }
    }
  }

  // ----- softmax -----

  /** No exponent is above 0, so no exponential above 1; and if any input is above the constant the
      maximum starts from, one exponential is 1, so the sum is at least 1. */
  lemma ExponentsAreSafe(ops: Ops<real>, x: Row<real>)
    requires Arithmetic(ops) && Exponential(ops)
    ensures forall i :: 0 <= i < |x| ==> 0.0 < ExpRow(ops, x)[i] <= 1.0
    ensures (exists i :: 0 <= i < |x| && x[i] > ops.lowest) ==> 1.0 in ExpRow(ops, x) && Total(ExpRow(ops, x)) >= 1.0
  {
    hide Arithmetic, Exponential, Max, Total;
    RealsAreOrdered(ops);
    MaxIsGreatest(ops, x, |x|);
    hide Orders;
    var m, e := Max(ops, x, |x|), ExpRow(ops, x);
    forall i | 0 <= i < |x| ensures 0.0 < e[i] <= 1.0 && (x[i] == m ==> e[i] == 1.0) {
      assert !ops.greater(x[i], m);
      OpsAre(ops, x[i], m);
      ExponentIsPositive(ops, x, i);
      ExpBelow(ops, x[i] - m);
    }
    if k :| 0 <= k < |x| && x[k] > ops.lowest {
      assert !ops.greater(x[k], m);
      OpsAre(ops, x[k], m);
      assert m in x[..|x|];
      var j :| 0 <= j < |x| && x[j] == m;
      TotalPositive(e);
      assert e[j] == 1.0 && e[j] <= Total(e);
    }
  }

  lemma ExpBelow(ops: Ops<real>, a: real)
    requires Exponential(ops) && a <= 0.0
    ensures ops.exp(a) <= 1.0 && (a == 0.0 ==> ops.exp(a) == 1.0)
  {
  }

  /** The probabilities are positive, add up to one, and are in the order of the inputs. */
  lemma SoftmaxIsDistribution(ops: Ops<real>, x: Row<real>)
    requires Arithmetic(ops) && Exponential(ops) && x != []
    ensures forall i :: 0 <= i < |x| ==> SoftmaxRow(ops, x)[i] > 0.0
    ensures Total(SoftmaxRow(ops, x)) == 1.0
    ensures forall i, j :: 0 <= i < |x| && 0 <= j < |x| ==> (SoftmaxRow(ops, x)[i] < SoftmaxRow(ops, x)[j] <==> x[i] < x[j])
  {
    hide Arithmetic, Exponential, SoftmaxRow, ExpRow, Sum, Max, Total;
    var e, p := ExpRow(ops, x), SoftmaxRow(ops, x);
    var sum := SumOfExponentials(ops, x);
    forall i | 0 <= i < |x| ensures p[i] == e[i] * (1.0 / sum) && p[i] > 0.0 {
      SoftmaxAt(ops, x, i, sum);
    }
    TotalScaled(e, p, 1.0 / sum);
    OverAndBack(1.0, sum);
    forall i, j | 0 <= i < |x| && 0 <= j < |x| ensures p[i] < p[j] <==> x[i] < x[j] {
      ExponentsOrder(ops, x, i, j);
      SoftmaxAt(ops, x, i, sum);
      SoftmaxAt(ops, x, j, sum);
      QuotientOrder(e[i], e[j], sum);
    }
  }

  lemma SoftmaxAt(ops: Ops<real>, x: Row<real>, i: nat, sum: real)
    requires Arithmetic(ops) && Exponential(ops) && i < |x| && sum > 0.0
    requires sum == Sum(ops, ops.zero, ExpRow(ops, x), |x|)
    ensures SoftmaxRow(ops, x)[i] == ExpRow(ops, x)[i] / sum == ExpRow(ops, x)[i] * (1.0 / sum) > 0.0
  {
    hide ExpRow, Sum, Arithmetic, Exponential, SoftmaxRow;
    ExponentIsPositive(ops, x, i);
    Quotient(ExpRow(ops, x)[i], sum);
    SoftmaxDivides(ops, x, i, sum, ExpRow(ops, x)[i]);
  }

  lemma SoftmaxDivides(ops: Ops<real>, x: Row<real>, i: nat, sum: real, e: real)
    requires Arithmetic(ops) && i < |x| && sum != 0.0
    requires sum == Sum(ops, ops.zero, ExpRow(ops, x), |x|) && e == ExpRow(ops, x)[i]
    ensures SoftmaxRow(ops, x)[i] == e / sum
  {
    hide ExpRow, Sum, Arithmetic, SoftmaxRow;
    SoftmaxCell(ops, x, i);
    OpsAre(ops, e, sum);
  }

  lemma ExponentIsPositive(ops: Ops<real>, x: Row<real>, i: nat)
    requires Exponential(ops) && i < |x|
    ensures ExpRow(ops, x)[i] > 0.0
  {
    hide Max;
    ExpIsPositive(ops, ops.sub(x[i], Max(ops, x, |x|)));
  }

  lemma ExpIsPositive(ops: Ops<real>, a: real)
    requires Exponential(ops)
    ensures ops.exp(a) > 0.0
  {
  }

  lemma SumOfExponentials(ops: Ops<real>, x: Row<real>) returns (sum: real)
    requires Arithmetic(ops) && Exponential(ops) && x != []
    ensures var e := ExpRow(ops, x); sum == Sum(ops, ops.zero, e, |e|) == Total(e) && sum > 0.0
  {
    hide Arithmetic, Exponential, ExpRow, Total, Sum;
    var e := ExpRow(ops, x);
    sum := Sum(ops, ops.zero, e, |e|);
    SumIsTotal(ops, ops.zero, e, |e|);
    ConstantsAre(ops, 0, 0.0);
    assert e[..|e|] == e;
    forall i | 0 <= i < |e| ensures e[i] > 0.0 {
      ExponentIsPositive(ops, x, i);
    }
    TotalPositive(e);
    assert e[0] <= Total(e);
  }

  lemma ExponentsOrder(ops: Ops<real>, x: Row<real>, i: nat, j: nat)
    requires Arithmetic(ops) && Exponential(ops) && i < |x| && j < |x|
    ensures ExpRow(ops, x)[i] < ExpRow(ops, x)[j] <==> x[i] < x[j]
  {
    hide Arithmetic, Max;
    var m := Max(ops, x, |x|);
    var a, b := x[i] - m, x[j] - m;
    OpsAre(ops, x[i], m);
    OpsAre(ops, x[j], m);
    assert a < b ==> ops.exp(a) < ops.exp(b);
    assert b < a ==> ops.exp(b) < ops.exp(a);
  }

  lemma Quotient(a: real, b: real)
    requires a > 0.0 && b > 0.0
    ensures a / b == a * (1.0 / b) > 0.0
  {
  }

  lemma QuotientOrder(a: real, b: real, c: real)
    requires c > 0.0
    ensures a / c < b / c <==> a < b
  {
  }

  /** Every row of probabilities a forward pass leaves is a distribution. */
  lemma ProbsAreDistributions(ops: Ops<real>, m: Model<real>, tokens: seq<nat>, T: nat, gaps: Gaps<real>, r: nat)
    requires Arithmetic(ops) && Exponential(ops) && PassOk(m, tokens, T, gaps) && r < |tokens|
    ensures var p := Probs(ops, m, tokens, T, gaps)[r];
            Total(p) == 1.0 && forall i :: 0 <= i < |p| ==> p[i] > 0.0
  {
    hide Logits, SoftmaxRow;
    var logits := Logits(ops, m, tokens, T, gaps);
    assert |logits[r]| == m.config.vocab > 0;
    SoftmaxIsDistribution(ops, logits[r]);
  }

  /** The token sampled from a distribution is its median: those before it have at most half of the
      probability, and with it they have more. The fallback is never taken. */
  lemma SampleIsMedian(ops: Ops<real>, p: Row<real>, r: nat)
    requires Arithmetic(ops) && Total(p) == 1.0 && Generation.IsSample(ops, p, r)
    ensures Total(p[..r]) <= 0.5 < Total(p[..r + 1])
  {
    forall i | 0 <= i < |p|
      ensures Generation.Passed(ops, p, i) <==> Total(p[..i + 1]) > 0.5
    {
      SumIsTotal(ops, ops.zero, p, i + 1);
    }
    assert p[..|p|] == p;
    assert p[..0] == [];
    if r > 0 {
      assert !Generation.Passed(ops, p, r - 1);
    }
  }

  // ----- attention -----

  /** The scores are the products of query and key, over the root of the head size. */
  lemma ScoresAre(ops: Ops<real>, xs: seq<Row<real>>, h: nat, C: nat, hs: nat, t2: nat)
    requires Arithmetic(ops) && Root(ops) && xs != [] && Width(xs, 3 * C) && h * hs + hs <= C && hs > 0 && t2 < |xs|
    ensures Scores(ops, xs, h, C, hs)[t2] * ops.sqrt(hs as real)
         == Products(xs[|xs| - 1], h * hs, xs[t2], C + h * hs, hs)
  {
    hide Arithmetic, Dot, Products, Scores;
    var q, k := Part(xs[|xs| - 1], 0, h, C, hs), Part(xs[t2], 1, h, C, hs);
    DotIsProducts(ops, 0.0, q, k, hs);
    PartProducts(xs[|xs| - 1], h * hs, q, xs[t2], C + h * hs, k, hs);
    ScoreAt(ops, xs, h, C, hs, t2);
    OverAndBack(Dot(ops, 0.0, q, k, hs), ops.sqrt(hs as real));
  }

  lemma ScoreAt(ops: Ops<real>, xs: seq<Row<real>>, h: nat, C: nat, hs: nat, t2: nat)
    requires Arithmetic(ops) && Root(ops) && xs != [] && Width(xs, 3 * C) && h * hs + hs <= C && hs > 0 && t2 < |xs|
    ensures Scores(ops, xs, h, C, hs)[t2]
         == Dot(ops, 0.0, Part(xs[|xs| - 1], 0, h, C, hs), Part(xs[t2], 1, h, C, hs), hs) * (1.0 / ops.sqrt(hs as real))
  {
    hide Dot, Part;
  }

  lemma OverAndBack(a: real, b: real)
    requires b != 0.0
    ensures a * (1.0 / b) * b == a
  {
  }

  /** One term of a sum of products. */
  function Product(x: Row<real>, i: nat, y: Row<real>, j: nat): real
    requires i < |x| && j < |y|
  {
    x[i] * y[j]
  }

  /** Sum of x[i + k] * y[j + k] for k below n, added up from the front. */
  function Products(x: Row<real>, i: nat, y: Row<real>, j: nat, n: nat): real
    requires i + n <= |x| && j + n <= |y|
    decreases n
  {
    if n == 0 then 0.0 else Product(x, i, y, j) + Products(x, i + 1, y, j + 1, n - 1)
  }

  lemma {:induction false} ProductsLast(x: Row<real>, i: nat, y: Row<real>, j: nat, n: nat)
    requires n > 0 && i + n <= |x| && j + n <= |y|
    ensures Products(x, i, y, j, n) == Products(x, i, y, j, n - 1) + Product(x, i + n - 1, y, j + n - 1)
    decreases n
  {
    hide Product;
    if n > 1 {
      ProductsLast(x, i + 1, y, j + 1, n - 1);
    }
  }

  lemma {:induction false} DotIsProducts(ops: Ops<real>, acc: real, x: Row<real>, y: Row<real>, n: nat)
    requires Arithmetic(ops) && n <= |x| && n <= |y|
    ensures Dot(ops, acc, x, y, n) == acc + Products(x, 0, y, 0, n)
    decreases n
  {
    hide Products;
    if n > 0 {
      DotIsProducts(ops, acc, x, y, n - 1);
      ProductsLast(x, 0, y, 0, n);
    } else {
      NoProducts(x, y);
    }
  }

  lemma NoProducts(x: Row<real>, y: Row<real>)
    ensures Products(x, 0, y, 0, 0) == 0.0
  {
  }

  lemma {:induction false} PartProducts(x: Row<real>, i: nat, p: Row<real>, y: Row<real>, j: nat, q: Row<real>, n: nat)
    requires i + |p| <= |x| && p == x[i..i + |p|] && j + |q| <= |y| && q == y[j..j + |q|] && n <= |p| && n <= |q|
    ensures Products(p, 0, q, 0, n) == Products(x, i, y, j, n)
    decreases n
  {
    if n > 0 {
      PartProducts(x, i, p, y, j, q, n - 1);
      ProductsLast(p, 0, q, 0, n);
      ProductsLast(x, i, y, j, n);
      assert Product(p, n - 1, q, n - 1) == Product(x, i + n - 1, y, j + n - 1) by {
        assert p[n - 1] == x[i + n - 1] && q[n - 1] == y[j + n - 1];
      }
    }
  }

  /** The attention weights are the softmax of the scores: the zero test does not matter. */
  lemma WeightsAreSoftmax(ops: Ops<real>, scores: Row<real>)
    requires Arithmetic(ops) && Exponential(ops) && scores != []
    ensures Weights(ops, scores) == SoftmaxRow(ops, scores)
  {
    hide Arithmetic, Exponential, SoftmaxRow, Weights, ExpRow, Sum, Total;
    var sum := SumOfExponentials(ops, scores);
    forall i | 0 <= i < |scores| ensures Weights(ops, scores)[i] == SoftmaxRow(ops, scores)[i] {
      SoftmaxAt(ops, scores, i, sum);
      WeightAt(ops, scores, i, sum);
    }
  }

  lemma WeightAt(ops: Ops<real>, scores: Row<real>, i: nat, sum: real)
    requires Arithmetic(ops) && i < |scores| && sum > 0.0
    requires sum == Sum(ops, ops.zero, ExpRow(ops, scores), |scores|)
    ensures Weights(ops, scores)[i] == ExpRow(ops, scores)[i] * (1.0 / sum)
  {
    hide ExpRow, Sum, Arithmetic, Weights;
    WeightCell(ops, scores, i);
    ConstantsAre(ops, 0, sum);
    OpsAre(ops, 1.0, sum);
    OpsAre(ops, ExpRow(ops, scores)[i], 1.0 / sum);
  }

  /** Every attention output is an average of the values of its column at the positions it sees: it
      lies between any bounds they all lie between. */
  lemma AttentionIsAverage(ops: Ops<real>, xs: seq<Row<real>>, C: nat, NH: nat, c: nat, lo: real, hi: real)
    requires Arithmetic(ops) && Exponential(ops) && xs != [] && Width(xs, 3 * C) && NH > 0 && c < C && InHead(C, NH, c)
    requires forall t2 :: 0 <= t2 < |xs| ==> lo <= xs[t2][2 * C + c] <= hi
    ensures lo <= AttentionAt(ops, xs, C, NH, c) <= hi
  {
    hide Scores, SoftmaxRow, Weights, Mix, Arithmetic, Exponential;
    var hs := C / NH;
    HeadOf(C, NH, c);
    var h, i := c / hs, c % hs;
    HeadFits(C, NH, h);
    Column(c, hs);
    var w := Weights(ops, Scores(ops, xs, h, C, hs));
    WeightsAreSoftmax(ops, Scores(ops, xs, h, C, hs));
    SoftmaxIsDistribution(ops, Scores(ops, xs, h, C, hs));
    assert w[..|xs|] == w;
    MixIsBetween(ops, w, xs, h, C, hs, i, |xs|, lo, hi);
  }

  lemma Column(c: nat, hs: nat)
    requires hs > 0
    ensures c / hs * hs + c % hs == c
  {
  }

  lemma {:induction false} MixIsBetween(ops: Ops<real>, w: Row<real>, xs: seq<Row<real>>, h: nat, C: nat, hs: nat, i: nat, n: nat,
                                        lo: real, hi: real)
    requires Arithmetic(ops) && Width(xs, 3 * C) && h * hs + hs <= C && i < hs && n <= |xs| && n <= |w|
    requires forall t2 :: 0 <= t2 < |w| ==> w[t2] > 0.0
    requires forall t2 :: 0 <= t2 < |xs| ==> lo <= xs[t2][2 * C + (h * hs + i)] <= hi
    ensures lo * Total(w[..n]) <= Mix(ops, w, xs, h, C, hs, i, n) <= hi * Total(w[..n])
    decreases n
  {
    hide Arithmetic, Mix;
    if n == 0 {
      MixStart(ops, w, xs, h, C, hs, i);
    } else {
      MixIsBetween(ops, w, xs, h, C, hs, i, n - 1, lo, hi);
      assert w[..n] == w[..n - 1] + [w[n - 1]];
      TotalAppend(w[..n - 1], w[n - 1]);
      MixStep(ops, w, xs, h, C, hs, i, n);
      var v := xs[n - 1][2 * C + (h * hs + i)];
      Between(w[n - 1], lo, v, hi, Total(w[..n - 1]), Total(w[..n]),
              Mix(ops, w, xs, h, C, hs, i, n - 1), Mix(ops, w, xs, h, C, hs, i, n));
    }
  }

  lemma MixStart(ops: Ops<real>, w: Row<real>, xs: seq<Row<real>>, h: nat, C: nat, hs: nat, i: nat)
    requires Arithmetic(ops) && Width(xs, 3 * C) && h * hs + hs <= C && i < hs
    ensures Mix(ops, w, xs, h, C, hs, i, 0) == 0.0 == Total(w[..0])
  {
    hide Width;
  }

  lemma MixStep(ops: Ops<real>, w: Row<real>, xs: seq<Row<real>>, h: nat, C: nat, hs: nat, i: nat, n: nat)
    requires Arithmetic(ops) && Width(xs, 3 * C) && h * hs + hs <= C && i < hs && 0 < n <= |xs| && n <= |w|
    ensures Mix(ops, w, xs, h, C, hs, i, n)
         == Mix(ops, w, xs, h, C, hs, i, n - 1) + w[n - 1] * xs[n - 1][2 * C + (h * hs + i)]
  {
    assert Part(xs[n - 1], 2, h, C, hs)[i] == xs[n - 1][2 * C + (h * hs + i)];
  }

  lemma Between(w: real, lo: real, v: real, hi: real, total: real, total': real, mix: real, mix': real)
    requires w > 0.0 && lo <= v <= hi && total' == total + w && mix' == mix + w * v
    requires lo * total <= mix <= hi * total
    ensures lo * total' <= mix' <= hi * total'
  {
    assert w * (v - lo) >= 0.0 && w * (hi - v) >= 0.0;
    assert lo * total' == lo * total + lo * w && hi * total' == hi * total + hi * w;
  }

  // ----- embedding, residual, matrix product, activation, layer normalisation -----

  /** The embedding of the token plus that of its position. */
  lemma EncodeIs(ops: Ops<real>, m: Model<real>, tokens: seq<nat>, T: nat, r: nat, c: nat)
    requires Arithmetic(ops) && ModelOk(m) && TokensOk(m, tokens, T) && r < |tokens| && c < m.config.channels
    ensures var C := m.config.channels;
            && tokens[r] * C + c < |m.wte| && r % T * C + c < |m.wpe|
            && Encode(ops, m, tokens, T)[r][c] == m.wte[tokens[r] * C + c] + m.wpe[r % T * C + c]
  {
    hide Arithmetic, EncodeRow, Encode, ModelOk;
    EncodedRow(ops, m, tokens, T, r);
    EncodeCell(ops, m, tokens[r], r % T, c);
  }

  lemma EncodedRow<F>(ops: Ops<F>, m: Model<F>, tokens: seq<nat>, T: nat, r: nat)
    requires ModelOk(m) && TokensOk(m, tokens, T) && r < |tokens|
    ensures r % T * m.config.channels + m.config.channels <= |m.wpe|
    ensures Encode(ops, m, tokens, T)[r] == EncodeRow(ops, m, tokens[r], r % T)
  {
    SliceFits(r % T, m.config.channels, T);
  }

  lemma EncodeCell(ops: Ops<real>, m: Model<real>, token: nat, t: nat, c: nat)
    requires Arithmetic(ops) && ModelOk(m) && token < m.config.vocab && c < m.config.channels
    requires t * m.config.channels + m.config.channels <= |m.wpe|
    ensures var C := m.config.channels;
            && token * C + c < |m.wte|
            && EncodeRow(ops, m, token, t)[c] == m.wte[token * C + c] + m.wpe[t * C + c]
  {
    hide Arithmetic;
    var C := m.config.channels;
    SliceFits(token, C, m.config.vocab);
    OpsAre(ops, m.wte[token * C + c], m.wpe[t * C + c]);
  }

  lemma ResidualIs(ops: Ops<real>, x: seq<Row<real>>, y: seq<Row<real>>, C: nat, r: nat, c: nat)
    requires Arithmetic(ops) && |x| == |y| && Width(x, C) && Width(y, C) && r < |x| && c < C
    ensures Residual(ops, x, y, C)[r][c] == x[r][c] + y[r][c]
  {
    OpsAre(ops, x[r][c], y[r][c]);
  }

  /** Bias plus the products of the input with row `o` of the weights. */
  lemma MatmulIs(ops: Ops<real>, x: Row<real>, w: Row<real>, bias: Option<Row<real>>, OC: nat, o: nat, at: nat)
    requires Arithmetic(ops) && Matrix(w, bias, |x|, OC) && o < OC && at == o * |x|
    ensures at + |x| <= |w|
    ensures MatmulRow(ops, x, w, bias, OC)[o]
         == (if bias.Some? then bias.value[o] else 0.0) + Products(x, 0, w, at, |x|)
  {
    hide Arithmetic, Dot, Products, MatmulRow, Slice;
    MatmulCell(ops, x, w, bias, OC, o, at);
    ConstantsAre(ops, 0, 0.0);
    RowProduct(ops, if bias.Some? then bias.value[o] else ops.zero, x, w, at);
  }

  lemma RowProduct(ops: Ops<real>, acc: real, x: Row<real>, w: Row<real>, at: nat)
    requires Arithmetic(ops) && at + |x| <= |w|
    ensures Dot(ops, acc, x, w[at..at + |x|], |x|) == acc + Products(x, 0, w, at, |x|)
  {
    hide Arithmetic, Dot, Products;
    var row := w[at..at + |x|];
    DotIsProducts(ops, acc, x, row, |x|);
    assert x == x[0..0 + |x|];
    PartProducts(x, 0, x, w, at, row, |x|);
  }

  /** The activation differs from its mirror image by the input, and lies between zero and it. */
  lemma GeluIs(ops: Ops<real>, x: real)
    requires Arithmetic(ops) && Tangent(ops) && ops.geluScale >= 0.0 && ops.geluCube >= 0.0
    ensures Gelu(ops, x) - Gelu(ops, -x) == x
    ensures x >= 0.0 ==> 0.5 * x <= Gelu(ops, x) <= x
  {
    hide Arithmetic, Gelu;
    var cube := ops.geluCube * x * x * x;
    var a := ops.geluScale * (x + cube);
    GeluAt(ops, x, ops.geluCube * x, ops.geluCube * x * x, cube, a);
    var mirror := ops.geluCube * -x * -x * -x;
    Cubes(ops.geluCube, ops.geluScale, x);
    GeluAt(ops, -x, ops.geluCube * -x, ops.geluCube * -x * -x, mirror, -a);
    var t := ops.tanh(a);
    assert ops.tanh(-a) == -t;
    Halves(x, t);
  }

  lemma GeluAt(ops: Ops<real>, x: real, once: real, twice: real, cube: real, a: real)
    requires Arithmetic(ops) && once == ops.geluCube * x && twice == once * x && cube == twice * x
    requires a == ops.geluScale * (x + cube)
    ensures Gelu(ops, x) == 0.5 * x * (1.0 + ops.tanh(a))
  {
    assert ops.mul(ops.geluCube, x) == once && ops.mul(once, x) == twice && ops.mul(twice, x) == cube;
    assert ops.add(x, cube) == x + cube && ops.mul(ops.geluScale, x + cube) == a;
    var t := ops.tanh(a);
    assert ops.mul(ops.half, x) == 0.5 * x && ops.add(ops.one, t) == 1.0 + t;
    assert ops.mul(0.5 * x, 1.0 + t) == 0.5 * x * (1.0 + t);
  }

  lemma Cubes(k: real, s: real, x: real)
    requires k >= 0.0 && s >= 0.0
    ensures s * (-x + k * -x * -x * -x) == -(s * (x + k * x * x * x))
    ensures x >= 0.0 ==> s * (x + k * x * x * x) >= 0.0
  {
    var cube := x * x * x;
    assert k * -x * -x * -x == -(k * cube) && k * x * x * x == k * cube;
    if x >= 0.0 {
      assert x * x >= 0.0;
      assert x * x * x >= 0.0;
      assert k * cube >= 0.0;
    }
  }

  lemma Halves(x: real, t: real)
    ensures 0.5 * x * (1.0 + t) - 0.5 * -x * (1.0 + -t) == x
    ensures x >= 0.0 && 0.0 <= t < 1.0 ==> 0.5 * x <= 0.5 * x * (1.0 + t) <= x
  {
    if x >= 0.0 && 0.0 <= t < 1.0 {
      assert x * t >= 0.0 && x * (1.0 - t) >= 0.0;
    }
  }

  function MeanOf(x: Row<real>): real
    requires x != []
  {
    Total(x) / |x| as real
  }

  function Squares(x: Row<real>, m: real): (y: Row<real>)
    ensures |y| == |x|
  {
    seq(|x|, i requires 0 <= i < |x| => (x[i] - m) * (x[i] - m))
  }

  function VarianceOf(x: Row<real>): real
    requires x != []
  {
    Total(Squares(x, MeanOf(x))) / |x| as real
  }

  lemma MeanIs(ops: Ops<real>, x: Row<real>)
    requires Arithmetic(ops) && x != []
    ensures Mean(ops, x) == MeanOf(x)
  {
    SumIsTotal(ops, ops.zero, x, |x|);
    assert x[..|x|] == x;
  }

  lemma {:induction false} SquareSumIs(ops: Ops<real>, m: real, x: Row<real>, n: nat)
    requires Arithmetic(ops) && n <= |x|
    ensures SquareSum(ops, m, x, n) == Total(Squares(x, m)[..n])
    decreases n
  {
    hide Squares, Arithmetic, SquareSum;
    if n == 0 {
      SquareSumStart(ops, m, x);
    } else {
      SquareSumIs(ops, m, x, n - 1);
      var y := Squares(x, m);
      assert y[..n] == y[..n - 1] + [y[n - 1]];
      TotalAppend(y[..n - 1], y[n - 1]);
      SquareAt(x, m, n - 1);
      SquareSumStep(ops, m, x, n);
    }
  }

  lemma SquareSumStart(ops: Ops<real>, m: real, x: Row<real>)
    requires Arithmetic(ops)
    ensures SquareSum(ops, m, x, 0) == 0.0 == Total(Squares(x, m)[..0])
  {
  }

  lemma SquareSumStep(ops: Ops<real>, m: real, x: Row<real>, n: nat)
    requires Arithmetic(ops) && 0 < n <= |x|
    ensures SquareSum(ops, m, x, n) == SquareSum(ops, m, x, n - 1) + (x[n - 1] - m) * (x[n - 1] - m)
  {
    var d := x[n - 1] - m;
    assert ops.sub(x[n - 1], m) == d && ops.mul(d, d) == d * d;
  }

  lemma SquaresTotal(x: Row<real>, m: real)
    ensures Total(Squares(x, m)) >= 0.0
  {
    hide Squares;
    forall i | 0 <= i < |x| ensures Squares(x, m)[i] >= 0.0 {
      SquareAt(x, m, i);
      Square(x[i] - m);
    }
    NotNegative(Squares(x, m));
  }

  lemma Square(d: real)
    ensures d * d >= 0.0
  {
    if d >= 0.0 {
      assert d * d >= 0.0;
    } else {
      assert -d * -d >= 0.0;
    }
  }

  lemma {:induction false} NotNegative(x: Row<real>)
    requires forall i :: 0 <= i < |x| ==> x[i] >= 0.0
    ensures Total(x) >= 0.0
    decreases |x|
  {
    if x != [] {
      NotNegative(x[1..]);
    }
  }

  /** One over the root of the variance, with epsilon added. */
  lemma RstdIs(ops: Ops<real>, x: Row<real>)
    requires Arithmetic(ops) && Root(ops) && x != []
    ensures var s := Rstd(ops, x); s > 0.0 && s * s * (VarianceOf(x) + ops.epsilon) == 1.0
  {
    hide Arithmetic, Rstd, VarianceOf;
    VarianceIs(ops, x);
    var v := VarianceOf(x) + ops.epsilon;
    assert v > 0.0;
    Inverse(ops.sqrt(v), v);
  }

  lemma VarianceIs(ops: Ops<real>, x: Row<real>)
    requires Arithmetic(ops) && Root(ops) && x != []
    ensures VarianceOf(x) >= 0.0 && Rstd(ops, x) == 1.0 / ops.sqrt(VarianceOf(x) + ops.epsilon)
  {
    hide Mean, SquareSum, Squares, Total;
    MeanIs(ops, x);
    SquareSumIs(ops, MeanOf(x), x, |x|);
    var y := Squares(x, MeanOf(x));
    assert y[..|x|] == y;
    SquaresTotal(x, MeanOf(x));
  }

  lemma Inverse(root: real, v: real)
    requires root > 0.0 && root * root == v
    ensures var s := 1.0 / root; s > 0.0 && s * s * v == 1.0
  {
    var s := 1.0 / root;
    assert s * root == 1.0;
    assert s * s * v == (s * root) * (s * root);
  }

  /** Without weights and bias: the elements add up to zero, and their squares to the variance over
      itself plus epsilon, for each element. */
  lemma LayerNormCentres(ops: Ops<real>, x: Row<real>, w: Row<real>, b: Row<real>)
    requires Arithmetic(ops) && Root(ops) && x != [] && |w| == |b| == |x|
    requires forall i :: 0 <= i < |x| ==> w[i] == 1.0 && b[i] == 0.0
    ensures var z := LayerNormRow(ops, x, w, b);
            && Total(z) == 0.0
            && Total(Squares(z, 0.0)) * (VarianceOf(x) + ops.epsilon) == |x| as real * VarianceOf(x)
  {
    hide Arithmetic, Rstd, LayerNormRow, Total, MeanOf, VarianceOf, Squares;
    RstdIs(ops, x);
    var m, s, z := MeanOf(x), Rstd(ops, x), LayerNormRow(ops, x, w, b);
    var d := seq(|x|, i requires 0 <= i < |x| => x[i] - m);
    Deviations(x, d, m);
    forall i | 0 <= i < |x| ensures z[i] == d[i] * s && Squares(z, 0.0)[i] == Squares(x, m)[i] * (s * s) {
      NormalisedAt(ops, x, w, b, i);
      SquareScaled(x, m, z, d[i], s, i);
    }
    TotalScaled(d, z, s);
    TotalScaled(Squares(x, m), Squares(z, 0.0), s * s);
    MeanSquare(Total(Squares(x, m)), s, VarianceOf(x) + ops.epsilon);
    TotalOfSquares(x);
  }

  lemma NormalisedAt(ops: Ops<real>, x: Row<real>, w: Row<real>, b: Row<real>, i: nat)
    requires Arithmetic(ops) && i < |x| && |w| == |b| == |x| && w[i] == 1.0 && b[i] == 0.0
    ensures LayerNormRow(ops, x, w, b)[i] == (x[i] - MeanOf(x)) * Rstd(ops, x)
  {
    hide Arithmetic, Rstd, MeanOf, Mean, LayerNormRow;
    MeanIs(ops, x);
    var d := x[i] - Mean(ops, x);
    LayerNormAt(ops, x, w, b, i, d, Rstd(ops, x) * d);
  }

  lemma LayerNormAt(ops: Ops<real>, x: Row<real>, w: Row<real>, b: Row<real>, i: nat, d: real, n: real)
    requires Arithmetic(ops) && i < |x| && |w| == |b| == |x|
    requires d == x[i] - Mean(ops, x) && n == Rstd(ops, x) * d
    ensures LayerNormRow(ops, x, w, b)[i] == n * w[i] + b[i]
  {
    hide Arithmetic, Rstd, Mean, LayerNormRow;
    LayerNormCell(ops, x, w, b, i);
    OpsAre(ops, x[i], Mean(ops, x));
    OpsAre(ops, Rstd(ops, x), d);
    assert ops.mul(Rstd(ops, x), ops.sub(x[i], Mean(ops, x))) == n;
    OpsAre(ops, n, w[i]);
    var p := n * w[i];
    assert ops.mul(n, w[i]) == p;
    OpsAre(ops, p, b[i]);
    assert LayerNormRow(ops, x, w, b)[i] == ops.add(p, b[i]);
  }

  lemma SquareAt(x: Row<real>, m: real, i: nat)
    requires i < |x|
    ensures Squares(x, m)[i] == (x[i] - m) * (x[i] - m)
  {
  }

  lemma SquareScaled(x: Row<real>, m: real, z: Row<real>, d: real, s: real, i: nat)
    requires i < |x| == |z| && d == x[i] - m && z[i] == d * s
    ensures Squares(z, 0.0)[i] == Squares(x, m)[i] * (s * s)
  {
    hide Squares;
    SquareAt(z, 0.0, i);
    SquareAt(x, m, i);
    SquareOfProduct(d, s);
  }

  lemma SquareOfProduct(d: real, s: real)
    ensures (d * s - 0.0) * (d * s - 0.0) == d * d * (s * s)
  {
    assert (d * s) * (d * s) == d * d * (s * s);
  }

  lemma MeanSquare(q: real, s: real, v: real)
    requires s * s * v == 1.0
    ensures q * (s * s) * v == q
  {
    assert q * (s * s) * v == q * (s * s * v);
  }

  lemma TotalOfSquares(x: Row<real>)
    requires x != []
    ensures Total(Squares(x, MeanOf(x))) == |x| as real * VarianceOf(x)
  {
  }

  /** Deviations from the mean add up to zero. */
  lemma Deviations(x: Row<real>, d: Row<real>, m: real)
    requires x != [] && m == MeanOf(x) && |d| == |x| && forall i :: 0 <= i < |x| ==> d[i] == x[i] - m
    ensures Total(d) == 0.0
  {
    TotalShifted(x, d, m);
  }

  lemma {:induction false} TotalShifted(x: Row<real>, d: Row<real>, m: real)
    requires |d| == |x| && forall i :: 0 <= i < |x| ==> d[i] == x[i] - m
    ensures Total(d) == Total(x) - |x| as real * m
    decreases |x|
  {
    if x != [] {
      TotalShifted(x[1..], d[1..], m);
    }
  }

  /** Weights and bias act on the elements of that row. */
  lemma LayerNormScales(ops: Ops<real>, x: Row<real>, w: Row<real>, b: Row<real>, ones: Row<real>, zeros: Row<real>, i: nat)
    requires Arithmetic(ops) && |w| == |b| == |x| == |ones| == |zeros| && i < |x| && ones[i] == 1.0 && zeros[i] == 0.0
    ensures LayerNormRow(ops, x, w, b)[i] == LayerNormRow(ops, x, ones, zeros)[i] * w[i] + b[i]
  {
    hide Arithmetic, Rstd, Mean, LayerNormRow;
    var d := x[i] - Mean(ops, x);
    var n := Rstd(ops, x) * d;
    LayerNormAt(ops, x, w, b, i, d, n);
    LayerNormAt(ops, x, ones, zeros, i, d, n);
  }

  // ----- the residual stream -----

  ghost predicate Zeros(w: Row<real>) {
    forall i :: 0 <= i < |w| ==> w[i] == 0.0
  }

  lemma {:induction false} ZeroProducts(x: Row<real>, i: nat, w: Row<real>, j: nat, n: nat)
    requires Zeros(w) && i + n <= |x| && j + n <= |w|
    ensures Products(x, i, w, j, n) == 0.0
    decreases n
  {
    if n > 0 {
      ZeroProducts(x, i + 1, w, j + 1, n - 1);
    }
  }

  lemma ZeroMatmul(ops: Ops<real>, x: seq<Row<real>>, w: Row<real>, b: Row<real>, C: nat, OC: nat, r: nat, o: nat)
    requires Arithmetic(ops) && Width(x, C) && Matrix(w, Some(b), C, OC) && Zeros(w) && Zeros(b) && r < |x| && o < OC
    ensures Matmul(ops, x, w, Some(b), C, OC)[r][o] == 0.0
  {
    hide Arithmetic, MatmulRow, Products;
    MatmulIs(ops, x[r], w, Some(b), OC, o, o * |x[r]|);
    ZeroProducts(x[r], 0, w, o * |x[r]|, |x[r]|);
  }

  /** The halves of a layer add to the stream what their last projection yields: where its weights
      and bias are zero, they leave the stream as it is. */
  lemma ZeroHalves(ops: Ops<real>, l: Layer<real>, x: seq<Row<real>>, T: nat, C: nat, NH: nat, gap: seq<Row<real>>)
    requires Arithmetic(ops) && LayerOk(l, C) && Width(x, C) && T > 0 && NH > 0 && |gap| == |x| && Width(gap, C)
    ensures Zeros(l.attprojw) && Zeros(l.attprojb) ==> AttendHalf(ops, l, x, T, C, NH, gap) == x
    ensures Zeros(l.fcprojw) && Zeros(l.fcprojb) ==> FeedHalf(ops, l, x, C) == x
  {
    hide Arithmetic, LayerNorm, Matmul, Attention, GeluAll, Residual, Zeros;
    var ln1 := LayerNorm(ops, x, l.ln1w, l.ln1b);
    var qkv := Matmul(ops, ln1, l.qkvw, Some(l.qkvb), C, 3 * C);
    var atty := Attention(ops, qkv, T, C, NH, gap);
    if Zeros(l.attprojw) && Zeros(l.attprojb) {
      AddsNothing(ops, x, atty, l.attprojw, l.attprojb, C, C);
    }
    var ln2 := LayerNorm(ops, x, l.ln2w, l.ln2b);
    var fch := Matmul(ops, ln2, l.fcw, Some(l.fcb), C, 4 * C);
    var gelu := GeluAll(ops, fch, 4 * C);
    if Zeros(l.fcprojw) && Zeros(l.fcprojb) {
      AddsNothing(ops, x, gelu, l.fcprojw, l.fcprojb, 4 * C, C);
    }
  }

  lemma AddsNothing(ops: Ops<real>, x: seq<Row<real>>, y: seq<Row<real>>, w: Row<real>, b: Row<real>, K: nat, C: nat)
    requires Arithmetic(ops) && Width(x, C) && Width(y, K) && |x| == |y| && Matrix(w, Some(b), K, C) && Zeros(w) && Zeros(b)
    ensures Residual(ops, x, Matmul(ops, y, w, Some(b), K, C), C) == x
  {
    hide Arithmetic, Matmul, Residual, Zeros, Matrix;
    var z := Matmul(ops, y, w, Some(b), K, C);
    var sum := Residual(ops, x, z, C);
    forall r | 0 <= r < |x| ensures sum[r] == x[r] {
      forall c | 0 <= c < C ensures sum[r][c] == x[r][c] {
        ZeroMatmul(ops, y, w, b, K, C, r, c);
        ResidualIs(ops, x, z, C, r, c);
      }
    }
  }
}
