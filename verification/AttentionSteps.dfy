/** The stores of one unit of `attention_range`, one after the other: to its row of preatt,
    then to its row of att, first the exponentials and then the weights, then to its part of
    out, first zeroes and then the sums. Registers are functions of what has been stored. */
module AttentionSteps {
  import opened Floats
  import opened Transformer
  import opened AttentionIndex
  import opened AttentionKernel
  import Buffers
  import Kernels
  import Indexing

  /** The rows a unit writes. */
  datatype Rows<F> = Rows(pre: Row<F>, att: Row<F>, out: Row<F>)

  datatype Sizes = Sizes(T: nat, C: nat, NH: nat)

  predicate SizesOk(z: Sizes) { z.T > 0 && z.C > 0 && z.NH > 0 }

  function HeadSize(z: Sizes): nat requires z.NH > 0 { z.C / z.NH }

  datatype Phase = Score(j: nat) | Exp(j: nat) | Scale(j: nat) | Zero(j: nat) | Mixing(t2: nat, j: nat)

  /** What step n of a unit at position t does. */
  function PhaseOf(z: Sizes, t: nat, n: nat): Phase
    requires z.NH > 0
  {
    var t1, hs := t + 1, HeadSize(z);
    if n < t1 then Score(n)
    else if n < 2 * t1 then Exp(n - t1)
    else if n < 2 * t1 + z.T then Scale(n - 2 * t1)
    else if n < 2 * t1 + z.T + hs then Zero(n - 2 * t1 - z.T)
    else if hs == 0 then Zero(0)
    else
      var e := n - 2 * t1 - z.T - hs;
      Mixing(e / hs, e % hs)
  }

  function StepCount(z: Sizes, t: nat): nat
    requires z.NH > 0
  {
    2 * (t + 1) + z.T + HeadSize(z) + (t + 1) * HeadSize(z)
  }

  function ScoreCell<F>(ops: Ops<F>, inp: seq<F>, u: Unit, z: Sizes, t2: nat): F
    requires z.NH > 0
  {
    var hs := HeadSize(z);
    var q, k := InpCell(u, z.T, z.C, hs, u.t, 0, 0), InpCell(u, z.T, z.C, hs, t2, 1, 0);
    if q + hs <= |inp| && k + hs <= |inp| then
      ops.mul(Dot(ops, ops.zero, inp[q..q + hs], inp[k..k + hs], hs), ops.div(ops.one, ops.sqrt(ops.ofInt(hs))))
    else ops.zero
  }

  /** The reciprocal of the sum of exponentials, or zero. */
  function Inverse<F>(ops: Ops<F>, scores: Row<F>): F {
    var e := ExpRow(ops, scores);
    var sum := Sum(ops, ops.zero, e, |e|);
    if ops.isZero(sum) then ops.zero else ops.div(ops.one, sum)
  }

  function MixCell<F>(ops: Ops<F>, inp: seq<F>, u: Unit, z: Sizes, r: Rows<F>, t2: nat, i: nat): F
    requires z.NH > 0
  {
    var v := InpCell(u, z.T, z.C, HeadSize(z), t2, 2, 0);
    if i < |r.out| && t2 < |r.att| && v + i < |inp| then
      ops.add(r.out[i], ops.mul(r.att[t2], inp[v + i]))
    else ops.zero
  }

  /** What a step stores, from the input and the unit's rows. */
  function Stored<F>(ops: Ops<F>, inp: seq<F>, u: Unit, z: Sizes, r: Rows<F>, p: Phase): F
    requires z.NH > 0
  {
    match p
    case Score(j) => ScoreCell(ops, inp, u, z, j)
    case Exp(j) => if j < |r.pre| then ops.exp(ops.sub(r.pre[j], Max(ops, r.pre, |r.pre|))) else ops.zero
    case Scale(j) => if j <= u.t && j < |r.att| then ops.mul(r.att[j], Inverse(ops, r.pre)) else ops.zero
    case Zero(_) => ops.zero
    case Mixing(t2, i) => MixCell(ops, inp, u, z, r, t2, i)
  }

  function Put<F>(s: Row<F>, j: nat, v: F): (r: Row<F>)
    ensures |r| == |s|
  {
    if j < |s| then s[j := v] else s
  }

  /** Where it stores it. */
  function RowsStep<F>(r: Rows<F>, p: Phase, v: F): Rows<F> {
    match p
    case Score(j) => r.(pre := Put(r.pre, j, v))
    case Exp(j) => r.(att := Put(r.att, j, v))
    case Scale(j) => r.(att := Put(r.att, j, v))
    case Zero(j) => r.(out := Put(r.out, j, v))
    case Mixing(_, i) => r.(out := Put(r.out, i, v))
  }

  // ----- the rows before each step, in closed form -----

  ghost predicate UnitWell<F>(x: seq<Row<F>>, u: Unit, z: Sizes) {
    SizesOk(z) && UnitOk(u, |x|, z.T, z.NH) && Width(x, 3 * z.C)
  }

  ghost function ScoresOf<F>(ops: Ops<F>, x: seq<Row<F>>, u: Unit, z: Sizes): (s: Row<F>)
    requires UnitWell(x, u, z)
    ensures |s| == u.t + 1
  {
    UnitScores(ops, x, u, z.T, z.C, z.NH)
  }

  ghost function MixOf<F>(ops: Ops<F>, x: seq<Row<F>>, u: Unit, z: Sizes, n: nat): (y: Row<F>)
    requires UnitWell(x, u, z) && n <= u.t + 1
    ensures |y| == HeadSize(z)
  {
    UnitMix(ops, x, u, z.T, z.C, z.NH, n)
  }

  ghost predicate RowsFit<F>(r: Rows<F>, u: Unit, z: Sizes) {
    z.NH > 0 && |r.pre| == u.t + 1 && |r.att| == z.T && |r.out| == HeadSize(z)
  }

  /** The first n cells of `new_`, then those of `old_`. */
  function Over<F>(new_: Row<F>, old_: Row<F>, n: nat): (r: Row<F>)
    requires n <= |new_| && n <= |old_|
    ensures |r| == |old_|
  {
    new_[..n] + old_[n..]
  }

  ghost predicate Before<F>(ops: Ops<F>, x: seq<Row<F>>, u: Unit, z: Sizes, r0: Rows<F>, p: Phase, r: Rows<F>)
    requires UnitWell(x, u, z) && RowsFit(r0, u, z)
  {
    var s := ScoresOf(ops, x, u, z);
    var e, w := ExpRow(ops, s), Padded(ops, s, z.T);
    match p
    case Score(j) => j <= |s| && r == Rows(Over(s, r0.pre, j), r0.att, r0.out)
    case Exp(j) => j <= |s| && r == Rows(s, Over(e, r0.att, j), r0.out)
    case Scale(j) => j <= z.T && r == Rows(s, Over(w, Over(e, r0.att, |e|), j), r0.out)
    case Zero(j) => j <= HeadSize(z) && r == Rows(s, w, Over(ZeroRow(ops, HeadSize(z)), r0.out, j))
    case Mixing(t2, i) =>
      t2 <= u.t + 1 && i <= HeadSize(z)
      && r == Rows(s, w, Over(if t2 <= u.t then MixOf(ops, x, u, z, t2 + 1) else MixOf(ops, x, u, z, t2),
                              MixOf(ops, x, u, z, t2), i))
  }

  /** The phase after one more cell, before looking whether the row is complete. */
  function Advance(p: Phase): Phase {
    match p
    case Score(j) => Score(j + 1)
    case Exp(j) => Exp(j + 1)
    case Scale(j) => Scale(j + 1)
    case Zero(j) => Zero(j + 1)
    case Mixing(t2, i) => Mixing(t2, i + 1)
  }

  /** There is a cell left to store. */
  predicate Inside(u: Unit, z: Sizes, p: Phase)
    requires z.NH > 0
  {
    match p
    case Score(j) => j <= u.t
    case Exp(j) => j <= u.t
    case Scale(j) => j < z.T
    case Zero(j) => j < HeadSize(z)
    case Mixing(t2, i) => t2 <= u.t && i < HeadSize(z)
  }

  lemma PutOver<F>(new_: Row<F>, old_: Row<F>, j: nat)
    requires j < |new_| && j < |old_|
    ensures Put(Over(new_, old_, j), j, new_[j]) == Over(new_, old_, j + 1)
  {
  }

  /** One store moves the closed form by one cell. */
  lemma StoreAdvances<F>(ops: Ops<F>, inp: seq<F>, x: seq<Row<F>>, u: Unit, z: Sizes, r0: Rows<F>, p: Phase, r: Rows<F>)
    requires UnitWell(x, u, z) && RowsFit(r0, u, z) && Buffers.Holds(inp, x, 3 * z.C)
    requires Before(ops, x, u, z, r0, p, r) && Inside(u, z, p)
    ensures Before(ops, x, u, z, r0, Advance(p), RowsStep(r, p, Stored(ops, inp, u, z, r, p)))
  {
    hide ExpRow, Padded, ScoresOf, MixOf, Over, Put, ScoreCell, MixCell, Inverse, UnitWell, Buffers.Holds, ZeroRow;
    UnitWellFacts(x, u, z);
    var s := ScoresOf(ops, x, u, z);
    var e, w := ExpRow(ops, s), Padded(ops, s, z.T);
    match p
    case Score(j) =>
      ScoreStored(ops, inp, x, u, z, j);
      PutOver(s, r0.pre, j);
    case Exp(j) =>
      Kernels.ExpAt(ops, s, j);
      PutOver(e, r0.att, j);
    case Scale(j) =>
      ScaleStored(ops, s, r0.att, z.T, j);
      PutOver(w, Over(e, r0.att, |e|), j);
    case Zero(j) =>
      ZeroAt(ops, HeadSize(z), j);
      PutOver(ZeroRow(ops, HeadSize(z)), r0.out, j);
    case Mixing(t2, i) =>
      MixStored(ops, inp, x, u, z, r, t2, i);
      PutOver(MixOf(ops, x, u, z, t2 + 1), MixOf(ops, x, u, z, t2), i);
  }

  lemma UnitWellFacts<F>(x: seq<Row<F>>, u: Unit, z: Sizes)
    requires UnitWell(x, u, z)
    ensures SizesOk(z) && u.t < z.T
  {
  }

  lemma ScoreStored<F>(ops: Ops<F>, inp: seq<F>, x: seq<Row<F>>, u: Unit, z: Sizes, j: nat)
    requires UnitWell(x, u, z) && Buffers.Holds(inp, x, 3 * z.C) && j <= u.t
    ensures ScoreCell(ops, inp, u, z, j) == ScoresOf(ops, x, u, z)[j]
  {
    hide UnitScores, Dot, InpCell, Buffers.Filled;
    ScoreAt(ops, inp, x, u, z.T, z.C, z.NH, j);
  }

  lemma ScaleStored<F>(ops: Ops<F>, s: Row<F>, old_: Row<F>, T: nat, j: nat)
    requires |s| <= T == |old_| && j < T
    ensures var e, w := ExpRow(ops, s), Padded(ops, s, T);
            var att := Over(w, Over(e, old_, |e|), j);
            w[j] == if j < |s| then ops.mul(att[j], Inverse(ops, s)) else ops.zero
  {
    hide ExpRow, Padded;
    PaddedAt(ops, s, T, j);
  }

  lemma ZeroAt<F>(ops: Ops<F>, n: nat, j: nat)
    requires j < n
    ensures ZeroRow(ops, n)[j] == ops.zero
  {
  }

  lemma MixStored<F>(ops: Ops<F>, inp: seq<F>, x: seq<Row<F>>, u: Unit, z: Sizes, r: Rows<F>, t2: nat, i: nat)
    requires UnitWell(x, u, z) && Buffers.Holds(inp, x, 3 * z.C) && t2 <= u.t && i < HeadSize(z)
    requires r.att == Padded(ops, ScoresOf(ops, x, u, z), z.T)
    requires r.out == Over(MixOf(ops, x, u, z, t2 + 1), MixOf(ops, x, u, z, t2), i)
    ensures MixCell(ops, inp, u, z, r, t2, i) == MixOf(ops, x, u, z, t2 + 1)[i]
  {
    hide UnitScores, UnitMix, Weights, InpCell, Buffers.Filled;
    MixStep(ops, inp, x, u, z.T, z.C, z.NH, t2);
    var v, hs := InpCell(u, z.T, z.C, HeadSize(z), t2, 2, 0), HeadSize(z);
    assert inp[v..v + hs][i] == inp[v + i];
  }

  /** A complete row and the empty start of the next are the same. */
  lemma RowComplete<F>(ops: Ops<F>, x: seq<Row<F>>, u: Unit, z: Sizes, r0: Rows<F>, p: Phase, q: Phase, r: Rows<F>)
    requires UnitWell(x, u, z) && RowsFit(r0, u, z) && Before(ops, x, u, z, r0, p, r)
    requires Follows(u, z, p, q)
    ensures Before(ops, x, u, z, r0, q, r)
  {
    hide ExpRow, Padded, ScoresOf, MixOf, ZeroRow;
    UnitWellFacts(x, u, z);
    if p.Zero? {
      NothingMixed(ops, x, u, z);
    }
  }

  lemma NothingMixed<F>(ops: Ops<F>, x: seq<Row<F>>, u: Unit, z: Sizes)
    requires UnitWell(x, u, z)
    ensures MixOf(ops, x, u, z, 0) == ZeroRow(ops, HeadSize(z))
  {
    MixStart(ops, x, u, z.T, z.C, z.NH);
  }

  predicate Follows(u: Unit, z: Sizes, p: Phase, q: Phase)
    requires z.NH > 0
  {
    || (p == Score(u.t + 1) && q == Exp(0))
    || (p == Exp(u.t + 1) && q == Scale(0))
    || (p == Scale(z.T) && q == Zero(0))
    || (p == Zero(HeadSize(z)) && q == Mixing(0, 0))
    || (p.Mixing? && p.t2 <= u.t && p.j == HeadSize(z) && q == Mixing(p.t2 + 1, 0))
  }

  /** The phase of the next step is the advanced one, or the one that follows it. */
  lemma NextPhase(z: Sizes, u: Unit, n: nat)
    requires SizesOk(z) && u.t < z.T && n < StepCount(z, u.t)
    ensures var p, q := PhaseOf(z, u.t, n), PhaseOf(z, u.t, n + 1);
            Inside(u, z, p) && (q == Advance(p) || Follows(u, z, Advance(p), q))
  {
    var t1, hs := u.t + 1, HeadSize(z);
    if hs == 0 {
      assert t1 * hs == 0;
    } else if n >= 2 * t1 + z.T + hs {
      var e := n - 2 * t1 - z.T - hs;
      Indexing.Join(e, hs);
      Indexing.RowBound(e, t1, hs);
      Indexing.NextCell(e, hs);
    } else if n + 1 == 2 * t1 + z.T + hs {
      Indexing.Split(0, 0, hs);
    }
  }

  /** One step of a unit, from the closed form to the next. */
  lemma UnitStep<F>(ops: Ops<F>, inp: seq<F>, x: seq<Row<F>>, u: Unit, z: Sizes, r0: Rows<F>, n: nat, r: Rows<F>)
    requires UnitWell(x, u, z) && RowsFit(r0, u, z) && Buffers.Holds(inp, x, 3 * z.C) && n < StepCount(z, u.t)
    requires Before(ops, x, u, z, r0, PhaseOf(z, u.t, n), r)
    ensures var p := PhaseOf(z, u.t, n);
            Before(ops, x, u, z, r0, PhaseOf(z, u.t, n + 1), RowsStep(r, p, Stored(ops, inp, u, z, r, p)))
  {
    hide Before, UnitWell, RowsFit, Buffers.Holds, PhaseOf, StepCount, Stored, RowsStep, Follows, Inside;
    UnitWellFacts(x, u, z);
    NextPhase(z, u, n);
    var p, q := PhaseOf(z, u.t, n), PhaseOf(z, u.t, n + 1);
    StoreAdvances(ops, inp, x, u, z, r0, p, r);
    if q != Advance(p) {
      RowComplete(ops, x, u, z, r0, Advance(p), q, RowsStep(r, p, Stored(ops, inp, u, z, r, p)));
    }
  }

  lemma UnitBegin<F>(ops: Ops<F>, x: seq<Row<F>>, u: Unit, z: Sizes, r0: Rows<F>)
    requires UnitWell(x, u, z) && RowsFit(r0, u, z)
    ensures Before(ops, x, u, z, r0, PhaseOf(z, u.t, 0), r0)
  {
    hide ScoresOf;
  }

  /** After all its steps a unit's rows are its scores, its weights and its output. */
  lemma UnitEnd<F>(ops: Ops<F>, x: seq<Row<F>>, u: Unit, z: Sizes, r0: Rows<F>, r: Rows<F>)
    requires UnitWell(x, u, z) && RowsFit(r0, u, z)
    requires Before(ops, x, u, z, r0, PhaseOf(z, u.t, StepCount(z, u.t)), r)
    ensures r == Rows(UnitScores(ops, x, u, z.T, z.C, z.NH),
                      Padded(ops, UnitScores(ops, x, u, z.T, z.C, z.NH), z.T),
                      UnitOut(ops, x, u, z.T, z.C, z.NH))
  {
    hide Padded, UnitScores, UnitMix, ExpRow, PhaseOf, StepCount, UnitOk;
    LastPhase(z, u.t);
  }

  lemma LastPhase(z: Sizes, t: nat)
    requires SizesOk(z)
    ensures PhaseOf(z, t, StepCount(z, t)) == if HeadSize(z) == 0 then Zero(0) else Mixing(t + 1, 0)
  {
    if HeadSize(z) > 0 {
      Indexing.Split(t + 1, 0, HeadSize(z));
    } else {
      assert (t + 1) * HeadSize(z) == 0;
    }
  }
}
