/** `attention_range`: scores, exponentials, weights and the weighted sum of the values, for
    one position and one head at a time. */
module AttentionKernel {
  import opened Floats
  import opened Transformer
  import opened Buffers
  import opened AttentionIndex
  import Indexing
  import Kernels

  /** What a unit works on: the rows it may see, and its place. */
  ghost predicate UnitOk(u: Unit, n: nat, T: nat, NH: nat) {
    u.t < T && u.h < NH && u.b * T + T <= n
  }

  ghost function Seen<F>(x: seq<Row<F>>, u: Unit, T: nat): (xs: seq<Row<F>>)
    requires u.t < T && u.b * T + T <= |x|
    ensures |xs| == u.t + 1
  {
    x[u.b * T..u.b * T + u.t + 1]
  }

  lemma SeenWidth<F>(x: seq<Row<F>>, u: Unit, T: nat, n: nat)
    requires u.t < T && u.b * T + T <= |x| && Width(x, n)
    ensures Width(Seen(x, u, T), n)
  {
  }

  lemma SeenIsHistory<F>(x: seq<Row<F>>, u: Unit, T: nat)
    requires u.t < T && u.b * T + T <= |x|
    ensures Seen(x, u, T) == History(x, u.b * T + u.t, T)
  {
    Indexing.Split(u.b, u.t, T);
  }

  /** The stretch of the input that holds the query, key or value of one head. */
  lemma HeadPart<F>(inp: seq<F>, x: seq<Row<F>>, u: Unit, T: nat, C: nat, NH: nat, t2: nat, which: nat)
    requires Holds(inp, x, 3 * C) && NH > 0 && u.h < NH && u.b * T + t2 < |x| && which < 3
    ensures var hs := C / NH;
            var at := InpCell(u, T, C, hs, t2, which, 0);
            && u.h * hs + hs <= C && |x[u.b * T + t2]| == 3 * C && at + hs <= |inp|
            && inp[at..at + hs] == Part(x[u.b * T + t2], which, u.h, C, hs)
  {
    hide Filled, CellIs, Part, InpCell;
    var hs, row := C / NH, u.b * T + t2;
    HeadFits(C, NH, u.h);
    InpCellIs(u, T, C, hs, t2, which, 0);
    RowAt(inp, x, 3 * C, row);
    Indexing.Inside(row, 0, |x|, 3 * C);
    PartAt(inp, row * (3 * C), x[row], which, u.h, C, hs);
  }

  lemma PartAt<F>(inp: seq<F>, base: nat, row: Row<F>, which: nat, h: nat, C: nat, hs: nat)
    requires |row| == 3 * C && base + 3 * C <= |inp| && inp[base..base + 3 * C] == row
    requires which < 3 && h * hs + hs <= C
    ensures var at := base + (which * C + h * hs);
            at + hs <= |inp| && inp[at..at + hs] == Part(row, which, h, C, hs)
  {
    assert which * C + C <= 3 * C;
    StretchOf(inp, base, 3 * C, which * C + h * hs, hs);
  }

  lemma StretchOf<F>(s: seq<F>, base: nat, n: nat, off: nat, len: nat)
    requires base + n <= |s| && off + len <= n
    ensures s[base + off..base + off + len] == s[base..base + n][off..off + len]
  {
    var a, b := s[base + off..base + off + len], s[base..base + n][off..off + len];
    forall i | 0 <= i < len ensures a[i] == b[i] {
      assert a[i] == s[base + off + i];
      assert b[i] == s[base..base + n][off + i];
    }
  }

  ghost function UnitScores<F>(ops: Ops<F>, x: seq<Row<F>>, u: Unit, T: nat, C: nat, NH: nat): (s: Row<F>)
    requires NH > 0 && UnitOk(u, |x|, T, NH) && Width(x, 3 * C)
    ensures |s| == u.t + 1
  {
    HeadFits(C, NH, u.h);
    SeenWidth(x, u, T, 3 * C);
    Scores(ops, Seen(x, u, T), u.h, C, C / NH)
  }

  /** The query of a unit times the key of position t2, scaled. */
  method Score<F>(ops: Ops<F>, inp: seq<F>, u: Unit, T: nat, C: nat, NH: nat, t2: nat,
                  ghost x: seq<Row<F>>) returns (val: F)
    requires Holds(inp, x, 3 * C) && NH > 0 && UnitOk(u, |x|, T, NH) && t2 <= u.t
    ensures val == UnitScores(ops, x, u, T, C, NH)[t2]
  {
    hide Holds, UnitOk, Width, Dot, InpCell, UnitScores;
    UnitFacts(inp, x, u, T, C, NH);
    ScoreAt(ops, inp, x, u, T, C, NH, t2);
    var hs := C / NH;
    var scale := ops.div(ops.one, ops.sqrt(ops.ofInt(hs)));
    var q, k := InpCell(u, T, C, hs, u.t, 0, 0), InpCell(u, T, C, hs, t2, 1, 0);
    val := Kernels.DotLoop(ops, ops.zero, inp[q..q + hs], inp[k..k + hs], hs);
    val := ops.mul(val, scale);
  }

  /** The scores of a unit, and their maximum. */
  method ScoreLoop<F>(ops: Ops<F>, preatt: array<F>, at: nat, inp: seq<F>, u: Unit, T: nat, C: nat, NH: nat,
                      ghost x: seq<Row<F>>) returns (maxval: F)
    requires Holds(inp, x, 3 * C) && NH > 0 && UnitOk(u, |x|, T, NH) && at + T <= preatt.Length
    modifies preatt
    ensures var s := UnitScores(ops, x, u, T, C, NH);
            RowStored(preatt[..], old(preatt[..]), s, at) && maxval == Max(ops, s, |s|)
  {
    hide Holds, UnitOk, Width, Written, RowStored, UnitScores;
    UnitFacts(inp, x, u, T, C, NH);
    ghost var s := UnitScores(ops, x, u, T, C, NH);
    maxval := ops.lowest;
    ghost var before, row := preatt[..], preatt[at..at + u.t + 1];
    StartWriting(before, at, s);
    for t2 := 0 to u.t + 1
      invariant Written(preatt[..], before, at, s, row, t2)
      invariant maxval == Max(ops, s, t2)
    {
      var val := Score(ops, inp, u, T, C, NH, t2, x);
      if ops.greater(val, maxval) {
        maxval := val;
      }
      StepWriting(preatt[..], before, at, s, row, t2);
      ghost var now := preatt[..];
      preatt[at + t2] := val;
      assert preatt[..] == now[at + t2 := val];
    }
    EndWriting(preatt[..], before, at, s, row);
  }

  lemma UnitFacts<F>(inp: seq<F>, x: seq<Row<F>>, u: Unit, T: nat, C: nat, NH: nat)
    requires Holds(inp, x, 3 * C) && UnitOk(u, |x|, T, NH)
    ensures Width(x, 3 * C) && u.t < T
  {
  }

  /** Score t2 of a unit, from the cells of the input that hold its query and that key. */
  lemma ScoreAt<F>(ops: Ops<F>, inp: seq<F>, x: seq<Row<F>>, u: Unit, T: nat, C: nat, NH: nat, t2: nat)
    requires Holds(inp, x, 3 * C) && NH > 0 && UnitOk(u, |x|, T, NH) && t2 <= u.t
    ensures var hs := C / NH;
            var q, k := InpCell(u, T, C, hs, u.t, 0, 0), InpCell(u, T, C, hs, t2, 1, 0);
            && q + hs <= |inp| && k + hs <= |inp|
            && UnitScores(ops, x, u, T, C, NH)[t2]
            == ops.mul(Dot(ops, ops.zero, inp[q..q + hs], inp[k..k + hs], hs),
                       ops.div(ops.one, ops.sqrt(ops.ofInt(hs))))
  {
    hide Filled, CellIs, Dot, Part, InpCell;
    HeadPart(inp, x, u, T, C, NH, u.t, 0);
    HeadPart(inp, x, u, T, C, NH, t2, 1);
  }

  /** The attention row of a unit: its weights, and zero for the positions it must not see. */
  function Padded<F>(ops: Ops<F>, s: Row<F>, T: nat): (w: Row<F>)
    requires |s| <= T
    ensures |w| == T
  {
    Weights(ops, s) + seq(T - |s|, _ => ops.zero)
  }

  /** Scales the exponentials in place. */
  method ScaleLoop<F>(ops: Ops<F>, att: array<F>, at: nat, t: nat, T: nat, expsum: F, ghost s: Row<F>)
    requires t < T && |s| == t + 1 && at + T <= att.Length
    requires att[at..at + |s|] == ExpRow(ops, s)
    requires expsum == Sum(ops, ops.zero, ExpRow(ops, s), |s|)
    modifies att
    ensures RowStored(att[..], old(att[..]), Padded(ops, s, T), at)
  {
    hide Written, RowStored, Padded, ExpRow, Sum;
    ghost var w, full := Padded(ops, s, T), att[at..at + T];
    var inv := if ops.isZero(expsum) then ops.zero else ops.div(ops.one, expsum);
    ghost var before := att[..];
    StartWriting(before, at, w);
    assert full[..t + 1] == att[at..at + t + 1];
    for t2 := 0 to T
      invariant Written(att[..], before, at, w, full, t2)
    {
      var v := ops.zero;
      StepWriting(att[..], before, at, w, full, t2);
      PaddedAt(ops, s, T, t2);
      if t2 <= t {
        assert full[t2] == full[..t + 1][t2];
        v := ops.mul(att[at + t2], inv);
      }
      ghost var now := att[..];
      att[at + t2] := v;
      assert att[..] == now[at + t2 := v];
    }
    EndWriting(att[..], before, at, w, full);
  }

  lemma PaddedAt<F>(ops: Ops<F>, s: Row<F>, T: nat, t2: nat)
    requires |s| <= T && t2 < T
    ensures var e := ExpRow(ops, s);
            var sum := Sum(ops, ops.zero, e, |e|);
            var inv := if ops.isZero(sum) then ops.zero else ops.div(ops.one, sum);
            Padded(ops, s, T)[t2] == if t2 < |s| then ops.mul(e[t2], inv) else ops.zero
  {
  }

  /** The weighted sum of the first n values a unit sees. */
  ghost function UnitMix<F>(ops: Ops<F>, x: seq<Row<F>>, u: Unit, T: nat, C: nat, NH: nat, n: nat): (y: Row<F>)
    requires NH > 0 && UnitOk(u, |x|, T, NH) && Width(x, 3 * C) && n <= u.t + 1
    ensures |y| == C / NH
  {
    HeadFits(C, NH, u.h);
    SeenWidth(x, u, T, 3 * C);
    MixRow(ops, Weights(ops, UnitScores(ops, x, u, T, C, NH)), Seen(x, u, T), u.h, C, C / NH, n)
  }

  ghost function MixRow<F>(ops: Ops<F>, w: Row<F>, xs: seq<Row<F>>, h: nat, C: nat, hs: nat, n: nat): (y: Row<F>)
    requires Width(xs, 3 * C) && h * hs + hs <= C && n <= |xs| && n <= |w|
    ensures |y| == hs
  {
    seq(hs, i requires 0 <= i < hs => Mix(ops, w, xs, h, C, hs, i, n))
  }

  /** What a unit must store in `out`. */
  ghost function UnitOut<F>(ops: Ops<F>, x: seq<Row<F>>, u: Unit, T: nat, C: nat, NH: nat): (y: Row<F>)
    requires NH > 0 && UnitOk(u, |x|, T, NH) && Width(x, 3 * C)
    ensures |y| == C / NH
  {
    UnitMix(ops, x, u, T, C, NH, u.t + 1)
  }

  /** The weighted sum of the values, accumulated in place. */
  method MixLoop<F>(ops: Ops<F>, out: array<F>, ob: nat, att: seq<F>, at: nat, inp: seq<F>,
                    u: Unit, T: nat, C: nat, NH: nat, ghost x: seq<Row<F>>)
    requires Holds(inp, x, 3 * C) && NH > 0 && UnitOk(u, |x|, T, NH)
    requires ob + C / NH <= out.Length && at + u.t + 1 <= |att|
    requires att[at..at + u.t + 1] == Weights(ops, UnitScores(ops, x, u, T, C, NH))
    modifies out
    ensures RowStored(out[..], old(out[..]), UnitOut(ops, x, u, T, C, NH), ob)
  {
    hide Filled, CellIs, Part, Weights, UnitScores, RowStored, UnitMix, ZeroRow, Added, InpCell;
    var hs := C / NH;
    ghost var before := out[..];
    ZeroLoop(ops, out, ob, hs);
    MixStart(ops, x, u, T, C, NH);
    for t2 := 0 to u.t + 1
      invariant RowStored(out[..], before, UnitMix(ops, x, u, T, C, NH, t2), ob)
    {
      MixStep(ops, inp, x, u, T, C, NH, t2);
      var v := InpCell(u, T, C, hs, t2, 2, 0);
      assert att[at + t2] == att[at..at + u.t + 1][t2];
      AddLoop(ops, out, ob, att[at + t2], inp[v..v + hs], before, UnitMix(ops, x, u, T, C, NH, t2));
    }
  }

  lemma MixStart<F>(ops: Ops<F>, x: seq<Row<F>>, u: Unit, T: nat, C: nat, NH: nat)
    requires Width(x, 3 * C) && NH > 0 && UnitOk(u, |x|, T, NH)
    ensures UnitMix(ops, x, u, T, C, NH, 0) == ZeroRow(ops, C / NH)
  {
    hide Weights, UnitScores;
  }

  lemma MixStep<F>(ops: Ops<F>, inp: seq<F>, x: seq<Row<F>>, u: Unit, T: nat, C: nat, NH: nat, t2: nat)
    requires Holds(inp, x, 3 * C) && NH > 0 && UnitOk(u, |x|, T, NH) && t2 <= u.t
    ensures var v := InpCell(u, T, C, C / NH, t2, 2, 0);
            && v + C / NH <= |inp|
            && Added(ops, UnitMix(ops, x, u, T, C, NH, t2), Weights(ops, UnitScores(ops, x, u, T, C, NH))[t2], inp[v..v + C / NH])
            == UnitMix(ops, x, u, T, C, NH, t2 + 1)
  {
    hide Filled, CellIs, Part, Weights, UnitScores, InpCell;
    HeadPart(inp, x, u, T, C, NH, t2, 2);
    assert Seen(x, u, T)[t2] == x[u.b * T + t2];
  }

  ghost function ZeroRow<F>(ops: Ops<F>, hs: nat): (y: Row<F>)
    ensures |y| == hs
  {
    seq(hs, _ => ops.zero)
  }

  ghost function Added<F>(ops: Ops<F>, acc: Row<F>, weight: F, value: Row<F>): (y: Row<F>)
    requires |acc| == |value|
    ensures |y| == |acc|
  {
    seq(|acc|, i requires 0 <= i < |acc| => ops.add(acc[i], ops.mul(weight, value[i])))
  }

  method ZeroLoop<F>(ops: Ops<F>, out: array<F>, ob: nat, hs: nat)
    requires ob + hs <= out.Length
    modifies out
    ensures RowStored(out[..], old(out[..]), ZeroRow(ops, hs), ob)
  {
    hide Written, RowStored;
    ghost var y := ZeroRow(ops, hs);
    ghost var before, row := out[..], out[ob..ob + hs];
    StartWriting(before, ob, y);
    for i := 0 to hs
      invariant Written(out[..], before, ob, y, row, i)
    {
      StepWriting(out[..], before, ob, y, row, i);
      ghost var now := out[..];
      out[ob + i] := ops.zero;
      assert out[..] == now[ob + i := ops.zero];
    }
    EndWriting(out[..], before, ob, y, row);
  }

  method AddLoop<F>(ops: Ops<F>, out: array<F>, ob: nat, weight: F, value: Row<F>,
                    ghost before: seq<F>, ghost acc: Row<F>)
    requires RowStored(out[..], before, acc, ob) && |acc| == |value|
    modifies out
    ensures RowStored(out[..], before, Added(ops, acc, weight, value), ob)
  {
    hide Written, RowStored;
    ghost var y := Added(ops, acc, weight, value);
    StartRewriting(out[..], before, ob, y, acc);
    for i := 0 to |value|
      invariant Written(out[..], before, ob, y, acc, i)
    {
      StepWriting(out[..], before, ob, y, acc, i);
      var v := ops.add(out[ob + i], ops.mul(weight, value[i]));
      ghost var now := out[..];
      out[ob + i] := v;
      assert out[..] == now[ob + i := v];
    }
    EndWriting(out[..], before, ob, y, acc);
  }

  // ----- one unit -----

  /** The body of the loop of `attention_range`. */
  method AttentionUnit<F>(ops: Ops<F>, u: Unit, at: nat, ob: nat, out: array<F>, preatt: array<F>, att: array<F>,
                          inp: seq<F>, T: nat, C: nat, NH: nat, ghost x: seq<Row<F>>)
    requires Holds(inp, x, 3 * C) && NH > 0 && UnitOk(u, |x|, T, NH)
    requires out != preatt && out != att && preatt != att
    requires at + T <= preatt.Length && at + T <= att.Length && ob + C / NH <= out.Length
    modifies out, preatt, att
    ensures RowStored(preatt[..], old(preatt[..]), UnitScores(ops, x, u, T, C, NH), at)
    ensures RowStored(att[..], old(att[..]), Padded(ops, UnitScores(ops, x, u, T, C, NH), T), at)
    ensures RowStored(out[..], old(out[..]), UnitOut(ops, x, u, T, C, NH), ob)
  {
    hide Filled, CellIs, UnitScores, Weights, Max, Sum, Kept, UnitOut;
    HeadFits(C, NH, u.h);
    ghost var s := UnitScores(ops, x, u, T, C, NH);
    ghost var att0 := att[..];
    var maxval := ScoreLoop(ops, preatt, at, inp, u, T, C, NH, x);
    var expsum := Kernels.ExpLoop(ops, att, at, preatt[at..at + u.t + 1], maxval);
    ghost var att1 := att[..];
    ScaleLoop(ops, att, at, u.t, T, expsum, s);
    StoredOver(att[..], att1, att0, Padded(ops, s, T), ExpRow(ops, s), at);
    ghost var w := Padded(ops, s, T);
    assert w[..u.t + 1] == Weights(ops, s);
    assert att[at..at + T][..u.t + 1] == att[..][at..at + u.t + 1];
    MixLoop(ops, out, ob, att[..], at, inp, u, T, C, NH, x);
  }
}
