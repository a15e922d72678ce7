/** `attention_range` over a range of units, and what all units together compute. */
module AttentionRange {
  import opened Floats
  import opened Transformer
  import opened Buffers
  import opened AttentionIndex
  import opened AttentionColumns
  import opened AttentionKernel
  import Indexing

  /** B batches of T positions, C channels in NH heads. */
  ghost predicate Sizes<F>(x: seq<Row<F>>, B: nat, T: nat, C: nat, NH: nat) {
    T > 0 && C > 0 && NH > 0 && |x| == B * T && Width(x, 3 * C)
  }

  lemma UnitInRange<F>(x: seq<Row<F>>, B: nat, T: nat, C: nat, NH: nat, unit: nat)
    requires Sizes(x, B, T, C, NH) && unit < B * (T * NH)
    ensures UnitOk(Decode(unit, T, NH), |x|, T, NH)
  {
    DecodeInRange(unit, B, T, NH);
    Indexing.MulMono(Decode(unit, T, NH).b + 1, B, T);
  }

  /** The row of preatt and att that belongs to a unit. */
  function AttRow(u: Unit, T: nat, NH: nat): nat { (u.b * NH + u.h) * T + u.t }

  lemma AttRowInside(u: Unit, B: nat, T: nat, NH: nat)
    requires u.b < B && u.t < T && u.h < NH
    ensures AttRow(u, T, NH) * T + T <= B * NH * T * T
    ensures AttCell(u, T, NH, 0) == AttRow(u, T, NH) * T
  {
    AttCellIs(u, T, NH, 0);
    AttCellInside(u, B, T, NH, T - 1);
    AttCellIs(u, T, NH, T - 1);
  }

  lemma AttRowsDiffer(u: Unit, v: Unit, T: nat, NH: nat)
    requires u.t < T && v.t < T && u.h < NH && v.h < NH && u != v
    ensures AttRow(u, T, NH) != AttRow(v, T, NH)
  {
    if AttRow(u, T, NH) == AttRow(v, T, NH) {
      AttCellIs(u, T, NH, 0);
      AttCellIs(v, T, NH, 0);
      AttCellsDisjoint(u, v, T, NH, 0, 0);
    }
  }

  /** The tensor that memory holding `gap` in `out` ends with. */
  ghost predicate GapOk<F>(gap: seq<Row<F>>, x: seq<Row<F>>, C: nat) {
    |gap| == |x| && Width(gap, C)
  }

  /** What a unit stores is its part of the attention tensor, whatever `out` held. */
  lemma UnitFits<F>(ops: Ops<F>, x: seq<Row<F>>, B: nat, T: nat, C: nat, NH: nat, unit: nat, gap: seq<Row<F>>)
    requires Sizes(x, B, T, C, NH) && unit < B * (T * NH) && GapOk(gap, x, C)
    ensures UnitOk(Decode(unit, T, NH), |x|, T, NH)
    ensures RowFits(UnitOut(ops, x, Decode(unit, T, NH), T, C, NH), Attention(ops, x, T, C, NH, gap), C, OutStart(unit, T, C, NH))
  {
    hide CellIs, Mix, Scores, Weights, OutStart, Attention, UnitOut, Decode;
    UnitInRange(x, B, T, C, NH, unit);
    var u, y := Decode(unit, T, NH), Attention(ops, x, T, C, NH, gap);
    var row := UnitOut(ops, x, u, T, C, NH);
    forall i | 0 <= i < |row| ensures CellIs(row[i], y, C, OutStart(unit, T, C, NH) + i) {
      var r, j := PartColumns(B, T, C, NH, unit, i);
      UnitCell(ops, x, T, C, NH, u, i, gap);
    }
  }

  lemma UnitCell<F>(ops: Ops<F>, x: seq<Row<F>>, T: nat, C: nat, NH: nat, u: Unit, i: nat, gap: seq<Row<F>>)
    requires T > 0 && NH > 0 && Width(x, 3 * C) && GapOk(gap, x, C)
    requires UnitOk(u, |x|, T, NH) && i < C / NH
    ensures CellIs(UnitOut(ops, x, u, T, C, NH)[i], Attention(ops, x, T, C, NH, gap), C,
                   (u.b * T + u.t) * C + (u.h * (C / NH) + i))
  {
    hide CellIs, History, InHead, AttentionAt, UnitOut, Attention;
    var hs, r := C / NH, u.b * T + u.t;
    var c, y := u.h * hs + i, Attention(ops, x, T, C, NH, gap);
    HeadInside(C, NH, u.h, i);
    SeenIsHistory(x, u, T);
    ColumnInHead(C, NH, u.h, i);
    SeenWidth(x, u, T, 3 * C);
    TensorCell(ops, x, T, C, NH, gap, r, c);
    OutIsAttention(ops, x, u, T, C, NH, i);
    CellAt(y[r][c], y, C, r, c);
  }

  lemma TensorCell<F>(ops: Ops<F>, x: seq<Row<F>>, T: nat, C: nat, NH: nat, gap: seq<Row<F>>, r: nat, c: nat)
    requires Width(x, 3 * C) && T > 0 && NH > 0 && GapOk(gap, x, C) && r < |x| && c < C && InHead(C, NH, c)
    ensures Attention(ops, x, T, C, NH, gap)[r][c] == AttentionAt(ops, History(x, r, T), C, NH, c)
  {
    hide AttentionAt, History, InHead;
  }

  lemma OutIsAttention<F>(ops: Ops<F>, x: seq<Row<F>>, u: Unit, T: nat, C: nat, NH: nat, i: nat)
    requires NH > 0 && Width(x, 3 * C) && UnitOk(u, |x|, T, NH) && i < C / NH
    requires Width(Seen(x, u, T), 3 * C) && InHead(C, NH, u.h * (C / NH) + i)
    ensures UnitOut(ops, x, u, T, C, NH)[i] == AttentionAt(ops, Seen(x, u, T), C, NH, u.h * (C / NH) + i)
  {
    hide Mix, Weights, Seen;
    Indexing.Split(u.h, i, C / NH);
  }

  lemma ColumnInHead(C: nat, NH: nat, h: nat, i: nat)
    requires h < NH && i < C / NH
    ensures InHead(C, NH, h * (C / NH) + i)
  {
    Indexing.Inside(h, i, NH, C / NH);
  }

  /** The cells of the units of a range hold the tensor, all others are as they were. */
  ghost predicate RangeDone<F>(now: seq<F>, before: seq<F>, y: seq<Row<F>>, T: nat, C: nat, NH: nat, begin: int, end: int)
    requires T > 0 && NH > 0
  {
    |now| == |before| && forall c: nat :: c < |now| ==> CellDone(now, before, y, T, C, NH, begin, end, c)
  }

  ghost predicate CellDone<F>(now: seq<F>, before: seq<F>, y: seq<Row<F>>, T: nat, C: nat, NH: nat, begin: int, end: int, c: nat)
    requires T > 0 && NH > 0 && c < |now| == |before|
  {
    if InSomePart(c, begin, end, T, C, NH) then CellIs(now[c], y, C, c) else now[c] == before[c]
  }

  lemma PartDone<F>(now: seq<F>, prev: seq<F>, before: seq<F>, y: seq<Row<F>>, T: nat, C: nat, NH: nat,
                    begin: nat, unit: nat, row: Row<F>)
    requires T > 0 && NH > 0 && begin <= unit && |row| == C / NH
    requires RangeDone(prev, before, y, T, C, NH, begin, unit)
    requires RowStored(now, prev, row, OutStart(unit, T, C, NH)) && RowFits(row, y, C, OutStart(unit, T, C, NH))
    ensures RangeDone(now, before, y, T, C, NH, begin, unit + 1)
  {
    hide CellIs, OutStart;
    var at, end := OutStart(unit, T, C, NH), unit + 1;
    forall c: nat | c < |now| ensures CellDone(now, before, y, T, C, NH, begin, end, c) {
      assert CellDone(prev, before, y, T, C, NH, begin, unit, c);
      if at <= c < at + |row| {
        assert InPart(c, unit, T, C, NH);
        assert now[c] == now[at..at + |row|][c - at] == row[c - at];
      } else {
        MorePart(c, begin, unit, T, C, NH);
      }
    }
  }

  lemma MorePart(c: int, begin: int, unit: int, T: nat, C: nat, NH: nat)
    requires T > 0 && NH > 0 && !InPart(c, unit, T, C, NH)
    ensures InSomePart(c, begin, unit + 1, T, C, NH) <==> InSomePart(c, begin, unit, T, C, NH)
  {
  }

  /** All units done, on a buffer that held `gap`: it holds the attention tensor. */
  lemma AllUnitsDone<F>(ops: Ops<F>, now: seq<F>, before: seq<F>, x: seq<Row<F>>, B: nat, T: nat, C: nat, NH: nat, gap: seq<Row<F>>)
    requires Sizes(x, B, T, C, NH) && GapOk(gap, x, C) && Holds(before, gap, C)
    requires RangeDone(now, before, Attention(ops, x, T, C, NH, gap), T, C, NH, 0, B * (T * NH))
    ensures Holds(now, Attention(ops, x, T, C, NH, gap), C)
  {
    hide CellIs, InSomePart, Attention, Filled;
    var y := Attention(ops, x, T, C, NH, gap);
    forall j | 0 <= j < |now| ensures CellIs(now[j], y, C, j) {
      assert CellDone(now, before, y, T, C, NH, 0, B * (T * NH), j);
      var r, c := CellOf(before, gap, C, j);
      ColumnOwnedIff(B, T, C, NH, r, c);
      if !InHead(C, NH, c) {
        GapStays(ops, x, T, C, NH, gap, r, c);
        CellAt(y[r][c], y, C, r, c);
      }
    }
    HoldsAll(now, y, C);
  }

  lemma HoldsAll<F>(s: seq<F>, y: seq<Row<F>>, C: nat)
    requires C > 0 && |s| == |y| * C && Width(y, C) && forall j :: 0 <= j < |s| ==> CellIs(s[j], y, C, j)
    ensures Holds(s, y, C)
  {
    hide CellIs;
  }

  lemma GapStays<F>(ops: Ops<F>, x: seq<Row<F>>, T: nat, C: nat, NH: nat, gap: seq<Row<F>>, r: nat, c: nat)
    requires Width(x, 3 * C) && T > 0 && NH > 0 && GapOk(gap, x, C) && r < |x| && c < C && !InHead(C, NH, c)
    ensures Attention(ops, x, T, C, NH, gap)[r][c] == gap[r][c]
  {
    hide AttentionAt, History;
  }

  /** The attention weights of a unit are in place: normalised for the positions it sees,
      zero for all later ones. */
  ghost predicate WeightsStored<F>(ops: Ops<F>, att: seq<F>, x: seq<Row<F>>, B: nat, T: nat, C: nat, NH: nat, unit: nat) {
    if !(Sizes(x, B, T, C, NH) && unit < B * (T * NH) && |att| == B * NH * T * T) then true
    else
      UnitInRange(x, B, T, C, NH, unit);
      DecodeInRange(unit, B, T, NH);
      AttRowInside(Decode(unit, T, NH), B, T, NH);
      var u := Decode(unit, T, NH);
      var at := AttRow(u, T, NH) * T;
      att[at..at + T] == Padded(ops, UnitScores(ops, x, u, T, C, NH), T)
  }

  lemma WeightsKept<F>(ops: Ops<F>, now: seq<F>, prev: seq<F>, row: Row<F>, x: seq<Row<F>>,
                       B: nat, T: nat, C: nat, NH: nat, unit: nat, other: nat)
    requires Sizes(x, B, T, C, NH) && unit < B * (T * NH) && other < B * (T * NH) && unit != other
    requires |now| == B * NH * T * T && |row| <= T
    requires RowStored(now, prev, row, AttRow(Decode(unit, T, NH), T, NH) * T)
    requires WeightsStored(ops, prev, x, B, T, C, NH, other)
    ensures WeightsStored(ops, now, x, B, T, C, NH, other)
  {
    hide Padded;
    var u, v := Decode(unit, T, NH), Decode(other, T, NH);
    DecodeInRange(unit, B, T, NH);
    DecodeInRange(other, B, T, NH);
    AttRowsDiffer(u, v, T, NH);
    AttRowInside(v, B, T, NH);
    RowsApart(now, prev, row, AttRow(u, T, NH), AttRow(v, T, NH), T);
  }

  /** One turn of the loop of `attention_range`. */
  method DoUnit<F>(ops: Ops<F>, unit: nat, out: array<F>, preatt: array<F>, att: array<F>, inp: seq<F>,
                   B: nat, T: nat, C: nat, NH: nat, ghost x: seq<Row<F>>)
    requires Sizes(x, B, T, C, NH) && Holds(inp, x, 3 * C) && unit < B * (T * NH)
    requires out.Length == B * T * C && preatt.Length == att.Length == B * NH * T * T
    requires out != preatt && out != att && preatt != att
    modifies out, preatt, att
    ensures UnitOk(Decode(unit, T, NH), |x|, T, NH)
    ensures RowStored(out[..], old(out[..]), UnitOut(ops, x, Decode(unit, T, NH), T, C, NH), OutStart(unit, T, C, NH))
    ensures var u := Decode(unit, T, NH);
            RowStored(att[..], old(att[..]), Padded(ops, UnitScores(ops, x, u, T, C, NH), T), AttCell(u, T, NH, 0))
  {
    hide Holds, Width, UnitOut, UnitScores, Padded, RowStored, AttCell, OutCell, OutStart, Decode, UnitOk;
    var u := Decode(unit, T, NH);
    UnitPlace(x, B, T, C, NH, unit);
    AttentionUnit(ops, u, AttCell(u, T, NH, 0), OutCell(u, T, C, C / NH, 0), out, preatt, att, inp, T, C, NH, x);
  }

  /** `attention_range`. */
  method AttentionRange<F>(ops: Ops<F>, begin: nat, end: nat, out: array<F>, preatt: array<F>, att: array<F>,
                           inp: seq<F>, B: nat, T: nat, C: nat, NH: nat, ghost x: seq<Row<F>>, ghost gap: seq<Row<F>>)
    requires Sizes(x, B, T, C, NH) && Holds(inp, x, 3 * C) && begin <= end <= B * (T * NH) && GapOk(gap, x, C)
    requires out.Length == B * T * C && preatt.Length == att.Length == B * NH * T * T
    requires out != preatt && out != att && preatt != att
    modifies out, preatt, att
    ensures RangeDone(out[..], old(out[..]), Attention(ops, x, T, C, NH, gap), T, C, NH, begin, end)
    ensures forall unit :: begin <= unit < end ==> WeightsStored(ops, att[..], x, B, T, C, NH, unit)
  {
    hide RangeDone, Holds, Attention, WeightsStored, UnitOut, UnitScores, Padded, RowStored, AttCell, OutStart, Decode, UnitOk;
    ghost var before, y := out[..], Attention(ops, x, T, C, NH, gap);
    NoUnitDone(before, y, T, C, NH, begin);
    for unit := begin to end
      invariant RangeDone(out[..], before, y, T, C, NH, begin, unit)
      invariant forall v :: begin <= v < unit ==> WeightsStored(ops, att[..], x, B, T, C, NH, v)
    {
      ghost var prev, attPrev := out[..], att[..];
      DoUnit(ops, unit, out, preatt, att, inp, B, T, C, NH, x);
      UnitDone(ops, out[..], prev, before, x, B, T, C, NH, begin, unit, gap);
      WeightsDone(ops, att[..], attPrev, x, B, T, C, NH, begin, unit);
    }
  }

  lemma NoUnitDone<F>(s: seq<F>, y: seq<Row<F>>, T: nat, C: nat, NH: nat, begin: int)
    requires T > 0 && NH > 0
    ensures RangeDone(s, s, y, T, C, NH, begin, begin)
  {
  }

  lemma UnitDone<F>(ops: Ops<F>, now: seq<F>, prev: seq<F>, before: seq<F>, x: seq<Row<F>>,
                    B: nat, T: nat, C: nat, NH: nat, begin: nat, unit: nat, gap: seq<Row<F>>)
    requires Sizes(x, B, T, C, NH) && begin <= unit < B * (T * NH) && GapOk(gap, x, C)
    requires UnitOk(Decode(unit, T, NH), |x|, T, NH)
    requires RangeDone(prev, before, Attention(ops, x, T, C, NH, gap), T, C, NH, begin, unit)
    requires RowStored(now, prev, UnitOut(ops, x, Decode(unit, T, NH), T, C, NH), OutStart(unit, T, C, NH))
    ensures RangeDone(now, before, Attention(ops, x, T, C, NH, gap), T, C, NH, begin, unit + 1)
  {
    hide RangeDone, Attention, RowFits, UnitOut, RowStored, OutStart, Decode;
    UnitFits(ops, x, B, T, C, NH, unit, gap);
    PartDone(now, prev, before, Attention(ops, x, T, C, NH, gap), T, C, NH, begin, unit,
             UnitOut(ops, x, Decode(unit, T, NH), T, C, NH));
  }

  lemma WeightsDone<F>(ops: Ops<F>, now: seq<F>, prev: seq<F>, x: seq<Row<F>>,
                       B: nat, T: nat, C: nat, NH: nat, begin: nat, unit: nat)
    requires Sizes(x, B, T, C, NH) && unit < B * (T * NH) && |now| == B * NH * T * T
    requires UnitOk(Decode(unit, T, NH), |x|, T, NH)
    requires var u := Decode(unit, T, NH);
             RowStored(now, prev, Padded(ops, UnitScores(ops, x, u, T, C, NH), T), AttCell(u, T, NH, 0))
    requires forall v :: begin <= v < unit ==> WeightsStored(ops, prev, x, B, T, C, NH, v)
    ensures forall v :: begin <= v < unit + 1 ==> WeightsStored(ops, now, x, B, T, C, NH, v)
  {
    hide WeightsStored, RowStored, Padded, Decode, AttCell;
    NowStored(ops, now, prev, x, B, T, C, NH, unit);
    forall v | begin <= v < unit ensures WeightsStored(ops, now, x, B, T, C, NH, v) {
      StillStored(ops, now, prev, x, B, T, C, NH, unit, v);
    }
  }

  lemma UnitPlace<F>(x: seq<Row<F>>, B: nat, T: nat, C: nat, NH: nat, unit: nat)
    requires Sizes(x, B, T, C, NH) && unit < B * (T * NH)
    ensures var u := Decode(unit, T, NH);
            && UnitOk(u, |x|, T, NH)
            && AttCell(u, T, NH, 0) + T <= B * NH * T * T
            && OutCell(u, T, C, C / NH, 0) == OutStart(unit, T, C, NH)
            && OutStart(unit, T, C, NH) + C / NH <= B * T * C
  {
    UnitInRange(x, B, T, C, NH, unit);
    DecodeInRange(unit, B, T, NH);
    AttRowInside(Decode(unit, T, NH), B, T, NH);
    PartInside(B, T, C, NH, unit);
  }

  lemma StillStored<F>(ops: Ops<F>, now: seq<F>, prev: seq<F>, x: seq<Row<F>>,
                       B: nat, T: nat, C: nat, NH: nat, unit: nat, other: nat)
    requires Sizes(x, B, T, C, NH) && unit < B * (T * NH) && other < unit && |now| == B * NH * T * T
    requires UnitOk(Decode(unit, T, NH), |x|, T, NH)
    requires var u := Decode(unit, T, NH);
             RowStored(now, prev, Padded(ops, UnitScores(ops, x, u, T, C, NH), T), AttCell(u, T, NH, 0))
    requires WeightsStored(ops, prev, x, B, T, C, NH, other)
    ensures WeightsStored(ops, now, x, B, T, C, NH, other)
  {
    hide Padded, WeightsStored, RowStored;
    var u := Decode(unit, T, NH);
    DecodeInRange(unit, B, T, NH);
    AttRowInside(u, B, T, NH);
    WeightsKept(ops, now, prev, Padded(ops, UnitScores(ops, x, u, T, C, NH), T), x, B, T, C, NH, unit, other);
  }

  lemma NowStored<F>(ops: Ops<F>, now: seq<F>, prev: seq<F>, x: seq<Row<F>>, B: nat, T: nat, C: nat, NH: nat, unit: nat)
    requires Sizes(x, B, T, C, NH) && unit < B * (T * NH) && |now| == B * NH * T * T
    requires UnitOk(Decode(unit, T, NH), |x|, T, NH)
    requires var u := Decode(unit, T, NH);
             RowStored(now, prev, Padded(ops, UnitScores(ops, x, u, T, C, NH), T), AttCell(u, T, NH, 0))
    ensures WeightsStored(ops, now, x, B, T, C, NH, unit)
  {
    hide Padded;
    DecodeInRange(unit, B, T, NH);
    AttRowInside(Decode(unit, T, NH), B, T, NH);
  }
}
