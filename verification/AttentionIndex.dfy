/** The flat indices of `attention_range`: which cells a unit reads and writes. */
module AttentionIndex {
  import opened Indexing

  datatype Unit = Unit(b: nat, t: nat, h: nat)

  /** How a unit number is taken apart. */
  function Decode(unit: nat, T: nat, NH: nat): Unit
    requires T > 0 && NH > 0
  {
    MulPos(T, NH);
    var rem := unit % (T * NH);
    Unit(unit / (T * NH), rem / NH, rem % NH)
  }

  lemma MulPos(a: nat, b: nat)
    requires a > 0 && b > 0
    ensures a * b > 0
  {
  }

  /** The parts are in range, and the unit number is put together from them. */
  lemma DecodeInRange(unit: nat, B: nat, T: nat, NH: nat)
    requires T > 0 && NH > 0 && unit < B * (T * NH)
    ensures var u := Decode(unit, T, NH);
            && u.b < B && u.t < T && u.h < NH
            && unit == (u.b * T + u.t) * NH + u.h
  {
    MulPos(T, NH);
    var k := T * NH;
    var rem := unit % k;
    RowBound(unit, B, k);
    Join(unit, k);
    RowBound(rem, T, NH);
    Join(rem, NH);
    var b, t := unit / k, rem / NH;
    assert (b * T + t) * NH == b * k + t * NH;
  }

  // ----- the cells, as the kernel computes them -----

  function AttCell(u: Unit, T: nat, NH: nat, t2: nat): nat {
    u.b * NH * T * T + u.h * T * T + u.t * T + t2
  }

  function OutCell(u: Unit, T: nat, C: nat, hs: nat, i: nat): nat {
    u.b * T * C + u.t * C + u.h * hs + i
  }

  /** Element i of the query, key or value (which = 0, 1, 2) of head h at position t2. */
  function InpCell(u: Unit, T: nat, C: nat, hs: nat, t2: nat, which: nat, i: nat): nat {
    u.b * T * (C * 3) + t2 * (C * 3) + u.h * hs + C * which + i
  }

  lemma AttCellIs(u: Unit, T: nat, NH: nat, t2: nat)
    ensures AttCell(u, T, NH, t2) == ((u.b * NH + u.h) * T + u.t) * T + t2
  {
    var b, h, t := u.b, u.h, u.t;
    assert (b * NH + h) * T == b * NH * T + h * T;
    assert ((b * NH + h) * T + t) * T == (b * NH + h) * T * T + t * T;
    assert (b * NH * T + h * T) * T == b * NH * T * T + h * T * T;
  }

  lemma OutCellIs(u: Unit, T: nat, C: nat, hs: nat, i: nat)
    ensures OutCell(u, T, C, hs, i) == (u.b * T + u.t) * C + (u.h * hs + i)
  {
    assert (u.b * T + u.t) * C == u.b * T * C + u.t * C;
  }

  lemma InpCellIs(u: Unit, T: nat, C: nat, hs: nat, t2: nat, which: nat, i: nat)
    ensures InpCell(u, T, C, hs, t2, which, i) == (u.b * T + t2) * (3 * C) + (which * C + u.h * hs + i)
  {
    assert (u.b * T + t2) * (3 * C) == u.b * T * (C * 3) + t2 * (C * 3);
    assert C * which == which * C;
  }

  // ----- every access is inside its tensor -----

  /** preatt and att hold L * B * NH * T * T cells in all, B * NH * T * T for one layer. */
  lemma AttCellInside(u: Unit, B: nat, T: nat, NH: nat, t2: nat)
    requires u.b < B && u.t < T && u.h < NH && t2 < T
    ensures AttCell(u, T, NH, t2) < B * NH * T * T
  {
    AttCellIs(u, T, NH, t2);
    Inside(u.b, u.h, B, NH);
    InsideTwice(u.b * NH + u.h, u.t, t2, B * NH, T);
  }

  lemma InsideTwice(x: nat, t: nat, t2: nat, n: nat, T: nat)
    requires x < n && t < T && t2 < T
    ensures (x * T + t) * T + t2 < n * T * T
  {
    Inside(x, t, n, T);
    Inside(x * T + t, t2, n * T, T);
  }

  lemma HeadInside(C: nat, NH: nat, h: nat, i: nat)
    requires NH > 0 && h < NH && i < C / NH
    ensures h * (C / NH) + i < C
  {
    Join(C, NH);
    Inside(h, i, NH, C / NH);
  }

  lemma OutCellInside(u: Unit, B: nat, T: nat, C: nat, NH: nat, i: nat)
    requires NH > 0 && u.b < B && u.t < T && u.h < NH && i < C / NH
    ensures OutCell(u, T, C, C / NH, i) < B * T * C
  {
    OutCellIs(u, T, C, C / NH, i);
    HeadInside(C, NH, u.h, i);
    Inside(u.b, u.t, B, T);
    Inside(u.b * T + u.t, u.h * (C / NH) + i, B * T, C);
  }

  lemma InpCellInside(u: Unit, B: nat, T: nat, C: nat, NH: nat, t2: nat, which: nat, i: nat)
    requires NH > 0 && u.b < B && t2 < T && u.h < NH && i < C / NH && which < 3
    ensures InpCell(u, T, C, C / NH, t2, which, i) < B * T * (3 * C)
  {
    InpCellIs(u, T, C, C / NH, t2, which, i);
    HeadInside(C, NH, u.h, i);
    Inside(which, u.h * (C / NH) + i, 3, C);
    Inside(u.b, t2, B, T);
    Inside(u.b * T + t2, which * C + (u.h * (C / NH) + i), B * T, 3 * C);
  }

  // ----- distinct units write disjoint cells -----

  lemma AttCellsDisjoint(u: Unit, v: Unit, T: nat, NH: nat, t2: nat, s2: nat)
    requires u.t < T && v.t < T && u.h < NH && v.h < NH && t2 < T && s2 < T
    requires AttCell(u, T, NH, t2) == AttCell(v, T, NH, s2)
    ensures u == v && t2 == s2
  {
    hide AttCell, Flat;
    AttCellFlat(u, T, NH, t2);
    AttCellFlat(v, T, NH, s2);
    FlatInjective(Flat(Flat(u.b, NH, u.h), T, u.t), t2, Flat(Flat(v.b, NH, v.h), T, v.t), s2, T);
    FlatInjective(Flat(u.b, NH, u.h), u.t, Flat(v.b, NH, v.h), v.t, T);
    FlatInjective(u.b, u.h, v.b, v.h, NH);
  }

  /** Entry i of row r, rows having length c. */
  function Flat(r: nat, c: nat, i: nat): nat { r * c + i }

  lemma FlatInjective(r: nat, i: nat, r': nat, i': nat, c: nat)
    requires i < c && i' < c && Flat(r, c, i) == Flat(r', c, i')
    ensures r == r' && i == i'
  {
    Injective(r, i, r', i', c);
  }

  lemma AttCellFlat(u: Unit, T: nat, NH: nat, t2: nat)
    ensures AttCell(u, T, NH, t2) == Flat(Flat(Flat(u.b, NH, u.h), T, u.t), T, t2)
  {
    hide AttCell;
    AttCellIs(u, T, NH, t2);
  }

  lemma OutCellFlat(u: Unit, T: nat, C: nat, hs: nat, i: nat)
    ensures OutCell(u, T, C, hs, i) == Flat(Flat(u.b, T, u.t), C, Flat(u.h, hs, i))
  {
    hide OutCell;
    OutCellIs(u, T, C, hs, i);
  }

  lemma OutCellsDisjoint(u: Unit, v: Unit, T: nat, C: nat, NH: nat, i: nat, j: nat)
    requires NH > 0 && u.t < T && v.t < T && u.h < NH && v.h < NH && i < C / NH && j < C / NH
    requires OutCell(u, T, C, C / NH, i) == OutCell(v, T, C, C / NH, j)
    ensures u == v && i == j
  {
    hide OutCell, Flat;
    var hs := C / NH;
    OutCellFlat(u, T, C, hs, i);
    OutCellFlat(v, T, C, hs, j);
    FlatInside(C, NH, u.h, i);
    FlatInside(C, NH, v.h, j);
    FlatInjective(Flat(u.b, T, u.t), Flat(u.h, hs, i), Flat(v.b, T, v.t), Flat(v.h, hs, j), C);
    FlatInjective(u.h, i, v.h, j, hs);
    FlatInjective(u.b, u.t, v.b, v.t, T);
  }

  lemma FlatInside(C: nat, NH: nat, h: nat, i: nat)
    requires NH > 0 && h < NH && i < C / NH
    ensures Flat(h, C / NH, i) < C
  {
    HeadInside(C, NH, h, i);
  }

  /** Attention index safety: for all sizes, distinct units write disjoint cells of preatt,
      att and out, and every cell read or written lies inside its tensor. */
  lemma AttentionIsSafe(unit: nat, other: nat, B: nat, T: nat, C: nat, NH: nat,
                        t2: nat, s2: nat, i: nat, j: nat, which: nat)
    requires T > 0 && NH > 0 && unit < B * (T * NH) && other < B * (T * NH)
    requires t2 < T && s2 < T && which < 3
    ensures var u, v, hs := Decode(unit, T, NH), Decode(other, T, NH), C / NH;
            && AttCell(u, T, NH, t2) < B * NH * T * T
            && (i < hs ==> OutCell(u, T, C, hs, i) < B * T * C)
            && (i < hs ==> InpCell(u, T, C, hs, t2, which, i) < B * T * (3 * C))
            && (unit != other ==> AttCell(u, T, NH, t2) != AttCell(v, T, NH, s2))
            && (unit != other && i < hs && j < hs ==> OutCell(u, T, C, hs, i) != OutCell(v, T, C, hs, j))
  {
    DecodeInRange(unit, B, T, NH);
    DecodeInRange(other, B, T, NH);
    var u, v := Decode(unit, T, NH), Decode(other, T, NH);
    AttCellInside(u, B, T, NH, t2);
    if i < C / NH {
      OutCellInside(u, B, T, C, NH, i);
      InpCellInside(u, B, T, C, NH, t2, which, i);
    }
    if AttCell(u, T, NH, t2) == AttCell(v, T, NH, s2) {
      AttCellsDisjoint(u, v, T, NH, t2, s2);
    }
    if i < C / NH && j < C / NH && OutCell(u, T, C, C / NH, i) == OutCell(v, T, C, C / NH, j) {
      OutCellsDisjoint(u, v, T, C, NH, i, j);
    }
  }
}
