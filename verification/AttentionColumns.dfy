/** Which cells of `out` the units of `attention_range` write: those of the columns that belong
    to heads, each exactly once. */
module AttentionColumns {
  import opened AttentionIndex
  import opened Indexing
  import Tr = Transformer

  /** Where the part of a unit starts; it is as long as a head. */
  function OutStart(unit: nat, T: nat, C: nat, NH: nat): nat
    requires T > 0 && NH > 0
  {
    OutCell(Decode(unit, T, NH), T, C, C / NH, 0)
  }

  predicate InPart(c: int, unit: int, T: nat, C: nat, NH: nat)
    requires T > 0 && NH > 0
  {
    unit >= 0 && OutStart(unit, T, C, NH) <= c < OutStart(unit, T, C, NH) + C / NH
  }

  /** A part lies in one row, in columns of one head. */
  lemma PartColumns(B: nat, T: nat, C: nat, NH: nat, unit: nat, i: nat) returns (r: nat, j: nat)
    requires T > 0 && NH > 0 && unit < B * (T * NH) && i < C / NH
    ensures r < B * T && j < C && Tr.InHead(C, NH, j)
    ensures OutStart(unit, T, C, NH) + i == r * C + j
    ensures var u := Decode(unit, T, NH); r == u.b * T + u.t && j == u.h * (C / NH) + i
  {
    DecodeInRange(unit, B, T, NH);
    var u, hs := Decode(unit, T, NH), C / NH;
    OutCellIs(u, T, C, hs, 0);
    HeadInside(C, NH, u.h, i);
    Inside(u.h, i, NH, hs);
    Inside(u.b, u.t, B, T);
    r, j := u.b * T + u.t, u.h * hs + i;
  }

  lemma PartInside(B: nat, T: nat, C: nat, NH: nat, unit: nat)
    requires T > 0 && NH > 0 && unit < B * (T * NH)
    ensures OutStart(unit, T, C, NH) + C / NH <= B * T * C
  {
    hide Decode, OutCell;
    var hs := C / NH;
    if hs > 0 {
      var r, j := PartColumns(B, T, C, NH, unit, hs - 1);
      Inside(r, j, B * T, C);
    } else {
      EmptyPart(B, T, C, NH, unit);
    }
  }

  lemma EmptyPart(B: nat, T: nat, C: nat, NH: nat, unit: nat)
    requires T > 0 && NH > 0 && unit < B * (T * NH) && C / NH == 0
    ensures OutStart(unit, T, C, NH) <= B * T * C
  {
    DecodeInRange(unit, B, T, NH);
    var u := Decode(unit, T, NH);
    OutCellIs(u, T, C, 0, 0);
    Inside(u.b, u.t, B, T);
    MulMono(u.b * T + u.t, B * T, C);
  }

  /** The unit of a position and a head. */
  lemma UnitOf(b: nat, t: nat, h: nat, B: nat, T: nat, NH: nat) returns (unit: nat)
    requires b < B && t < T && h < NH
    ensures unit < B * (T * NH) && Decode(unit, T, NH) == Unit(b, t, h)
  {
    var k := t * NH + h;
    Inside(t, h, T, NH);
    Inside(b, k, B, T * NH);
    unit := b * (T * NH) + k;
    Split(b, k, T * NH);
    Split(t, h, NH);
  }

  /** Every cell of a column that belongs to a head is in the part of a unit. */
  lemma ColumnUnit(B: nat, T: nat, C: nat, NH: nat, r: nat, j: nat) returns (unit: nat)
    requires T > 0 && NH > 0 && r < B * T && Tr.InHead(C, NH, j)
    ensures unit < B * (T * NH) && InPart(r * C + j, unit, T, C, NH)
  {
    hide Decode, OutCell;
    Tr.HeadOf(C, NH, j);
    var hs := C / NH;
    Join(r, T);
    RowBound(r, B, T);
    Join(j, hs);
    unit := UnitOf(r / T, r % T, j / hs, B, T, NH);
    OutCellIs(Decode(unit, T, NH), T, C, hs, 0);
  }

  /** Cell c is in the part of a unit of the range. */
  ghost predicate InSomePart(c: int, begin: int, end: int, T: nat, C: nat, NH: nat)
    requires T > 0 && NH > 0
  {
    exists unit :: begin <= unit < end && InPart(c, unit, T, C, NH)
  }

  /** A cell of `out` is in the part of some unit exactly if its column belongs to a head. */
  lemma ColumnOwnedIff(B: nat, T: nat, C: nat, NH: nat, r: nat, j: nat)
    requires T > 0 && NH > 0 && r < B * T && j < C
    ensures InSomePart(r * C + j, 0, B * (T * NH), T, C, NH) <==> Tr.InHead(C, NH, j)
  {
    hide OutStart;
    if Tr.InHead(C, NH, j) {
      var unit := ColumnUnit(B, T, C, NH, r, j);
    }
    if InSomePart(r * C + j, 0, B * (T * NH), T, C, NH) {
      var unit :| 0 <= unit < B * (T * NH) && InPart(r * C + j, unit, T, C, NH);
      var r', j' := PartColumns(B, T, C, NH, unit, r * C + j - OutStart(unit, T, C, NH));
      Injective(r, j, r', j', C);
    }
  }

  /** Every cell of `out` is written if and only if the head count divides the channels. */
  lemma AllOwnedIff(B: nat, T: nat, C: nat, NH: nat)
    requires B > 0 && T > 0 && NH > 0 && C > 0
    ensures (forall c :: 0 <= c < B * T * C ==> InSomePart(c, 0, B * (T * NH), T, C, NH)) <==> C % NH == 0
  {
    hide InSomePart;
    Tr.AllInHeadsIff(C, NH);
    if C % NH == 0 {
      forall c | 0 <= c < B * T * C ensures InSomePart(c, 0, B * (T * NH), T, C, NH) {
        Join(c, C);
        RowBound(c, B * T, C);
        ColumnOwnedIff(B, T, C, NH, c / C, c % C);
      }
    } else {
      var j: nat :| j < C && !Tr.InHead(C, NH, j);
      assert B * T > 0;
      Inside(0, j, B * T, C);
      ColumnOwnedIff(B, T, C, NH, 0, j);
    }
  }
}
