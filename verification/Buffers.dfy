/** Float buffers that hold tensors row after row. */
module Buffers {
  import opened Floats
  import opened Transformer
  import Indexing

  /** `v` is what the flat cell `j` of tensor `y`, with rows of length C, must hold. */
  ghost predicate CellIs<F>(v: F, y: seq<Row<F>>, C: nat, j: int) {
    C > 0 && 0 <= j < |y| * C && j / C < |y| && j % C < |y[j / C]| && v == y[j / C][j % C]
  }

  /** Cells lo..hi of the buffer hold the tensor `y`. */
  ghost predicate Filled<F>(s: seq<F>, y: seq<Row<F>>, C: nat, lo: int, hi: int) {
    0 <= lo && hi <= |s| && forall j :: lo <= j < hi ==> CellIs(s[j], y, C, j)
  }

  /** The whole buffer holds the tensor `y`. */
  ghost predicate Holds<F>(s: seq<F>, y: seq<Row<F>>, C: nat) {
    C > 0 && |s| == |y| * C && Width(y, C) && Filled(s, y, C, 0, |s|)
  }

  /** Cells outside lo..hi are as they were. */
  ghost predicate Kept<F>(now: seq<F>, before: seq<F>, lo: int, hi: int) {
    |now| == |before| && forall j :: 0 <= j < |now| && !(lo <= j < hi) ==> now[j] == before[j]
  }

  /** Cells lo..hi hold the tensor, all others are as they were. */
  ghost predicate Done<F>(now: seq<F>, before: seq<F>, y: seq<Row<F>>, C: nat, lo: int, hi: int) {
    Filled(now, y, C, lo, hi) && Kept(now, before, lo, hi)
  }

  lemma HoldsAt<F>(s: seq<F>, y: seq<Row<F>>, C: nat, r: nat, i: nat)
    requires Holds(s, y, C) && r < |y| && i < C
    ensures r * C + i < |s| && |y[r]| == C && s[r * C + i] == y[r][i]
  {
    Indexing.Inside(r, i, |y|, C);
    Indexing.Split(r, i, C);
    assert CellIs(s[r * C + i], y, C, r * C + i);
  }

  lemma CellOf<F>(s: seq<F>, y: seq<Row<F>>, C: nat, j: nat) returns (r: nat, i: nat)
    requires Holds(s, y, C) && j < |s|
    ensures r < |y| && i < C && j == r * C + i && |y[r]| == C && s[j] == y[r][i]
  {
    Indexing.Join(j, C);
    Indexing.RowBound(j, |y|, C);
    r, i := j / C, j % C;
    HoldsAt(s, y, C, r, i);
  }

  lemma CellAt<F>(v: F, y: seq<Row<F>>, C: nat, r: nat, i: nat)
    requires Width(y, C) && r < |y| && i < C && v == y[r][i]
    ensures CellIs(v, y, C, r * C + i) && r * C + i < |y| * C
  {
    Indexing.Inside(r, i, |y|, C);
    Indexing.Split(r, i, C);
  }

  lemma NothingDone<F>(s: seq<F>, y: seq<Row<F>>, C: nat, lo: nat)
    requires lo <= |s|
    ensures Done(s, s, y, C, lo, lo)
  {
  }

  lemma CellDone<F>(now: seq<F>, before: seq<F>, y: seq<Row<F>>, C: nat, lo: nat, hi: nat, v: F)
    requires Done(now, before, y, C, lo, hi) && lo <= hi < |now| && CellIs(v, y, C, hi)
    ensures Done(now[hi := v], before, y, C, lo, hi + 1)
  {
  }

  lemma AllDone<F>(now: seq<F>, before: seq<F>, y: seq<Row<F>>, C: nat)
    requires C > 0 && |now| == |y| * C && Width(y, C) && Done(now, before, y, C, 0, |now|)
    ensures Holds(now, y, C)
  {
  }

  /** The stretch of a buffer that holds row r. */
  lemma RowAt<F>(s: seq<F>, y: seq<Row<F>>, C: nat, r: nat)
    requires Holds(s, y, C) && r < |y|
    ensures |y[r]| == C && Slice(s, r, C) == y[r]
  {
    Indexing.Inside(r, 0, |y|, C);
    forall i | 0 <= i < C ensures s[r * C..r * C + C][i] == y[r][i] {
      HoldsAt(s, y, C, r, i);
    }
  }

  /** A buffer of n rows, as a tensor. */
  function RowsOf<F>(s: seq<F>, n: nat, C: nat): (y: seq<Row<F>>)
    requires |s| == n * C
    ensures |y| == n
  {
    seq(n, r requires 0 <= r < n => Slice(s, r, C))
  }

  lemma RowsHold<F>(s: seq<F>, n: nat, C: nat)
    requires |s| == n * C && C > 0
    ensures Width(RowsOf(s, n, C), C) && Holds(s, RowsOf(s, n, C), C)
  {
    var y := RowsOf(s, n, C);
    forall r | 0 <= r < n ensures |y[r]| == C {
      SliceFits(r, C, n);
    }
    forall j | 0 <= j < |s| ensures CellIs(s[j], y, C, j) {
      Indexing.Join(j, C);
      Indexing.RowBound(j, n, C);
      SliceFits(j / C, C, n);
      CellAt(s[j], y, C, j / C, j % C);
    }
  }

  /** Storing row r cell by cell: cell i of it is cell r * C + i of the tensor. */
  lemma RowCells<F>(y: seq<Row<F>>, C: nat, r: nat)
    requires Width(y, C) && r < |y|
    ensures r * C + C <= |y| * C
    ensures forall i :: 0 <= i < C ==> CellIs(y[r][i], y, C, r * C + i)
  {
    Indexing.MulMono(r + 1, |y|, C);
    forall i | 0 <= i < C ensures CellIs(y[r][i], y, C, r * C + i) {
      CellAt(y[r][i], y, C, r, i);
    }
  }

  ghost predicate RowFits<F>(row: Row<F>, y: seq<Row<F>>, C: nat, at: int) {
    forall i :: 0 <= i < |row| ==> CellIs(row[i], y, C, at + i)
  }

  lemma RowsFit<F>(y: seq<Row<F>>, C: nat, r: nat)
    requires Width(y, C) && r < |y|
    ensures r * C + C <= |y| * C && RowFits(y[r], y, C, r * C)
  {
    RowCells(y, C, r);
  }

  lemma RowCell<F>(row: Row<F>, y: seq<Row<F>>, C: nat, at: int, i: nat)
    requires RowFits(row, y, C, at) && i < |row|
    ensures CellIs(row[i], y, C, at + i)
  {
  }

  /** One more row stored: cells at..at + C hold `row`, the rest is as before the row. */
  ghost predicate RowStored<F>(now: seq<F>, prev: seq<F>, row: Row<F>, at: nat) {
    at + |row| <= |now| && Kept(now, prev, at, at + |row|) && now[at..at + |row|] == row
  }

  lemma RowDone<F>(now: seq<F>, prev: seq<F>, before: seq<F>, y: seq<Row<F>>, C: nat, lo: nat, at: nat, row: Row<F>)
    requires Done(prev, before, y, C, lo, at) && lo <= at
    requires RowStored(now, prev, row, at) && RowFits(row, y, C, at)
    ensures Done(now, before, y, C, lo, at + |row|)
  {
    hide CellIs;
    forall j | lo <= j < at + |row| ensures CellIs(now[j], y, C, j) {
      if j < at {
        assert now[j] == prev[j];
      } else {
        assert now[j] == now[at..at + |row|][j - at] == row[j - at];
      }
    }
  }

  // ----- writing a row cell by cell -----

  /** Of the row at `at` the first `n` cells hold those of `row` and the others still those
      of `old_`; all else is as in `prev`. */
  ghost predicate Written<F>(now: seq<F>, prev: seq<F>, at: nat, row: Row<F>, old_: Row<F>, n: nat) {
    n <= |row| == |old_| && RowStored(now, prev, row[..n] + old_[n..], at)
  }

  lemma StartWriting<F>(s: seq<F>, at: nat, row: Row<F>)
    requires at + |row| <= |s|
    ensures Written(s, s, at, row, s[at..at + |row|], 0)
  {
    var old_ := s[at..at + |row|];
    assert row[..0] + old_[0..] == old_;
  }

  lemma StartRewriting<F>(now: seq<F>, prev: seq<F>, at: nat, row: Row<F>, old_: Row<F>)
    requires RowStored(now, prev, old_, at) && |row| == |old_|
    ensures Written(now, prev, at, row, old_, 0)
  {
    assert row[..0] + old_[0..] == old_;
  }

  lemma StepWriting<F>(now: seq<F>, prev: seq<F>, at: nat, row: Row<F>, old_: Row<F>, n: nat)
    requires Written(now, prev, at, row, old_, n) && n < |row|
    ensures at + n < |now| && now[at + n] == old_[n]
    ensures Written(now[at + n := row[n]], prev, at, row, old_, n + 1)
  {
    var next := now[at + n := row[n]];
    assert now[at + n] == now[at..at + |row|][n];
    assert next[at..at + |row|] == now[at..at + |row|][n := row[n]];
    assert row[..n + 1] + old_[n + 1..] == (row[..n] + old_[n..])[n := row[n]];
  }

  lemma EndWriting<F>(now: seq<F>, prev: seq<F>, at: nat, row: Row<F>, old_: Row<F>)
    requires Written(now, prev, at, row, old_, |row|)
    ensures RowStored(now, prev, row, at)
  {
    assert row[..|row|] + old_[|row|..] == row;
  }

  /** A row stored over a shorter one at the same place. */
  lemma StoredOver<F>(now: seq<F>, mid: seq<F>, prev: seq<F>, row: Row<F>, shorter: Row<F>, at: nat)
    requires RowStored(now, mid, row, at) && RowStored(mid, prev, shorter, at) && |shorter| <= |row|
    ensures RowStored(now, prev, row, at)
  {
  }

  /** Rows at different multiples of T do not touch each other. */
  lemma RowsApart<F>(now: seq<F>, prev: seq<F>, row: Row<F>, k: nat, k': nat, T: nat)
    requires RowStored(now, prev, row, k * T) && |row| <= T && k != k' && k' * T + T <= |now|
    ensures now[k' * T..k' * T + T] == prev[k' * T..k' * T + T]
  {
    hide RowStored;
    Indexing.NextRow(k, T);
    Indexing.NextRow(k', T);
    if k < k' {
      Indexing.MulMono(k + 1, k', T);
    } else {
      Indexing.MulMono(k' + 1, k, T);
    }
    StoredElsewhere(now, prev, row, k * T, k' * T, k' * T + T);
  }

  lemma StoredElsewhere<F>(now: seq<F>, prev: seq<F>, row: Row<F>, at: nat, lo: nat, hi: nat)
    requires RowStored(now, prev, row, at) && lo <= hi <= |now| && (at + |row| <= lo || hi <= at)
    ensures |prev| == |now| && now[lo..hi] == prev[lo..hi]
  {
  }
}
