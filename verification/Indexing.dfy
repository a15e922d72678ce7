/** Flat indices into row-major tensors. */
module Indexing {

  lemma MulMono(a: nat, b: nat, c: nat)
    requires a <= b
    ensures a * c <= b * c
  {
    assert (b - a) * c >= 0;
  }

  /** Entry `i` of row `r` lies inside a tensor of `n` rows of length `c`. */
  lemma Inside(r: nat, i: nat, n: nat, c: nat)
    requires r < n && i < c
    ensures r * c + i < n * c && r * c + c <= n * c
  {
    MulMono(r + 1, n, c);
  }

  /** A flat index splits uniquely into row and column. */
  lemma Split(r: nat, i: nat, c: nat)
    requires i < c
    ensures (r * c + i) / c == r && (r * c + i) % c == i
  {
    var n := r * c + i;
    var q, m := n / c, n % c;
    assert n == q * c + m;
    if q < r {
      MulMono(q + 1, r, c);
    } else if q > r {
      MulMono(r + 1, q, c);
    }
  }

  /** Row and column of a flat index, and back. */
  lemma Join(n: nat, c: nat)
    requires c > 0
    ensures n / c * c + n % c == n && n % c < c
  {
  }

  /** The row of an index below rows * c is below rows. */
  lemma RowBound(n: nat, rows: nat, c: nat)
    requires c > 0 && n < rows * c
    ensures n / c < rows
  {
    Join(n, c);
    if n / c >= rows {
      MulMono(rows, n / c, c);
    }
  }

  lemma Injective(r: nat, i: nat, r': nat, i': nat, c: nat)
    requires i < c && i' < c && r * c + i == r' * c + i'
    ensures r == r' && i == i'
  {
    Split(r, i, c);
    Split(r', i', c);
  }

  lemma NextRow(r: nat, c: nat)
    ensures (r + 1) * c == r * c + c
  {
  }

  /** Row and column of the next flat index. */
  lemma NextCell(e: nat, c: nat)
    requires c > 0
    ensures if e % c + 1 < c then (e + 1) / c == e / c && (e + 1) % c == e % c + 1
            else (e + 1) / c == e / c + 1 && (e + 1) % c == 0
  {
    Join(e, c);
    CellAfter(e / c, e % c, c, e + 1);
  }

  lemma CellAfter(r: nat, i: nat, c: nat, next: nat)
    requires i < c && next == r * c + i + 1
    ensures if i + 1 < c then next / c == r && next % c == i + 1 else next / c == r + 1 && next % c == 0
  {
    if i + 1 < c {
      Split(r, i + 1, c);
    } else {
      NextRow(r, c);
      Split(r + 1, 0, c);
    }
  }
}
