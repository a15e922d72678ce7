/** The fork-join loop: how an index range is cut into slices, which thread runs which slice,
    and why no interleaving of the threads can be told from the serial loop. */
module ParallelFor {
  import Indexing

  const MAX_WORKERS: nat := 4
  const MAX_THREADS: nat := 4096

  datatype Slice = Slice(begin: int, end: int)

  // ----- slices -----

  function WorkersFor(workers: int, total: nat): (n: nat)
    requires total > 0
    ensures 1 <= n <= MAX_WORKERS && n <= total
  {
    var n := if workers < 1 then 1 else if workers > MAX_WORKERS then MAX_WORKERS else workers;
    if n > total then total else n
  }

  function Span(total: nat, n: nat): (s: nat)
    requires 0 < n <= total
    ensures s > 0 && s * n >= total
  {
    var s := (total + n - 1) / n;
    Indexing.Join(total + n - 1, n);
    s
  }

  function SliceAt(begin: int, end: int, n: nat, i: nat): Slice
    requires begin < end && 0 < n <= end - begin && i < n
  {
    var span := Span(end - begin, n);
    var b := begin + i * span;
    Slice(b, if b + span > end then end else b + span)
  }

  predicate InSlice(s: Slice, x: int) { s.begin <= x < s.end }

  /** Every index of the range lies in a slice, */
  lemma SomeSlice(begin: int, end: int, n: nat, x: int) returns (i: nat)
    requires begin < end && 0 < n <= end - begin && begin <= x < end
    ensures i < n && InSlice(SliceAt(begin, end, n, i), x)
  {
    var span := Span(end - begin, n);
    i := (x - begin) / span;
    Indexing.Join(x - begin, span);
    Indexing.RowBound(x - begin, n, span);
  }

  /** and in one only; no slice leaves the range, and trailing slices that start past the
      end are empty. */
  lemma OneSlice(begin: int, end: int, n: nat, x: int, i: nat, j: nat)
    requires begin < end && 0 < n <= end - begin && i < n && j < n
    requires InSlice(SliceAt(begin, end, n, i), x) && InSlice(SliceAt(begin, end, n, j), x)
    ensures i == j && begin <= x < end
  {
    var span := Span(end - begin, n);
    Indexing.Injective(i, x - begin - i * span, j, x - begin - j * span, span);
  }

  /** No slice is longer than the range divided by the number of slices, rounded up. */
  lemma SlicesAreEven(begin: int, end: int, n: nat, i: nat)
    requires begin < end && 0 < n <= end - begin && i < n
    ensures var s := SliceAt(begin, end, n, i); (s.end - s.begin - 1) * n < end - begin
  {
    var s := SliceAt(begin, end, n, i);
    var span := Span(end - begin, n);
    Indexing.Join(end - begin + n - 1, n);
    if s.end > s.begin {
      var k := s.end - s.begin - 1;
      Indexing.MulMono(k + 1, span, n);
      Indexing.NextRow(k, n);
    } else {
      assert (s.end - s.begin - 1) * n < 0;
    }
  }
}
