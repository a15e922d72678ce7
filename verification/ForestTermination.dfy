/** Exactly when printing terminates, tables with an entry of pid 0 included. An entry whose
    parent field is 0 is always a root; with an entry of pid 0 in the table it is also a
    child of that entry, and the recursion may then come back to it. */
module ForestTermination {
  import opened ForestTable

  /** Entry `k` is printed from within the printing of entry `p`. */
  predicate Calls(t: Table, p: int, k: int) {
    0 <= k < |t| && Parent(t, k) == p
  }

  /** A stack of `print_tree` activations under `print_forest`. */
  ghost predicate Stack(t: Table, path: seq<int>) {
    && path != [] && IsRoot(t, path[0])
    && forall n :: 0 <= n < |path| - 1 ==> Calls(t, path[n], path[n + 1])
  }

  ghost predicate BoundedBy(t: Table, bound: nat) {
    forall path :: Stack(t, path) ==> |path| <= bound
  }

  ghost predicate Terminates(t: Table) {
    exists bound :: BoundedBy(t, bound)
  }

  function Zero(t: Table): int { FindFrom(t, 0, 0) }

  predicate ClaimsZero(t: Table, i: int) {
    0 <= i < |t| && t[i].ppid == 0
  }

  /** Some ancestor-or-self of the entry of pid 0 names 0 as its own parent. */
  ghost predicate ZeroLoops(t: Table) {
    exists m: nat :: ClaimsZero(t, Ancestor(t, Zero(t), m))
  }

  // ----- a loop makes the stack grow without bound -----

  function Lap(t: Table, m: nat, n: nat): int {
    Ancestor(t, Zero(t), m - n % (m + 1))
  }

  lemma LapCalls(t: Table, m: nat, n: nat)
    requires ClaimsZero(t, Ancestor(t, Zero(t), m))
    ensures Calls(t, Lap(t, m, n), Lap(t, m, n + 1))
  {
    var z := Zero(t);
    var j := n % (m + 1);
    AncestorsInTable(t, z, m, m - j);
    if j < m {
      ModStep(n, m + 1);
      AncestorsInTable(t, z, m, m - j - 1);
      AncestorStep(t, z, m - j - 1);
    } else {
      ModStep(n, m + 1);
    }
  }

  lemma ModStep(n: nat, k: nat)
    requires k > 0
    ensures (n + 1) % k == if n % k == k - 1 then 0 else n % k + 1
  {
    var q, r := n / k, n % k;
    assert n + 1 == k * q + (r + 1);
    if r == k - 1 {
      assert n + 1 == k * (q + 1);
      ModUnique(n + 1, k, q + 1, 0);
    } else {
      ModUnique(n + 1, k, q, r + 1);
    }
  }

  lemma ModUnique(n: nat, k: nat, q: nat, r: nat)
    requires k > 0 && n == k * q + r && r < k
    ensures n % k == r
  {
    var d := n / k - q;
    assert n == k * (n / k) + n % k;
    assert k * d == r - n % k;
    MulBound(k, d);
  }

  lemma MulBound(k: int, d: int)
    requires k > 0
    ensures d >= 1 ==> k * d >= k
    ensures d <= -1 ==> k * d <= -k
  {
  }

  lemma LoopIsUnbounded(t: Table, m: nat, bound: nat) returns (path: seq<int>)
    requires ClaimsZero(t, Ancestor(t, Zero(t), m))
    ensures Stack(t, path) && |path| > bound
  {
    path := seq(bound + 1, n requires n >= 0 => Lap(t, m, n));
    forall n | 0 <= n < |path| - 1 ensures Calls(t, path[n], path[n + 1]) {
      LapCalls(t, m, n);
    }
    ModUnique(0, m + 1, 0, 0);
  }

  // ----- without a loop no entry is on the stack twice -----

  lemma {:induction false} DistinctSize(path: seq<int>, n: nat)
    requires Distinct(path) && forall i :: 0 <= i < |path| ==> 0 <= path[i] < n
    ensures |path| <= n
  {
    DistinctCount(path);
    SubsetSize(Elements(path), Range(n));
  }

  ghost function Elements(path: seq<int>): set<int> {
    set x | x in path
  }

  lemma {:induction false} DistinctCount(path: seq<int>)
    requires Distinct(path)
    ensures |Elements(path)| == |path|
  {
    if path != [] {
      var n := |path| - 1;
      var last, rest := path[n], path[..n];
      DistinctCount(rest);
      assert path == rest + [last];
      assert Elements(path) == Elements(rest) + {last};
    }
  }

  lemma {:induction false} StackUp(t: Table, path: seq<int>, n: nat, j: nat)
    requires Stack(t, path) && j <= n < |path|
    ensures Ancestor(t, path[n], j) == path[n - j]
    decreases j
  {
    if j > 0 {
      StackUp(t, path, n, j - 1);
      AncestorStep(t, path[n], j - 1);
      assert Calls(t, path[n - j], path[n - j + 1]);
    }
  }

  lemma RepeatIsLoop(t: Table, path: seq<int>, a: nat, b: nat)
    requires Stack(t, path) && a < b < |path| && path[a] == path[b]
    ensures ZeroLoops(t)
  {
    StackUp(t, path, a, a);
    StackUp(t, path, b, a);
    var r, k := path[0], b - a - 1;
    assert path[k + 1] == r;
    assert Calls(t, path[k], path[k + 1]);
    assert path[k] >= 0 by { InTable(t, path, k); }
    StackUp(t, path, k, k);
    assert ClaimsZero(t, Ancestor(t, Zero(t), k));
  }

  lemma InTable(t: Table, path: seq<int>, n: nat)
    requires Stack(t, path) && n < |path|
    ensures 0 <= path[n] < |t|
  {
    if n > 0 {
      assert Calls(t, path[n - 1], path[n - 1 + 1]);
    }
  }

  lemma NoLoopIsBounded(t: Table)
    requires !ZeroLoops(t)
    ensures BoundedBy(t, |t|)
  {
    forall path | Stack(t, path) ensures |path| <= |t| {
      forall i | 0 <= i < |path| ensures 0 <= path[i] < |t| {
        InTable(t, path, i);
      }
      if !Distinct(path) {
        var a, b :| 0 <= a < b < |path| && path[a] == path[b];
        RepeatIsLoop(t, path, a, b);
      }
      DistinctSize(path, |t|);
    }
  }

  // ----- the condition -----

  /** Printing terminates if and only if no ancestor-or-self of the entry of pid 0 names 0
      as its parent; the recursion is then never deeper than the table is long. */
  lemma TerminatesIff(t: Table)
    ensures Terminates(t) <==> !ZeroLoops(t)
    ensures Terminates(t) ==> BoundedBy(t, |t|)
  {
    if ZeroLoops(t) {
      var m: nat :| ClaimsZero(t, Ancestor(t, Zero(t), m));
      forall bound: nat ensures !BoundedBy(t, bound) {
        var path := LoopIsUnbounded(t, m, bound);
      }
    } else {
      NoLoopIsBounded(t);
    }
  }

  /** Tables without an entry of pid 0 always print, whatever cycles they contain. */
  lemma NoPidZeroTerminates(t: Table)
    requires NoPidZero(t)
    ensures Terminates(t)
  {
    NoLoopWithoutZero(t);
    TerminatesIff(t);
  }

  lemma NoLoopWithoutZero(t: Table)
    requires NoPidZero(t)
    ensures !ZeroLoops(t)
  {
    forall m: nat ensures !ClaimsZero(t, Ancestor(t, Zero(t), m)) {
      AncestorOfNone(t, m);
    }
  }

  /** A table where printing does not terminate: one entry, pid 0, parent 0. */
  lemma SelfParentedZeroLoops(name: string)
    ensures !Terminates([Process(0, 0, name)])
  {
    var t := [Process(0, 0, name)];
    assert ClaimsZero(t, Ancestor(t, Zero(t), 0));
    TerminatesIff(t);
  }
}
