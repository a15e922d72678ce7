/** The process table, the order of siblings, and the forest its parent fields span. */
module ForestTable {

  datatype Process = Process(pid: int, ppid: int, name: string)

  type Table = seq<Process>

  // ----- comparators -----

  /** The sign of `strcmp`. */
  function StrCmp(a: string, b: string): int {
    if a == [] then (if b == [] then 0 else -1)
    else if b == [] then 1
    else if a[0] < b[0] then -1
    else if a[0] > b[0] then 1
    else StrCmp(a[1..], b[1..])
  }

  function Sign(x: int): int { if x < 0 then -1 else if x > 0 then 1 else 0 }

  function CompareByPid(a: Process, b: Process): int { Sign(a.pid - b.pid) }

  function CompareByName(a: Process, b: Process): int {
    var c := StrCmp(a.name, b.name);
    if c != 0 then c else Sign(a.pid - b.pid)
  }

  function Compare(numeric: bool, a: Process, b: Process): int {
    if numeric then CompareByPid(a, b) else CompareByName(a, b)
  }

  lemma {:induction false} StrCmpOrder(a: string, b: string, c: string)
    ensures StrCmp(a, b) == -StrCmp(b, a)
    ensures StrCmp(a, b) <= 0 && StrCmp(b, c) <= 0 ==>
              StrCmp(a, c) <= 0 && (StrCmp(a, c) == 0 ==> StrCmp(a, b) == StrCmp(b, c) == 0)
    decreases |a|
  {
    if a != [] && b != [] {
      StrCmpOrder(a[1..], b[1..], if c == [] then [] else c[1..]);
    }
  }

  /** The comparators are total preorders, as `qsort` needs. */
  lemma CompareIsOrder(numeric: bool, a: Process, b: Process, c: Process)
    ensures Compare(numeric, a, b) <= 0 || Compare(numeric, b, a) <= 0
    ensures Compare(numeric, a, b) <= 0 && Compare(numeric, b, c) <= 0 ==> Compare(numeric, a, c) <= 0
  {
    StrCmpOrder(a.name, b.name, c.name);
    StrCmpOrder(b.name, c.name, a.name);
  }

  // ----- parents and children -----

  /** `find_process_index`: the first entry with that pid, or -1. */
  function FindFrom(t: Table, pid: int, from: nat): (i: int)
    requires from <= |t|
    ensures i == -1 || (from <= i < |t| && t[i].pid == pid)
    ensures i == -1 ==> forall j :: from <= j < |t| ==> t[j].pid != pid
    ensures i >= 0 ==> forall j :: from <= j < i ==> t[j].pid != pid
    decreases |t| - from
  {
    if from == |t| then -1 else if t[from].pid == pid then from else FindFrom(t, pid, from + 1)
  }

  function Parent(t: Table, i: int): (p: int)
    ensures -1 <= p < |t|
  {
    if 0 <= i < |t| then FindFrom(t, t[i].ppid, 0) else -1
  }

  predicate IsRoot(t: Table, i: int) {
    0 <= i < |t| && (t[i].ppid == 0 || Parent(t, i) == -1)
  }

  predicate NoPidZero(t: Table) {
    forall i :: 0 <= i < |t| ==> t[i].pid != 0
  }

  /** The first `n` entries whose parent is `p`, in table order. */
  function ChildrenUpTo(t: Table, p: int, n: nat): (ks: seq<int>)
    requires n <= |t|
    ensures forall k :: k in ks <==> 0 <= k < n && Parent(t, k) == p
  {
    if n == 0 then []
    else ChildrenUpTo(t, p, n - 1) + (if Parent(t, n - 1) == p then [n - 1] else [])
  }

  /** The first `n` entries, as far as they are roots. */
  function RootsUpTo(t: Table, n: nat): (ks: seq<int>)
    requires n <= |t|
    ensures forall k :: k in ks <==> k < n && IsRoot(t, k)
  {
    if n == 0 then [] else RootsUpTo(t, n - 1) + (if IsRoot(t, n - 1) then [n - 1] else [])
  }

  lemma {:induction false} RootsDistinct(t: Table, n: nat)
    requires n <= |t|
    ensures Distinct(RootsUpTo(t, n))
    decreases n
  {
    if n > 0 {
      RootsDistinct(t, n - 1);
      var ks := RootsUpTo(t, n - 1);
      forall i | 0 <= i < |ks| ensures ks[i] != n - 1 {
        assert ks[i] in ks;
      }
    }
  }

  ghost predicate Distinct(ks: seq<int>) {
    forall i, j :: 0 <= i < j < |ks| ==> ks[i] != ks[j]
  }

  lemma {:induction false} ChildrenDistinct(t: Table, p: int, n: nat)
    requires n <= |t|
    ensures Distinct(ChildrenUpTo(t, p, n))
    decreases n
  {
    if n > 0 {
      ChildrenDistinct(t, p, n - 1);
      var ks := ChildrenUpTo(t, p, n - 1);
      forall i | 0 <= i < |ks| ensures ks[i] != n - 1 {
        assert ks[i] in ks;
      }
    }
  }

  ghost predicate InRange(t: Table, ks: seq<int>) {
    forall i :: 0 <= i < |ks| ==> 0 <= ks[i] < |t|
  }

  predicate Le(t: Table, numeric: bool, a: int, b: int) {
    0 <= a < |t| && 0 <= b < |t| && Compare(numeric, t[a], t[b]) <= 0
  }

  ghost predicate InOrder(t: Table, numeric: bool, ks: seq<int>) {
    forall i, j :: 0 <= i < j < |ks| ==> Le(t, numeric, ks[i], ks[j])
  }

  /** What `qsort` leaves: the same entries, in comparator order. */
  ghost predicate SortedFrom(t: Table, numeric: bool, from: seq<int>, ks: seq<int>) {
    multiset(ks) == multiset(from) && InRange(t, ks) && InOrder(t, numeric, ks)
  }

  lemma SortedKeeps(t: Table, numeric: bool, from: seq<int>, ks: seq<int>)
    requires SortedFrom(t, numeric, from, ks) && Distinct(from)
    ensures Distinct(ks) && forall k :: k in ks <==> k in from
  {
    forall k ensures k in ks <==> k in from {
      assert k in ks <==> k in multiset(ks);
      assert k in from <==> k in multiset(from);
    }
    forall i, j | 0 <= i < j < |ks| ensures ks[i] != ks[j] {
      if ks[i] == ks[j] {
        TwiceCounts(ks, i, j);
        OnceCounts(from, ks[i]);
      }
    }
  }

  lemma TwiceCounts(ks: seq<int>, i: nat, j: nat)
    requires i < j < |ks| && ks[i] == ks[j]
    ensures multiset(ks)[ks[i]] >= 2
  {
    assert ks == ks[..j] + ks[j..];
    assert ks[i] in ks[..j] && ks[i] in ks[j..];
    assert ks[..j][i] == ks[i] && ks[j..][0] == ks[j];
  }

  lemma {:induction false} OnceCounts(ks: seq<int>, k: int)
    requires Distinct(ks)
    ensures multiset(ks)[k] <= 1
    decreases |ks|
  {
    if ks != [] {
      var n := |ks| - 1;
      assert ks == ks[..n] + [ks[n]];
      OnceCounts(ks[..n], k);
      if ks[n] == k {
        assert k !in ks[..n];
      }
    }
  }

  // ----- what the order means -----

  /** Name `a` comes before `b`: it has the smaller character where they first differ, or is a proper
      prefix. */
  ghost predicate NameBefore(a: string, b: string) {
    || (|a| < |b| && b[..|a|] == a)
    || exists k :: 0 <= k < |a| && k < |b| && FirstDiffer(a, b, k) && a[k] < b[k]
  }

  predicate FirstDiffer(a: string, b: string, k: nat)
    requires k < |a| && k < |b|
  {
    a[..k] == b[..k] && a[k] != b[k]
  }

  lemma {:induction false} StrCmpMeans(a: string, b: string)
    ensures StrCmp(a, b) < 0 <==> NameBefore(a, b)
    ensures StrCmp(a, b) == 0 <==> a == b
    decreases |a|
  {
    if a != [] && b != [] {
      var a', b' := a[1..], b[1..];
      assert a == [a[0]] + a' && b == [b[0]] + b';
      if a[0] == b[0] {
        StrCmpMeans(a', b');
        SameHead(a, b);
      } else {
        DifferentHead(a, b);
      }
    }
  }

  lemma DifferLater(a: string, b: string, k: nat)
    requires k + 1 < |a| && k + 1 < |b| && a[0] == b[0]
    ensures FirstDiffer(a, b, k + 1) <==> FirstDiffer(a[1..], b[1..], k)
  {
    assert a[..k + 1] == [a[0]] + a[1..][..k] && b[..k + 1] == [b[0]] + b[1..][..k];
    assert a[1..][..k] == a[..k + 1][1..] && b[1..][..k] == b[..k + 1][1..];
  }

  lemma PrefixLater(a: string, b: string)
    requires 0 < |a| < |b| && a[0] == b[0]
    ensures b[..|a|] == a <==> b[1..][..|a| - 1] == a[1..]
  {
    assert b[..|a|] == [b[0]] + b[1..][..|a| - 1] && a == [a[0]] + a[1..];
    assert b[1..][..|a| - 1] == b[..|a|][1..];
  }

  lemma SameHead(a: string, b: string)
    requires a != [] && b != [] && a[0] == b[0]
    ensures NameBefore(a, b) <==> NameBefore(a[1..], b[1..])
  {
    var a', b' := a[1..], b[1..];
    if |a| < |b| {
      PrefixLater(a, b);
    }
    assert !FirstDiffer(a, b, 0);
    if k :| 0 <= k < |a| && k < |b| && FirstDiffer(a, b, k) && a[k] < b[k] {
      hide FirstDiffer;
      DifferLater(a, b, k - 1);
      assert FirstDiffer(a', b', k - 1) && a'[k - 1] < b'[k - 1];
    }
    if k :| 0 <= k < |a'| && k < |b'| && FirstDiffer(a', b', k) && a'[k] < b'[k] {
      hide FirstDiffer;
      DifferLater(a, b, k);
      assert FirstDiffer(a, b, k + 1) && a[k + 1] < b[k + 1];
    }
  }

  lemma DifferentHead(a: string, b: string)
    requires a != [] && b != [] && a[0] != b[0]
    ensures NameBefore(a, b) <==> a[0] < b[0]
  {
    if |a| < |b| {
      assert b[..|a|][0] == b[0];
    }
    assert a[..0] == b[..0];
    assert FirstDiffer(a, b, 0);
    forall k | 0 < k < |a| && k < |b| ensures !FirstDiffer(a, b, k) {
      assert a[..k][0] == a[0] && b[..k][0] == b[0];
    }
  }

  /** By number, pids never descend. By name, names never descend, and pids never descend among
      entries of the same name. */
  lemma SortedMeans(t: Table, numeric: bool, from: seq<int>, ks: seq<int>, i: nat, j: nat)
    requires SortedFrom(t, numeric, from, ks) && i < j < |ks|
    ensures 0 <= ks[i] < |t| && 0 <= ks[j] < |t|
    ensures var a, b := t[ks[i]], t[ks[j]];
            if numeric then a.pid <= b.pid
            else NameBefore(a.name, b.name) || (a.name == b.name && a.pid <= b.pid)
  {
    assert Le(t, numeric, ks[i], ks[j]);
    StrCmpMeans(t[ks[i]].name, t[ks[j]].name);
  }

  ghost predicate DistinctPids(t: Table) {
    forall i, j :: 0 <= i < j < |t| ==> t[i].pid != t[j].pid
  }

  lemma TailSorted(t: Table, numeric: bool, ks: seq<int>)
    requires InRange(t, ks) && InOrder(t, numeric, ks) && ks != []
    ensures InRange(t, ks[1..]) && InOrder(t, numeric, ks[1..])
    ensures multiset(ks[1..]) == multiset(ks) - multiset{ks[0]}
  {
    hide Le;
    assert ks == [ks[0]] + ks[1..];
  }

  /** Where pids are distinct, the order is unique, whatever the sorting algorithm. */
  lemma {:induction false} SortedIsUnique(t: Table, numeric: bool, from: seq<int>, ks: seq<int>, ks': seq<int>)
    requires SortedFrom(t, numeric, from, ks) && SortedFrom(t, numeric, from, ks')
    requires DistinctPids(t)
    ensures ks == ks'
    decreases |ks|
  {
    assert |multiset(ks)| == |ks| && |multiset(ks')| == |ks'|;
    if ks != [] {
      hide InRange, InOrder, DistinctPids;
      SameLeast(t, numeric, ks, ks');
      TailSorted(t, numeric, ks);
      TailSorted(t, numeric, ks');
      SortedIsUnique(t, numeric, ks[1..], ks[1..], ks'[1..]);
      assert ks == [ks[0]] + ks[1..] && ks' == [ks'[0]] + ks'[1..];
    }
  }

  lemma SameLeast(t: Table, numeric: bool, ks: seq<int>, ks': seq<int>)
    requires multiset(ks) == multiset(ks') && ks != [] && ks' != []
    requires InRange(t, ks) && InRange(t, ks') && InOrder(t, numeric, ks) && InOrder(t, numeric, ks')
    requires DistinctPids(t)
    ensures ks[0] == ks'[0]
  {
    assert ks[0] in multiset(ks) && ks'[0] in multiset(ks');
    var i :| 0 <= i < |ks| && ks[i] == ks'[0];
    var j :| 0 <= j < |ks'| && ks'[j] == ks[0];
    var a, b := t[ks[0]], t[ks'[0]];
    if i > 0 && j > 0 {
      assert Le(t, numeric, ks[0], ks[i]) && Le(t, numeric, ks'[0], ks'[j]);
      StrCmpOrder(a.name, b.name, a.name);
      assert a.pid == b.pid;
    }
  }

  // ----- depth -----

  /** `i` is `d` steps below an entry without a parent in the table. */
  predicate AtDepth(t: Table, i: int, d: nat)
    decreases d
  {
    && 0 <= i < |t|
    && if d == 0 then Parent(t, i) == -1 else AtDepth(t, Parent(t, i), d - 1)
  }

  lemma {:induction false} DepthUnique(t: Table, i: int, d: nat, e: nat)
    requires AtDepth(t, i, d) && AtDepth(t, i, e)
    ensures d == e
    decreases d
  {
    if d > 0 && e > 0 {
      DepthUnique(t, Parent(t, i), d - 1, e - 1);
    }
  }

  function Range(n: nat): (s: set<int>)
    ensures |s| == n && forall j :: j in s <==> 0 <= j < n
  {
    if n == 0 then {} else Range(n - 1) + {n - 1}
  }

  lemma SubsetSize(a: set<int>, b: set<int>)
    requires a <= b
    ensures |a| <= |b|
  {
    assert b == a + (b - a);
  }

  // ----- ancestors -----

  /** `m` steps up from `p`. */
  function Ancestor(t: Table, p: int, m: nat): int
    decreases m
  {
    if m == 0 then p else Ancestor(t, Parent(t, p), m - 1)
  }

  lemma {:induction false} AncestorStep(t: Table, p: int, m: nat)
    ensures Ancestor(t, p, m + 1) == Parent(t, Ancestor(t, p, m))
    decreases m
  {
    if m > 0 {
      AncestorStep(t, Parent(t, p), m - 1);
    }
  }

  lemma {:induction false} AncestorAdd(t: Table, p: int, a: nat, b: nat)
    ensures Ancestor(t, p, a + b) == Ancestor(t, Ancestor(t, p, a), b)
    decreases a
  {
    if a > 0 {
      AncestorAdd(t, Parent(t, p), a - 1, b);
    }
  }

  lemma {:induction false} AncestorOfNone(t: Table, m: nat)
    ensures Ancestor(t, -1, m) == -1
  {
    if m > 0 {
      AncestorOfNone(t, m - 1);
    }
  }

  lemma {:induction false} AncestorsInTable(t: Table, p: int, m: nat, j: nat)
    requires -1 <= p < |t| && 0 <= Ancestor(t, p, m) && j <= m
    ensures 0 <= Ancestor(t, p, j) < |t|
    decreases j
  {
    if p == -1 {
      AncestorOfNone(t, m);
    } else if j > 0 {
      AncestorsInTable(t, Parent(t, p), m - 1, j - 1);
    }
  }
}
