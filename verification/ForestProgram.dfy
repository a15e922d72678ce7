/** The program: build the child lists, sort them, print the forest. */
module ForestProgram {
  import opened ForestTable
  import opened ForestTermination
  import opened ForestPrint

  /** Stands in for `qsort`: any sorted permutation will do. */
  method Qsort(t: Table, numeric: bool, from: seq<int>) returns (ks: seq<int>)
    requires InRange(t, from)
    ensures SortedFrom(t, numeric, from, ks)
  {
    ks := [];
    for n := 0 to |from|
      invariant SortedFrom(t, numeric, from[..n], ks)
    {
      assert from[..n + 1] == from[..n] + [from[n]];
      ks := Insert(t, numeric, ks, from[n]);
    }
    assert from[..|from|] == from;
  }

  method Insert(t: Table, numeric: bool, ks: seq<int>, k: int) returns (r: seq<int>)
    requires InRange(t, ks) && InOrder(t, numeric, ks) && 0 <= k < |t|
    ensures InRange(t, r) && InOrder(t, numeric, r) && multiset(r) == multiset(ks) + multiset{k}
  {
    hide InOrder, Le, Compare;
    var at := |ks|;
    while at > 0 && !Le(t, numeric, ks[at - 1], k)
      invariant 0 <= at <= |ks|
      invariant forall j :: at <= j < |ks| ==> Le(t, numeric, k, ks[j])
    {
      LeTotal(t, numeric, ks[at - 1], k);
      at := at - 1;
    }
    r := ks[..at] + [k] + ks[at..];
    assert ks == ks[..at] + ks[at..];
    InsertOrder(t, numeric, ks, at, k);
  }

  lemma LeTotal(t: Table, numeric: bool, a: int, b: int)
    requires 0 <= a < |t| && 0 <= b < |t| && !Le(t, numeric, a, b)
    ensures Le(t, numeric, b, a)
  {
    CompareIsOrder(numeric, t[a], t[b], t[b]);
  }

  lemma LeTrans(t: Table, numeric: bool, a: int, b: int, c: int)
    requires Le(t, numeric, a, b) && Le(t, numeric, b, c)
    ensures Le(t, numeric, a, c)
  {
    CompareIsOrder(numeric, t[a], t[b], t[c]);
  }

  lemma InsertOrder(t: Table, numeric: bool, ks: seq<int>, at: nat, k: int)
    requires 0 <= k < |t| && at <= |ks| && InOrder(t, numeric, ks)
    requires at > 0 ==> Le(t, numeric, ks[at - 1], k)
    requires forall n :: at <= n < |ks| ==> Le(t, numeric, k, ks[n])
    ensures InOrder(t, numeric, ks[..at] + [k] + ks[at..])
  {
    var r := ks[..at] + [k] + ks[at..];
    forall i, j | 0 <= i < j < |r| ensures Le(t, numeric, r[i], r[j]) {
      if j == at {
        if i < at - 1 {
          LeTrans(t, numeric, ks[i], ks[at - 1], k);
        }
      } else if i != at {
        assert Le(t, numeric, ks[if i < at then i else i - 1], ks[if j < at then j else j - 1]);
      }
    }
  }

  /** A list of fewer than two entries needs no sorting. */
  lemma ShortIsSorted(t: Table, numeric: bool, ks: seq<int>)
    requires |ks| < 2 && InRange(t, ks)
    ensures SortedFrom(t, numeric, ks, ks)
  {
  }

  lemma ChildrenInRange(t: Table, p: int)
    ensures InRange(t, ChildrenUpTo(t, p, |t|))
  {
    var ks := ChildrenUpTo(t, p, |t|);
    forall i | 0 <= i < |ks| ensures 0 <= ks[i] < |t| {
      assert ks[i] in ks;
    }
  }

  lemma RootsInRange(t: Table)
    ensures InRange(t, RootsUpTo(t, |t|))
  {
    var ks := RootsUpTo(t, |t|);
    forall i | 0 <= i < |ks| ensures 0 <= ks[i] < |t| {
      assert ks[i] in ks;
    }
  }

  class Forest {
    const items: Table
    var children: seq<seq<int>>
    ghost var roots: seq<int>
    var out: seq<Out>

    constructor (items: Table)
      ensures this.items == items && children == seq(|items|, _ => []) && out == []
    {
      this.items, children, roots, out := items, seq(|items|, _ => []), [], [];
    }

    /** `find_process_index`. */
    method FindProcessIndex(pid: int) returns (index: int)
      ensures index == FindFrom(items, pid, 0)
    {
      for i := 0 to |items|
        invariant FindFrom(items, pid, 0) == FindFrom(items, pid, i)
      {
        if items[i].pid == pid {
          return i;
        }
      }
      return -1;
    }

    /** `build_tree`: every entry is appended to the child list of its parent. */
    method BuildTree()
      requires children == seq(|items|, _ => [])
      modifies this`children
      ensures |children| == |items|
      ensures forall p :: 0 <= p < |items| ==> children[p] == ChildrenUpTo(items, p, |items|)
    {
      for i := 0 to |items|
        invariant |children| == |items|
        invariant forall p :: 0 <= p < |items| ==> children[p] == ChildrenUpTo(items, p, i)
      {
        var parent := FindProcessIndex(items[i].ppid);
        if parent != -1 {
          children := children[parent := children[parent] + [i]];
        }
      }
    }

    /** `sort_tree`. */
    method SortTree(numeric: bool)
      requires |children| == |items|
      requires forall p :: 0 <= p < |items| ==> children[p] == ChildrenUpTo(items, p, |items|)
      modifies this`children
      ensures Sorted(numeric)
    {
      hide SortedFrom, ChildrenUpTo;
      for i := 0 to |items|
        invariant |children| == |items|
        invariant forall p :: 0 <= p < i ==>
                    SortedFrom(items, numeric, ChildrenUpTo(items, p, |items|), children[p])
        invariant forall p :: i <= p < |items| ==> children[p] == ChildrenUpTo(items, p, |items|)
      {
        ChildrenInRange(items, i);
        if |children[i]| < 2 {
          ShortIsSorted(items, numeric, children[i]);
          continue;
        }
        var sorted := Qsort(items, numeric, children[i]);
        children := children[i := sorted];
      }
    }

    ghost predicate Sorted(numeric: bool)
      reads this
    {
      && |children| == |items|
      && forall p :: 0 <= p < |items| ==>
           SortedFrom(items, numeric, ChildrenUpTo(items, p, |items|), children[p])
    }

    lemma SortedKids(numeric: bool)
      requires Sorted(numeric)
      ensures KidsOk(items, children)
    {
      forall p | 0 <= p < |items| ensures KidsOf(items, children[p], p) {
        ChildrenDistinct(items, p, |items|);
        SortedKeeps(items, numeric, ChildrenUpTo(items, p, |items|), children[p]);
      }
    }

    /** `print_tree`. */
    method PrintTree(index: int, depth: nat)
      requires !ZeroLoops(items) && KidsOk(items, children) && PrintedAt(items, index, depth)
      modifies this`out
      ensures out == old(out) + Tree(items, children, index, depth)
      decreases |items| - depth, 1
    {
      hide ZeroLoops;
      DepthBelowSize(items, index, depth);
      KidsPrinted(items, children[index], index, depth);
      out := out + [Out(depth, index)];
      PrintAll(children[index], depth + 1);
    }

    /** The loops that print one tree after the other. */
    method PrintAll(ks: seq<int>, depth: nat)
      requires !ZeroLoops(items) && KidsOk(items, children) && AllPrintedAt(items, ks, depth)
      modifies this`out
      ensures out == old(out) + Trees(items, children, ks, depth)
      decreases |items| - depth, 2
    {
      hide ZeroLoops, KidsOk, PrintedAt;
      ghost var before := out;
      assert ks[0..] == ks;
      for i := 0 to |ks|
        invariant KidsOk(items, children) && AllPrintedAt(items, ks[i..], depth)
        invariant before + Trees(items, children, ks, depth)
               == out + Trees(items, children, ks[i..], depth)
      {
        assert ks[i..][0] == ks[i] && ks[i..][1..] == ks[i + 1..];
        assert PrintedAt(items, ks[i], depth);
        PrintTree(ks[i], depth);
      }
      assert ks[|ks|..] == [];
    }

    /** The roots `print_forest` collects, sorted. */
    method CollectRoots(numeric: bool) returns (sorted: seq<int>)
      ensures SortedFrom(items, numeric, RootsUpTo(items, |items|), sorted)
    {
      var unsorted := [];
      for i := 0 to |items|
        invariant unsorted == RootsUpTo(items, i)
      {
        var parent := FindProcessIndex(items[i].ppid);
        if items[i].ppid == 0 || parent == -1 {
          unsorted := unsorted + [i];
        }
      }
      RootsInRange(items);
      sorted := Qsort(items, numeric, unsorted);
    }

    /** `print_forest`, for every table it terminates on. */
    method PrintForest(numeric: bool)
      requires !ZeroLoops(items) && Sorted(numeric)
      modifies this`out, this`roots
      ensures SortedFrom(items, numeric, RootsUpTo(items, |items|), roots)
      ensures KidsOk(items, children) && RootsOk(items, roots)
      ensures out == old(out) + ForestPrint.Forest(items, children, roots)
    {
      hide SortedFrom, RootsUpTo, KidsOk, AllPrintedAt, ZeroLoops;
      SortedKids(numeric);
      var sorted := CollectRoots(numeric);
      roots := sorted;
      RootsDistinct(items, |items|);
      SortedKeeps(items, numeric, RootsUpTo(items, |items|), sorted);
      assert RootsOk(items, sorted);
      RootsPrinted(items, sorted);
      PrintAll(sorted, 0);
    }
  }
}
