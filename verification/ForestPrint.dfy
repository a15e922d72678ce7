/** What printing the forest puts out, line by line, for every table it terminates on. An
    entry of parent 0 is a root also where the table has an entry of pid 0; it is then a child
    of that entry as well and may be printed once from each. */
module ForestPrint {
  import opened ForestTable
  import opened ForestTermination

  /** One printed line: the indentation and the entry. */
  datatype Out = Out(depth: nat, index: int)

  /** `kids[p]` holds exactly the children of `p`, each once. */
  ghost predicate KidsOk(t: Table, kids: seq<seq<int>>) {
    && |kids| == |t|
    && forall p :: 0 <= p < |t| ==> KidsOf(t, kids[p], p)
  }

  ghost predicate KidsOf(t: Table, ks: seq<int>, p: int) {
    Distinct(ks) && forall k :: k in ks <==> 0 <= k < |t| && Parent(t, k) == p
  }

  ghost predicate RootsOk(t: Table, roots: seq<int>) {
    Distinct(roots) && forall k :: k in roots <==> IsRoot(t, k)
  }

  // ----- at which depth an entry is printed -----

  /** The d-th ancestor of entry i is a root. */
  predicate PrintedAt(t: Table, i: int, d: nat) {
    0 <= i < |t| && IsRoot(t, Ancestor(t, i, d))
  }

  ghost predicate AllPrintedAt(t: Table, ks: seq<int>, d: nat) {
    forall i :: 0 <= i < |ks| ==> PrintedAt(t, ks[i], d)
  }

  lemma KidsPrinted(t: Table, ks: seq<int>, p: int, d: nat)
    requires KidsOf(t, ks, p) && PrintedAt(t, p, d)
    ensures AllPrintedAt(t, ks, d + 1)
  {
    forall i | 0 <= i < |ks| ensures PrintedAt(t, ks[i], d + 1) {
      assert ks[i] in ks;
    }
  }

  lemma RootsPrinted(t: Table, roots: seq<int>)
    requires RootsOk(t, roots)
    ensures AllPrintedAt(t, roots, 0)
  {
    forall i | 0 <= i < |roots| ensures PrintedAt(t, roots[i], 0) {
      assert roots[i] in roots;
    }
  }

  /** Where printing terminates, no entry is printed deeper than the table is long. */
  lemma DepthBelowSize(t: Table, i: int, d: nat)
    requires !ZeroLoops(t) && PrintedAt(t, i, d)
    ensures d < |t|
  {
    var path := seq(d + 1, n requires 0 <= n <= d => Ancestor(t, i, d - n));
    forall n | 0 <= n < |path| - 1 ensures Calls(t, path[n], path[n + 1]) {
      AncestorsInTable(t, i, d, d - n - 1);
      AncestorStep(t, i, d - n - 1);
    }
    NoLoopIsBounded(t);
    assert Stack(t, path);
  }

  // ----- the output -----

  /** `print_tree`: the entry, then its children one level deeper. */
  ghost function Tree(t: Table, kids: seq<seq<int>>, i: int, d: nat): seq<Out>
    requires !ZeroLoops(t) && KidsOk(t, kids) && PrintedAt(t, i, d)
    decreases |t| - d, 1, 0
  {
    DepthBelowSize(t, i, d);
    KidsPrinted(t, kids[i], i, d);
    [Out(d, i)] + Trees(t, kids, kids[i], d + 1)
  }

  ghost function Trees(t: Table, kids: seq<seq<int>>, ks: seq<int>, d: nat): seq<Out>
    requires !ZeroLoops(t) && KidsOk(t, kids) && AllPrintedAt(t, ks, d)
    decreases |t| - d, 2, |ks|
  {
    if ks == [] then []
    else
      assert PrintedAt(t, ks[0], d);
      Tree(t, kids, ks[0], d) + Trees(t, kids, ks[1..], d)
  }

  ghost function Forest(t: Table, kids: seq<seq<int>>, roots: seq<int>): seq<Out>
    requires !ZeroLoops(t) && KidsOk(t, kids) && RootsOk(t, roots)
  {
    RootsPrinted(t, roots);
    Trees(t, kids, roots, 0)
  }

  // ----- every line stands at the distance of its entry from a root -----

  ghost predicate LinesOk(t: Table, out: seq<Out>, d: nat) {
    forall n :: 0 <= n < |out| ==> out[n].depth >= d && PrintedAt(t, out[n].index, out[n].depth)
  }

  lemma {:induction false} TreeLines(t: Table, kids: seq<seq<int>>, i: int, d: nat)
    requires !ZeroLoops(t) && KidsOk(t, kids) && PrintedAt(t, i, d)
    ensures LinesOk(t, Tree(t, kids, i, d), d)
    decreases |t| - d, 1, 0
  {
    hide ZeroLoops;
    DepthBelowSize(t, i, d);
    KidsPrinted(t, kids[i], i, d);
    TreesLines(t, kids, kids[i], d + 1);
  }

  lemma {:induction false} TreesLines(t: Table, kids: seq<seq<int>>, ks: seq<int>, d: nat)
    requires !ZeroLoops(t) && KidsOk(t, kids) && AllPrintedAt(t, ks, d)
    ensures LinesOk(t, Trees(t, kids, ks, d), d)
    decreases |t| - d, 2, |ks|
  {
    hide ZeroLoops, PrintedAt;
    if ks != [] {
      assert PrintedAt(t, ks[0], d);
      TreeLines(t, kids, ks[0], d);
      TreesLines(t, kids, ks[1..], d);
    }
  }

  // ----- which children of an entry are printed below it, and in which order -----

  /** The entries of parent `p` printed at depth e + 1, in print order. */
  function Below(t: Table, out: seq<Out>, p: int, e: int): seq<int> {
    if out == [] then []
    else (if out[0].depth == e + 1 && Parent(t, out[0].index) == p then [out[0].index] else [])
         + Below(t, out[1..], p, e)
  }

  lemma {:induction false} BelowAppend(t: Table, a: seq<Out>, b: seq<Out>, p: int, e: int)
    ensures Below(t, a + b, p, e) == Below(t, a, p, e) + Below(t, b, p, e)
    decreases |a|
  {
    if a == [] {
      assert a + b == b;
    } else {
      assert (a + b)[1..] == a[1..] + b;
      BelowAppend(t, a[1..], b, p, e);
    }
  }

  /** The entry of depth `d` on the way from `p`, printed at depth `e`, to its root is in `ks`. */
  predicate Passes(t: Table, p: int, e: nat, ks: seq<int>, d: nat) {
    e >= d && Ancestor(t, p, e - d) in ks
  }

  lemma PassesKids(t: Table, p: int, e: nat, i: int, ks: seq<int>, d: nat)
    requires 0 <= p < |t| && 0 <= i < |t| && KidsOf(t, ks, i)
    ensures e > d ==> (Passes(t, p, e, [i], d) <==> Passes(t, p, e, ks, d + 1))
    ensures e == d ==> (Passes(t, p, e, [i], d) <==> p == i)
  {
    if e > d {
      AncestorStep(t, p, e - d - 1);
      if Ancestor(t, p, e - d) == i {
        AncestorsInTable(t, p, e - d, e - d - 1);
      }
    }
  }

  lemma PassesSplit(t: Table, p: int, e: nat, ks: seq<int>, d: nat)
    requires ks != [] && Distinct(ks)
    ensures Passes(t, p, e, ks, d) <==> Passes(t, p, e, [ks[0]], d) || Passes(t, p, e, ks[1..], d)
    ensures !(Passes(t, p, e, [ks[0]], d) && Passes(t, p, e, ks[1..], d))
    ensures e < d ==> !Passes(t, p, e, ks, d)
  {
    assert ks == [ks[0]] + ks[1..];
    assert ks[0] !in ks[1..];
  }

  lemma {:induction false} TreeBelow(t: Table, kids: seq<seq<int>>, i: int, d: nat, p: int, e: nat)
    requires !ZeroLoops(t) && KidsOk(t, kids) && PrintedAt(t, i, d) && 0 <= p < |t|
    ensures Below(t, Tree(t, kids, i, d), p, e)
         == (if d == e + 1 && Parent(t, i) == p then [i] else [])
          + (if Passes(t, p, e, [i], d) then kids[p] else [])
    decreases |t| - d, 1, 0
  {
    hide ZeroLoops;
    DepthBelowSize(t, i, d);
    KidsPrinted(t, kids[i], i, d);
    var rest := Trees(t, kids, kids[i], d + 1);
    assert Tree(t, kids, i, d)[1..] == rest;
    PassesKids(t, p, e, i, kids[i], d);
    TreesBelow(t, kids, kids[i], d + 1, i, p, e);
  }

  lemma {:induction false} TreesBelow(t: Table, kids: seq<seq<int>>, ks: seq<int>, d: nat, parent: int, p: int, e: nat)
    requires !ZeroLoops(t) && KidsOk(t, kids) && AllPrintedAt(t, ks, d) && Distinct(ks) && 0 <= p < |t|
    requires d > 0 ==> forall i :: 0 <= i < |ks| ==> Parent(t, ks[i]) == parent
    ensures Below(t, Trees(t, kids, ks, d), p, e)
         == if d == e + 1 then (if p == parent then ks else [])
            else if Passes(t, p, e, ks, d) then kids[p] else []
    decreases |t| - d, 2, |ks|
  {
    hide Tree, Trees, Below, KidsOk, PrintedAt, Parent, Ancestor, ZeroLoops, Passes;
    if ks == [] {
      NoTreesBelow(t, kids, d, p, e);
    } else {
      assert PrintedAt(t, ks[0], d);
      FirstTreeBelow(t, kids, ks, d, p, e);
      TreeBelow(t, kids, ks[0], d, p, e);
      TreesBelow(t, kids, ks[1..], d, parent, p, e);
      PassesSplit(t, p, e, ks, d);
      if d == e + 1 && p == parent {
        assert [ks[0]] + [] + ks[1..] == ks;
      }
    }
  }

  lemma NoTreesBelow(t: Table, kids: seq<seq<int>>, d: nat, p: int, e: nat)
    requires !ZeroLoops(t) && KidsOk(t, kids) && AllPrintedAt(t, [], d)
    ensures Below(t, Trees(t, kids, [], d), p, e) == [] && !Passes(t, p, e, [], d)
  {
    hide ZeroLoops, KidsOk;
  }

  lemma FirstTreeBelow(t: Table, kids: seq<seq<int>>, ks: seq<int>, d: nat, p: int, e: nat)
    requires !ZeroLoops(t) && KidsOk(t, kids) && AllPrintedAt(t, ks, d) && ks != []
    requires PrintedAt(t, ks[0], d) && AllPrintedAt(t, ks[1..], d)
    ensures Below(t, Trees(t, kids, ks, d), p, e)
         == Below(t, Tree(t, kids, ks[0], d), p, e) + Below(t, Trees(t, kids, ks[1..], d), p, e)
  {
    hide Tree, Below, KidsOk, PrintedAt, ZeroLoops;
    BelowAppend(t, Tree(t, kids, ks[0], d), Trees(t, kids, ks[1..], d), p, e);
  }

  /** Under every printed entry its children follow one level deeper, exactly those of its
      child list and in that order; an entry that is not printed at a depth has none there. */
  lemma ForestBelow(t: Table, kids: seq<seq<int>>, roots: seq<int>, p: int, e: nat)
    requires !ZeroLoops(t) && KidsOk(t, kids) && RootsOk(t, roots) && 0 <= p < |t|
    ensures Below(t, Forest(t, kids, roots), p, e) == if PrintedAt(t, p, e) then kids[p] else []
  {
    hide ZeroLoops, Trees;
    RootsPrinted(t, roots);
    TreesBelow(t, kids, roots, 0, -1, p, e);
  }

  // ----- the roots -----

  /** The entries printed without indentation, in print order. */
  function Unindented(out: seq<Out>): seq<int> {
    if out == [] then [] else (if out[0].depth == 0 then [out[0].index] else []) + Unindented(out[1..])
  }

  lemma {:induction false} UnindentedAppend(a: seq<Out>, b: seq<Out>)
    ensures Unindented(a + b) == Unindented(a) + Unindented(b)
    decreases |a|
  {
    if a == [] {
      assert a + b == b;
    } else {
      var first := if a[0].depth == 0 then [a[0].index] else [];
      UnindentedAppend(a[1..], b);
      assert (a + b)[1..] == a[1..] + b;
      assert Unindented(a + b) == first + Unindented(a[1..] + b);
      assert Unindented(a) == first + Unindented(a[1..]);
    }
  }

  lemma {:induction false} NoneUnindented(t: Table, out: seq<Out>)
    requires LinesOk(t, out, 1)
    ensures Unindented(out) == []
    decreases |out|
  {
    if out != [] {
      NoneUnindented(t, out[1..]);
    }
  }

  lemma {:induction false} RootLines(t: Table, kids: seq<seq<int>>, ks: seq<int>)
    requires !ZeroLoops(t) && KidsOk(t, kids) && AllPrintedAt(t, ks, 0)
    ensures Unindented(Trees(t, kids, ks, 0)) == ks
    decreases |ks|
  {
    hide ZeroLoops;
    if ks != [] {
      var i := ks[0];
      assert PrintedAt(t, i, 0);
      DepthBelowSize(t, i, 0);
      KidsPrinted(t, kids[i], i, 0);
      var deeper := Trees(t, kids, kids[i], 1);
      TreesLines(t, kids, kids[i], 1);
      NoneUnindented(t, deeper);
      assert Tree(t, kids, i, 0)[1..] == deeper;
      UnindentedAppend(Tree(t, kids, i, 0), Trees(t, kids, ks[1..], 0));
      RootLines(t, kids, ks[1..]);
    }
  }

  /** The entries printed without indentation are exactly the roots, in their order. */
  lemma RootsBelow(t: Table, kids: seq<seq<int>>, roots: seq<int>)
    requires !ZeroLoops(t) && KidsOk(t, kids) && RootsOk(t, roots)
    ensures Unindented(Forest(t, kids, roots)) == roots
  {
    RootsPrinted(t, roots);
    RootLines(t, kids, roots);
  }

  // ----- how often a line and an entry are printed -----

  lemma CountFirst<A>(x: A, rest: seq<A>, y: A)
    ensures multiset([x] + rest)[y] == (if x == y then 1 else 0) + multiset(rest)[y]
  {
    assert multiset([x] + rest) == multiset{x} + multiset(rest);
  }

  lemma {:induction false} UnindentedCount(out: seq<Out>, i: int)
    ensures multiset(out)[Out(0, i)] == multiset(Unindented(out))[i]
    decreases |out|
  {
    if out != [] {
      UnindentedCount(out[1..], i);
      assert out == [out[0]] + out[1..];
      CountFirst(out[0], out[1..], Out(0, i));
      CountFirst(out[0].index, Unindented(out[1..]), i);
      assert [] + Unindented(out[1..]) == Unindented(out[1..]);
    }
  }

  lemma {:induction false} BelowCount(t: Table, out: seq<Out>, i: int, e: nat)
    ensures multiset(out)[Out(e + 1, i)] == multiset(Below(t, out, Parent(t, i), e))[i]
    decreases |out|
  {
    hide Parent;
    if out != [] {
      var rest := Below(t, out[1..], Parent(t, i), e);
      BelowCount(t, out[1..], i, e);
      assert out == [out[0]] + out[1..];
      CountFirst(out[0], out[1..], Out(e + 1, i));
      if out[0].depth == e + 1 && Parent(t, out[0].index) == Parent(t, i) {
        CountFirst(out[0].index, rest, i);
      } else {
        assert Below(t, out, Parent(t, i), e) == rest;
      }
    }
  }

  lemma NotPrinted(t: Table, out: seq<Out>, i: int, d: nat)
    requires LinesOk(t, out, 0) && !PrintedAt(t, i, d)
    ensures multiset(out)[Out(d, i)] == 0
  {
    hide PrintedAt;
    assert Out(d, i) !in out;
  }

  lemma CountOnce(ks: seq<int>, k: int)
    requires Distinct(ks) && k in ks
    ensures multiset(ks)[k] == 1
  {
    OnceCounts(ks, k);
    assert k in multiset(ks);
  }

  /** The line of entry i at depth d is printed exactly once if the d-th ancestor of i is a
      root, and never otherwise. */
  lemma LinePrinted(t: Table, kids: seq<seq<int>>, roots: seq<int>, i: int, d: nat)
    requires !ZeroLoops(t) && KidsOk(t, kids) && RootsOk(t, roots)
    ensures multiset(Forest(t, kids, roots))[Out(d, i)] == if PrintedAt(t, i, d) then 1 else 0
  {
    hide ZeroLoops, Trees, LinesOk, Below, Unindented;
    var out := Forest(t, kids, roots);
    RootsPrinted(t, roots);
    TreesLines(t, kids, roots, 0);
    if !PrintedAt(t, i, d) {
      NotPrinted(t, out, i, d);
    } else if d == 0 {
      UnindentedCount(out, i);
      RootsBelow(t, kids, roots);
      CountOnce(roots, i);
    } else {
      var p := Parent(t, i);
      AncestorsInTable(t, i, d, 1);
      BelowCount(t, out, i, d - 1);
      ForestBelow(t, kids, roots, p, d - 1);
      CountOnce(kids[p], i);
    }
  }

  function Times(out: seq<Out>, i: int): nat {
    if out == [] then 0 else (if out[0].index == i then 1 else 0) + Times(out[1..], i)
  }

  /** How often entry i stands at a depth below n. */
  function TimesAbove(out: seq<Out>, i: int, n: nat): nat {
    if n == 0 then 0 else TimesAbove(out, i, n - 1) + multiset(out)[Out(n - 1, i)]
  }

  lemma {:induction false} TimesAboveFirst(out: seq<Out>, i: int, n: nat)
    requires out != []
    ensures TimesAbove(out, i, n)
         == TimesAbove(out[1..], i, n) + (if out[0].index == i && out[0].depth < n then 1 else 0)
    decreases n
  {
    if n > 0 {
      TimesAboveFirst(out, i, n - 1);
      assert out == [out[0]] + out[1..];
    }
  }

  lemma {:induction false} TimesNone(i: int, n: nat)
    ensures TimesAbove([], i, n) == 0
  {
    if n > 0 {
      TimesNone(i, n - 1);
    }
  }

  lemma {:induction false} TimesByDepth(out: seq<Out>, i: int, n: nat)
    requires forall k :: 0 <= k < |out| ==> out[k].depth < n
    ensures Times(out, i) == TimesAbove(out, i, n)
    decreases |out|
  {
    if out == [] {
      TimesNone(i, n);
    } else {
      TimesAboveFirst(out, i, n);
      TimesByDepth(out[1..], i, n);
    }
  }

  /** The roots among the first n ancestors of i, itself included. */
  function RootsAmong(t: Table, i: int, n: nat): set<int> {
    if n == 0 then {}
    else RootsAmong(t, i, n - 1) + (if IsRoot(t, Ancestor(t, i, n - 1)) then {Ancestor(t, i, n - 1)} else {})
  }

  predicate RootAt(t: Table, i: int, r: int, m: nat) {
    IsRoot(t, r) && Ancestor(t, i, m) == r
  }

  /** Root r is an ancestor of i, or i itself. */
  ghost predicate RootAbove(t: Table, i: int, r: int) {
    exists m: nat :: RootAt(t, i, r, m)
  }

  /** A root that comes twice on the way up is on a loop through the entry of pid 0. */
  lemma RootComesOnce(t: Table, i: int, m: nat, m': nat)
    requires m < m' && Ancestor(t, i, m) == Ancestor(t, i, m') && IsRoot(t, Ancestor(t, i, m))
    ensures ZeroLoops(t)
  {
    var r, k := Ancestor(t, i, m), m' - m - 1;
    AncestorAdd(t, i, m, k + 1);
    assert Ancestor(t, Parent(t, r), k) == r;
    if Parent(t, r) == -1 {
      AncestorOfNone(t, k);
    } else {
      assert ClaimsZero(t, Ancestor(t, Zero(t), k));
    }
  }

  lemma {:induction false} RootAmong(t: Table, i: int, n: nat, r: int, m: nat)
    requires RootAt(t, i, r, m) && m < n
    ensures r in RootsAmong(t, i, n)
    decreases n
  {
    if m < n - 1 {
      RootAmong(t, i, n - 1, r, m);
    }
  }

  lemma {:induction false} AmongIsRoot(t: Table, i: int, n: nat, r: int) returns (m: nat)
    requires r in RootsAmong(t, i, n)
    ensures RootAt(t, i, r, m) && m < n
    decreases n
  {
    if r in RootsAmong(t, i, n - 1) {
      m := AmongIsRoot(t, i, n - 1, r);
    } else {
      m := n - 1;
    }
  }

  lemma {:induction false} TimesAreRoots(t: Table, kids: seq<seq<int>>, roots: seq<int>, i: int, n: nat)
    requires !ZeroLoops(t) && KidsOk(t, kids) && RootsOk(t, roots) && 0 <= i < |t|
    ensures TimesAbove(Forest(t, kids, roots), i, n) == |RootsAmong(t, i, n)|
    decreases n
  {
    hide ZeroLoops, Forest, KidsOk, RootsOk, IsRoot, Ancestor, RootsAmong;
    if n > 0 {
      TimesAreRoots(t, kids, roots, i, n - 1);
      LinePrinted(t, kids, roots, i, n - 1);
      OneMoreRoot(t, i, n - 1);
    } else {
      NoRootAmong(t, i);
    }
  }

  lemma OneMoreRoot(t: Table, i: int, n: nat)
    requires !ZeroLoops(t)
    ensures |RootsAmong(t, i, n + 1)| == |RootsAmong(t, i, n)| + if IsRoot(t, Ancestor(t, i, n)) then 1 else 0
  {
    var r := Ancestor(t, i, n);
    if IsRoot(t, r) && r in RootsAmong(t, i, n) {
      var m := AmongIsRoot(t, i, n, r);
      RootComesOnce(t, i, m, n);
    }
  }

  lemma NoRootAmong(t: Table, i: int)
    ensures RootsAmong(t, i, 0) == {}
  {
  }

  ghost function RootsAbove(t: Table, i: int): (rs: set<int>)
    requires !ZeroLoops(t) && 0 <= i < |t|
    ensures forall r :: r in rs <==> RootAbove(t, i, r)
  {
    AllRootsAbove(t, i);
    RootsAmong(t, i, |t|)
  }

  lemma AllRootsAbove(t: Table, i: int)
    requires !ZeroLoops(t) && 0 <= i < |t|
    ensures forall r :: r in RootsAmong(t, i, |t|) <==> RootAbove(t, i, r)
  {
    forall r ensures r in RootsAmong(t, i, |t|) <==> RootAbove(t, i, r) {
      if r in RootsAmong(t, i, |t|) {
        var m := AmongIsRoot(t, i, |t|, r);
      }
      if RootAbove(t, i, r) {
        var m: nat :| RootAt(t, i, r, m);
        DepthBelowSize(t, i, m);
        RootAmong(t, i, |t|, r, m);
      }
    }
  }

  /** For every table that printing terminates on: an entry is printed as often as there are
      roots among its ancestors and itself. */
  lemma PrintedPerRoot(t: Table, kids: seq<seq<int>>, roots: seq<int>, i: int)
    requires !ZeroLoops(t) && KidsOk(t, kids) && RootsOk(t, roots) && 0 <= i < |t|
    ensures Times(Forest(t, kids, roots), i) == |RootsAbove(t, i)|
  {
    hide ZeroLoops;
    var out := Forest(t, kids, roots);
    RootsPrinted(t, roots);
    TreesLines(t, kids, roots, 0);
    forall k | 0 <= k < |out| ensures out[k].depth < |t| {
      DepthBelowSize(t, out[k].index, out[k].depth);
    }
    TimesByDepth(out, i, |t|);
    TimesAreRoots(t, kids, roots, i, |t|);
  }
}
