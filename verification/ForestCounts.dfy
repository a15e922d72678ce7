/** How often an entry is printed, by what its ancestors look like: once in tables without an
    entry of pid 0, and at most twice in the others. */
module ForestCounts {
  import opened ForestTable
  import opened ForestTermination
  import opened ForestPrint

  ghost predicate Rooted(t: Table, i: int) {
    exists d: nat :: AtDepth(t, i, d)
  }

  // ----- tables without an entry of pid 0 -----

  /** Without an entry of pid 0 the depth of a line is the number of ancestors of its entry. */
  lemma {:induction false} PrintedAtDepth(t: Table, i: int, d: nat)
    requires NoPidZero(t)
    ensures PrintedAt(t, i, d) <==> AtDepth(t, i, d)
    decreases d
  {
    if d > 0 && 0 <= i < |t| {
      PrintedAtDepth(t, Parent(t, i), d - 1);
      if Parent(t, i) == -1 {
        AncestorOfNone(t, d - 1);
      }
    }
  }

  /** Every entry whose parent chain reaches a root is printed exactly once, at the depth of
      its ancestor count; no other entry is printed. */
  lemma PrintedExactlyOnce(t: Table, kids: seq<seq<int>>, roots: seq<int>, i: int)
    requires NoPidZero(t) && !ZeroLoops(t) && KidsOk(t, kids) && RootsOk(t, roots) && 0 <= i < |t|
    ensures Times(Forest(t, kids, roots), i) == if Rooted(t, i) then 1 else 0
    ensures forall n :: 0 <= n < |Forest(t, kids, roots)| ==>
              AtDepth(t, Forest(t, kids, roots)[n].index, Forest(t, kids, roots)[n].depth)
  {
    hide ZeroLoops, Times;
    PrintedPerRoot(t, kids, roots, i);
    if Rooted(t, i) {
      var d: nat :| AtDepth(t, i, d);
      PrintedAtDepth(t, i, d);
      OneRoot(t, i, d);
    } else {
      NoRoot(t, i);
    }
    var out := Forest(t, kids, roots);
    RootsPrinted(t, roots);
    TreesLines(t, kids, roots, 0);
    forall n | 0 <= n < |out| ensures AtDepth(t, out[n].index, out[n].depth) {
      PrintedAtDepth(t, out[n].index, out[n].depth);
    }
  }

  lemma OneRoot(t: Table, i: int, d: nat)
    requires NoPidZero(t) && !ZeroLoops(t) && 0 <= i < |t| && AtDepth(t, i, d) && PrintedAt(t, i, d)
    ensures |RootsAbove(t, i)| == 1
  {
    hide ZeroLoops;
    var r := Ancestor(t, i, d);
    forall q ensures q in RootsAbove(t, i) <==> q == r {
      assert RootAt(t, i, r, d);
      if q in RootsAbove(t, i) {
        var m: nat :| RootAt(t, i, q, m);
        PrintedAtDepth(t, i, m);
        DepthUnique(t, i, d, m);
      }
    }
    assert RootsAbove(t, i) == {r};
  }

  lemma NoRoot(t: Table, i: int)
    requires NoPidZero(t) && !ZeroLoops(t) && 0 <= i < |t| && !Rooted(t, i)
    ensures |RootsAbove(t, i)| == 0
  {
    hide ZeroLoops;
    forall q ensures q !in RootsAbove(t, i) {
      if q in RootsAbove(t, i) {
        var m: nat :| RootAt(t, i, q, m);
        PrintedAtDepth(t, i, m);
      }
    }
    assert RootsAbove(t, i) == {};
  }

  // ----- tables with one -----

  /** Entry i or an ancestor of it names 0 as its parent. */
  ghost predicate UnderZeroRoot(t: Table, i: int) {
    exists m: nat :: ClaimsZero(t, Ancestor(t, i, m))
  }

  lemma OneClaim(t: Table, i: int, m: nat, m': nat)
    requires ClaimsZero(t, Ancestor(t, i, m)) && ClaimsZero(t, Ancestor(t, i, m')) && m < m'
    ensures ZeroLoops(t)
  {
    AncestorAdd(t, i, m, m' - m);
    assert Ancestor(t, Zero(t), m' - m - 1) == Ancestor(t, i, m');
  }

  /** Going up to a parentless entry is being rooted. */
  lemma {:induction false} ParentlessIsRooted(t: Table, i: int, m: nat)
    requires 0 <= i < |t|
    ensures AtDepth(t, i, m) <==> 0 <= Ancestor(t, i, m) < |t| && Parent(t, Ancestor(t, i, m)) == -1
    decreases m
  {
    if m > 0 {
      if Parent(t, i) == -1 {
        AncestorOfNone(t, m - 1);
      } else {
        ParentlessIsRooted(t, Parent(t, i), m - 1);
      }
    }
  }

  /** With an entry of pid 0 in the table, the roots above an entry are one that names 0 as its
      parent, if there is one, and one without a parent in the table, if there is one. */
  lemma RootsByKind(t: Table, i: int)
    requires !ZeroLoops(t) && !NoPidZero(t) && 0 <= i < |t|
    ensures |RootsAbove(t, i)| == (if UnderZeroRoot(t, i) then 1 else 0) + (if Rooted(t, i) then 1 else 0)
  {
    hide Ancestor, Parent, ZeroLoops, AtDepth, NoPidZero, RootsAbove;
    var claims: set<int>, tops: set<int> := {}, {};
    if UnderZeroRoot(t, i) {
      var m: nat :| ClaimsZero(t, Ancestor(t, i, m));
      var r := Ancestor(t, i, m);
      claims := {r};
      ClaimHasParent(t, r);
      assert RootAt(t, i, r, m);
    }
    if Rooted(t, i) {
      var d: nat :| AtDepth(t, i, d);
      ParentlessIsRooted(t, i, d);
      tops := {Ancestor(t, i, d)};
      assert RootAt(t, i, Ancestor(t, i, d), d);
    }
    forall r | r in RootsAbove(t, i) ensures r in claims + tops {
      var m: nat :| RootAt(t, i, r, m);
      RootKind(t, i, r, m, claims, tops);
    }
    assert RootsAbove(t, i) == claims + tops;
  }

  lemma ClaimHasParent(t: Table, r: int)
    requires !NoPidZero(t) && ClaimsZero(t, r)
    ensures Parent(t, r) != -1
  {
  }

  lemma RootKind(t: Table, i: int, r: int, m: nat, claims: set<int>, tops: set<int>)
    requires !ZeroLoops(t) && 0 <= i < |t| && RootAt(t, i, r, m)
    requires UnderZeroRoot(t, i) ==> exists k: nat :: ClaimsZero(t, Ancestor(t, i, k)) && Ancestor(t, i, k) in claims
    requires Rooted(t, i) ==> exists d: nat :: AtDepth(t, i, d) && Ancestor(t, i, d) in tops
    ensures r in claims + tops
  {
    if ClaimsZero(t, r) {
      var k: nat :| ClaimsZero(t, Ancestor(t, i, k)) && Ancestor(t, i, k) in claims;
      if k < m {
        OneClaim(t, i, k, m);
      } else if m < k {
        OneClaim(t, i, m, k);
      }
    } else {
      ParentlessIsRooted(t, i, m);
      var d: nat :| AtDepth(t, i, d) && Ancestor(t, i, d) in tops;
      DepthUnique(t, i, d, m);
    }
  }

  /** With an entry of pid 0, an entry is printed exactly once if and only if exactly one of the
      two holds, and twice if and only if both do. */
  lemma PrintedTwiceIff(t: Table, kids: seq<seq<int>>, roots: seq<int>, i: int)
    requires !NoPidZero(t) && !ZeroLoops(t) && KidsOk(t, kids) && RootsOk(t, roots) && 0 <= i < |t|
    ensures Times(Forest(t, kids, roots), i) == 1 <==> (UnderZeroRoot(t, i) <==> !Rooted(t, i))
    ensures Times(Forest(t, kids, roots), i) == 2 <==> UnderZeroRoot(t, i) && Rooted(t, i)
    ensures Times(Forest(t, kids, roots), i) <= 2
  {
    hide *;
    PrintedPerRoot(t, kids, roots, i);
    RootsByKind(t, i);
  }

  /** A table where an entry is printed twice: process 1 of parent 0 and an entry of pid 0
      whose own parent is not in the table. */
  lemma PrintedTwice(kids: seq<seq<int>>, roots: seq<int>)
    ensures var t := [Process(1, 0, "init"), Process(0, 7, "idle")];
            !ZeroLoops(t) && (KidsOk(t, kids) && RootsOk(t, roots) ==> Times(Forest(t, kids, roots), 0) == 2)
  {
    var t := [Process(1, 0, "init"), Process(0, 7, "idle")];
    assert FindFrom(t, 0, 0) == 1 && FindFrom(t, 7, 0) == -1;
    forall m: nat ensures !ClaimsZero(t, Ancestor(t, Zero(t), m)) {
      if m > 0 {
        AncestorOfNone(t, m - 1);
      }
    }
    assert ClaimsZero(t, Ancestor(t, 0, 0));
    assert AtDepth(t, 1, 0) && AtDepth(t, 0, 1);
    if KidsOk(t, kids) && RootsOk(t, roots) {
      PrintedTwiceIff(t, kids, roots, 0);
    }
  }
}
