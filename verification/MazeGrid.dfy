/** Maze maps as grids of characters, and what it means for their floor to be connected. */
module MazeGrid {

  const MAX_ROWS: nat := 100
  const MAX_COLS: nat := 100

  type Grid = seq<string>
  type Cell = (int, int)

  predicate IsPlayer(ch: char) { '0' <= ch <= '9' }

  predicate IsFloor(ch: char) { ch == '.' || IsPlayer(ch) }

  function Cols(g: Grid): nat { if g == [] then 0 else |g[0]| }

  /** What `loadMap` guarantees of the shape of a map. */
  ghost predicate WellShaped(g: Grid) {
    && 0 < |g| <= 100 && 0 < Cols(g) <= 100
    && (forall r :: 0 <= r < |g| ==> |g[r]| == Cols(g))
    && (forall r, c :: 0 <= r < |g| && 0 <= c < Cols(g) ==> g[r][c] == '#' || IsFloor(g[r][c]))
  }

  ghost predicate Rect(g: Grid) {
    forall r :: 0 <= r < |g| ==> |g[r]| == Cols(g)
  }

  predicate Inside(g: Grid, p: Cell) {
    0 <= p.0 < |g| && 0 <= p.1 < |g[p.0]|
  }

  predicate FloorAt(g: Grid, p: Cell) {
    Inside(g, p) && IsFloor(g[p.0][p.1])
  }

  predicate Adjacent(p: Cell, q: Cell) {
    || q == (p.0 - 1, p.1) || q == (p.0 + 1, p.1)
    || q == (p.0, p.1 - 1) || q == (p.0, p.1 + 1)
  }

  // ----- paths -----

  /** `path` leads over floor cells, each next to the one before it. */
  ghost predicate IsPath(g: Grid, path: seq<Cell>) {
    && path != []
    && (forall i :: 0 <= i < |path| ==> FloorAt(g, path[i]))
    && (forall i :: 0 <= i < |path| - 1 ==> Adjacent(path[i], path[i + 1]))
  }

  ghost predicate Joins(g: Grid, path: seq<Cell>, p: Cell, q: Cell) {
    IsPath(g, path) && path[0] == p && path[|path| - 1] == q
  }

  ghost predicate Reach(g: Grid, p: Cell, q: Cell) {
    exists path :: Joins(g, path, p, q)
  }

  /** Every two floor cells are joined by a path. */
  ghost predicate Connected(g: Grid) {
    forall p, q :: FloorAt(g, p) && FloorAt(g, q) ==> Reach(g, p, q)
  }

  lemma ReachSelf(g: Grid, p: Cell)
    requires FloorAt(g, p)
    ensures Reach(g, p, p)
  {
    assert Joins(g, [p], p, p);
  }

  lemma ReachStep(g: Grid, p: Cell, n: Cell, q: Cell)
    requires FloorAt(g, p) && Adjacent(p, n) && Reach(g, n, q)
    ensures Reach(g, p, q)
  {
    var path :| Joins(g, path, n, q);
    var longer := [p] + path;
    forall i | 0 <= i < |longer| - 1 ensures Adjacent(longer[i], longer[i + 1]) {
      if i > 0 {
        assert Adjacent(path[i - 1], path[i]);
      }
    }
    assert Joins(g, longer, p, q);
  }

  lemma ReachBack(g: Grid, p: Cell, q: Cell)
    requires Reach(g, p, q)
    ensures Reach(g, q, p)
  {
    var path :| Joins(g, path, p, q);
    var n := |path|;
    var back := seq(n, i requires 0 <= i < n => path[n - 1 - i]);
    forall i | 0 <= i < n - 1 ensures Adjacent(back[i], back[i + 1]) {
      assert Adjacent(path[n - 2 - i], path[n - 2 - i + 1]);
    }
    assert Joins(g, back, q, p);
  }

  lemma ReachTrans(g: Grid, p: Cell, q: Cell, r: Cell)
    requires Reach(g, p, q) && Reach(g, q, r)
    ensures Reach(g, p, r)
  {
    var a :| Joins(g, a, p, q);
    var b :| Joins(g, b, q, r);
    var path := a + b[1..];
    forall i | 0 <= i < |path| - 1 ensures Adjacent(path[i], path[i + 1]) {
      if i < |a| - 1 {
        assert Adjacent(a[i], a[i + 1]);
      } else {
        assert Adjacent(b[i - |a| + 1], b[i - |a| + 1 + 1]);
        assert path[i] == b[i - |a| + 1];
      }
    }
    assert path[|path| - 1] == r;
    assert Joins(g, path, p, r);
  }

  /** A set of cells that is closed under floor neighbours holds all that its members reach. */
  lemma {:induction false} ClosedHolds(g: Grid, s: set<Cell>, path: seq<Cell>)
    requires IsPath(g, path) && path[0] in s
    requires forall p, q :: p in s && Adjacent(p, q) && FloorAt(g, q) ==> q in s
    ensures path[|path| - 1] in s
    decreases |path|
  {
    if |path| > 1 {
      var rest := path[1..];
      assert Adjacent(path[0], path[1]);
      forall i | 0 <= i < |rest| - 1 ensures Adjacent(rest[i], rest[i + 1]) {
        assert Adjacent(path[i + 1], path[i + 1 + 1]);
      }
      ClosedHolds(g, s, rest);
    }
  }

  // ----- connectivity depends on the floor alone -----

  ghost predicate SameFloor(g: Grid, h: Grid) {
    forall p :: FloorAt(g, p) <==> FloorAt(h, p)
  }

  lemma ConnectedIsAboutFloor(g: Grid, h: Grid)
    requires SameFloor(g, h) && Connected(g)
    ensures Connected(h)
  {
    forall p, q | FloorAt(h, p) && FloorAt(h, q) ensures Reach(h, p, q) {
      assert FloorAt(g, p) && FloorAt(g, q);
      var path :| Joins(g, path, p, q);
      assert Joins(h, path, p, q);
    }
  }
}
