/** The depth-first search of `isConnected`, over a mutable grid of visited marks. */
module MazeSearch {
  import opened MazeGrid

  ghost function AllCells(g: Grid): set<Cell> {
    set r, c | 0 <= r < |g| && 0 <= c < Cols(g) :: (r, c)
  }

  /** The cells of the map that are marked. */
  ghost function Marked(g: Grid, visited: array2<bool>): set<Cell>
    requires |g| <= visited.Length0 && Cols(g) <= visited.Length1
    reads visited
  {
    set r, c | 0 <= r < |g| && 0 <= c < Cols(g) && visited[r, c] :: (r, c)
  }

  ghost function FloorCells(g: Grid): set<Cell>
    requires Rect(g)
  {
    set p | p in AllCells(g) && FloorAt(g, p)
  }

  /** What one call of `dfs` at `p` adds to the marks: floor cells it can reach, closed under
      floor neighbours, with `p` among the marks if it is floor. */
  ghost predicate Explored(g: Grid, p: Cell, v: set<Cell>, v': set<Cell>) {
    && v <= v'
    && (FloorAt(g, p) ==> p in v')
    && (forall q :: q in v' - v ==> FloorAt(g, q) && Reach(g, p, q))
    && (forall q, n :: q in v' - v && Adjacent(q, n) && FloorAt(g, n) ==> n in v')
  }

  /** The four calls, one after the other, explore what one call must. */
  lemma ExploreNeighbours(g: Grid, p: Cell, v: set<Cell>,
                          v1: set<Cell>, v2: set<Cell>, v3: set<Cell>, v4: set<Cell>)
    requires FloorAt(g, p)
    requires Explored(g, (p.0 - 1, p.1), v + {p}, v1)
    requires Explored(g, (p.0 + 1, p.1), v1, v2)
    requires Explored(g, (p.0, p.1 - 1), v2, v3)
    requires Explored(g, (p.0, p.1 + 1), v3, v4)
    ensures Explored(g, p, v, v4)
  {
    ReachSelf(g, p);
    forall q | q in v4 - v ensures FloorAt(g, q) && Reach(g, p, q) {
      if q != p {
        var n := if q in v1 then (p.0 - 1, p.1) else if q in v2 then (p.0 + 1, p.1)
                 else if q in v3 then (p.0, p.1 - 1) else (p.0, p.1 + 1);
        assert Reach(g, n, q);
        ReachStep(g, p, n, q);
      }
    }
  }

  method Dfs(g: Grid, row: int, col: int, visited: array2<bool>)
    requires Rect(g) && |g| <= visited.Length0 && Cols(g) <= visited.Length1
    modifies visited
    ensures Explored(g, (row, col), old(Marked(g, visited)), Marked(g, visited))
    decreases AllCells(g) - Marked(g, visited)
  {
    hide Reach;
    if row < 0 || row >= |g| || col < 0 || col >= Cols(g) {
      return;
    }
    if visited[row, col] || !IsFloor(g[row][col]) {
      return;
    }
    ghost var v := Marked(g, visited);
    visited[row, col] := true;
    ghost var v0 := Marked(g, visited);
    assert v0 == v + {(row, col)};
    assert (row, col) in AllCells(g) - v;
    Dfs(g, row - 1, col, visited);
    ghost var v1 := Marked(g, visited);
    Dfs(g, row + 1, col, visited);
    ghost var v2 := Marked(g, visited);
    Dfs(g, row, col - 1, visited);
    ghost var v3 := Marked(g, visited);
    Dfs(g, row, col + 1, visited);
    ExploreNeighbours(g, (row, col), v, v1, v2, v3, Marked(g, visited));
  }

  /** Row-major: the floor cells met before reaching column `col` of row `row`. */
  ghost function Before(g: Grid, row: int, col: int): set<Cell>
    requires Rect(g)
  {
    set p | p in FloorCells(g) && (p.0 < row || (p.0 == row && p.1 < col))
  }

  /** How many of the floor cells met so far lie in `m`. */
  ghost function Met(g: Grid, row: int, col: int, m: set<Cell>): nat
    requires Rect(g)
  {
    |Before(g, row, col) * m|
  }

  lemma BeforeStep(g: Grid, row: nat, col: nat, q: Cell)
    requires Rect(g) && row < |g| && col < Cols(g)
    ensures q in Before(g, row, col + 1)
       <==> q in Before(g, row, col) || (q == (row, col) && FloorAt(g, q))
    ensures (row, col) !in Before(g, row, col)
  {
    assert (row, col) in AllCells(g);
  }

  lemma MetStep(g: Grid, row: nat, col: nat, m: set<Cell>)
    requires Rect(g) && row < |g| && col < Cols(g)
    ensures Met(g, row, col + 1, m)
         == Met(g, row, col, m) + (if FloorAt(g, (row, col)) && (row, col) in m then 1 else 0)
  {
    hide Before;
    var p := (row, col);
    BeforeStep(g, row, col, p);
    var met, more := Before(g, row, col) * m, Before(g, row, col + 1) * m;
    forall q ensures q in more <==> q in met || (q == p && FloorAt(g, p) && p in m) {
      BeforeStep(g, row, col, q);
    }
    assert more == if FloorAt(g, p) && p in m then met + {p} else met;
  }

  lemma MetRow(g: Grid, row: nat, m: set<Cell>)
    requires Rect(g) && row < |g|
    ensures Met(g, row + 1, 0, m) == Met(g, row, Cols(g), m)
  {
    assert Before(g, row + 1, 0) == Before(g, row, Cols(g));
  }

  lemma MetEnds(g: Grid, m: set<Cell>)
    requires Rect(g)
    ensures Met(g, 0, 0, m) == 0 && Met(g, |g|, 0, m) == |FloorCells(g) * m|
  {
    assert Before(g, 0, 0) == {};
    assert Before(g, |g|, 0) == FloorCells(g);
  }

  /** Counts the floor cells and finds the first one. */
  method CountFloor(g: Grid) returns (total: nat, start: Cell)
    requires Rect(g)
    ensures total == |FloorCells(g)|
    ensures total > 0 ==> FloorAt(g, start)
  {
    hide Met, FloorCells;
    total, start := 0, (-1, -1);
    ghost var m := AllCells(g);
    MetEnds(g, m);
    for row := 0 to |g|
      invariant total == Met(g, row, 0, m) && (start.0 == -1 <==> total == 0)
      invariant total > 0 ==> FloorAt(g, start)
    {
      for col := 0 to Cols(g)
        invariant total == Met(g, row, col, m) && (start.0 == -1 <==> total == 0)
        invariant total > 0 ==> FloorAt(g, start)
      {
        MetStep(g, row, col, m);
        if IsFloor(g[row][col]) {
          total := total + 1;
          if start.0 == -1 {
            start := (row, col);
          }
        }
      }
      MetRow(g, row, m);
    }
    AllAreCells(g);
  }

  lemma AllAreCells(g: Grid)
    requires Rect(g)
    ensures FloorCells(g) * AllCells(g) == FloorCells(g)
  {
  }

  method CountVisited(g: Grid, visited: array2<bool>) returns (count: nat)
    requires Rect(g) && |g| <= visited.Length0 && Cols(g) <= visited.Length1
    ensures count == |FloorCells(g) * Marked(g, visited)|
  {
    hide Met, FloorCells;
    count := 0;
    ghost var m := Marked(g, visited);
    MetEnds(g, m);
    for row := 0 to |g|
      invariant count == Met(g, row, 0, m)
    {
      for col := 0 to Cols(g)
        invariant count == Met(g, row, col, m)
      {
        MetStep(g, row, col, m);
        if IsFloor(g[row][col]) && visited[row, col] {
          count := count + 1;
        }
      }
      MetRow(g, row, m);
    }
  }

  /** A search from one floor cell marks all floor exactly if the floor is connected. */
  lemma ExploredDecides(g: Grid, start: Cell, v: set<Cell>)
    requires Rect(g) && FloorAt(g, start) && Explored(g, start, {}, v)
    ensures FloorCells(g) <= v <==> Connected(g)
  {
    if FloorCells(g) <= v {
      forall p, q | FloorAt(g, p) && FloorAt(g, q) ensures Reach(g, p, q) {
        assert p in FloorCells(g) && q in FloorCells(g);
        ReachBack(g, start, p);
        ReachTrans(g, p, start, q);
      }
    }
    if Connected(g) {
      forall p | p in FloorCells(g) ensures p in v {
        var path :| Joins(g, path, start, p);
        ClosedHolds(g, v, path);
      }
    }
  }

  lemma SubsetByCount(a: set<Cell>, b: set<Cell>)
    ensures |a * b| == |a| <==> a <= b
  {
    assert a == (a * b) + (a - b);
    assert |a| == |a * b| + |a - b|;
    if a <= b {
      assert a * b == a;
    }
  }

  /** `isConnected`: true exactly if every two floor cells are joined by a path. */
  method IsConnected(g: Grid) returns (connected: bool)
    requires Rect(g) && |g| <= MAX_ROWS && Cols(g) <= MAX_COLS
    ensures connected <==> Connected(g)
  {
    var visited := new bool[MAX_ROWS, MAX_COLS]((_, _) => false);
    var total, start := CountFloor(g);
    if total == 0 {
      assert forall p :: FloorAt(g, p) ==> p in FloorCells(g);
      return true;
    }
    assert Marked(g, visited) == {};
    Dfs(g, start.0, start.1, visited);
    ghost var v := Marked(g, visited);
    var count := CountVisited(g, visited);
    ExploredDecides(g, start, v);
    SubsetByCount(FloorCells(g), v);
    connected := count == total;
  }
}
