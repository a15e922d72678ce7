/** Loading, moving and saving: the maze program run after run on one map file. */
module MazeGame {
  import opened Options
  import opened MazeGrid
  import opened MazeSearch

  const LINE_BUFFER: nat := MAX_COLS + 3

  // ----- reading a map -----

  /** How many characters one `fgets` takes: up to a newline, the buffer or the end. */
  function LineLen(c: string, room: nat): (n: nat)
    ensures n <= |c| && n <= room
    ensures c != [] && room > 0 ==> n > 0
  {
    if c == [] || room == 0 then 0
    else if c[0] == '\n' then 1
    else 1 + LineLen(c[1..], room - 1)
  }

  /** Length of the text before the first newline or terminator. */
  function TextLen(line: string): (n: nat)
    ensures n <= |line|
  {
    if line == [] || line[0] == '\n' || line[0] == '\0' then 0 else 1 + TextLen(line[1..])
  }

  /** Whether the read that returned `line` ran into the end of the file. */
  predicate HitEnd(line: string, rest: string) {
    rest == [] && |line| < LINE_BUFFER - 1 && !(line != [] && line[|line| - 1] == '\n')
  }

  predicate RowOk(row: string) {
    forall i :: 0 <= i < |row| ==> row[i] == '#' || IsFloor(row[i])
  }

  /** One turn of the loop of `loadMap`: the characters it takes and the row it accepts. */
  function ReadRow(c: string, rows: Grid): (r: Option<(nat, string)>)
    requires c != []
    ensures r.Some? ==> 0 < r.value.0 <= |c|
  {
    if |rows| >= MAX_ROWS then None
    else
      var n := LineLen(c, LINE_BUFFER - 1);
      var line, rest := c[..n], c[n..];
      var len := TextLen(line);
      if !(len < |line| && line[len] == '\n') && !HitEnd(line, rest) then None
      else if len == 0 || len > MAX_COLS then None
      else if rows != [] && |rows[0]| != len then None
      else if !RowOk(line[..len]) then None
      else Some((n, line[..len]))
  }

  /** Reads rows until the end of the file, or fails where `loadMap` does. */
  function Parse(c: string, rows: Grid): Option<Grid>
    decreases |c|
  {
    if c == [] then Some(rows)
    else
      match ReadRow(c, rows)
      case None => None
      case Some((n, row)) => Parse(c[n..], rows + [row])
  }

  ghost function Load(c: string): Option<Grid> {
    match Parse(c, [])
    case None => None
    case Some(g) => if g != [] && Connected(g) then Some(g) else None
  }

  function Save(g: Grid): string {
    if g == [] then [] else g[0] + "\n" + Save(g[1..])
  }

  ghost predicate RowsShaped(g: Grid) {
    && |g| <= MAX_ROWS
    && (forall r :: 0 <= r < |g| ==> 0 < |g[r]| <= MAX_COLS && |g[r]| == |g[0]| && RowOk(g[r]))
  }

  lemma ReadRowShape(c: string, rows: Grid)
    requires c != [] && RowsShaped(rows)
    ensures var r := ReadRow(c, rows); r.Some? ==> RowsShaped(rows + [r.value.1])
  {
  }

  lemma NoRowsShaped()
    ensures RowsShaped([])
  {
  }

  lemma ShapedIsRect(g: Grid)
    requires RowsShaped(g) && g != []
    ensures Rect(g) && |g| <= MAX_ROWS && Cols(g) <= MAX_COLS
  {
  }

  lemma {:induction false} ParseShape(c: string, rows: Grid)
    requires RowsShaped(rows)
    ensures Parse(c, rows).Some? ==> RowsShaped(Parse(c, rows).value)
    decreases |c|
  {
    if c != [] && ReadRow(c, rows).Some? {
      ReadRowShape(c, rows);
      var (n, row) := ReadRow(c, rows).value;
      ParseShape(c[n..], rows + [row]);
    }
  }

  /** A map that loads has the shape the rest of the program relies on. */
  lemma LoadShape(c: string)
    ensures Load(c).Some? ==> WellShaped(Load(c).value) && Connected(Load(c).value)
  {
    ParseShape(c, []);
  }

  lemma {:induction false} LineOfRow(row: string, rest: string, room: nat)
    requires RowOk(row) && |row| < room
    ensures LineLen(row + "\n" + rest, room) == |row| + 1
    ensures TextLen(row + "\n") == |row|
    decreases |row|
  {
    var c := row + "\n" + rest;
    if row == [] {
      assert c[0] == '\n';
    } else {
      assert RowOk(row[1..]) && row[0] != '\n' && row[0] != '\0';
      assert c[1..] == row[1..] + "\n" + rest;
      assert (row + "\n")[1..] == row[1..] + "\n";
      LineOfRow(row[1..], rest, room - 1);
    }
  }

  lemma ReadSavedRow(row: string, more: string, rows: Grid)
    requires RowsShaped(rows + [row])
    ensures ReadRow(row + "\n" + more, rows) == Some((|row| + 1, row))
  {
    var c := row + "\n" + more;
    assert (rows + [row])[|rows|] == row;
    assert rows != [] ==> (rows + [row])[0] == rows[0];
    LineOfRow(row, more, LINE_BUFFER - 1);
    assert c[..|row| + 1] == row + "\n";
    assert (row + "\n")[..|row|] == row;
  }

  lemma {:induction false} ParseSaved(g: Grid, rows: Grid)
    requires RowsShaped(rows + g)
    ensures Parse(Save(g), rows) == Some(rows + g)
    decreases |g|
  {
    if g == [] {
      assert rows + g == rows;
    } else {
      var row, more := g[0], Save(g[1..]);
      var all := rows + g;
      assert all == (rows + [row]) + g[1..];
      assert forall r :: 0 <= r <= |rows| ==> (rows + [row])[r] == all[r];
      ReadSavedRow(row, more, rows);
      assert Save(g) == row + "\n" + more;
      assert Save(g)[|row| + 1..] == more;
      ParseSaved(g[1..], rows + [row]);
    }
  }

  /** Every saved map loads back identically. */
  lemma SaveThenLoad(g: Grid)
    requires WellShaped(g) && Connected(g)
    ensures Load(Save(g)) == Some(g)
  {
    assert [] + g == g;
    forall r | 0 <= r < |g| ensures RowOk(g[r]) {
    }
    ParseSaved(g, []);
  }

  // ----- which files load -----

  /** What may stand behind the last row of `len` characters: a newline, or the end of the file;
      or, if line and end fit the buffer, a terminator and anything but newlines behind it. */
  predicate Ending(tail: string, len: nat) {
    || tail == "\n"
    || (len + |tail| < 102 && '\n' !in tail && (tail == [] || tail[0] == '\0'))
  }

  /** The file spells the rows of the map, each ended by a newline, up to the ending of the last. */
  predicate Spells(c: string, g: Grid)
    requires g != []
  {
    var n := |Save(g)| - 1;
    n <= |c| && c[..n] == Save(g)[..n] && Ending(c[n..], |g[|g| - 1]|)
  }

  lemma {:induction false} LineLenIs(c: string, room: nat)
    ensures var n := LineLen(c, room);
            && (forall i :: 0 <= i < n - 1 ==> c[i] != '\n')
            && (n == |c| || n == room || (n > 0 && c[n - 1] == '\n'))
    decreases |c|
  {
    if c != [] && room > 0 && c[0] != '\n' {
      LineLenIs(c[1..], room - 1);
      var n := LineLen(c, room);
      forall i | 0 <= i < n - 1 ensures c[i] != '\n' {
        assert i > 0 ==> c[i] == c[1..][i - 1];
      }
    }
  }

  lemma {:induction false} TextLenIs(line: string)
    ensures var n := TextLen(line);
            && (forall i :: 0 <= i < n ==> line[i] != '\n' && line[i] != '\0')
            && (n == |line| || line[n] == '\n' || line[n] == '\0')
    decreases |line|
  {
    if line != [] && line[0] != '\n' && line[0] != '\0' {
      TextLenIs(line[1..]);
      var n := TextLen(line);
      forall i | 0 <= i < n ensures line[i] != '\n' && line[i] != '\0' {
        assert i > 0 ==> line[i] == line[1..][i - 1];
      }
    }
  }

  lemma {:induction false} LineLenMeets(c: string, room: nat, n: nat)
    requires n <= |c| && n <= room && (forall i :: 0 <= i < n - 1 ==> c[i] != '\n')
    requires n == |c| || (n > 0 && c[n - 1] == '\n')
    ensures LineLen(c, room) == n
    decreases |c|
  {
    if n > 0 && c[0] != '\n' {
      LineLenMeets(c[1..], room - 1, n - 1);
    }
  }

  lemma {:induction false} TextLenMeets(line: string, n: nat)
    requires n <= |line| && (forall i :: 0 <= i < n ==> line[i] != '\n' && line[i] != '\0')
    requires n == |line| || line[n] == '\n' || line[n] == '\0'
    ensures TextLen(line) == n
    decreases |line|
  {
    if n > 0 {
      TextLenMeets(line[1..], n - 1);
    }
  }

  /** What a row that is read was followed by. */
  lemma RowRead(c: string, rows: Grid)
    requires c != [] && ReadRow(c, rows).Some?
    ensures var (n, row) := ReadRow(c, rows).value;
            && 0 < |row| <= n && c[..|row|] == row && RowOk(row)
            && ((n == |row| + 1 && c[|row|] == '\n') || (n == |c| && Ending(c[|row|..], |row|)))
  {
    var n := LineLen(c, LINE_BUFFER - 1);
    var line := c[..n];
    LineLenIs(c, LINE_BUFFER - 1);
    TextLenIs(line);
    var len := TextLen(line);
    if len < |line| && line[len] == '\n' {
      assert len == n - 1;
    } else {
      forall i | len <= i < |c| ensures c[i] != '\n' {
        assert c[i] == line[i];
      }
    }
  }

  /** The last row of a file is read whatever ending it has. */
  lemma LastRowRead(c: string, rows: Grid, row: string)
    requires RowsShaped(rows + [row]) && |row| <= |c| && c[..|row|] == row && Ending(c[|row|..], |row|)
    ensures c != [] && ReadRow(c, rows) == Some((|c|, row))
  {
    assert (rows + [row])[|rows|] == row;
    assert rows != [] ==> (rows + [row])[0] == rows[0];
    forall i | 0 <= i < |row| ensures c[i] != '\n' && c[i] != '\0' {
      assert c[i] == row[i];
    }
    forall i | 0 <= i < |c| - 1 ensures c[i] != '\n' {
      assert i >= |row| ==> c[i] == c[|row|..][i - |row|];
    }
    LineLenMeets(c, LINE_BUFFER - 1, |c|);
    assert c[..|c|] == c;
    assert |row| < |c| ==> c[|row|] == c[|row|..][0];
    TextLenMeets(c, |row|);
    assert |row| < |c| && c[|row|] != '\n' ==> c[|c| - 1] == c[|row|..][|c| - 1 - |row|];
  }

  lemma SaveFirst(g: Grid)
    requires g != []
    ensures Save(g) == g[0] + "\n" + Save(g[1..]) && |Save(g)| == |g[0]| + 1 + |Save(g[1..])|
    ensures |g| == 1 ==> Save(g) == g[0] + "\n"
  {
    if |g| == 1 {
      assert g[1..] == [];
    }
  }

  /** Behind the first of several rows the file spells the others. */
  lemma SpellsFirst(c: string, g: Grid)
    requires |g| > 1
    ensures Spells(c, g) <==> |g[0]| < |c| && c[..|g[0]|] == g[0] && c[|g[0]|] == '\n' && Spells(c[|g[0]| + 1..], g[1..])
  {
    hide Save, Ending;
    SaveFirst(g);
    SaveFirst(g[1..]);
    var k, n := |g[0]| + 1, |Save(g)| - 1;
    var rest := Save(g[1..]);
    assert g[1..][|g[1..]| - 1] == g[|g| - 1];
    var front := Save(g)[..n];
    assert front == g[0] + "\n" + rest[..n - k];
    if n <= |c| {
      assert c[k..][n - k..] == c[n..];
      assert c[..n] == c[..k] + c[k..][..n - k];
      if c[..n] == front {
        assert c[..k] == front[..k] == g[0] + "\n";
        assert c[..|g[0]|] == front[..|g[0]|] && c[|g[0]|] == front[|g[0]|];
        assert c[k..][..n - k] == front[k..] == rest[..n - k];
      }
      if c[..|g[0]|] == g[0] && c[|g[0]|] == '\n' && c[k..][..n - k] == rest[..n - k] {
        assert c[..k] == g[0] + "\n";
      }
    }
  }

  lemma SpellsLast(c: string, row: string)
    ensures Spells(c, [row]) <==> |row| <= |c| && c[..|row|] == row && Ending(c[|row|..], |row|)
  {
    hide Ending;
    SaveFirst([row]);
    assert (row + "\n")[..|row|] == row;
  }

  lemma {:induction false} ParseSpelled(c: string, g: Grid, rows: Grid)
    requires g != [] && RowsShaped(rows + g) && Spells(c, g)
    ensures Parse(c, rows) == Some(rows + g)
    decreases |g|
  {
    hide Spells, Ending, ReadRow;
    var row := g[0];
    var all := rows + g;
    assert forall r :: 0 <= r <= |rows| ==> (rows + [row])[r] == all[r];
    if |g| == 1 {
      assert g == [row];
      SpellsLast(c, row);
      LastRowRead(c, rows, row);
      assert c[|c|..] == [];
    } else {
      SpellsFirst(c, g);
      var more := c[|row| + 1..];
      assert c == row + "\n" + more;
      ReadSavedRow(row, more, rows);
      assert all == (rows + [row]) + g[1..];
      ParseSpelled(more, g[1..], rows + [row]);
    }
  }

  lemma {:induction false} ParsedIsSpelled(c: string, rows: Grid) returns (g: Grid)
    requires c != [] && Parse(c, rows).Some?
    ensures g != [] && Parse(c, rows).value == rows + g && Spells(c, g)
    decreases |c|
  {
    hide Spells, Ending, ReadRow;
    var (n, row) := ReadRow(c, rows).value;
    RowRead(c, rows);
    if n == |c| {
      g := [row];
      assert c[n..] == [];
      if n == |row| + 1 && c[|row|] == '\n' {
        assert c[|row|..] == "\n";
        NewlineEnds(|row|);
      }
      SpellsLast(c, row);
    } else {
      var more := ParsedIsSpelled(c[n..], rows + [row]);
      g := [row] + more;
      assert g[1..] == more && rows + g == (rows + [row]) + more;
      SpellsFirst(c, g);
    }
  }

  lemma NewlineEnds(len: nat)
    ensures Ending("\n", len)
  {
  }

  /** A file loads as the map `g` if and only if it spells `g`, and `g` is rectangular, within the
      limits, of valid characters and connected. */
  lemma LoadIff(c: string, g: Grid)
    requires g != []
    ensures Load(c) == Some(g) <==> Spells(c, g) && WellShaped(g) && Connected(g)
  {
    hide Spells, Connected;
    LoadShape(c);
    if Load(c) == Some(g) {
      var g' := ParsedIsSpelled(c, []);
      assert [] + g' == g';
    }
    if Spells(c, g) && WellShaped(g) && Connected(g) {
      assert [] + g == g;
      forall r | 0 <= r < |g| ensures RowOk(g[r]) {
      }
      ParseSpelled(c, g, []);
    }
  }

  // ----- moving -----

  function FindIn(row: string, ch: char): (c: nat)
    ensures c <= |row| && (c < |row| ==> row[c] == ch)
    ensures forall i :: 0 <= i < c ==> row[i] != ch
  {
    if row == [] || row[0] == ch then 0 else 1 + FindIn(row[1..], ch)
  }

  /** The first cell holding `ch`, row by row; (-1, -1) if there is none. */
  function Find(g: Grid, ch: char, at: nat): (p: Cell)
    ensures p == (-1, -1) || (at <= p.0 < at + |g| && 0 <= p.1 < |g[p.0 - at]| && g[p.0 - at][p.1] == ch)
    ensures p == (-1, -1) ==> forall r :: 0 <= r < |g| ==> ch !in g[r]
    decreases |g|
  {
    if g == [] then (-1, -1)
    else
      var c := FindIn(g[0], ch);
      if c < |g[0]| then (at, c)
      else
        var p := Find(g[1..], ch, at + 1);
        assert forall r :: 0 < r < |g| ==> g[r] == g[1..][r - 1];
        p
  }

  function Direction(name: string): Option<(int, int)> {
    if name == "up" then Some((-1, 0))
    else if name == "down" then Some((1, 0))
    else if name == "left" then Some((0, -1))
    else if name == "right" then Some((0, 1))
    else None
  }

  function Put(g: Grid, p: Cell, ch: char): (g': Grid)
    requires Inside(g, p)
    ensures |g'| == |g| && forall q :: Inside(g', q) <==> Inside(g, q)
  {
    g[p.0 := g[p.0][p.1 := ch]]
  }

  function Move(g: Grid, player: char, direction: string): Option<Grid> {
    var d := Direction(direction);
    if d.None? then None
    else
      var seen := Find(g, player, 0);
      var spawned := seen == (-1, -1);
      var from := if spawned then Find(g, '.', 0) else seen;
      if from == (-1, -1) then None
      else
        var to := (from.0 + d.value.0, from.1 + d.value.1);
        if !(Inside(g, to) && g[to.0][to.1] == '.') then None
        else Some(Put(if spawned then g else Put(g, from, '.'), to, player))
  }

  // ----- where a move leads -----

  /** The first cell holding `ch`, row by row. */
  ghost predicate FirstAt(g: Grid, ch: char, p: Cell) {
    && Inside(g, p) && g[p.0][p.1] == ch
    && forall q :: Inside(g, q) && (q.0 < p.0 || (q.0 == p.0 && q.1 < p.1)) ==> g[q.0][q.1] != ch
  }

  ghost predicate Missing(g: Grid, ch: char) {
    forall q :: Inside(g, q) ==> g[q.0][q.1] != ch
  }

  /** Where a move starts: at the player, or at the first empty space if the player is missing. */
  ghost predicate Starts(g: Grid, player: char, p: Cell) {
    FirstAt(g, player, p) || (Missing(g, player) && FirstAt(g, '.', p))
  }

  /** The move from `p` to `q` succeeds exactly if `q` is inside and empty. The player then stands
      at `q`, the cell it left is empty, and all other cells are as they were. */
  ghost predicate Moved(g: Grid, ok: bool, h: Grid, player: char, p: Cell, q: Cell) {
    && (ok <==> Inside(g, q) && g[q.0][q.1] == '.')
    && (ok ==>
          && |h| == |g| && (forall r :: Inside(h, r) <==> Inside(g, r))
          && (forall r :: Inside(g, r) ==>
                h[r.0][r.1] == if r == q then player else if r == p then '.' else g[r.0][r.1]))
  }

  lemma {:induction false} FindIsFirst(g: Grid, ch: char, at: nat)
    ensures var p := Find(g, ch, at);
            if p == (-1, -1) then Missing(g, ch) else FirstAt(g, ch, (p.0 - at, p.1))
    decreases |g|
  {
    if g != [] && FindIn(g[0], ch) == |g[0]| {
      FindIsFirst(g[1..], ch, at + 1);
      forall q | Inside(g, q) && q.0 > 0 ensures Inside(g[1..], (q.0 - 1, q.1)) && g[1..][q.0 - 1] == g[q.0] {
      }
      var p := Find(g, ch, at);
      if p == (-1, -1) {
        assert Missing(g, ch);
      } else {
        var at0 := (p.0 - at, p.1);
        forall q | Inside(g, q) && (q.0 < at0.0 || (q.0 == at0.0 && q.1 < at0.1)) ensures g[q.0][q.1] != ch {
          if q.0 > 0 {
            assert Inside(g[1..], (q.0 - 1, q.1));
          }
        }
      }
    }
  }

  lemma FirstIsUnique(g: Grid, ch: char, p: Cell, q: Cell)
    requires FirstAt(g, ch, p)
    ensures FirstAt(g, ch, q) ==> p == q
    ensures !Missing(g, ch)
  {
  }

  /** The move as a function of maps, from where it starts. */
  lemma MoveIs(g: Grid, player: char, direction: string, p: Cell)
    requires IsPlayer(player) && Starts(g, player, p)
    ensures var m := Move(g, player, direction);
            var h := if m.Some? then m.value else g;
            && (direction == "up" ==> Moved(g, m.Some?, h, player, p, (p.0 - 1, p.1)))
            && (direction == "down" ==> Moved(g, m.Some?, h, player, p, (p.0 + 1, p.1)))
            && (direction == "left" ==> Moved(g, m.Some?, h, player, p, (p.0, p.1 - 1)))
            && (direction == "right" ==> Moved(g, m.Some?, h, player, p, (p.0, p.1 + 1)))
            && (m.Some? ==> direction in ["up", "down", "left", "right"])
  {
    hide Find, Starts, Moved;
    StartIsFound(g, player, p);
    var d := Direction(direction);
    if d.Some? {
      Carried(g, player, p, (p.0 + d.value.0, p.1 + d.value.1), Find(g, player, 0) == (-1, -1));
    }
  }

  lemma StartIsFound(g: Grid, player: char, p: Cell)
    requires IsPlayer(player) && Starts(g, player, p)
    ensures var seen := Find(g, player, 0);
            && p == (if seen == (-1, -1) then Find(g, '.', 0) else seen) && p != (-1, -1)
            && Inside(g, p) && (seen == (-1, -1) ==> g[p.0][p.1] == '.')
  {
    hide Find;
    FindIsFirst(g, player, 0);
    FindIsFirst(g, '.', 0);
    if FirstAt(g, player, p) {
      FirstIsUnique(g, player, p, Find(g, player, 0));
    } else {
      FirstIsUnique(g, '.', p, Find(g, '.', 0));
    }
  }

  lemma Carried(g: Grid, player: char, p: Cell, q: Cell, spawned: bool)
    requires Inside(g, p) && (spawned ==> g[p.0][p.1] == '.') && p != q
    ensures var ok := Inside(g, q) && g[q.0][q.1] == '.';
            var h := if ok then Put(if spawned then g else Put(g, p, '.'), q, player) else g;
            Moved(g, ok, h, player, p, q)
  {
  }

  /** Up and down lead one row, left and right one column away from where the move starts; there
      is no other direction, and no move without a start. */
  ghost predicate Stepped(g: Grid, ok: bool, h: Grid, player: char, direction: string) {
    && (forall p :: Starts(g, player, p) ==>
          && (direction == "up" ==> Moved(g, ok, h, player, p, (p.0 - 1, p.1)))
          && (direction == "down" ==> Moved(g, ok, h, player, p, (p.0 + 1, p.1)))
          && (direction == "left" ==> Moved(g, ok, h, player, p, (p.0, p.1 - 1)))
          && (direction == "right" ==> Moved(g, ok, h, player, p, (p.0, p.1 + 1))))
    && (ok ==> direction in ["up", "down", "left", "right"] && exists p :: Starts(g, player, p))
  }

  lemma MoveIsStep(g: Grid, player: char, direction: string)
    requires IsPlayer(player)
    ensures var m := Move(g, player, direction);
            Stepped(g, m.Some?, if m.Some? then m.value else g, player, direction)
  {
    hide Move, Moved, Starts, Find;
    forall p | Starts(g, player, p) {
      MoveIs(g, player, direction, p);
    }
    if Move(g, player, direction).Some? {
      var p := SomeStart(g, player, direction);
      MoveIs(g, player, direction, p);
    }
  }

  lemma SomeStart(g: Grid, player: char, direction: string) returns (p: Cell)
    requires IsPlayer(player) && Move(g, player, direction).Some?
    ensures Starts(g, player, p)
  {
    hide Find;
    FindIsFirst(g, player, 0);
    FindIsFirst(g, '.', 0);
    p := if Find(g, player, 0) == (-1, -1) then Find(g, '.', 0) else Find(g, player, 0);
  }

  // ----- what a move keeps -----

  function CountIn(row: string, ch: char): nat {
    if row == [] then 0 else (if row[0] == ch then 1 else 0) + CountIn(row[1..], ch)
  }

  /** How often `ch` occurs on the map. */
  function Count(g: Grid, ch: char): nat {
    if g == [] then 0 else CountIn(g[0], ch) + Count(g[1..], ch)
  }

  function One(b: bool): nat { if b then 1 else 0 }

  lemma {:induction false} CountInUpdate(row: string, c: nat, put: char, ch: char)
    requires c < |row|
    ensures CountIn(row[c := put], ch) + One(row[c] == ch) == CountIn(row, ch) + One(put == ch)
    decreases |row|
  {
    if c == 0 {
      assert row[c := put][1..] == row[1..];
    } else {
      assert row[c := put][1..] == row[1..][c - 1 := put];
      CountInUpdate(row[1..], c - 1, put, ch);
    }
  }

  lemma {:induction false} PutCount(g: Grid, p: Cell, put: char, ch: char)
    requires Inside(g, p)
    ensures Count(Put(g, p, put), ch) + One(g[p.0][p.1] == ch) == Count(g, ch) + One(put == ch)
    decreases |g|
  {
    var g' := Put(g, p, put);
    if p.0 == 0 {
      assert g'[1..] == g[1..];
      CountInUpdate(g[0], p.1, put, ch);
    } else {
      assert g'[1..] == Put(g[1..], (p.0 - 1, p.1), put);
      PutCount(g[1..], (p.0 - 1, p.1), put, ch);
    }
  }

  lemma {:induction false} AbsentIn(row: string, ch: char)
    requires ch !in row
    ensures CountIn(row, ch) == 0
    decreases |row|
  {
    if row != [] {
      AbsentIn(row[1..], ch);
    }
  }

  lemma {:induction false} Absent(g: Grid, ch: char)
    requires forall r :: 0 <= r < |g| ==> ch !in g[r]
    ensures Count(g, ch) == 0
    decreases |g|
  {
    if g != [] {
      AbsentIn(g[0], ch);
      forall r | 0 <= r < |g[1..]| ensures ch !in g[1..][r] {
        assert g[1..][r] == g[r + 1];
      }
      Absent(g[1..], ch);
    }
  }

  /** The same walls and floor, and every player as often as before, except that a missing
      one may have become exactly one. */
  ghost predicate Evolved(g: Grid, h: Grid) {
    && |h| == |g| && SameCells(g, h)
    && forall ch :: IsPlayer(ch) ==>
         Count(h, ch) == Count(g, ch) || (Count(g, ch) == 0 && Count(h, ch) == 1)
  }

  ghost predicate SameCells(g: Grid, h: Grid) {
    forall p :: SameCell(g, h, p)
  }

  /** Inside or not, wall or floor: as before. */
  predicate SameCell(g: Grid, h: Grid, p: Cell) {
    && (Inside(g, p) <==> Inside(h, p))
    && (Inside(g, p) ==> (g[p.0][p.1] == '#' <==> h[p.0][p.1] == '#'))
    && (Inside(g, p) ==> (IsFloor(g[p.0][p.1]) <==> IsFloor(h[p.0][p.1])))
  }

  lemma PutFloor(g: Grid, p: Cell, ch: char, q: Cell)
    requires Inside(g, p) && IsFloor(g[p.0][p.1]) && IsFloor(ch)
    ensures SameCell(g, Put(g, p, ch), q)
  {
  }

  lemma MoveKeepsCells(g: Grid, player: char, direction: string)
    requires IsPlayer(player) && Move(g, player, direction).Some?
    ensures SameCells(g, Move(g, player, direction).value)
  {
    var d := Direction(direction).value;
    var seen := Find(g, player, 0);
    var spawned := seen == (-1, -1);
    var from := if spawned then Find(g, '.', 0) else seen;
    var to := (from.0 + d.0, from.1 + d.1);
    var g1 := if spawned then g else Put(g, from, '.');
    forall q ensures SameCell(g, Put(g1, to, player), q) {
      if !spawned {
        PutFloor(g, from, '.', q);
      }
      PutFloor(g1, to, player, q);
    }
  }

  lemma MoveKeepsPlayers(g: Grid, player: char, direction: string, ch: char)
    requires IsPlayer(player) && IsPlayer(ch) && Move(g, player, direction).Some?
    ensures var h := Move(g, player, direction).value;
            Count(h, ch) == Count(g, ch) || (Count(g, ch) == 0 && Count(h, ch) == 1)
  {
    var d := Direction(direction).value;
    var seen := Find(g, player, 0);
    var spawned := seen == (-1, -1);
    var from := if spawned then Find(g, '.', 0) else seen;
    var to := (from.0 + d.0, from.1 + d.1);
    if spawned {
      Absent(g, player);
      PutCount(g, to, player, ch);
    } else {
      PutCount(g, from, '.', ch);
      PutCount(Put(g, from, '.'), to, player, ch);
    }
  }

  lemma SameCellsKeepShape(g: Grid, h: Grid)
    requires WellShaped(g) && |h| == |g| && SameCells(g, h)
    ensures WellShaped(h) && SameFloor(g, h)
  {
    forall r | 0 <= r < |h| ensures |h[r]| == Cols(g) {
      assert SameCell(g, h, (r, Cols(g)));
      assert SameCell(g, h, (r, Cols(g) - 1));
    }
    forall r, c | 0 <= r < |h| && 0 <= c < Cols(h) ensures h[r][c] == '#' || IsFloor(h[r][c]) {
      assert SameCell(g, h, (r, c));
    }
    forall p ensures FloorAt(g, p) <==> FloorAt(h, p) {
      assert SameCell(g, h, p);
    }
  }

  lemma MoveEvolves(g: Grid, player: char, direction: string)
    requires WellShaped(g) && Connected(g) && IsPlayer(player) && Move(g, player, direction).Some?
    ensures var h := Move(g, player, direction).value;
            WellShaped(h) && Connected(h) && Evolved(g, h)
  {
    var h := Move(g, player, direction).value;
    MoveKeepsCells(g, player, direction);
    SameCellsKeepShape(g, h);
    ConnectedIsAboutFloor(g, h);
    forall ch | IsPlayer(ch)
      ensures Count(h, ch) == Count(g, ch) || (Count(g, ch) == 0 && Count(h, ch) == 1)
    {
      MoveKeepsPlayers(g, player, direction, ch);
    }
  }

  // ----- runs of the program -----

  datatype Session = Session(player: char, direction: string)

  /** The map file after one run of the program with a move. */
  ghost function Play(c: string, s: Session): string {
    match Load(c)
    case None => c
    case Some(g) =>
      match Move(g, s.player, s.direction)
      case None => c
      case Some(h) => Save(h)
  }

  ghost function PlayAll(c: string, sessions: seq<Session>): string
    decreases |sessions|
  {
    if sessions == [] then c else PlayAll(Play(c, sessions[0]), sessions[1..])
  }

  lemma PlayKeeps(c: string, s: Session)
    requires Load(c).Some? && IsPlayer(s.player)
    ensures Load(Play(c, s)).Some? && Evolved(Load(c).value, Load(Play(c, s)).value)
    ensures Play(c, s) == c || Play(c, s) == Save(Load(Play(c, s)).value)
  {
    var g := Load(c).value;
    LoadShape(c);
    var m := Move(g, s.player, s.direction);
    if m.Some? {
      MoveEvolves(g, s.player, s.direction);
      SaveThenLoad(m.value);
    }
  }

  lemma EvolvedTrans(f: Grid, g: Grid, h: Grid)
    requires Evolved(f, g) && Evolved(g, h)
    ensures Evolved(f, h)
  {
    forall p ensures SameCell(f, h, p) {
      assert SameCell(f, g, p) && SameCell(g, h, p);
    }
  }

  /** Over any number of runs the file stays loadable, with the same walls and floor and the
      same players up to first appearances. */
  lemma {:induction false} MazeRuns(c: string, sessions: seq<Session>)
    requires Load(c).Some? && forall i :: 0 <= i < |sessions| ==> IsPlayer(sessions[i].player)
    ensures Load(PlayAll(c, sessions)).Some?
    ensures var g, h := Load(c).value, Load(PlayAll(c, sessions)).value;
            Evolved(g, h) && SameFloor(g, h) && Connected(h)
    decreases |sessions|
  {
    LoadShape(c);
    if sessions != [] {
      var c' := Play(c, sessions[0]);
      PlayKeeps(c, sessions[0]);
      MazeRuns(c', sessions[1..]);
      EvolvedTrans(Load(c).value, Load(c').value, Load(PlayAll(c, sessions)).value);
    }
    var h := Load(PlayAll(c, sessions)).value;
    SameCellsKeepShape(Load(c).value, h);
    LoadShape(PlayAll(c, sessions));
  }

  // ----- the program -----

  class Labyrinth {
    var map_: Grid

    constructor ()
      ensures map_ == []
    {
      map_ := [];
    }

    /** `loadMap` of a file with contents `c`. */
    method LoadMap(c: string) returns (ok: bool)
      modifies this
      ensures ok <==> Load(c).Some?
      ensures ok ==> map_ == Load(c).value
    {
      hide ReadRow, Connected, RowsShaped, Rect;
      var pos := 0;
      map_ := [];
      assert c[0..] == c;
      NoRowsShaped();
      while pos < |c|
        invariant pos <= |c| && RowsShaped(map_)
        invariant Parse(c, []) == Parse(c[pos..], map_)
        decreases |c| - pos
      {
        var n, row := ReadOne(c, pos);
        if n == 0 {
          return false;
        }
        ReadRowShape(c[pos..], map_);
        assert c[pos..][n..] == c[pos + n..];
        pos := pos + n;
        map_ := map_ + [row];
      }
      if map_ == [] {
        return false;
      }
      ShapedIsRect(map_);
      ok := IsConnected(map_);
    }

    /** Reads one line at `pos` and checks it; takes nothing if the load must fail. */
    method ReadOne(c: string, pos: nat) returns (n: nat, row: string)
      requires pos < |c|
      ensures n == 0 <==> ReadRow(c[pos..], map_).None?
      ensures n > 0 ==> ReadRow(c[pos..], map_) == Some((n, row))
    {
      if |map_| >= MAX_ROWS {
        return 0, [];
      }
      n := LineLen(c[pos..], LINE_BUFFER - 1);
      var line := c[pos..][..n];
      var len := TextLen(line);
      if !(len < |line| && line[len] == '\n') && !HitEnd(line, c[pos..][n..]) {
        return 0, [];
      }
      if len == 0 || len > MAX_COLS {
        return 0, [];
      }
      if map_ != [] && |map_[0]| != len {
        return 0, [];
      }
      row := line[..len];
      for col := 0 to len
        invariant forall i :: 0 <= i < col ==> row[i] == '#' || IsFloor(row[i])
      {
        if row[col] != '#' && row[col] != '.' && !IsPlayer(row[col]) {
          return 0, [];
        }
      }
    }

    /** `findPlayer` and `findFirstEmptySpace`. */
    method FindFirst(ch: char) returns (p: Cell)
      ensures p == Find(map_, ch, 0)
      ensures if p == (-1, -1) then Missing(map_, ch) else FirstAt(map_, ch, p)
    {
      FindIsFirst(map_, ch, 0);
      for row := 0 to |map_|
        invariant Find(map_, ch, 0) == Find(map_[row..], ch, row)
      {
        for col := 0 to |map_[row]|
          invariant forall i :: 0 <= i < col ==> map_[row][i] != ch
        {
          if map_[row][col] == ch {
            FoundHere(map_[row], ch, col);
            return (row, col);
          }
        }
        assert map_[row..][1..] == map_[row + 1..];
      }
      return (-1, -1);
    }

    /** `movePlayer`. */
    method MovePlayer(player: char, direction: string) returns (ok: bool)
      requires IsPlayer(player)
      modifies this
      ensures ok <==> Move(old(map_), player, direction).Some?
      ensures map_ == if ok then Move(old(map_), player, direction).value else old(map_)
      ensures Stepped(old(map_), ok, map_, player, direction)
    {
      hide Find, Put, IsPlayer, Stepped, FirstAt, Missing;
      MoveIsStep(map_, player, direction);
      var d := Direction(direction);
      if d.None? {
        return false;
      }
      var from := FindFirst(player);
      var spawned := false;
      if from.0 == -1 {
        from := FindFirst('.');
        if from.0 == -1 {
          return false;
        }
        spawned := true;
      }
      var to := (from.0 + d.value.0, from.1 + d.value.1);
      if !(Inside(map_, to) && map_[to.0][to.1] == '.') {
        return false;
      }
      if !spawned {
        map_ := Put(map_, from, '.');
      }
      map_ := Put(map_, to, player);
      ok := true;
    }

    /** `saveMap`: the contents written to the file. */
    method SaveMap() returns (c: string)
      ensures c == Save(map_)
    {
      c := [];
      for row := 0 to |map_|
        invariant Save(map_) == c + Save(map_[row..])
      {
        assert map_[row..][1..] == map_[row + 1..];
        c := c + map_[row] + "\n";
      }
    }
  }

  lemma {:induction false} FoundHere(row: string, ch: char, c: nat)
    requires c < |row| && row[c] == ch && forall i :: 0 <= i < c ==> row[i] != ch
    ensures FindIn(row, ch) == c
  {
  }
}
