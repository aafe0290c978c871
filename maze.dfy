/**
 * The maze generator: up to 100 random candidate grids with the endpoints
 * forced free, the first one BFS can solve is kept; otherwise a hard-coded
 * 10 x 15 maze, or the last draw with an L-shaped free corridor along
 * column 0 and the bottom row. The random draws are a parameter.
 */
module Maze {
  import opened Utils
  import opened Paths
  import Bfs

  /** `FALLBACK_MAZE`. */
  function FallbackMaze(): Grid {
    [[0, 1, 0, 1, 1, 0, 0, 0, 1, 0, 0, 0, 1, 0, 1],
     [0, 0, 0, 0, 1, 0, 0, 0, 1, 0, 1, 0, 0, 1, 0],
     [0, 1, 0, 0, 0, 0, 0, 0, 1, 0, 0, 0, 0, 0, 1],
     [0, 0, 0, 1, 0, 0, 1, 1, 0, 0, 0, 0, 0, 0, 1],
     [0, 1, 0, 0, 0, 0, 0, 1, 1, 0, 1, 0, 1, 0, 0],
     [0, 0, 1, 0, 0, 0, 1, 0, 0, 1, 0, 0, 0, 0, 0],
     [0, 0, 1, 0, 0, 1, 1, 0, 0, 0, 0, 1, 0, 0, 0],
     [0, 1, 0, 0, 0, 0, 0, 0, 0, 0, 0, 1, 0, 0, 0],
     [0, 0, 0, 1, 0, 0, 1, 0, 0, 1, 0, 1, 0, 0, 0],
     [0, 1, 1, 0, 0, 1, 0, 0, 0, 0, 0, 0, 0, 0, 0]]
  }

  /** `g` has `rows` rows of `cols` entries each. */
  predicate Shaped(g: Grid, rows: nat, cols: nat) {
    |g| == rows && forall i :: 0 <= i < |g| ==> |g[i]| == cols
  }

  /** `p` indexes a cell of a `rows` x `cols` array. */
  predicate Inside(p: Cell, rows: nat, cols: nat) {
    0 <= p.r < rows && 0 <= p.c < cols
  }

  /** `g` with the cells `s` and `t` set free. */
  function Forced(g: Grid, s: Cell, t: Cell): (f: Grid)
    ensures |f| == |g| && forall i :: 0 <= i < |g| ==> |f[i]| == |g[i]|
  {
    seq(|g|, i requires 0 <= i < |g| =>
      seq(|g[i]|, j requires 0 <= j < |g[i]| => if Cell(i, j) == s || Cell(i, j) == t then 0 else g[i][j]))
  }

  /** `g` with column 0 and the last row set free: the L-shaped corridor. */
  function Corridor(g: Grid): (f: Grid)
    ensures |f| == |g| && forall i :: 0 <= i < |g| ==> |f[i]| == |g[i]|
  {
    seq(|g|, i requires 0 <= i < |g| =>
      seq(|g[i]|, j requires 0 <= j < |g[i]| => if j == 0 || i == |g| - 1 then 0 else g[i][j]))
  }

  /** The grid a two-dimensional array holds, row by row. */
  function Contents(a: array2<int>): (g: Grid)
    reads a
    ensures Shaped(g, a.Length0, a.Length1)
  {
    seq(a.Length0, i requires 0 <= i < a.Length0 reads a =>
      seq(a.Length1, j requires 0 <= j < a.Length1 reads a => a[i, j]))
  }

  /** An array that agrees with `g` on every cell holds `g`. */
  lemma ContentsIs(a: array2<int>, g: Grid)
    requires Shaped(g, a.Length0, a.Length1)
    requires forall i, j :: 0 <= i < a.Length0 && 0 <= j < a.Length1 ==> a[i, j] == g[i][j]
    ensures Contents(a) == g
  {
    var c := Contents(a);
    forall i | 0 <= i < |g|
      ensures c[i] == g[i]
    {
      assert forall j :: 0 <= j < |g[i]| ==> c[i][j] == g[i][j];
    }
  }

  /** `g` is a grid the searchers accept and `t` can be reached from `s` in it. */
  ghost predicate Solvable(g: Grid, s: Cell, t: Cell) {
    ValidGrid(g) && Reachable(g, s, t)
  }

  /** Candidate `k` is the one the retry loop keeps: among the first 100, solvable, and no earlier one is. */
  ghost predicate RetryPicks(draws: seq<Grid>, s: Cell, t: Cell, k: nat) {
    && k < 100 && k < |draws|
    && Solvable(Forced(draws[k], s, t), s, t)
    && forall j :: 0 <= j < k ==> !Solvable(Forced(draws[j], s, t), s, t)
  }

  /** No candidate among the first 100 is solvable. */
  ghost predicate AllFail(draws: seq<Grid>, s: Cell, t: Cell)
    requires |draws| > 100
  {
    forall j :: 0 <= j < 100 ==> !Solvable(Forced(draws[j], s, t), s, t)
  }

  /**
   * `g` is what `generate_maze(rows, cols, s, t)` returns when the random
   * grids it draws are `draws`: the first solvable candidate of the first
   * 100; otherwise the fallback maze for a 10 x 15 request; otherwise draw
   * 100 with the endpoints and the corridor set free.
   */
  ghost predicate GeneratedBy(g: Grid, rows: nat, cols: nat, s: Cell, t: Cell, draws: seq<Grid>)
    requires |draws| > 100
  {
    || (exists k: nat :: RetryPicks(draws, s, t, k) && g == Forced(draws[k], s, t))
    || (&& AllFail(draws, s, t)
        && g == if rows == 10 && cols == 15 then FallbackMaze() else Corridor(Forced(draws[100], s, t)))
  }

  /** `has_valid_path(grid, start, goal)`: BFS from `start` reaches `goal`. */
  method HasValidPath(grid: Grid, start: Cell, goal: Cell) returns (b: bool)
    requires ValidGrid(grid)
    ensures b <==> Reachable(grid, start, goal)
  {
    var r := Bfs.BfsSearch(grid, start, goal);
    b := r.success;
  }

  /** A fresh array holding `g` (`np.array`, `.astype(int)`, `.copy()`). */
  method NewGrid(g: Grid, rows: nat, cols: nat) returns (a: array2<int>)
    requires Shaped(g, rows, cols)
    ensures fresh(a) && a.Length0 == rows && a.Length1 == cols
    ensures Contents(a) == g
  {
    a := new int[rows, cols]((i: nat, j: nat) requires i < rows && j < cols => g[i][j]);
    ContentsIs(a, g);
  }

  /** `grid[start] = 0; grid[goal] = 0`. */
  method ForceFree(a: array2<int>, s: Cell, t: Cell)
    requires Inside(s, a.Length0, a.Length1) && Inside(t, a.Length0, a.Length1)
    modifies a
    ensures Contents(a) == Forced(old(Contents(a)), s, t)
  {
    ghost var g := Contents(a);
    a[s.r, s.c] := 0;
    a[t.r, t.c] := 0;
    ContentsIs(a, Forced(g, s, t));
  }

  /** `grid[i, 0] = 0` for every row, then `grid[rows - 1, j] = 0` for every column. */
  method ClearCorridor(a: array2<int>)
    requires a.Length0 > 0 && a.Length1 > 0
    modifies a
    ensures Contents(a) == Corridor(old(Contents(a)))
  {
    ghost var g := Contents(a);
    for i := 0 to a.Length0
      invariant forall x, y :: 0 <= x < a.Length0 && 0 <= y < a.Length1 ==>
                  a[x, y] == if y == 0 && x < i then 0 else g[x][y]
    {
      a[i, 0] := 0;
    }
    for j := 0 to a.Length1
      invariant forall x, y :: 0 <= x < a.Length0 && 0 <= y < a.Length1 ==>
                  a[x, y] == if y == 0 || (x == a.Length0 - 1 && y < j) then 0 else g[x][y]
    {
      a[a.Length0 - 1, j] := 0;
    }
    ContentsIs(a, Corridor(g));
  }

  /**
   * `generate_maze(rows, cols, start, goal)` with the random grids it would
   * draw given as `draws`: the result is the grid `GeneratedBy` describes.
   */
  method GenerateMaze(rows: nat, cols: nat, start: Option<Cell>, goal: Option<Cell>, draws: seq<Grid>)
    returns (a: array2<int>)
    requires rows > 0 && cols > 0
    requires start.Some? ==> Inside(start.value, rows, cols)
    requires goal.Some? ==> Inside(goal.value, rows, cols)
    requires |draws| > 100 && forall k :: 0 <= k < |draws| ==> Shaped(draws[k], rows, cols)
    ensures fresh(a) && a.Length0 == rows && a.Length1 == cols
    ensures start.Some? && goal.Some? ==> GeneratedBy(Contents(a), rows, cols, start.value, goal.value, draws)
    ensures start.None? && goal.Some? ==> GeneratedBy(Contents(a), rows, cols, Cell(0, 0), goal.value, draws)
    ensures start.Some? && goal.None? ==> GeneratedBy(Contents(a), rows, cols, start.value, Cell(rows - 1, cols - 1), draws)
    ensures start.None? && goal.None? ==> GeneratedBy(Contents(a), rows, cols, Cell(0, 0), Cell(rows - 1, cols - 1), draws)
  {
    var s := if start.Some? then start.value else Cell(0, 0);
    var t := if goal.Some? then goal.value else Cell(rows - 1, cols - 1);
    for attempt := 0 to 100
      invariant forall j :: 0 <= j < attempt ==> !Solvable(Forced(draws[j], s, t), s, t)
    {
      a := NewGrid(draws[attempt], rows, cols);
      ForceFree(a, s, t);
      var ok := HasValidPath(Contents(a), s, t);
      if ok {
        assert RetryPicks(draws, s, t, attempt);
        return;
      }
    }
    if rows == 10 && cols == 15 {
      a := NewGrid(FallbackMaze(), 10, 15);
      return;
    }
    a := NewGrid(draws[100], rows, cols);
    ForceFree(a, s, t);
    ClearCorridor(a);
  }

  /** A walk down column 0 and then right along the last row. */
  function CorridorWalk(rows: nat, cols: nat): (w: seq<Cell>)
    requires rows > 0 && cols > 0
    ensures |w| == rows + cols - 1
  {
    seq(rows, i => Cell(i, 0)) + seq(cols - 1, j => Cell(rows - 1, j + 1))
  }

  /** In a corridor grid the default goal is reachable from the default start. */
  lemma CorridorSolvable(g: Grid, rows: nat, cols: nat)
    requires rows > 0 && cols > 0 && Shaped(g, rows, cols)
    ensures Solvable(Corridor(g), Cell(0, 0), Cell(rows - 1, cols - 1))
  {
    var c := Corridor(g);
    var w := CorridorWalk(rows, cols);
    forall i | 0 <= i < |w| - 1
      ensures Move(c, w[i], w[i + 1])
    {
      if i < rows - 1 {
        assert w[i] == Cell(i, 0) && w[i + 1] == Cell(i + 1, 0);
      } else {
        assert w[i] == Cell(rows - 1, i - rows + 1) && w[i + 1] == Cell(rows - 1, i - rows + 2);
      }
    }
    assert IsWalk(c, w, Cell(0, 0), Cell(rows - 1, cols - 1));
  }

  /** The fallback maze is 10 x 15 and, as its comment says, (9, 14) can be reached from (0, 0). */
  lemma FallbackSolvable()
    ensures Shaped(FallbackMaze(), 10, 15)
    ensures FallbackMaze()[0][0] == 0 && FallbackMaze()[9][14] == 0
    ensures Solvable(FallbackMaze(), Cell(0, 0), Cell(9, 14))
  {
    var m := FallbackMaze();
    var w := [Cell(0, 0), Cell(1, 0), Cell(1, 1), Cell(1, 2), Cell(1, 3), Cell(2, 3), Cell(2, 4), Cell(3, 4),
              Cell(4, 4), Cell(5, 4), Cell(6, 4), Cell(7, 4), Cell(7, 5), Cell(7, 6), Cell(7, 7), Cell(7, 8),
              Cell(7, 9), Cell(7, 10), Cell(8, 10), Cell(9, 10), Cell(9, 11), Cell(9, 12), Cell(9, 13), Cell(9, 14)];
    forall i | 0 <= i < |w| - 1
      ensures Move(m, w[i], w[i + 1])
    {
    }
    assert IsWalk(m, w, Cell(0, 0), Cell(9, 14));
  }

  /** The generator's result is `rows` x `cols` on every branch. */
  lemma GeneratedShape(g: Grid, rows: nat, cols: nat, s: Cell, t: Cell, draws: seq<Grid>)
    requires |draws| > 100 && forall k :: 0 <= k < |draws| ==> Shaped(draws[k], rows, cols)
    requires GeneratedBy(g, rows, cols, s, t, draws)
    ensures Shaped(g, rows, cols)
  {
    if !exists k: nat :: RetryPicks(draws, s, t, k) && g == Forced(draws[k], s, t) {
      if rows == 10 && cols == 15 {
        FallbackSolvable();
      }
    }
  }

  /**
   * The endpoints of the result are free cells, unless the 10 x 15 fallback
   * maze was returned for endpoints other than its own (0, 0) and (9, 14).
   */
  lemma GeneratedFreesEndpoints(g: Grid, rows: nat, cols: nat, s: Cell, t: Cell, draws: seq<Grid>)
    requires |draws| > 100 && forall k :: 0 <= k < |draws| ==> Shaped(draws[k], rows, cols)
    requires Inside(s, rows, cols) && Inside(t, rows, cols)
    requires GeneratedBy(g, rows, cols, s, t, draws)
    requires !(rows == 10 && cols == 15 && AllFail(draws, s, t)) || (s == Cell(0, 0) && t == Cell(9, 14))
    ensures Shaped(g, rows, cols)
    ensures g[s.r][s.c] == 0 && g[t.r][t.c] == 0
  {
    GeneratedShape(g, rows, cols, s, t, draws);
    if rows == 10 && cols == 15 {
      FallbackSolvable();
    }
  }

  /** The input determines the output: exactly one of the branches is taken, with exactly one candidate. */
  lemma GeneratedUnique(g1: Grid, g2: Grid, rows: nat, cols: nat, s: Cell, t: Cell, draws: seq<Grid>)
    requires |draws| > 100
    requires GeneratedBy(g1, rows, cols, s, t, draws) && GeneratedBy(g2, rows, cols, s, t, draws)
    ensures g1 == g2
  {
    if k1: nat :| RetryPicks(draws, s, t, k1) && g1 == Forced(draws[k1], s, t) {
      if k2: nat :| RetryPicks(draws, s, t, k2) && g2 == Forced(draws[k2], s, t) {
        RetryPickUnique(draws, s, t, k1, k2);
      }
    }
  }

  /** At most one candidate is the first solvable one. */
  lemma RetryPickUnique(draws: seq<Grid>, s: Cell, t: Cell, k1: nat, k2: nat)
    requires RetryPicks(draws, s, t, k1) && RetryPicks(draws, s, t, k2)
    ensures k1 == k2
  {
  }

  /** With the default endpoints the generated maze is always solvable. */
  lemma GeneratedSolvable(g: Grid, rows: nat, cols: nat, draws: seq<Grid>)
    requires rows > 0 && cols > 0
    requires |draws| > 100 && forall k :: 0 <= k < |draws| ==> Shaped(draws[k], rows, cols)
    requires GeneratedBy(g, rows, cols, Cell(0, 0), Cell(rows - 1, cols - 1), draws)
    ensures Solvable(g, Cell(0, 0), Cell(rows - 1, cols - 1))
  {
    var s, t := Cell(0, 0), Cell(rows - 1, cols - 1);
    if !exists k: nat :: RetryPicks(draws, s, t, k) && g == Forced(draws[k], s, t) {
      if rows == 10 && cols == 15 {
        FallbackSolvable();
      } else {
        var f := Forced(draws[100], s, t);
        assert Shaped(f, rows, cols);
        CorridorSolvable(f, rows, cols);
      }
    }
  }

  /** A walk between two different cells leaves its start by a move and enters its end by a move. */
  lemma WalkEnds(grid: Grid, w: seq<Cell>, s: Cell, t: Cell)
    requires ValidGrid(grid) && IsWalk(grid, w, s, t) && s != t
    ensures |w| >= 2 && Move(grid, s, w[1]) && Move(grid, w[|w| - 2], t)
  {
  }

  /** A grid of walls only. */
  function AllWalls(rows: nat, cols: nat): (g: Grid)
    ensures Shaped(g, rows, cols)
  {
    seq(rows, i => seq(cols, j => 1))
  }

  /** With walls everywhere but (0, 0) and (0, 3), no candidate for that request is solvable. */
  lemma WallsUnsolvable()
    ensures !Solvable(Forced(AllWalls(10, 15), Cell(0, 0), Cell(0, 3)), Cell(0, 0), Cell(0, 3))
  {
    var s, t := Cell(0, 0), Cell(0, 3);
    var f := Forced(AllWalls(10, 15), s, t);
    if w :| IsWalk(f, w, s, t) {
      WalkEnds(f, w, s, t);
      assert false;
    }
  }

  /** (0, 3) is a wall of the fallback maze, so it cannot be reached from anywhere else. */
  lemma FallbackWallUnreachable(s: Cell)
    requires s != Cell(0, 3)
    ensures !Solvable(FallbackMaze(), s, Cell(0, 3))
  {
    var m := FallbackMaze();
    var t := Cell(0, 3);
    if w :| IsWalk(m, w, s, t) {
      WalkEnds(m, w, s, t);
      assert false;
    }
  }

  /**
   * The 10 x 15 fallback ignores custom endpoints: a request for goal (0, 3)
   * whose random draws are all walls returns the fallback maze, in which that
   * goal is a wall and cannot be reached.
   */
  lemma FallbackIgnoresEndpoints(g: Grid)
    requires GeneratedBy(g, 10, 15, Cell(0, 0), Cell(0, 3), seq(101, k => AllWalls(10, 15)))
    ensures g == FallbackMaze()
    ensures !Solvable(g, Cell(0, 0), Cell(0, 3))
  {
    var draws := seq(101, k => AllWalls(10, 15));
    var s, t := Cell(0, 0), Cell(0, 3);
    forall j | 0 <= j < 100
      ensures !Solvable(Forced(draws[j], s, t), s, t)
    {
      WallsUnsolvable();
    }
    FallbackWallUnreachable(s);
  }

  /**
   * The corridor ignores custom endpoints too: a 3 x 3 request for goal
   * (0, 2) whose random draws are all walls gets column 0 and the bottom row
   * set free, which never touch (0, 2)'s neighbours.
   */
  lemma CorridorIgnoresEndpoints(g: Grid)
    requires GeneratedBy(g, 3, 3, Cell(0, 0), Cell(0, 2), seq(101, k => AllWalls(3, 3)))
    ensures g == Corridor(Forced(AllWalls(3, 3), Cell(0, 0), Cell(0, 2)))
    ensures !Solvable(g, Cell(0, 0), Cell(0, 2))
  {
    var draws := seq(101, k => AllWalls(3, 3));
    var s, t := Cell(0, 0), Cell(0, 2);
    var f := Forced(AllWalls(3, 3), s, t);
    forall j | 0 <= j < 100
      ensures !Solvable(Forced(draws[j], s, t), s, t)
    {
      if w :| IsWalk(f, w, s, t) {
        WalkEnds(f, w, s, t);
        assert false;
      }
    }
    var c := Corridor(f);
    if w :| IsWalk(c, w, s, t) {
      var p := EnteredFrom(c, w, s, t);
      assert false;
    }
  }

  /** The last cell a walk visits before its end is next to the end, and is its start or a free cell. */
  lemma EnteredFrom(grid: Grid, w: seq<Cell>, s: Cell, t: Cell) returns (p: Cell)
    requires ValidGrid(grid) && IsWalk(grid, w, s, t) && s != t
    ensures Adjacent(p, t)
    ensures p == s || (InBounds(grid, p.r, p.c) && IsFree(grid, p.r, p.c))
  {
    p := w[|w| - 2];
    if |w| > 2 {
      assert Move(grid, w[|w| - 3], p);
    }
  }

  /** `x` lies between `a` and `b`, in either order. */
  predicate Between(x: int, a: int, b: int) {
    (a <= x <= b) || (b <= x <= a)
  }

  /** Cell (i, j) lies on the L from `s` along its column to the row of `t`, then along that row to `t`. */
  predicate OnLeg(s: Cell, t: Cell, i: int, j: int) {
    (j == s.c && Between(i, s.r, t.r)) || (i == t.r && Between(j, s.c, t.c))
  }

  /** `g` with the L-shaped path from `s` to `t` set free. */
  function Carved(g: Grid, s: Cell, t: Cell): (f: Grid)
    ensures |f| == |g| && forall i :: 0 <= i < |g| ==> |f[i]| == |g[i]|
  {
    seq(|g|, i requires 0 <= i < |g| =>
      seq(|g[i]|, j requires 0 <= j < |g[i]| => if OnLeg(s, t, i, j) then 0 else g[i][j]))
  }

  /** For the default endpoints the carved path is the corridor of column 0 and the bottom row. */
  lemma CarvedIsCorridor(g: Grid, rows: nat, cols: nat)
    requires rows > 0 && cols > 0 && Shaped(g, rows, cols)
    ensures Carved(g, Cell(0, 0), Cell(rows - 1, cols - 1)) == Corridor(g)
  {
    var a, b := Carved(g, Cell(0, 0), Cell(rows - 1, cols - 1)), Corridor(g);
    forall i | 0 <= i < rows
      ensures a[i] == b[i]
    {
      assert forall j :: 0 <= j < cols ==> a[i][j] == b[i][j];
    }
  }

  /** One step from `s` toward `t`: along the column while the rows differ, then along the row. */
  function Toward(s: Cell, t: Cell): (n: Cell)
    requires s != t
    ensures Adjacent(s, n)
    ensures Abs(n.r - t.r) + Abs(n.c - t.c) < Abs(s.r - t.r) + Abs(s.c - t.c)
    ensures forall i, j :: OnLeg(n, t, i, j) ==> OnLeg(s, t, i, j)
  {
    if s.r < t.r then Cell(s.r + 1, s.c)
    else if s.r > t.r then Cell(s.r - 1, s.c)
    else if s.c < t.c then Cell(s.r, s.c + 1)
    else Cell(s.r, s.c - 1)
  }

  /** The cells of the L from `s` along its column to the row of `t`, then along that row to `t`. */
  function LPath(s: Cell, t: Cell): (w: seq<Cell>)
    ensures |w| > 0 && w[0] == s && w[|w| - 1] == t
    ensures forall k :: 0 <= k < |w| ==> OnLeg(s, t, w[k].r, w[k].c)
    ensures forall k :: 0 <= k < |w| - 1 ==> Adjacent(w[k], w[k + 1])
    decreases Abs(s.r - t.r) + Abs(s.c - t.c)
  {
    if s == t then [s] else [s] + LPath(Toward(s, t), t)
  }

  /** In a carved grid `t` can be reached from `s`, wherever the two lie. */
  lemma CarvedSolvable(g: Grid, rows: nat, cols: nat, s: Cell, t: Cell)
    requires rows > 0 && cols > 0 && Shaped(g, rows, cols)
    requires Inside(s, rows, cols) && Inside(t, rows, cols)
    ensures Solvable(Carved(g, s, t), s, t)
  {
    var c := Carved(g, s, t);
    var w := LPath(s, t);
    CarvedFree(g, rows, cols, s, t, s);
    forall i | 0 <= i < |w| - 1
      ensures Move(c, w[i], w[i + 1])
    {
      CarvedFree(g, rows, cols, s, t, w[i + 1]);
    }
    assert IsWalk(c, w, s, t);
  }

  /** A cell on the carved path is a free cell of the carved grid. */
  lemma CarvedFree(g: Grid, rows: nat, cols: nat, s: Cell, t: Cell, p: Cell)
    requires rows > 0 && cols > 0 && Shaped(g, rows, cols)
    requires Inside(s, rows, cols) && Inside(t, rows, cols) && OnLeg(s, t, p.r, p.c)
    ensures Inside(p, rows, cols) && ValidGrid(Carved(g, s, t))
    ensures InBounds(Carved(g, s, t), p.r, p.c) && IsFree(Carved(g, s, t), p.r, p.c)
  {
  }

  /**
   * What `generate_maze` evidently means to return: the same retry loop, the
   * fallback maze only for the endpoints it was drawn for, and otherwise
   * draw 100 with the L-shaped path from the requested start to the
   * requested goal set free.
   */
  ghost predicate IntendedBy(g: Grid, rows: nat, cols: nat, s: Cell, t: Cell, draws: seq<Grid>)
    requires |draws| > 100
  {
    || (exists k: nat :: RetryPicks(draws, s, t, k) && g == Forced(draws[k], s, t))
    || (&& AllFail(draws, s, t)
        && g == if rows == 10 && cols == 15 && s == Cell(0, 0) && t == Cell(9, 14) then FallbackMaze()
                else Carved(Forced(draws[100], s, t), s, t))
  }

  /** The intended generator returns a solvable maze for every pair of endpoints inside it. */
  lemma IntendedSolvable(g: Grid, rows: nat, cols: nat, s: Cell, t: Cell, draws: seq<Grid>)
    requires rows > 0 && cols > 0
    requires |draws| > 100 && forall k :: 0 <= k < |draws| ==> Shaped(draws[k], rows, cols)
    requires Inside(s, rows, cols) && Inside(t, rows, cols)
    requires IntendedBy(g, rows, cols, s, t, draws)
    ensures Solvable(g, s, t)
  {
    if !exists k: nat :: RetryPicks(draws, s, t, k) && g == Forced(draws[k], s, t) {
      if rows == 10 && cols == 15 && s == Cell(0, 0) && t == Cell(9, 14) {
        FallbackSolvable();
      } else {
        var f := Forced(draws[100], s, t);
        assert Shaped(f, rows, cols);
        CarvedSolvable(f, rows, cols, s, t);
      }
    }
  }

  /** With the default endpoints the intended generator and `generate_maze` return the same maze. */
  lemma IntendedAtDefaults(g: Grid, rows: nat, cols: nat, draws: seq<Grid>)
    requires rows > 0 && cols > 0
    requires |draws| > 100 && forall k :: 0 <= k < |draws| ==> Shaped(draws[k], rows, cols)
    ensures IntendedBy(g, rows, cols, Cell(0, 0), Cell(rows - 1, cols - 1), draws)
        <==> GeneratedBy(g, rows, cols, Cell(0, 0), Cell(rows - 1, cols - 1), draws)
  {
    var f := Forced(draws[100], Cell(0, 0), Cell(rows - 1, cols - 1));
    assert Shaped(f, rows, cols);
    CarvedIsCorridor(f, rows, cols);
  }
}
