/**
 * Shared grid utilities and search telemetry: the cell and grid queries of
 * GridSearchBase, the SearchResult record, and the TrackedGridSearch object
 * (grid plus the TrackingMixin fields every search appends to).
 */
module Utils {

  datatype Option<T> = None | Some(value: T)

  /** A grid coordinate (row, column); compared structurally, like a Python tuple. */
  datatype Cell = Cell(r: int, c: int)

  /** Rows of cell states: 0 is a free cell, any other value is a wall. */
  type Grid = seq<seq<int>>

  /**
   * The shape every searcher relies on: `rows = len(grid)` and
   * `cols = len(grid[0])` exist, and every row has `cols` entries.
   */
  predicate ValidGrid(grid: Grid) {
    |grid| > 0 && forall i :: 0 <= i < |grid| ==> |grid[i]| == |grid[0]|
  }

  function Rows(grid: Grid): nat { |grid| }

  function Cols(grid: Grid): nat
    requires |grid| > 0
  {
    |grid[0]|
  }

  /** `in_bounds(r, c)`: (r, c) lies inside the grid, so `grid[r][c]` may be read. */
  function InBounds(grid: Grid, r: int, c: int): (b: bool)
    requires ValidGrid(grid)
    ensures b <==> 0 <= r < |grid| && 0 <= c < |grid[r]|
  {
    0 <= r < Rows(grid) && 0 <= c < Cols(grid)
  }

  /** `is_free(r, c)`: the cell is not a wall. Callers check the bounds first. */
  predicate IsFree(grid: Grid, r: int, c: int)
    requires ValidGrid(grid) && InBounds(grid, r, c)
  {
    grid[r][c] == 0
  }

  /** `is_valid_move(r, c, visited)`: in bounds, free, and not yet visited. */
  predicate IsValidMove(grid: Grid, r: int, c: int, visited: set<Cell>)
    requires ValidGrid(grid)
  {
    InBounds(grid, r, c) && IsFree(grid, r, c) && Cell(r, c) !in visited
  }

  /** `self.directions`: right, left, down, up. */
  const Directions: seq<(int, int)> := [(0, 1), (0, -1), (1, 0), (-1, 0)]

  /** The cell one step from `p` in direction `d`. */
  function Step(p: Cell, d: nat): Cell
    requires d < |Directions|
  {
    Cell(p.r + Directions[d].0, p.c + Directions[d].1)
  }

  function Abs(x: int): nat { if x < 0 then -x else x }

  /** 4-adjacency: Manhattan distance exactly 1. */
  predicate Adjacent(a: Cell, b: Cell) {
    Abs(a.r - b.r) + Abs(a.c - b.c) == 1
  }

  /**
   * The index in `Directions` of the step from `a` to `b`, or 4 when `b` is
   * not one step away. Every adjacent cell is reached by exactly one direction.
   */
  function Dir(a: Cell, b: Cell): (d: nat)
    ensures d <= 4
    ensures d < 4 <==> Adjacent(a, b)
    ensures d < 4 ==> Step(a, d) == b
  {
    if b == Step(a, 0) then 0
    else if b == Step(a, 1) then 1
    else if b == Step(a, 2) then 2
    else if b == Step(a, 3) then 3
    else 4
  }

  /** Distinct steps lead to distinct cells, so a step's direction is recovered from it. */
  lemma DirOfStep(a: Cell, d: nat)
    requires d < 4
    ensures Dir(a, Step(a, d)) == d
  {
  }

  /** One move of a search: to an adjacent cell that is in bounds and free. */
  predicate Move(grid: Grid, a: Cell, b: Cell)
    requires ValidGrid(grid)
  {
    Adjacent(a, b) && InBounds(grid, b.r, b.c) && IsFree(grid, b.r, b.c)
  }

  /** A valid move to the cell one step away is exactly a move to a cell not yet visited. */
  lemma ValidMoveIsFreshMove(grid: Grid, p: Cell, d: nat, visited: set<Cell>)
    requires ValidGrid(grid) && d < 4
    ensures IsValidMove(grid, Step(p, d).r, Step(p, d).c, visited)
        <==> Move(grid, p, Step(p, d)) && Step(p, d) !in visited
  {
  }

  /** Every in-bounds cell of the grid. */
  function AllCells(grid: Grid): (cells: set<Cell>)
    requires ValidGrid(grid)
    ensures forall n :: n in cells <==> InBounds(grid, n.r, n.c)
  {
    set r, c | 0 <= r < |grid| && 0 <= c < |grid[0]| :: Cell(r, c)
  }

  /** Taking a new member of `A` into `V` shrinks what is left of `A`. */
  lemma RemainderShrinks(A: set<Cell>, V: set<Cell>, n: Cell)
    requires n in A && n !in V
    ensures |A - (V + {n})| < |A - V|
  {
    assert (A - (V + {n})) + {n} == A - V;
  }

  /**
   * Marking an unvisited in-bounds cell shrinks the set of in-bounds cells
   * still unvisited, which bounds how often a search can push.
   */
  lemma MarkShrinks(grid: Grid, visited: set<Cell>, n: Cell)
    requires ValidGrid(grid) && InBounds(grid, n.r, n.c) && n !in visited
    ensures |AllCells(grid) - (visited + {n})| < |AllCells(grid) - visited|
  {
    RemainderShrinks(AllCells(grid), visited, n);
  }

  predicate Distinct<T(==)>(s: seq<T>) {
    forall i, j :: 0 <= i < j < |s| ==> s[i] != s[j]
  }

  /** Every cell of `s` is one step from `p`, with strictly increasing direction index. */
  predicate InDirectionOrder(p: Cell, s: seq<Cell>) {
    (forall i :: 0 <= i < |s| ==> Dir(p, s[i]) < 4) &&
    (forall i, j :: 0 <= i < j < |s| ==> Dir(p, s[i]) < Dir(p, s[j]))
  }

  /** Every cell of `s` is one step from `p`, with strictly decreasing direction index. */
  predicate InReversedDirectionOrder(p: Cell, s: seq<Cell>) {
    (forall i :: 0 <= i < |s| ==> Dir(p, s[i]) < 4) &&
    (forall i, j :: 0 <= i < j < |s| ==> Dir(p, s[i]) > Dir(p, s[j]))
  }

  /** The record every search returns. `execution_time` is not modelled. */
  datatype SearchResult = SearchResult(
    path: seq<Cell>,
    visitedOrder: seq<Cell>,
    frontierHistory: seq<seq<Cell>>,
    exploredCount: int,
    pathLength: int,
    success: bool)
  {
    /** The derived counters agree with the sequences they summarise. */
    predicate CountsAgree() {
      exploredCount == |visitedOrder| && pathLength == |path|
    }
  }

  /**
   * Constructing a SearchResult: `__post_init__` recomputes both counters
   * from the sequences, whatever counter values the caller passed.
   */
  function NewSearchResult(path: seq<Cell>, visitedOrder: seq<Cell>, frontierHistory: seq<seq<Cell>>,
                           exploredCount: int, pathLength: int, success: bool): (r: SearchResult)
    ensures r.CountsAgree()
    ensures r.path == path && r.visitedOrder == visitedOrder
    ensures r.frontierHistory == frontierHistory && r.success == success
  {
    SearchResult(path, visitedOrder, frontierHistory, |visitedOrder|, |path|, success)
  }

  /**
   * A parent map whose chains are acyclic: `depth` strictly decreases from a
   * cell to its parent and is 0 where the chain ends.
   */
  ghost predicate Ranked(parent: map<Cell, Option<Cell>>, depth: map<Cell, nat>) {
    parent.Keys <= depth.Keys &&
    forall c {:trigger parent[c]} :: c in parent ==>
      match parent[c]
      case None => depth[c] == 0
      case Some(p) => p in parent && depth[c] == depth[p] + 1
  }

  lemma RankedParent(parent: map<Cell, Option<Cell>>, depth: map<Cell, nat>, c: Cell)
    requires Ranked(parent, depth) && c in parent
    ensures c in depth
    ensures parent[c].None? ==> depth[c] == 0
    ensures parent[c].Some? ==> parent[c].value in parent && depth[c] == depth[parent[c].value] + 1
  {
  }

  /** Giving a new cell a parent already in the map, one deeper, keeps the map ranked. */
  lemma RankedPush(parent: map<Cell, Option<Cell>>, depth: map<Cell, nat>, u: Cell, n: Cell)
    requires Ranked(parent, depth) && u in parent && n !in parent
    ensures Ranked(parent[n := Some(u)], depth[n := depth[u] + 1])
  {
    var parent', depth' := parent[n := Some(u)], depth[n := depth[u] + 1];
    forall c | c in parent'
      ensures match parent'[c]
              case None => depth'[c] == 0
              case Some(p) => p in parent' && depth'[c] == depth'[p] + 1
    {
      if c != n {
        RankedParent(parent, depth, c);
        if parent[c].Some? {
          assert parent[c].value != n;
        }
      }
    }
  }

  /**
   * Re-parenting a cell that is no cell's parent under a cell already in the
   * map, one deeper, keeps the map ranked.
   */
  lemma RankedReparent(parent: map<Cell, Option<Cell>>, depth: map<Cell, nat>, u: Cell, n: Cell)
    requires Ranked(parent, depth) && u in parent && u != n
    requires forall c :: c in parent ==> parent[c] != Some(n)
    ensures Ranked(parent[n := Some(u)], depth[n := depth[u] + 1])
  {
    var parent', depth' := parent[n := Some(u)], depth[n := depth[u] + 1];
    forall c | c in parent'
      ensures match parent'[c]
              case None => depth'[c] == 0
              case Some(p) => p in parent' && depth'[c] == depth'[p] + 1
    {
      if c != n {
        RankedParent(parent, depth, c);
      }
    }
  }

  /**
   * `path` is the chain of parent pointers from a root (a cell mapped to
   * None) down to `goal`, one cell per depth level.
   */
  ghost predicate ParentChain(parent: map<Cell, Option<Cell>>, depth: map<Cell, nat>, path: seq<Cell>, goal: Cell) {
    && goal in depth && |path| == depth[goal] + 1 && path[|path| - 1] == goal
    && path[0] in parent && parent[path[0]] == None
    && (forall i :: 0 <= i < |path| ==> path[i] in parent && path[i] in depth && depth[path[i]] == i)
    && (forall i :: 0 <= i < |path| - 1 ==> parent[path[i + 1]] == Some(path[i]))
  }

  /**
   * The suffix of a parent chain walked back from `goal` so far: `path` ends
   * at `goal`, its first cell's parent is `cur`, and the cells still to
   * prepend number `base`.
   */
  ghost predicate PartialChain(parent: map<Cell, Option<Cell>>, depth: map<Cell, nat>, path: seq<Cell>,
                               cur: Option<Cell>, base: nat, goal: Cell) {
    && Ranked(parent, depth) && goal in parent
    && (cur.Some? ==> cur.value in parent && base == depth[cur.value] + 1)
    && (cur.None? ==> base == 0)
    && goal in depth && |path| + base == depth[goal] + 1
    && (path == [] ==> cur == Some(goal))
    && (path != [] ==> path[|path| - 1] == goal && path[0] in parent && parent[path[0]] == cur)
    && (forall i :: 0 <= i < |path| ==> path[i] in parent && path[i] in depth && depth[path[i]] == base + i)
    && (forall i :: 0 <= i < |path| - 1 ==> parent[path[i + 1]] == Some(path[i]))
  }

  /** Prepending the parent `c` reached so far extends the partial chain by one level. */
  lemma PartialStep(parent: map<Cell, Option<Cell>>, depth: map<Cell, nat>, path: seq<Cell>,
                    c: Cell, base: nat, goal: Cell)
    requires PartialChain(parent, depth, path, Some(c), base, goal)
    ensures base > 0
    ensures PartialChain(parent, depth, [c] + path, parent[c], base - 1, goal)
  {
    RankedParent(parent, depth, c);
    var path' := [c] + path;
    assert forall i :: 1 <= i < |path'| ==> path'[i] == path[i - 1];
  }

  /** A partial chain that has reached a root is a whole parent chain. */
  lemma PartialDone(parent: map<Cell, Option<Cell>>, depth: map<Cell, nat>, path: seq<Cell>,
                    base: nat, goal: Cell)
    requires PartialChain(parent, depth, path, None, base, goal)
    ensures ParentChain(parent, depth, path, goal)
  {
  }

  /** A searcher: the grid it reads and the telemetry it records. */
  class TrackedGridSearch {
    const grid: Grid
    const rows: nat
    const cols: nat
    var visitedOrder: seq<Cell>
    var frontierHistory: seq<seq<Cell>>

    ghost predicate Valid() {
      ValidGrid(grid) && rows == Rows(grid) && cols == Cols(grid)
    }

    /** `TrackedGridSearch(grid)`: stores the grid and starts with empty telemetry. */
    constructor (grid: Grid)
      requires ValidGrid(grid)
      ensures this.grid == grid && Valid()
      ensures visitedOrder == [] && frontierHistory == []
    {
      this.grid := grid;
      rows := |grid|;
      cols := |grid[0]|;
      visitedOrder := [];
      frontierHistory := [];
    }

    /** `init_tracking`: a reused searcher starts every search with empty telemetry. */
    method InitTracking()
      modifies this
      ensures visitedOrder == [] && frontierHistory == []
    {
      visitedOrder := [];
      frontierHistory := [];
    }

    /** `record_explored`: appends exactly one cell; earlier entries are kept. */
    method RecordExplored(cell: Cell)
      modifies this
      ensures visitedOrder == old(visitedOrder) + [cell]
      ensures frontierHistory == old(frontierHistory)
    {
      visitedOrder := visitedOrder + [cell];
    }

    /**
     * `record_frontier`: appends exactly one snapshot, a copy of the frontier
     * as it is now (a sequence value cannot alias the live frontier).
     */
    method RecordFrontier(frontier: seq<Cell>)
      modifies this
      ensures frontierHistory == old(frontierHistory) + [frontier]
      ensures visitedOrder == old(visitedOrder)
    {
      frontierHistory := frontierHistory + [frontier];
    }

    /** `create_result`: the telemetry recorded so far, with the given path and flag. */
    method CreateResult(path: seq<Cell>, success: bool) returns (r: SearchResult)
      ensures r.CountsAgree() && r.path == path && r.success == success
      ensures r.visitedOrder == visitedOrder && r.frontierHistory == frontierHistory
    {
      r := NewSearchResult(path, visitedOrder, frontierHistory, |visitedOrder|, |path|, success);
    }

    /**
     * `get_neighbors(r, c)`: exactly the cells one move away, each once, at
     * most four, in the order right, left, down, up.
     */
    method GetNeighbors(r: int, c: int) returns (neighbors: seq<Cell>)
      requires Valid()
      ensures forall n :: n in neighbors <==> Move(grid, Cell(r, c), n)
      ensures InDirectionOrder(Cell(r, c), neighbors)
      ensures Distinct(neighbors) && |neighbors| <= 4
    {
      neighbors := [];
      for d := 0 to |Directions|
        invariant forall n :: n in neighbors <==> Move(grid, Cell(r, c), n) && Dir(Cell(r, c), n) < d
        invariant InDirectionOrder(Cell(r, c), neighbors)
        invariant forall i :: 0 <= i < |neighbors| ==> Dir(Cell(r, c), neighbors[i]) < d
        invariant |neighbors| <= d
      {
        var n := Step(Cell(r, c), d);
        DirOfStep(Cell(r, c), d);
        if InBounds(grid, n.r, n.c) && IsFree(grid, n.r, n.c) {
          neighbors := neighbors + [n];
        }
      }
    }

    /**
     * `reconstruct_path(parent, goal)`: follows parent pointers from `goal`
     * until a cell maps to None. Prepending each cell builds the reversed walk
     * directly. The chain must be acyclic and every cell on it a key of
     * `parent`, which `depth` witnesses; otherwise the source loops or fails.
     */
    method ReconstructPath(parent: map<Cell, Option<Cell>>, goal: Cell, ghost depth: map<Cell, nat>)
      returns (path: seq<Cell>)
      requires Ranked(parent, depth) && goal in parent
      ensures ParentChain(parent, depth, path, goal)
    {
      path := [];
      var cur := Some(goal);
      ghost var base: nat := depth[goal] + 1;
      RankedParent(parent, depth, goal);
      while cur.Some?
        invariant PartialChain(parent, depth, path, cur, base, goal)
        decreases base
      {
        var c := cur.value;
        PartialStep(parent, depth, path, c, base, goal);
        path := [c] + path;
        cur := parent[c];
        base := base - 1;
      }
      PartialDone(parent, depth, path, base, goal);
    }
  }
}
