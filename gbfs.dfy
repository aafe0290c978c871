/**
 * Greedy best-first search: the A* loop driven by the heuristic alone.
 * The priority ignores the cost so far, so the search keeps every guarantee
 * of the shared loop except shortestness.
 */
module Gbfs {
  import opened Utils
  import opened Paths
  import AStar

  /** `calculate_priority(g, cell, goal)` of GBFS: the estimate only. */
  function CalculatePriority(h: (Cell, Cell) -> int, g: nat, cell: Cell, goal: Cell): int {
    h(cell, goal)
  }

  /** The priority function a GBFS searcher with heuristic `h` hands to the A* loop. */
  function PriorityOf(h: (Cell, Cell) -> int): (nat, Cell, Cell) -> int {
    (g: nat, cell: Cell, goal: Cell) => CalculatePriority(h, g, cell, goal)
  }

  /** The greedy priority does not depend on the cost so far. */
  lemma PriorityIgnoresCost(h: (Cell, Cell) -> int, g1: nat, g2: nat, cell: Cell, goal: Cell)
    ensures PriorityOf(h)(g1, cell, goal) == PriorityOf(h)(g2, cell, goal)
    ensures PriorityOf(h)(g1, cell, goal) == h(cell, goal)
  {
  }

  /**
   * `gbfs_search(grid, start, goal, heuristic)`: the A* loop with the greedy
   * priority; a missing heuristic selects the Manhattan distance. The result
   * has every property the shared loop promises, but no claim of
   * shortestness.
   */
  method GbfsSearch(grid: Grid, start: Cell, goal: Cell, heuristic: Option<(Cell, Cell) -> int>)
    returns (r: SearchResult, ghost heaps: seq<seq<AStar.Entry>>, ghost pops: seq<nat>,
             ghost costs: seq<map<Cell, nat>>, ghost marks: seq<nat>)
    requires ValidGrid(grid)
    ensures SearchContract(grid, start, goal, r)
    ensures AStar.HeapTrace(start, r.visitedOrder, r.frontierHistory)
    ensures AStar.HeapRun(grid, start, goal, PriorityOf(if heuristic.Some? then heuristic.value else AStar.ManhattanDistance),
                          r.visitedOrder, r.frontierHistory, heaps, pops, costs, marks)
    ensures r.success ==> |heaps| == |r.frontierHistory|
    ensures !r.success ==> |heaps| == |r.frontierHistory| + 1 && heaps[|heaps| - 1] == []
  {
    var h := if heuristic.Some? then heuristic.value else AStar.ManhattanDistance;
    var searcher := new TrackedGridSearch(grid);
    r, heaps, pops, costs, marks := AStar.Search(searcher, start, goal, PriorityOf(h), h, false);
  }

  /**
   * A greedy result and a shortest-path result for the same query agree on
   * success, and the greedy path is never the shorter one.
   */
  lemma NeverShorterThanOptimal(grid: Grid, start: Cell, goal: Cell, optimal: SearchResult, greedy: SearchResult)
    requires ValidGrid(grid)
    requires SearchContract(grid, start, goal, optimal) && SearchContract(grid, start, goal, greedy)
    requires optimal.success ==> Shortest(grid, optimal.path, start, goal)
    ensures optimal.success <==> greedy.success
    ensures greedy.success ==> |optimal.path| <= |greedy.path|
  {
  }
}
