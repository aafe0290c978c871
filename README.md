# Grid path search, modelled in Dafny

This project models the search engine of a grid path-finding visualiser. A
grid is a rectangle of cells; a cell holding 0 is free, anything else is a
wall. Movement is 4-directional (right, left, down, up, in that order). The
model covers five pieces:

- **Shared base.** A `SearchResult` record with counters derived from its
  sequences. A tracked searcher class holds the grid and two telemetry
  sequences: the order in which cells are explored and a snapshot of the
  frontier at each step. It also offers the grid queries (`in_bounds`,
  `is_free`, `is_valid_move`, `get_neighbors`) and parent-pointer path
  reconstruction.
- **BFS and DFS.** A FIFO queue or a LIFO stack. Cells are marked visited when
  they are pushed. DFS pushes neighbours in reversed order, so the cell to the
  right is popped first.
- **A\*.** A `heapq` frontier of `(priority, counter, cell)` entries. Each cell
  keeps the best cost so far. Stale entries are skipped, and a cell is
  explored when it is popped. The priority is cost plus heuristic, and the
  default heuristic is the Manhattan distance.
- **Greedy best-first search.** The same A\* loop with the heuristic alone as
  the priority.
- **Maze generator.**
  - It draws up to 100 random grids, forces the two endpoints free, and
    returns the first grid in which BFS finds a path.
  - Otherwise it returns a built-in 10 x 15 maze, or an "L" corridor down
    column 0 and along the last row.

The modules follow the source files:

| module | models |
|---|---|
| `Utils` | `utils.py` |
| `Bfs` | `bfs.py` |
| `Dfs` | `dfs.py` |
| `AStar` | `astar.py` |
| `Gbfs` | `gbfs.py` |
| `Maze` | `maze.py` |
| `Paths` | no source file: the shared specification vocabulary |

`Paths` defines walks, reachability, shortest walks and parent trees. It also
defines the contract every search meets, `SearchContract`, which is two
predicates together:

- **`Telemetry`:**
  - the counters match the sequences they count;
  - no cell is explored twice;
  - exploration begins at `start`;
  - the first snapshot is `[start]`;
  - the goal is never explored before the last step;
  - on success the goal is the last cell explored.
- **`Outcome`:**
  - success holds exactly when the goal is reachable;
  - the path is then a repetition-free walk from start to goal;
  - on failure the explored cells are exactly the reachable ones;
  - when `start == goal` the path is `[start]`.

The searcher is a Dafny `class`. Its telemetry fields are updated in place,
and each search is an imperative method with loop invariants. These methods
are proved against ghost loop-state predicates and small lemmas, one per
transition. The maze generator works on `array2<int>` and is proved against
the pure predicate `GeneratedBy`.

Inputs that are not part of the model:

- **The random grids.** The generator receives the grids it would draw as a
  parameter, `draws`: 100 attempts plus one for the corridor.
- **The heuristic.** It is an integer-valued function parameter. For A\* and
  GBFS, `None` selects the Manhattan distance.
- **Missing endpoints.** A missing `start` or `goal` of the generator
  defaults as in the source.

The model also records where the code breaks its promise. `maze.py:2` and
`maze.py:32` promise a solvable maze for any call, but two branches ignore
custom endpoints:

- the 10 x 15 fallback maze is returned whatever endpoints were asked for;
- the corridor clears column 0 and the last row, whatever endpoints were
  asked for.

The program itself calls the generator with the default endpoints
(`code/main.py:216`), where both branches are solvable. Both cases are under
"## Findings", with the corrected generator `Maze.IntendedBy` beside
the one as written.

## Model

| member | source | states |
|---|---|---|
| Utils.InBounds | code/search_algorithms/utils.py:124-126 | True exactly when the row and column index an existing cell of the grid. |
| Utils.Dir | code/search_algorithms/utils.py:116-122 | Each cell one step away corresponds to exactly one of the four directions, and stepping that way from the origin gives the cell. A cell that is not adjacent has no direction. |
| Utils.DirOfStep | code/search_algorithms/utils.py:116-122 | The four directions lead to four distinct cells, so the direction of a step can be recovered from the cell it reaches. |
| Utils.ValidMoveIsFreshMove | code/search_algorithms/utils.py:132-136 | `is_valid_move` on the neighbour in direction d holds exactly when that neighbour is an in-bounds free cell not yet visited. |
| Utils.NewSearchResult | code/search_algorithms/utils.py:20-22 | Whatever counters the caller passes, the record's explored count equals the number of explored cells and its path length equals the number of path cells. Path, trace and success flag are kept as given. |
| Utils.TrackedGridSearch.constructor | code/search_algorithms/utils.py:180-182 | The searcher stores the grid with its row and column counts and starts with empty telemetry. |
| Utils.TrackedGridSearch.InitTracking | code/search_algorithms/utils.py:45-50 | Both telemetry sequences are emptied before a search. |
| Utils.TrackedGridSearch.RecordExplored | code/search_algorithms/utils.py:64-66 | Exactly one cell is appended to the explored order, and the frontier history is unchanged. |
| Utils.TrackedGridSearch.RecordFrontier | code/search_algorithms/utils.py:68-75 | Exactly one snapshot, equal to the frontier at that moment, is appended to the history, and the explored order is unchanged. |
| Utils.TrackedGridSearch.CreateResult | code/search_algorithms/utils.py:77-96 | The result carries the recorded telemetry, the given path and flag, and counters that agree with them. |
| Utils.TrackedGridSearch.GetNeighbors | code/search_algorithms/utils.py:152-159 | A cell is returned exactly when it is one move away (adjacent, in bounds, free). Each is returned once, at most four in all, in the order right, left, down, up. |
| Utils.TrackedGridSearch.ReconstructPath | code/search_algorithms/utils.py:138-150 | For an acyclic parent map containing the goal, the path starts at a root (a cell whose parent is None), ends at the goal, and has each cell's parent immediately before it. |
| Paths.TreeWalk | code/search_algorithms/utils.py:138-150 | Every cell of a search's parent tree is reachable from the start by a walk of depth + 1 cells. |
| Paths.ChainIsWalk | code/search_algorithms/utils.py:138-150 | A reconstructed parent chain in a parent tree is a walk from the start to the goal without repeated cells. |
| Paths.ClosedHoldsReachable | code/search_algorithms/bfs.py:68-70 | If a set of cells contains the start and is closed under moves, it contains every cell reachable from the start. This is why a search that fails has explored all reachable cells. |
| Paths.ChainOutcome | code/search_algorithms/bfs.py:54-57 | A successful result whose path is the parent chain to the goal has the outcome every search promises. |
| Paths.SuccessTelemetry | code/search_algorithms/bfs.py:50-57 | A search that stops on its first exploration of the goal, after a repetition-free exploration that began at the start, returns the telemetry every search promises. |
| Paths.SearchesAgree | code/search_algorithms/astar.py:13-14 | Any two results that meet the search contract for the same query agree on success. When the goal is unreachable both have empty paths, the same explored cells and the same explored count. |
| Bfs.FifoStepAppends | code/search_algorithms/bfs.py:59-66 | In one FIFO step the appended cells are exactly the moves from the popped head that were neither explored before nor waiting in the queue. |
| Bfs.UnvisitedAreFar | code/search_algorithms/bfs.py:10 | While BFS runs with the queue head at level d, every walk from the start to an unvisited cell has at least d + 1 steps. This is the core of shortestness. |
| Bfs.Succeed | code/search_algorithms/bfs.py:54-57 | Popping the goal yields a result that meets the search contract and the FIFO trace, and whose path is a shortest walk. |
| Bfs.Fail | code/search_algorithms/bfs.py:68-70 | An empty queue yields a failed result with an empty path. The explored cells are exactly the reachable ones and the goal is unreachable. |
| Bfs.PushNeighbours | code/search_algorithms/bfs.py:59-66 | Expanding the popped cell restores the loop invariant, and the set of unvisited in-bounds cells shrinks or the queue does. |
| Bfs.Search | code/search_algorithms/bfs.py:25-70 | The result meets the search contract. There is one repetition-free snapshot per explored cell, the first is `[start]`, and each explored cell heads its snapshot. Each snapshot is the previous queue without its head, followed in direction order by exactly the head's in-bounds, free neighbours that were neither explored nor waiting. A found path is a shortest walk. |
| Bfs.BfsSearch | code/search_algorithms/bfs.py:74-87 | As `Bfs.Search`, on a fresh searcher for the grid. |
| Dfs.LifoStepPushes | code/search_algorithms/dfs.py:60-67 | In one LIFO step the pushed cells are exactly the moves from the popped top that were neither explored before nor waiting on the stack. |
| Dfs.Succeed | code/search_algorithms/dfs.py:55-58 | Popping the goal yields a result that meets the search contract and the LIFO trace. |
| Dfs.Fail | code/search_algorithms/dfs.py:69-71 | An empty stack yields a failed result with an empty path, after exploring exactly the reachable cells. |
| Dfs.PushNeighbours | code/search_algorithms/dfs.py:60-67 | Expanding the popped cell in reversed direction order restores the loop invariant, and the set of unvisited in-bounds cells shrinks or the stack does. |
| Dfs.Search | code/search_algorithms/dfs.py:26-71 | The result meets the search contract. There is one repetition-free snapshot per explored cell, the first is `[start]`, and each explored cell is the top of its snapshot. Each snapshot is the previous stack without its top, followed in reversed direction order by exactly the top's in-bounds, free neighbours that were neither explored nor waiting. |
| Dfs.DfsSearch | code/search_algorithms/dfs.py:75-88 | As `Dfs.Search`, on a fresh searcher for the grid. |
| AStar.HeapPop | code/search_algorithms/astar.py:88 | The popped entry has the least (priority, counter) key in the frontier. |
| AStar.LeastIsUnique | code/search_algorithms/astar.py:119-122 | With distinct counters exactly one entry has the least key. Ties on priority go to the earliest push, so `heappop` is deterministic. |
| AStar.RunPopsDetermined | code/search_algorithms/astar.py:87-88 | In a recorded run, any least entry of a heap is the entry that iteration popped: the run leaves `heappop` no choice. |
| AStar.ManhattanDistance | code/search_algorithms/astar.py:40-43 | The distance is never negative and is zero exactly at the goal. |
| AStar.ManhattanConsistent | code/search_algorithms/astar.py:40-43 | The Manhattan distance changes by at most one across a move. It is therefore a consistent heuristic, which implies it is admissible. |
| AStar.PriorityIsCostPlus | code/search_algorithms/astar.py:46-55 | The A\* priority of a cell is its cost so far plus the heuristic, for every cost, cell and goal. |
| AStar.HeuristicAlongWalk | code/search_algorithms/astar.py:13-14 | Along any walk, a consistent heuristic drops by at most the number of remaining steps. |
| AStar.PopIsOptimal | code/search_algorithms/astar.py:87-95 | With a consistent heuristic, the cost of a freshly popped unvisited cell is no more than the length of any walk to it. |
| AStar.StalePop | code/search_algorithms/astar.py:90-92 | Dropping an entry whose cell is already visited keeps the loop invariant, with one more snapshot and no cell explored. |
| AStar.RunStale | code/search_algorithms/astar.py:90-92 | A stale pop extends the recorded run by the heap's snapshot, the heap without that entry and unchanged g-costs. |
| AStar.RunFresh | code/search_algorithms/astar.py:94-95 | A fresh pop extends the recorded run by the heap's snapshot, and the popped cell becomes the next explored one. |
| AStar.TreeRelax | code/search_algorithms/astar.py:117-120 | Re-parenting an unvisited neighbour under the expanded cell keeps a parent tree rooted at the start, with each cost one more than its parent's. |
| AStar.EntriesPush | code/search_algorithms/astar.py:117-122 | Pushing a cell with a strictly lower g-cost, its priority and the next counter keeps every entry's priority that of its push-time g-cost, no lower than the current one, with distinct counters. |
| AStar.LatestPush | code/search_algorithms/astar.py:117-122 | After the push every unvisited cell with a g-cost still has an entry carrying that g-cost. |
| AStar.CostsRelax | code/search_algorithms/astar.py:114-118 | Lowering the g-cost of an unvisited neighbour to one more than the expanded cell's completes that direction and raises no g-cost. |
| AStar.PushesCover | code/search_algorithms/astar.py:103-122 | The neighbour in each direction is pushed exactly when it is in bounds, free, not explored and improves on its g-cost. |
| AStar.PushesEntries | code/search_algorithms/astar.py:119-122 | Each pushed entry has the priority of g[u] + 1 for its cell, and the counters run c + 1, c + 2, ... in push order. |
| AStar.PushesExpansion | code/search_algorithms/astar.py:103-122 | The pushes of all four directions are an `Expansion`: exactly the improving neighbours in direction order, with their priorities and fresh increasing counters, and the g-costs lowered on exactly those cells. |
| AStar.ExpandedStep | code/search_algorithms/astar.py:104-122 | Each direction pushes its neighbour with g-cost g[u] + 1 exactly when that improves, and otherwise changes nothing. |
| AStar.ExpandedFrontier | code/search_algorithms/astar.py:119-122 | After the directions taken so far, the heap is the one the loop started with followed by the pushes of those directions. |
| AStar.ExpandedLowers | code/search_algorithms/astar.py:114-118 | After the directions taken so far, the g-costs are the starting ones lowered to g[u] + 1 on exactly the pushed cells. |
| AStar.PushNeighbours | code/search_algorithms/astar.py:103-122 | The heap, counter, g-costs and parents the neighbour loop leaves are the `Expanded` state of the four directions. |
| AStar.FinishExpand | code/search_algorithms/astar.py:103-122 | After the neighbour loop the loop invariant holds again, no g-cost rose, and the heap and g-costs are the starting ones plus the pushes and lowered on the pushed cells. |
| AStar.ExpandStep | code/search_algorithms/astar.py:94-122 | Exploring a fresh, non-goal least entry keeps the loop invariant, and the recorded run gains the pop, the new heap and the new g-costs. |
| AStar.Succeed | code/search_algorithms/astar.py:98-101 | Popping the goal yields a result that meets the search contract. With a consistent heuristic the path is a shortest walk. |
| AStar.Reached | code/search_algorithms/astar.py:97-101 | Popping the goal as the least entry yields a result that meets the search contract, and its recorded run ends with that pop. |
| AStar.Fail | code/search_algorithms/astar.py:124-126 | An empty heap yields a failed result with an empty path, after exploring exactly the reachable cells. |
| AStar.Pass | code/search_algorithms/astar.py:82-122 | One pass of the outer loop. It either returns a contract-meeting result whose run ends with the goal pop, or restores the loop invariant and extends the run. The next pass then has strictly fewer unvisited cells, or the same cells and a smaller heap. |
| AStar.Search | code/search_algorithms/astar.py:57-126 | The result meets the search contract and comes with a recorded heap run. Each snapshot lists the cells of its heap, and each pop is the least (priority, counter) entry. A fresh pop is the next explored cell; a stale pop explores nothing. Each next heap is the previous one minus the pop, plus the improving neighbours in direction order, with priority(g[u] + 1, cell, goal) and fresh increasing counters; the g-costs are lowered on exactly those cells. On failure one more, empty heap ends the run. With priority = cost + consistent heuristic, a found path is a shortest walk. |
| AStar.AStarSearch | code/search_algorithms/astar.py:130-144 | As `AStar.Search` with the priority g + h, where h is the given heuristic or Manhattan distance when none is given. A found path is shortest under the default heuristic and under any consistent one. |
| Gbfs.PriorityIgnoresCost | code/search_algorithms/gbfs.py:26-32 | The greedy priority is the heuristic value and does not depend on the cost so far. |
| Gbfs.GbfsSearch | code/search_algorithms/gbfs.py:36-50 | As `AStar.Search` with the greedy priority h, where h is the given heuristic or Manhattan distance when none is given. Each pop is the least-h entry, ties going to the earliest push. There is no claim of shortestness. |
| Gbfs.NeverShorterThanOptimal | code/search_algorithms/gbfs.py:15 | A greedy result and a shortest-path result for the same query agree on success, and the greedy path is never shorter. |
| Maze.HasValidPath | code/search_algorithms/maze.py:25-27 | True exactly when the goal is reachable from the start. |
| Maze.NewGrid | code/search_algorithms/maze.py:47 | A fresh rows x cols array holding the given grid. |
| Maze.ForceFree | code/search_algorithms/maze.py:48-49 | The array afterwards is the old one with the two endpoint cells set free. |
| Maze.ClearCorridor | code/search_algorithms/maze.py:64-67 | The array afterwards is the old one with column 0 and the last row set free, and nothing else changed. |
| Maze.GenerateMaze | code/search_algorithms/maze.py:30-68 | A missing start becomes (0, 0) and a missing goal (rows - 1, cols - 1). The returned fresh rows x cols array is the grid `GeneratedBy` describes for those endpoints: the first of the 100 candidates (draw with endpoints forced free) that is solvable; if none is, the 10 x 15 fallback maze or the corridor candidate. |
| Maze.FallbackSolvable | code/search_algorithms/maze.py:10-22 | The fallback maze is 10 x 15, its corners (0, 0) and (9, 14) are free, and (9, 14) is reachable from (0, 0). |
| Maze.CorridorSolvable | code/search_algorithms/maze.py:60-68 | In any grid with the corridor cleared, the default goal is reachable from the default start. |
| Maze.GeneratedShape | code/search_algorithms/maze.py:46-68 | On every branch the generated grid has the requested size. |
| Maze.GeneratedFreesEndpoints | code/search_algorithms/maze.py:48-49 | Both endpoints of the generated grid are free, except when the 10 x 15 fallback is returned for endpoints other than its own (0, 0) and (9, 14). The 10 x 15 call of the program is covered when a draw succeeds or the endpoints are the defaults. |
| Maze.GeneratedUnique | code/search_algorithms/maze.py:46-53 | The draws and endpoints determine the generated grid: exactly one branch applies, with exactly one candidate. |
| Maze.GeneratedSolvable | code/search_algorithms/maze.py:2 | With the default endpoints, the ones the program passes, the generated maze always has a path from start to goal. |
| Maze.FallbackIgnoresEndpoints | code/search_algorithms/maze.py:57-58 | For a 10 x 15 request with goal (0, 3) whose draws are all walls, the result is the fallback maze. That maze has no path to (0, 3). |
| Maze.CorridorIgnoresEndpoints | code/search_algorithms/maze.py:60-67 | For a 3 x 3 request with goal (0, 2) whose draws are all walls, the result is the corridor grid. It has no path from (0, 0) to (0, 2). |
| Maze.CarvedSolvable | code/search_algorithms/maze.py:60-67 | Setting free the L-shaped path from any start down or up its column to the goal's row, then along that row, makes the goal reachable. |
| Maze.IntendedSolvable | code/search_algorithms/maze.py:32 | The corrected generator, which returns the fallback only for its own endpoints and otherwise carves the L between the requested endpoints, returns a solvable maze for every pair of endpoints. |
| Maze.IntendedAtDefaults | code/search_algorithms/maze.py:43-68 | With the default endpoints the corrected generator and `generate_maze` return the same maze. |

## Left out

- Execution time is left out: `start_timer`, `stop_timer` and `execution_time` read the wall clock, and `SearchResult` has no time field.
- `print` calls, logging and visualisation are I/O and are not modelled.
- The random number generator and `wall_prob` are not modelled. The grids a run would draw are the `draws` parameter of `Maze.GenerateMaze`, and any non-zero entry counts as a wall.
- Maze.GenerateMaze: requires both endpoints inside the grid and `rows, cols > 0`. Negative numpy indices, which wrap around, and out-of-range indices, which raise `IndexError`, are not modelled.
- Maze.GeneratedSolvable: solvability is proved only for the default endpoints. For other endpoints the fallback and corridor branches can return an unsolvable maze (see "## Findings"); the corrected `Maze.IntendedSolvable` covers every pair of endpoints.
- Utils.TrackedGridSearch.ReconstructPath: requires an acyclic parent map containing the goal, as every search supplies. On other input the source loops forever or raises `KeyError`.
- Grids are required to be non-empty and rectangular (`ValidGrid`). The source reads `len(grid[0])`, and numpy arrays are rectangular.
- AStar.Search: the order of cells inside a frontier snapshot is not the order of `heapq`'s internal list. The model keeps the heap as a sequence in push order. Each snapshot holds the same entries. The popped entry is the same least-key entry, as `AStar.RunPopsDetermined` shows.
- AStar.AStarSearch: shortestness is proved for consistent heuristics (Manhattan is one). The source documents it for admissible heuristics. Because explored cells are never reopened, the proof uses consistency, and admissibility alone is not covered.
- Heuristics are modelled as integer-valued. Float-valued heuristics are not covered.
- AStar.CalculatePriority and Gbfs.CalculatePriority have no contract of their own. Their meaning is stated by `AStar.PriorityIsCostPlus` and `Gbfs.PriorityIgnoresCost`.
- Gbfs.NeverShorterThanOptimal: no particular grid is exhibited on which the greedy path is strictly longer. The source only says shortestness is not guaranteed.
- The visualiser, the package `__init__.py` and the command-line entry points are not part of this model.

## Findings

| source | as written | input that shows it | evidently intended | confidence | as-written member | corrected member |
|---|---|---|---|---|---|---|
| code/search_algorithms/maze.py:57-58 | After 100 failed draws a 10 x 15 request gets the fallback maze, whatever endpoints it asked for. | rows 10, cols 15, start (0, 0), goal (0, 3), every draw all walls: (0, 3) is a wall of the fallback maze. | The fallback only for the endpoints it was drawn for, (0, 0) and (9, 14); any other request gets a path carved between its own endpoints. | not executed | Maze.FallbackIgnoresEndpoints | Maze.IntendedSolvable |
| code/search_algorithms/maze.py:60-67 | The corridor clears column 0 and the last row, whatever endpoints were asked for. | rows 3, cols 3, start (0, 0), goal (0, 2), every draw all walls: the neighbours of (0, 2) stay walls. | Carve the L-shaped path between the requested endpoints, which for the defaults is the same corridor (`Maze.IntendedAtDefaults`). | not executed | Maze.CorridorIgnoresEndpoints | Maze.IntendedSolvable |
