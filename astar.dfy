/**
 * A* search with tracking: a priority queue of (f, counter, cell) entries,
 * g-cost relaxation, cells marked visited when popped, and stale entries
 * skipped. The loop is parametrised by the priority function, which is how
 * GBFS reuses it with its own `calculate_priority`.
 */
module AStar {
  import opened Utils
  import opened Paths

  /** A heap entry `(f_cost, counter, cell)`. */
  datatype Entry = Entry(f: int, counter: nat, cell: Cell)

  /** The heap order on entries: by f, then by counter (the cell is never compared). */
  predicate KeyLe(a: Entry, b: Entry) {
    a.f < b.f || (a.f == b.f && a.counter <= b.counter)
  }

  /** Entry `k` has a key no larger than any other entry's: the one `heapq.heappop` returns. */
  predicate IsLeast(frontier: seq<Entry>, k: nat) {
    k < |frontier| && forall i :: 0 <= i < |frontier| ==> KeyLe(frontier[k], frontier[i])
  }

  /** The index of the entry `heapq.heappop` removes: a least key, the first one found on a tie. */
  method HeapPop(frontier: seq<Entry>) returns (k: nat)
    requires |frontier| > 0
    ensures IsLeast(frontier, k)
  {
    k := 0;
    for i := 1 to |frontier|
      invariant k < i && forall j :: 0 <= j < i ==> KeyLe(frontier[k], frontier[j])
    {
      if !KeyLe(frontier[k], frontier[i]) {
        k := i;
      }
    }
  }

  /** No two entries share a counter. */
  predicate DistinctCounters(frontier: seq<Entry>) {
    forall i, j :: 0 <= i < j < |frontier| ==> frontier[i].counter != frontier[j].counter
  }

  /**
   * With distinct counters the least key is unique: the popped entry is the
   * only one of least f, or the earliest pushed among those of least f.
   */
  lemma LeastIsUnique(frontier: seq<Entry>, j: nat, k: nat)
    requires DistinctCounters(frontier) && IsLeast(frontier, j) && IsLeast(frontier, k)
    ensures j == k
  {
    assert KeyLe(frontier[j], frontier[k]) && KeyLe(frontier[k], frontier[j]);
    assert frontier[j].counter == frontier[k].counter;
  }

  /** The sequence without its `k`-th element. */
  function RemoveAt<T>(s: seq<T>, k: nat): (r: seq<T>)
    requires k < |s|
    ensures |r| == |s| - 1
    ensures forall i :: 0 <= i < |r| ==> r[i] == if i < k then s[i] else s[i + 1]
  {
    s[..k] + s[k + 1..]
  }

  /** `[item[2] for item in frontier]`: the cells of the entries. */
  function Cells(frontier: seq<Entry>): (cells: seq<Cell>)
    ensures |cells| == |frontier|
    ensures forall i :: 0 <= i < |frontier| ==> cells[i] == frontier[i].cell
  {
    seq(|frontier|, i requires 0 <= i < |frontier| => frontier[i].cell)
  }

  /** `manhattan_distance(cell, goal)`: zero exactly at the goal. */
  function ManhattanDistance(cell: Cell, goal: Cell): (d: int)
    ensures d >= 0 && (d == 0 <==> cell == goal)
  {
    Abs(cell.r - goal.r) + Abs(cell.c - goal.c)
  }

  /** `calculate_priority(g, cell, goal)` of A*: the cost so far plus the estimate. */
  function CalculatePriority(h: (Cell, Cell) -> int, g: nat, cell: Cell, goal: Cell): int {
    g + h(cell, goal)
  }

  /** The priority function an A* searcher with heuristic `h` hands to the loop. */
  function PriorityOf(h: (Cell, Cell) -> int): (nat, Cell, Cell) -> int {
    (g: nat, cell: Cell, goal: Cell) => CalculatePriority(h, g, cell, goal)
  }

  /** `priority` is g plus `h`. */
  ghost predicate IsCostPlus(priority: (nat, Cell, Cell) -> int, h: (Cell, Cell) -> int) {
    forall g: nat, cell, goal :: priority(g, cell, goal) == g + h(cell, goal)
  }

  /** Along one move towards the goal the estimate drops by at most the move's cost. */
  ghost predicate Consistent(grid: Grid, h: (Cell, Cell) -> int, goal: Cell)
    requires ValidGrid(grid)
  {
    forall a, b :: Move(grid, a, b) ==> h(a, goal) <= h(b, goal) + 1
  }

  lemma PriorityIsCostPlus(h: (Cell, Cell) -> int)
    ensures IsCostPlus(PriorityOf(h), h)
  {
    forall g: nat, cell, goal
      ensures PriorityOf(h)(g, cell, goal) == g + h(cell, goal)
    {
    }
  }

  /** Manhattan distance changes by exactly one between 4-adjacent cells. */
  lemma ManhattanConsistent(grid: Grid, goal: Cell)
    requires ValidGrid(grid)
    ensures Consistent(grid, ManhattanDistance, goal)
    ensures forall a, b :: Adjacent(a, b) ==>
      ManhattanDistance(a, goal) <= ManhattanDistance(b, goal) + 1 &&
      ManhattanDistance(b, goal) <= ManhattanDistance(a, goal) + 1
  {
    forall a, b | Move(grid, a, b)
      ensures ManhattanDistance(a, goal) <= ManhattanDistance(b, goal) + 1
    {
    }
  }

  /** Along a walk to `t`, a consistent estimate at step `j` exceeds that at `t` by at most the remaining steps. */
  lemma {:induction false} HeuristicAlongWalk(grid: Grid, h: (Cell, Cell) -> int, goal: Cell,
                                              w: seq<Cell>, s: Cell, t: Cell, j: nat)
    requires ValidGrid(grid) && Consistent(grid, h, goal) && IsWalk(grid, w, s, t) && j < |w|
    ensures h(w[j], goal) <= h(t, goal) + (|w| - 1 - j)
    decreases |w| - j
  {
    if j < |w| - 1 {
      assert Move(grid, w[j], w[j + 1]);
      HeuristicAlongWalk(grid, h, goal, w, s, t, j + 1);
    }
  }

  /**
   * What one search run fixes: the grid, the endpoints, the priority the
   * loop uses, and, for the optimality argument only, a heuristic and
   * whether the priority is g plus that heuristic with the heuristic consistent.
   */
  datatype Context = Context(grid: Grid, start: Cell, goal: Cell,
                             priority: (nat, Cell, Cell) -> int, h: (Cell, Cell) -> int, optimal: bool)

  ghost predicate WellFormed(ctx: Context) {
    ValidGrid(ctx.grid) &&
    (ctx.optimal ==> IsCostPlus(ctx.priority, ctx.h) && Consistent(ctx.grid, ctx.h, ctx.goal))
  }

  /** The cells a heap entry can name: the start, or an in-bounds neighbour. */
  function Universe(ctx: Context): set<Cell>
    requires ValidGrid(ctx.grid)
  {
    AllCells(ctx.grid) + {ctx.start}
  }

  /**
   * The parent map is a tree rooted at the start whose depths are the
   * g-costs; every parent is a visited cell, so visited cells are never re-parented.
   */
  ghost predicate Tree(ctx: Context, parent: map<Cell, Option<Cell>>, gCost: map<Cell, nat>, visited: set<Cell>)
    requires ValidGrid(ctx.grid)
  {
    && ParentTree(ctx.grid, ctx.start, parent, gCost)
    && parent.Keys == gCost.Keys && visited <= gCost.Keys
    && (forall c {:trigger parent[c]} :: c in parent && c != ctx.start ==> parent[c].Some? && parent[c].value in visited)
  }

  /**
   * Each entry was pushed with a g-cost `gs[i]` no lower than the cell's
   * current one and carries the priority of that g-cost; counters are
   * distinct and none exceeds `counter`.
   */
  ghost predicate Entries(ctx: Context, frontier: seq<Entry>, gs: seq<nat>, counter: nat, gCost: map<Cell, nat>)
    requires ValidGrid(ctx.grid)
  {
    && |gs| == |frontier|
    && (forall i :: 0 <= i < |frontier| ==>
          && frontier[i].cell in gCost && gCost[frontier[i].cell] <= gs[i]
          && frontier[i].f == ctx.priority(gs[i], frontier[i].cell, ctx.goal)
          && frontier[i].counter <= counter
          && (InBounds(ctx.grid, frontier[i].cell.r, frontier[i].cell.c) || frontier[i].cell == ctx.start))
    && DistinctCounters(frontier)
  }

  /** Every cell with a g-cost that is not yet visited has an entry pushed with its current g-cost. */
  ghost predicate Latest(frontier: seq<Entry>, gs: seq<nat>, gCost: map<Cell, nat>, visited: set<Cell>) {
    |gs| == |frontier| &&
    forall c :: c in gCost && c !in visited ==>
      exists i :: 0 <= i < |frontier| && frontier[i].cell == c && gs[i] == gCost[c]
  }

  /** Every unvisited neighbour `n` of a visited cell `v` has a g-cost of at most `g[v] + 1`. */
  ghost predicate Relaxed(grid: Grid, visited: set<Cell>, gCost: map<Cell, nat>)
    requires ValidGrid(grid)
  {
    forall v, n :: v in visited && Move(grid, v, n) && n !in visited ==>
      v in gCost && n in gCost && gCost[n] <= gCost[v] + 1
  }

  ghost predicate RelaxedExcept(grid: Grid, visited: set<Cell>, gCost: map<Cell, nat>, u: Cell)
    requires ValidGrid(grid)
  {
    forall v, n :: v in visited && v != u && Move(grid, v, n) && n !in visited ==>
      v in gCost && n in gCost && gCost[n] <= gCost[v] + 1
  }

  /** The unvisited neighbours of `u` in the directions below `d` have been relaxed. */
  ghost predicate RelaxedDirs(grid: Grid, u: Cell, d: nat, visited: set<Cell>, gCost: map<Cell, nat>)
    requires ValidGrid(grid)
  {
    u in gCost &&
    forall e :: 0 <= e < d && e < |Directions| && Move(grid, u, Step(u, e)) && Step(u, e) !in visited ==>
      Step(u, e) in gCost && gCost[Step(u, e)] <= gCost[u] + 1
  }

  /** Visited cells carry their true distance: no walk reaches them in fewer steps. */
  ghost predicate Settled(grid: Grid, start: Cell, visited: set<Cell>, gCost: map<Cell, nat>)
    requires ValidGrid(grid)
  {
    forall v, w :: v in visited && IsWalk(grid, w, start, v) ==> v in gCost && gCost[v] <= |w| - 1
  }

  /** g-costs only go down, and a cell once given a g-cost keeps one. */
  ghost predicate NoHigher(gCost: map<Cell, nat>, gCost0: map<Cell, nat>) {
    gCost0.Keys <= gCost.Keys && forall c :: c in gCost0 ==> gCost[c] <= gCost0[c]
  }

  /**
   * A* telemetry: at least as many snapshots as explored cells (a stale pop
   * records a snapshot but no cell), no snapshot empty, and the first
   * snapshot and the first explored cell are the start.
   */
  ghost predicate HeapTrace(start: Cell, order: seq<Cell>, history: seq<seq<Cell>>) {
    && |history| >= |order|
    && (forall i :: 0 <= i < |history| ==> history[i] != [])
    && (history != [] ==> history[0] == [start] && order != [] && order[0] == start)
  }

  /**
   * Relaxing `n` from the explored `u` is an improvement: `n` is a free
   * in-bounds neighbour, not yet explored, with no g-cost or a higher one
   * than `g[u] + 1`.
   */
  ghost predicate Improves(grid: Grid, u: Cell, n: Cell, explored: seq<Cell>, g0: map<Cell, nat>)
    requires ValidGrid(grid) && u in g0
  {
    Move(grid, u, n) && n !in explored && (n !in g0 || g0[u] + 1 < g0[n])
  }

  /** `g0` with each cell of `cells` given the g-cost `g`. */
  function Lowered(g0: map<Cell, nat>, cells: seq<Cell>, g: nat): map<Cell, nat>
    decreases |cells|
  {
    if cells == [] then g0 else Lowered(g0, cells[..|cells| - 1], g)[cells[|cells| - 1] := g]
  }

  /**
   * The entries pushed while `u` is expanded, from the heap `h0` and
   * g-costs `g0`: exactly the improving neighbours, in direction order, each
   * with the priority of `g[u] + 1` and a counter above every counter in
   * `h0`, increasing in push order; the g-costs become `g1`.
   */
  ghost predicate Expansion(grid: Grid, goal: Cell, priority: (nat, Cell, Cell) -> int, u: Cell, explored: seq<Cell>,
                            h0: seq<Entry>, g0: map<Cell, nat>, pushed: seq<Entry>, g1: map<Cell, nat>)
    requires ValidGrid(grid)
  {
    && u in g0
    && InDirectionOrder(u, Cells(pushed))
    && (forall e :: 0 <= e < |Directions| ==>
          (Step(u, e) in Cells(pushed) <==> Improves(grid, u, Step(u, e), explored, g0)))
    && (forall j :: 0 <= j < |pushed| ==> pushed[j].f == priority(g0[u] + 1, pushed[j].cell, goal))
    && (forall i, j :: 0 <= i < |h0| && 0 <= j < |pushed| ==> h0[i].counter < pushed[j].counter)
    && (forall j :: 0 < j < |pushed| ==> pushed[j - 1].counter < pushed[j].counter)
    && g1 == Lowered(g0, Cells(pushed), g0[u] + 1)
  }

  /**
   * One iteration from heap `h0` and g-costs `g0`, with the cells `seen`
   * explored so far: entry `k` is removed; a stale pop changes nothing
   * else, a fresh one appends the entries of its `Expansion`.
   */
  ghost predicate HeapStep(grid: Grid, goal: Cell, priority: (nat, Cell, Cell) -> int, seen: seq<Cell>,
                           h0: seq<Entry>, g0: map<Cell, nat>, k: nat, h1: seq<Entry>, g1: map<Cell, nat>)
    requires ValidGrid(grid)
  {
    && k < |h0| && |h1| >= |h0| - 1 && h1[..|h0| - 1] == RemoveAt(h0, k)
    && (h0[k].cell in seen ==> |h1| == |h0| - 1 && g1 == g0)
    && (h0[k].cell !in seen ==>
          Expansion(grid, goal, priority, h0[k].cell, seen + [h0[k].cell], h0, g0, h1[|h0| - 1..], g1))
  }

  /**
   * The snapshot of heap `h` is its cells, and the entry popped is the least
   * key; unless its cell was among the first `m0` explored it becomes the
   * next explored one.
   */
  ghost predicate PopAt(order: seq<Cell>, snapshot: seq<Cell>, h: seq<Entry>, k: nat, m0: nat, m1: nat)
    requires m0 <= |order|
  {
    && snapshot == Cells(h) && IsLeast(h, k) && DistinctCounters(h)
    && (h[k].cell in order[..m0] ==> m1 == m0)
    && (h[k].cell !in order[..m0] ==> m1 == m0 + 1 && m0 < |order| && order[m0] == h[k].cell)
  }

  /**
   * The heaps and g-cost maps at the head of each iteration, as the recorded
   * telemetry says: `heaps[i]` is snapshot `i`, iteration `i` pops entry
   * `pops[i]` after `marks[i]` cells were explored, and each heap follows
   * from the one before by a `HeapStep`. When the loop ran dry, one more heap
   * follows the last snapshot, and it is empty.
   */
  ghost predicate HeapRun(grid: Grid, start: Cell, goal: Cell, priority: (nat, Cell, Cell) -> int,
                          order: seq<Cell>, history: seq<seq<Cell>>, heaps: seq<seq<Entry>>, pops: seq<nat>,
                          costs: seq<map<Cell, nat>>, marks: seq<nat>)
    requires ValidGrid(grid)
  {
    && |pops| == |history| && |marks| == |history| + 1 && |costs| == |heaps|
    && 0 < |heaps| && |history| <= |heaps| <= |history| + 1
    && heaps[0] == [Entry(priority(0, start, goal), 0, start)] && costs[0] == map[start := 0]
    && marks[0] == 0 && marks[|history|] == |order|
    && (forall i :: 0 <= i <= |history| ==> marks[i] <= |order|)
    && (forall i {:trigger PopAt(order, history[i], heaps[i], pops[i], marks[i], marks[i + 1])} ::
          0 <= i < |history| ==> PopAt(order, history[i], heaps[i], pops[i], marks[i], marks[i + 1]))
    && (forall i {:trigger HeapStep(grid, goal, priority, order[..marks[i]], heaps[i], costs[i], pops[i], heaps[i + 1], costs[i + 1])} ::
          0 <= i < |heaps| - 1 ==>
            HeapStep(grid, goal, priority, order[..marks[i]], heaps[i], costs[i], pops[i], heaps[i + 1], costs[i + 1]))
  }

  /** At the loop head: the run so far, ending in the current heap and g-costs. */
  ghost predicate Head(ctx: Context, order: seq<Cell>, history: seq<seq<Cell>>, heaps: seq<seq<Entry>>,
                       pops: seq<nat>, costs: seq<map<Cell, nat>>, marks: seq<nat>,
                       frontier: seq<Entry>, gCost: map<Cell, nat>)
    requires ValidGrid(ctx.grid)
  {
    && HeapRun(ctx.grid, ctx.start, ctx.goal, ctx.priority, order, history, heaps, pops, costs, marks)
    && |heaps| == |history| + 1 && heaps[|heaps| - 1] == frontier && costs[|costs| - 1] == gCost
  }

  /** Each cell of `cells` lies in a later direction from `u` than the one before it. */
  ghost predicate Ascending(u: Cell, cells: seq<Cell>) {
    forall j :: 0 < j < |cells| ==> Dir(u, cells[j - 1]) < Dir(u, cells[j])
  }

  /**
   * The entries the expansion of `u` pushes for the directions below `d`,
   * from the g-costs `g0` and the counter `c0`: each improving neighbour in
   * direction order, with the priority of `g0[u] + 1` and the next counter.
   */
  ghost function Pushes(grid: Grid, goal: Cell, priority: (nat, Cell, Cell) -> int, u: Cell, explored: seq<Cell>,
                        g0: map<Cell, nat>, c0: nat, d: nat): seq<Entry>
    requires ValidGrid(grid) && u in g0 && d <= |Directions|
    decreases d
  {
    if d == 0 then []
    else
      var p := Pushes(grid, goal, priority, u, explored, g0, c0, d - 1);
      var n := Step(u, d - 1);
      if Improves(grid, u, n, explored, g0) then p + [Entry(priority(g0[u] + 1, n, goal), c0 + |p| + 1, n)] else p
  }

  /** Before the first iteration the state is the initial one; afterwards the start is visited. */
  ghost predicate Begun(ctx: Context, frontier: seq<Entry>, gs: seq<nat>, counter: nat, gCost: map<Cell, nat>,
                        visited: set<Cell>, parent: map<Cell, Option<Cell>>, order: seq<Cell>, history: seq<seq<Cell>>)
  {
    && (history == [] ==>
          && frontier == [Entry(ctx.priority(0, ctx.start, ctx.goal), 0, ctx.start)] && gs == [0]
          && visited == {} && order == [] && gCost == map[ctx.start := 0] && parent == map[ctx.start := None])
    && (history != [] ==> ctx.start in visited)
  }

  /** The state at the head of the A* loop. */
  ghost predicate LoopInv(ctx: Context, frontier: seq<Entry>, gs: seq<nat>, counter: nat, gCost: map<Cell, nat>,
                          visited: set<Cell>, parent: map<Cell, Option<Cell>>,
                          order: seq<Cell>, history: seq<seq<Cell>>)
    requires ValidGrid(ctx.grid)
  {
    && Tree(ctx, parent, gCost, visited)
    && Entries(ctx, frontier, gs, counter, gCost)
    && Latest(frontier, gs, gCost, visited)
    && (forall c :: c in visited <==> c in order) && Distinct(order)
    && ctx.goal !in visited
    && Relaxed(ctx.grid, visited, gCost)
    && (ctx.optimal ==> Settled(ctx.grid, ctx.start, visited, gCost))
    && HeapTrace(ctx.start, order, history)
    && Begun(ctx, frontier, gs, counter, gCost, visited, parent, order, history)
  }

  /** The heap and the parent tree with the g-costs they are built on. */
  ghost predicate Queue(ctx: Context, frontier: seq<Entry>, gs: seq<nat>, counter: nat,
                        gCost: map<Cell, nat>, visited: set<Cell>, parent: map<Cell, Option<Cell>>)
    requires ValidGrid(ctx.grid)
  {
    && Tree(ctx, parent, gCost, visited)
    && Entries(ctx, frontier, gs, counter, gCost)
    && Latest(frontier, gs, gCost, visited)
  }

  /** The g-cost bounds while `u` is expanded: the directions of `u` below `d` are done. */
  ghost predicate Costs(ctx: Context, u: Cell, d: nat, gCost: map<Cell, nat>, visited: set<Cell>)
    requires ValidGrid(ctx.grid)
  {
    && RelaxedExcept(ctx.grid, visited, gCost, u)
    && RelaxedDirs(ctx.grid, u, d, visited, gCost)
    && (ctx.optimal ==> Settled(ctx.grid, ctx.start, visited, gCost))
  }

  /** What stays fixed while `u` is expanded: the explored cells and the telemetry. */
  ghost predicate Frame(ctx: Context, u: Cell, visited: set<Cell>, order: seq<Cell>, history: seq<seq<Cell>>) {
    && (forall c :: c in visited <==> c in order) && Distinct(order)
    && ctx.goal !in visited && ctx.start in visited && u in visited
    && HeapTrace(ctx.start, order, history)
  }

  /** The state while the neighbours of the explored cell `u` are relaxed: directions below `d` are done. */
  ghost predicate ExpandInv(ctx: Context, u: Cell, d: nat, frontier: seq<Entry>, gs: seq<nat>, counter: nat,
                            gCost: map<Cell, nat>, visited: set<Cell>, parent: map<Cell, Option<Cell>>,
                            order: seq<Cell>, history: seq<seq<Cell>>)
    requires ValidGrid(ctx.grid)
  {
    && d <= |Directions|
    && Queue(ctx, frontier, gs, counter, gCost, visited, parent)
    && Costs(ctx, u, d, gCost, visited)
    && Frame(ctx, u, visited, order, history)
  }

  lemma Start(ctx: Context)
    requires WellFormed(ctx)
    ensures LoopInv(ctx, [Entry(ctx.priority(0, ctx.start, ctx.goal), 0, ctx.start)], [0], 0,
                    map[ctx.start := 0], {}, map[ctx.start := None], [], [])
  {
    var frontier := [Entry(ctx.priority(0, ctx.start, ctx.goal), 0, ctx.start)];
    assert frontier[0].cell == ctx.start;
  }

  /**
   * The heart of the optimality argument. Take any walk to the popped cell
   * `u`; its first unvisited cell `x` has, through its visited predecessor, a
   * g-cost within the walk's prefix length, and an entry with that g-cost.
   * The popped key is no larger than that entry's, and consistency carries
   * the estimate from `x` to `u` along the rest of the walk.
   */
  lemma PopIsOptimal(ctx: Context, frontier: seq<Entry>, gs: seq<nat>, counter: nat, gCost: map<Cell, nat>,
                     visited: set<Cell>, k: nat)
    requires WellFormed(ctx) && ctx.optimal
    requires Entries(ctx, frontier, gs, counter, gCost) && Latest(frontier, gs, gCost, visited)
    requires Relaxed(ctx.grid, visited, gCost) && Settled(ctx.grid, ctx.start, visited, gCost)
    requires ctx.start in visited
    requires IsLeast(frontier, k)
    requires frontier[k].cell !in visited
    ensures forall w :: IsWalk(ctx.grid, w, ctx.start, frontier[k].cell) ==> gCost[frontier[k].cell] <= |w| - 1
  {
    var grid, u := ctx.grid, frontier[k].cell;
    forall w | IsWalk(grid, w, ctx.start, u)
      ensures gCost[u] <= |w| - 1
    {
      var j := FirstExit(grid, w, ctx.start, u, visited);
      var x := w[j];
      assert Move(grid, w[j - 1], x);
      WalkPrefix(grid, w, ctx.start, u, j);
      assert gCost[w[j - 1]] <= j - 1;
      assert gCost[x] <= j;
      var i :| 0 <= i < |frontier| && frontier[i].cell == x && gs[i] == gCost[x];
      HeuristicAlongWalk(grid, ctx.h, ctx.goal, w, ctx.start, u, j);
      assert frontier[i].f == gCost[x] + ctx.h(x, ctx.goal);
      assert frontier[k].f == gs[k] + ctx.h(u, ctx.goal);
    }
  }

  lemma EntriesRemove(ctx: Context, frontier: seq<Entry>, gs: seq<nat>, counter: nat, gCost: map<Cell, nat>, k: nat)
    requires ValidGrid(ctx.grid) && Entries(ctx, frontier, gs, counter, gCost) && k < |frontier|
    ensures Entries(ctx, RemoveAt(frontier, k), RemoveAt(gs, k), counter, gCost)
  {
    var F := RemoveAt(frontier, k);
    forall i, j | 0 <= i < j < |F|
      ensures F[i].counter != F[j].counter
    {
      var i', j' := if i < k then i else i + 1, if j < k then j else j + 1;
      assert F[i] == frontier[i'] && F[j] == frontier[j'];
    }
  }

  /** Removing an entry whose cell is visited (or now becomes visited) keeps a witness for every other cell. */
  lemma LatestRemove(frontier: seq<Entry>, gs: seq<nat>, gCost: map<Cell, nat>, visited: set<Cell>, k: nat)
    requires Latest(frontier, gs, gCost, visited) && k < |frontier|
    ensures Latest(RemoveAt(frontier, k), RemoveAt(gs, k), gCost, visited + {frontier[k].cell})
  {
    var F, G := RemoveAt(frontier, k), RemoveAt(gs, k);
    forall c | c in gCost && c !in visited + {frontier[k].cell}
      ensures exists i :: 0 <= i < |F| && F[i].cell == c && G[i] == gCost[c]
    {
      var i :| 0 <= i < |frontier| && frontier[i].cell == c && gs[i] == gCost[c];
      var i' := if i < k then i else i - 1;
      assert F[i'] == frontier[i] && G[i'] == gs[i];
    }
  }

  lemma TraceExtend(start: Cell, order: seq<Cell>, history: seq<seq<Cell>>, snapshot: seq<Cell>, u: Cell,
                    explored: bool)
    requires HeapTrace(start, order, history) && snapshot != []
    requires history == [] ==> snapshot == [start] && u == start && explored
    ensures HeapTrace(start, if explored then order + [u] else order, history + [snapshot])
  {
  }

  /** The first snapshot of A* is `[start]`. */
  lemma FirstSnapshot(ctx: Context)
    ensures Cells([Entry(ctx.priority(0, ctx.start, ctx.goal), 0, ctx.start)]) == [ctx.start]
  {
  }

  /** A popped entry whose cell is already visited is dropped; only a snapshot is recorded. */
  lemma StalePop(ctx: Context, frontier: seq<Entry>, gs: seq<nat>, counter: nat, gCost: map<Cell, nat>,
                 visited: set<Cell>, parent: map<Cell, Option<Cell>>, order: seq<Cell>, history: seq<seq<Cell>>, k: nat)
    requires WellFormed(ctx) && LoopInv(ctx, frontier, gs, counter, gCost, visited, parent, order, history)
    requires k < |frontier| && frontier[k].cell in visited
    ensures LoopInv(ctx, RemoveAt(frontier, k), RemoveAt(gs, k), counter, gCost, visited, parent, order,
                    history + [Cells(frontier)])
  {
    EntriesRemove(ctx, frontier, gs, counter, gCost, k);
    LatestRemove(frontier, gs, gCost, visited, k);
    assert visited + {frontier[k].cell} == visited;
    TraceExtend(ctx.start, order, history, Cells(frontier), frontier[k].cell, false);
  }

  /** The popped cell `u` is not visited: once marked, its g-cost is final. */
  lemma PopSettled(ctx: Context, frontier: seq<Entry>, gs: seq<nat>, counter: nat, gCost: map<Cell, nat>,
                   visited: set<Cell>, parent: map<Cell, Option<Cell>>, order: seq<Cell>, history: seq<seq<Cell>>,
                   k: nat)
    requires WellFormed(ctx) && LoopInv(ctx, frontier, gs, counter, gCost, visited, parent, order, history)
    requires IsLeast(frontier, k) && frontier[k].cell !in visited
    ensures ctx.optimal ==> Settled(ctx.grid, ctx.start, visited + {frontier[k].cell}, gCost)
  {
    if ctx.optimal && history != [] {
      PopIsOptimal(ctx, frontier, gs, counter, gCost, visited, k);
    }
  }

  /** Marking the popped cell `u`: the explored cells and the telemetry grow by it. */
  lemma PopTrace(ctx: Context, frontier: seq<Entry>, gs: seq<nat>, counter: nat, gCost: map<Cell, nat>,
                 visited: set<Cell>, parent: map<Cell, Option<Cell>>, order: seq<Cell>, history: seq<seq<Cell>>, k: nat)
    requires WellFormed(ctx) && LoopInv(ctx, frontier, gs, counter, gCost, visited, parent, order, history)
    requires IsLeast(frontier, k) && frontier[k].cell !in visited
    ensures HeapTrace(ctx.start, order + [frontier[k].cell], history + [Cells(frontier)])
    ensures ctx.start in visited + {frontier[k].cell}
    ensures Distinct(order + [frontier[k].cell])
    ensures forall c :: c in visited + {frontier[k].cell} <==> c in order + [frontier[k].cell]
  {
    if history == [] {
      FirstSnapshot(ctx);
    }
    TraceExtend(ctx.start, order, history, Cells(frontier), frontier[k].cell, true);
  }

  /** Popping `u` (not the goal) and recording it as explored starts its expansion. */
  lemma BeginExpand(ctx: Context, frontier: seq<Entry>, gs: seq<nat>, counter: nat, gCost: map<Cell, nat>,
                    visited: set<Cell>, parent: map<Cell, Option<Cell>>, order: seq<Cell>, history: seq<seq<Cell>>,
                    k: nat)
    requires WellFormed(ctx) && LoopInv(ctx, frontier, gs, counter, gCost, visited, parent, order, history)
    requires IsLeast(frontier, k) && frontier[k].cell !in visited && frontier[k].cell != ctx.goal
    ensures ExpandInv(ctx, frontier[k].cell, 0, RemoveAt(frontier, k), RemoveAt(gs, k), counter, gCost,
                      visited + {frontier[k].cell}, parent, order + [frontier[k].cell], history + [Cells(frontier)])
  {
    PopSettled(ctx, frontier, gs, counter, gCost, visited, parent, order, history, k);
    PopTrace(ctx, frontier, gs, counter, gCost, visited, parent, order, history, k);
    EntriesRemove(ctx, frontier, gs, counter, gCost, k);
    LatestRemove(frontier, gs, gCost, visited, k);
  }

  /**
   * The state once the goal is popped: the tree to read the path from, the
   * telemetry with the goal as last explored cell, and (for an optimal
   * priority) the goal's g-cost bounded by every walk to it.
   */
  ghost predicate GoalPopped(ctx: Context, gCost: map<Cell, nat>, parent: map<Cell, Option<Cell>>,
                             order: seq<Cell>, history: seq<seq<Cell>>, snapshot: seq<Cell>)
    requires ValidGrid(ctx.grid)
  {
    && ParentTree(ctx.grid, ctx.start, parent, gCost) && ctx.goal in parent
    && HeapTrace(ctx.start, order + [ctx.goal], history + [snapshot])
    && Distinct(order + [ctx.goal]) && ctx.goal !in order
    && (ctx.optimal ==> forall w :: IsWalk(ctx.grid, w, ctx.start, ctx.goal) ==> gCost[ctx.goal] <= |w| - 1)
    && (ctx.start == ctx.goal ==> order == [] && history == [] && snapshot == [ctx.start])
  }

  /** Popping the goal: what the result is built from. */
  lemma PopGoal(ctx: Context, frontier: seq<Entry>, gs: seq<nat>, counter: nat, gCost: map<Cell, nat>,
                visited: set<Cell>, parent: map<Cell, Option<Cell>>, order: seq<Cell>, history: seq<seq<Cell>>,
                k: nat)
    requires WellFormed(ctx) && LoopInv(ctx, frontier, gs, counter, gCost, visited, parent, order, history)
    requires IsLeast(frontier, k) && frontier[k].cell == ctx.goal && ctx.goal !in visited
    ensures GoalPopped(ctx, gCost, parent, order, history, Cells(frontier))
  {
    PopSettled(ctx, frontier, gs, counter, gCost, visited, parent, order, history, k);
    PopTrace(ctx, frontier, gs, counter, gCost, visited, parent, order, history, k);
    if ctx.start == ctx.goal {
      assert history == [];
      FirstSnapshot(ctx);
    }
  }

  /** The reconstructed path and the telemetry meet the contract. */
  lemma Succeed(ctx: Context, gCost: map<Cell, nat>, parent: map<Cell, Option<Cell>>,
                order: seq<Cell>, history: seq<seq<Cell>>, snapshot: seq<Cell>, r: SearchResult)
    requires ValidGrid(ctx.grid) && GoalPopped(ctx, gCost, parent, order, history, snapshot)
    requires ParentChain(parent, gCost, r.path, ctx.goal)
    requires r.CountsAgree() && r.success
    requires r.visitedOrder == order + [ctx.goal] && r.frontierHistory == history + [snapshot]
    ensures SearchContract(ctx.grid, ctx.start, ctx.goal, r)
    ensures HeapTrace(ctx.start, r.visitedOrder, r.frontierHistory)
    ensures ctx.optimal ==> Shortest(ctx.grid, r.path, ctx.start, ctx.goal)
  {
    ChainOutcome(ctx.grid, ctx.start, ctx.goal, parent, gCost, r);
    assert forall i :: 0 <= i < |order| ==> r.visitedOrder[i] == order[i];
  }

  /**
   * The pass of the outer loop of `search` that pops the goal, not yet
   * visited, from the least entry: the result built from the parent chain
   * meets the contract, and the recorded run ends with that pop.
   */
  lemma Reached(ctx: Context, frontier: seq<Entry>, gs: seq<nat>, counter: nat, gCost: map<Cell, nat>,
                visited: set<Cell>, parent: map<Cell, Option<Cell>>, order: seq<Cell>, history: seq<seq<Cell>>,
                heaps: seq<seq<Entry>>, pops: seq<nat>, costs: seq<map<Cell, nat>>, marks: seq<nat>,
                k: nat, r: SearchResult)
    requires WellFormed(ctx) && LoopInv(ctx, frontier, gs, counter, gCost, visited, parent, order, history)
    requires Head(ctx, order, history, heaps, pops, costs, marks, frontier, gCost)
    requires IsLeast(frontier, k) && frontier[k].cell == ctx.goal
    requires ParentChain(parent, gCost, r.path, ctx.goal) && r.CountsAgree() && r.success
    requires r.visitedOrder == order + [ctx.goal] && r.frontierHistory == history + [Cells(frontier)]
    ensures SearchContract(ctx.grid, ctx.start, ctx.goal, r)
    ensures HeapTrace(ctx.start, r.visitedOrder, r.frontierHistory)
    ensures HeapRun(ctx.grid, ctx.start, ctx.goal, ctx.priority, r.visitedOrder, r.frontierHistory,
                    heaps, pops + [k], costs, marks + [|order| + 1])
    ensures |heaps| == |r.frontierHistory|
    ensures ctx.optimal ==> Shortest(ctx.grid, r.path, ctx.start, ctx.goal)
  {
    RunFresh(ctx, order, history, heaps, pops, costs, marks, frontier, gCost, k);
    PopGoal(ctx, frontier, gs, counter, gCost, visited, parent, order, history, k);
    Succeed(ctx, gCost, parent, order, history, Cells(frontier), r);
  }

  /** The heap ran out: no cell is left with a g-cost but unvisited, so the visited cells are closed under moves. */
  lemma Fail(ctx: Context, gCost: map<Cell, nat>, visited: set<Cell>, parent: map<Cell, Option<Cell>>,
             gs: seq<nat>, counter: nat, order: seq<Cell>, history: seq<seq<Cell>>, r: SearchResult)
    requires WellFormed(ctx) && LoopInv(ctx, [], gs, counter, gCost, visited, parent, order, history)
    requires r.CountsAgree() && !r.success && r.path == []
    requires r.visitedOrder == order && r.frontierHistory == history
    ensures SearchContract(ctx.grid, ctx.start, ctx.goal, r)
    ensures HeapTrace(ctx.start, r.visitedOrder, r.frontierHistory)
  {
    var grid, start := ctx.grid, ctx.start;
    assert history != [];
    assert gCost.Keys == visited by {
      forall c | c in gCost
        ensures c in visited
      {
      }
    }
    assert Closed(grid, visited);
    forall c | Reachable(grid, start, c)
      ensures c in order
    {
      ClosedHoldsReachable(grid, start, visited, c);
    }
    forall c | c in order
      ensures Reachable(grid, start, c)
    {
      var w := TreeWalk(grid, start, parent, gCost, c);
    }
  }

  /** Giving `n` (unvisited, next to the explored `u`) the g-cost `g[u] + 1` and parent `u`. */
  lemma TreeRelax(ctx: Context, parent: map<Cell, Option<Cell>>, gCost: map<Cell, nat>, visited: set<Cell>,
                  u: Cell, n: Cell, parent': map<Cell, Option<Cell>>, gCost': map<Cell, nat>)
    requires ValidGrid(ctx.grid) && Tree(ctx, parent, gCost, visited)
    requires u in visited && ctx.start in visited && Move(ctx.grid, u, n) && n !in visited
    requires parent' == parent[n := Some(u)] && gCost' == gCost[n := gCost[u] + 1]
    ensures Tree(ctx, parent', gCost', visited)
  {
    NotAParent(ctx, parent, gCost, visited, n);
    ParentTreeReparent(ctx.grid, ctx.start, parent, gCost, u, n);
  }

  /** Parents are visited cells, so an unvisited cell is nobody's parent. */
  lemma NotAParent(ctx: Context, parent: map<Cell, Option<Cell>>, gCost: map<Cell, nat>, visited: set<Cell>, n: Cell)
    requires ValidGrid(ctx.grid) && Tree(ctx, parent, gCost, visited) && n !in visited
    ensures forall c :: c in parent ==> parent[c] != Some(n)
  {
    forall c | c in parent
      ensures parent[c] != Some(n)
    {
      if c != ctx.start {
        assert parent[c].value in visited;
      }
    }
  }

  lemma EntriesPush(ctx: Context, frontier: seq<Entry>, gs: seq<nat>, counter: nat, gCost: map<Cell, nat>,
                    n: Cell, g: nat)
    requires ValidGrid(ctx.grid) && Entries(ctx, frontier, gs, counter, gCost)
    requires n in gCost ==> g < gCost[n]
    requires InBounds(ctx.grid, n.r, n.c)
    ensures Entries(ctx, frontier + [Entry(ctx.priority(g, n, ctx.goal), counter + 1, n)], gs + [g],
                    counter + 1, gCost[n := g])
  {
    var F := frontier + [Entry(ctx.priority(g, n, ctx.goal), counter + 1, n)];
    assert forall i :: 0 <= i < |frontier| ==> F[i] == frontier[i];
  }

  lemma LatestPush(frontier: seq<Entry>, gs: seq<nat>, gCost: map<Cell, nat>, visited: set<Cell>,
                   e: Entry, g: nat)
    requires Latest(frontier, gs, gCost, visited) && e.cell !in visited
    ensures Latest(frontier + [e], gs + [g], gCost[e.cell := g], visited)
  {
    var F, G, g' := frontier + [e], gs + [g], gCost[e.cell := g];
    forall c | c in g' && c !in visited
      ensures exists i :: 0 <= i < |F| && F[i].cell == c && G[i] == g'[c]
    {
      if c == e.cell {
        assert F[|frontier|].cell == c && G[|frontier|] == g'[c];
      } else {
        var i :| 0 <= i < |frontier| && frontier[i].cell == c && gs[i] == gCost[c];
        assert F[i].cell == c && G[i] == g'[c];
      }
    }
  }

  lemma RelaxedPush(grid: Grid, visited: set<Cell>, gCost: map<Cell, nat>, u: Cell, d: nat, n: Cell, g: nat)
    requires ValidGrid(grid) && d < |Directions| && n == Step(u, d) && n != u && n !in visited
    requires RelaxedExcept(grid, visited, gCost, u) && RelaxedDirs(grid, u, d, visited, gCost)
    requires (n in gCost ==> g < gCost[n]) && g == gCost[u] + 1
    ensures RelaxedExcept(grid, visited, gCost[n := g], u) && RelaxedDirs(grid, u, d + 1, visited, gCost[n := g])
  {
  }

  lemma RelaxedSkip(grid: Grid, visited: set<Cell>, gCost: map<Cell, nat>, u: Cell, d: nat)
    requires ValidGrid(grid) && d < |Directions| && RelaxedDirs(grid, u, d, visited, gCost)
    requires Move(grid, u, Step(u, d)) && Step(u, d) !in visited ==>
               Step(u, d) in gCost && gCost[Step(u, d)] <= gCost[u] + 1
    ensures RelaxedDirs(grid, u, d + 1, visited, gCost)
  {
  }

  lemma RelaxedRestore(grid: Grid, visited: set<Cell>, gCost: map<Cell, nat>, u: Cell)
    requires ValidGrid(grid)
    requires RelaxedExcept(grid, visited, gCost, u) && RelaxedDirs(grid, u, |Directions|, visited, gCost)
    ensures Relaxed(grid, visited, gCost)
  {
    forall v, n | v in visited && Move(grid, v, n) && n !in visited
      ensures v in gCost && n in gCost && gCost[n] <= gCost[v] + 1
    {
      if v == u {
        assert Step(u, Dir(u, n)) == n;
      }
    }
  }

  /** Relaxing direction `d` completes it, lowers one g-cost, and leaves the visited cells' g-costs alone. */
  lemma CostsRelax(ctx: Context, u: Cell, d: nat, n: Cell, g: nat, gCost: map<Cell, nat>, visited: set<Cell>)
    requires ValidGrid(ctx.grid) && Costs(ctx, u, d, gCost, visited) && u in gCost
    requires d < |Directions| && n == Step(u, d) && Adjacent(u, n) && n !in visited
    requires g == gCost[u] + 1 && (n in gCost ==> g < gCost[n])
    ensures Costs(ctx, u, d + 1, gCost[n := g], visited)
    ensures NoHigher(gCost[n := g], gCost)
  {
    RelaxedPush(ctx.grid, visited, gCost, u, d, n, g);
  }

  /** Skipping direction `d`: no move, already visited, or no strictly lower g-cost. */
  lemma CostsSkip(ctx: Context, u: Cell, d: nat, gCost: map<Cell, nat>, visited: set<Cell>)
    requires ValidGrid(ctx.grid) && Costs(ctx, u, d, gCost, visited) && u in gCost
    requires d < |Directions|
    requires Move(ctx.grid, u, Step(u, d)) && Step(u, d) !in visited ==>
               Step(u, d) in gCost && gCost[Step(u, d)] <= gCost[u] + 1
    ensures Costs(ctx, u, d + 1, gCost, visited)
  {
    RelaxedSkip(ctx.grid, visited, gCost, u, d);
  }

  /**
   * After the neighbour loop of `u` has taken all four directions from the
   * state `frontier0`, ..., `parent0`: the loop-head state holds again, no
   * g-cost rose, and the heap and g-costs are those `Pushes` describes.
   */
  lemma FinishExpand(ctx: Context, u: Cell, visited: set<Cell>, frontier0: seq<Entry>, gs0: seq<nat>, counter0: nat,
                     gCost0: map<Cell, nat>, parent0: map<Cell, Option<Cell>>, order: seq<Cell>, history: seq<seq<Cell>>,
                     st: Expanding)
    requires WellFormed(ctx)
    requires ExpandInv(ctx, u, 0, frontier0, gs0, counter0, gCost0, visited, parent0, order, history)
    requires st == Expanded(ctx, u, order, Expanding(frontier0, gs0, counter0, gCost0, parent0), |Directions|)
    ensures LoopInv(ctx, st.frontier, st.gs, st.counter, st.gCost, visited, st.parent, order, history)
    ensures NoHigher(st.gCost, gCost0)
    ensures st.frontier == frontier0 + Pushes(ctx.grid, ctx.goal, ctx.priority, u, order, gCost0, counter0, |Directions|)
    ensures st.gCost == Lowered(gCost0, Cells(Pushes(ctx.grid, ctx.goal, ctx.priority, u, order, gCost0, counter0, |Directions|)), gCost0[u] + 1)
  {
    var s0 := Expanding(frontier0, gs0, counter0, gCost0, parent0);
    ExpandQueue(ctx, u, order, visited, s0, st);
    ExpandCosts(ctx, u, order, visited, s0, |Directions|);
    ExpandedDone(ctx, u, order, frontier0, gs0, counter0, gCost0, parent0, st);
    EndExpand(ctx, u, st.frontier, st.gs, st.counter, st.gCost, visited, st.parent, order, history);
  }

  lemma EndExpand(ctx: Context, u: Cell, frontier: seq<Entry>, gs: seq<nat>, counter: nat,
                  gCost: map<Cell, nat>, visited: set<Cell>, parent: map<Cell, Option<Cell>>,
                  order: seq<Cell>, history: seq<seq<Cell>>)
    requires WellFormed(ctx)
    requires ExpandInv(ctx, u, |Directions|, frontier, gs, counter, gCost, visited, parent, order, history)
    ensures LoopInv(ctx, frontier, gs, counter, gCost, visited, parent, order, history)
  {
    RelaxedRestore(ctx.grid, visited, gCost, u);
  }

  lemma NoHigherTrans(g2: map<Cell, nat>, g1: map<Cell, nat>, g0: map<Cell, nat>)
    requires NoHigher(g2, g1) && NoHigher(g1, g0)
    ensures NoHigher(g2, g0)
  {
  }

  /** The cells pushed for the directions below `d` lie in rising directions, all below `d`. */
  lemma {:induction false} PushesDirs(grid: Grid, goal: Cell, priority: (nat, Cell, Cell) -> int, u: Cell, explored: seq<Cell>,
                  g0: map<Cell, nat>, c0: nat, d: nat)
    requires ValidGrid(grid) && u in g0 && d <= |Directions|
    ensures Ascending(u, Cells(Pushes(grid, goal, priority, u, explored, g0, c0, d)))
    ensures forall j :: 0 <= j < |Pushes(grid, goal, priority, u, explored, g0, c0, d)| ==> Dir(u, Pushes(grid, goal, priority, u, explored, g0, c0, d)[j].cell) < d
    decreases d
  {
    if d > 0 {
      var p := Pushes(grid, goal, priority, u, explored, g0, c0, d - 1);
      var n := Step(u, d - 1);
      PushesDirs(grid, goal, priority, u, explored, g0, c0, d - 1);
      DirOfStep(u, d - 1);
      if Improves(grid, u, n, explored, g0) {
        var e := Entry(priority(g0[u] + 1, n, goal), c0 + |p| + 1, n);
        CellsPush(p, e);
        OrderPush(u, Cells(p), n);
        assert forall j :: 0 <= j < |p| ==> (p + [e])[j] == p[j];
      }
    }
  }

  /** A direction below `d` is among the pushed cells exactly when its step improves. */
  lemma {:induction false} PushesCover(grid: Grid, goal: Cell, priority: (nat, Cell, Cell) -> int, u: Cell, explored: seq<Cell>,
                  g0: map<Cell, nat>, c0: nat, d: nat)
    requires ValidGrid(grid) && u in g0 && d <= |Directions|
    ensures forall e :: 0 <= e < d ==>
              (Step(u, e) in Cells(Pushes(grid, goal, priority, u, explored, g0, c0, d)) <==> Improves(grid, u, Step(u, e), explored, g0))
    decreases d
  {
    if d > 0 {
      var p := Pushes(grid, goal, priority, u, explored, g0, c0, d - 1);
      var n := Step(u, d - 1);
      PushesCover(grid, goal, priority, u, explored, g0, c0, d - 1);
      PushesDirs(grid, goal, priority, u, explored, g0, c0, d - 1);
      DirOfStep(u, d - 1);
      assert n !in Cells(p);
      forall e | 0 <= e < d - 1
        ensures Step(u, e) != n
      {
        DirOfStep(u, e);
      }
      if Improves(grid, u, n, explored, g0) {
        CellsPush(p, Entry(priority(g0[u] + 1, n, goal), c0 + |p| + 1, n));
      }
    }
  }

  /** Every pushed entry has the priority of `g0[u] + 1`, and the counters run `c0 + 1`, `c0 + 2`, ... */
  lemma {:induction false} PushesEntries(grid: Grid, goal: Cell, priority: (nat, Cell, Cell) -> int, u: Cell, explored: seq<Cell>,
                  g0: map<Cell, nat>, c0: nat, d: nat)
    requires ValidGrid(grid) && u in g0 && d <= |Directions|
    ensures forall j :: 0 <= j < |Pushes(grid, goal, priority, u, explored, g0, c0, d)| ==>
              Pushes(grid, goal, priority, u, explored, g0, c0, d)[j].f == priority(g0[u] + 1, Pushes(grid, goal, priority, u, explored, g0, c0, d)[j].cell, goal) &&
              Pushes(grid, goal, priority, u, explored, g0, c0, d)[j].counter == c0 + j + 1
    decreases d
  {
    if d > 0 {
      var p := Pushes(grid, goal, priority, u, explored, g0, c0, d - 1);
      var n := Step(u, d - 1);
      PushesEntries(grid, goal, priority, u, explored, g0, c0, d - 1);
      if Improves(grid, u, n, explored, g0) {
        var e := Entry(priority(g0[u] + 1, n, goal), c0 + |p| + 1, n);
        assert forall j :: 0 <= j < |p| ==> (p + [e])[j] == p[j];
      }
    }
  }

  /**
   * The entries pushed over all four directions are the `Expansion` of `u`
   * from a heap whose counters are at most `c0`.
   */
  lemma PushesExpansion(grid: Grid, goal: Cell, priority: (nat, Cell, Cell) -> int, u: Cell, explored: seq<Cell>,
                        h0: seq<Entry>, g0: map<Cell, nat>, c0: nat)
    requires ValidGrid(grid) && u in g0
    requires forall i :: 0 <= i < |h0| ==> h0[i].counter <= c0
    ensures Expansion(grid, goal, priority, u, explored, h0, g0, Pushes(grid, goal, priority, u, explored, g0, c0, |Directions|),
                      Lowered(g0, Cells(Pushes(grid, goal, priority, u, explored, g0, c0, |Directions|)), g0[u] + 1))
  {
    var pushed := Pushes(grid, goal, priority, u, explored, g0, c0, |Directions|);
    PushesDirs(grid, goal, priority, u, explored, g0, c0, |Directions|);
    PushesCover(grid, goal, priority, u, explored, g0, c0, |Directions|);
    PushesEntries(grid, goal, priority, u, explored, g0, c0, |Directions|);
    AscendingOrder(u, Cells(pushed));
  }

  /** One more direction: its neighbour is pushed with the next counter exactly when it improves. */
  lemma PushesNext(grid: Grid, goal: Cell, priority: (nat, Cell, Cell) -> int, u: Cell, explored: seq<Cell>,
                   g0: map<Cell, nat>, c0: nat, d: nat, pushed: seq<Entry>)
    requires ValidGrid(grid) && u in g0 && d < |Directions|
    requires pushed == Pushes(grid, goal, priority, u, explored, g0, c0, d)
    ensures Improves(grid, u, Step(u, d), explored, g0) ==>
              Pushes(grid, goal, priority, u, explored, g0, c0, d + 1)
                == pushed + [Entry(priority(g0[u] + 1, Step(u, d), goal), c0 + |pushed| + 1, Step(u, d))]
    ensures !Improves(grid, u, Step(u, d), explored, g0) ==> Pushes(grid, goal, priority, u, explored, g0, c0, d + 1) == pushed
  {
  }

  /** Lowering one more cell is an update of the map lowered so far. */
  lemma LoweredAppend(g0: map<Cell, nat>, pushed: seq<Entry>, e: Entry, g: nat)
    ensures Lowered(g0, Cells(pushed), g)[e.cell := g] == Lowered(g0, Cells(pushed + [e]), g)
  {
    CellsPush(pushed, e);
    assert (Cells(pushed) + [e.cell])[..|pushed|] == Cells(pushed);
  }

  /** The state the neighbour loop of `search` updates. */
  datatype Expanding = Expanding(frontier: seq<Entry>, gs: seq<nat>, counter: nat,
                                 gCost: map<Cell, nat>, parent: map<Cell, Option<Cell>>)

  /**
   * The test of the neighbour loop: `n` is in bounds, free, not visited, and
   * has no g-cost yet or a higher one than `g[u] + 1`.
   */
  predicate Relaxes(grid: Grid, visited: set<Cell>, gCost: map<Cell, nat>, u: Cell, n: Cell)
    requires ValidGrid(grid) && u in gCost
  {
    InBounds(grid, n.r, n.c) && IsFree(grid, n.r, n.c) && n !in visited && (n !in gCost || gCost[u] + 1 < gCost[n])
  }

  /** The body of the neighbour loop when the test passes: `n` gets g-cost `g`, parent `u` and an entry with the next counter. */
  ghost function Push(ctx: Context, u: Cell, n: Cell, g: nat, s: Expanding): Expanding {
    Expanding(s.frontier + [Entry(ctx.priority(g, n, ctx.goal), s.counter + 1, n)], s.gs + [g], s.counter + 1,
              s.gCost[n := g], s.parent[n := Some(u)])
  }

  /** Direction `e` of `u` taken from the state `s`: its neighbour is pushed with g-cost `g[u] + 1` when that improves on `s0`. */
  ghost function Direction(ctx: Context, u: Cell, explored: seq<Cell>, s0: Expanding, e: nat, s: Expanding): Expanding
    requires ValidGrid(ctx.grid) && u in s0.gCost && e < |Directions|
  {
    if Improves(ctx.grid, u, Step(u, e), explored, s0.gCost) then Push(ctx, u, Step(u, e), s0.gCost[u] + 1, s) else s
  }

  /**
   * The state after the directions of `u` below `d`, from `s0`: the
   * neighbour in each direction that improves on `s0` has been pushed with
   * g-cost `g[u] + 1`.
   */
  ghost function Expanded(ctx: Context, u: Cell, explored: seq<Cell>, s0: Expanding, d: nat): Expanding
    requires ValidGrid(ctx.grid) && u in s0.gCost && d <= |Directions|
    decreases d
  {
    if d == 0 then s0 else Direction(ctx, u, explored, s0, d - 1, Expanded(ctx, u, explored, s0, d - 1))
  }

  /** One more direction: it pushes its neighbour exactly when that improves on `s0`. */
  lemma ExpandedStep(ctx: Context, u: Cell, explored: seq<Cell>, s0: Expanding, d: nat)
    requires ValidGrid(ctx.grid) && u in s0.gCost && 0 < d <= |Directions|
    ensures Improves(ctx.grid, u, Step(u, d - 1), explored, s0.gCost) ==>
              Expanded(ctx, u, explored, s0, d) == Push(ctx, u, Step(u, d - 1), s0.gCost[u] + 1, Expanded(ctx, u, explored, s0, d - 1))
    ensures !Improves(ctx.grid, u, Step(u, d - 1), explored, s0.gCost) ==>
              Expanded(ctx, u, explored, s0, d) == Expanded(ctx, u, explored, s0, d - 1)
  {
  }

  /** `u` is not one of its own neighbours, so its g-cost stays. */
  lemma {:induction false} ExpandedOwn(ctx: Context, u: Cell, explored: seq<Cell>, s0: Expanding, d: nat)
    requires ValidGrid(ctx.grid) && u in s0.gCost && d <= |Directions|
    ensures u in Expanded(ctx, u, explored, s0, d).gCost && Expanded(ctx, u, explored, s0, d).gCost[u] == s0.gCost[u]
    decreases d
  {
    if d > 0 {
      ExpandedOwn(ctx, u, explored, s0, d - 1);
      DirOfStep(u, d - 1);
    }
  }

  /** The neighbour in a direction `e` not yet taken keeps its g-cost from `s0`. */
  lemma {:induction false} ExpandedAhead(ctx: Context, u: Cell, explored: seq<Cell>, s0: Expanding, d: nat, e: nat)
    requires ValidGrid(ctx.grid) && u in s0.gCost && d <= e < |Directions|
    ensures Step(u, e) in Expanded(ctx, u, explored, s0, d).gCost <==> Step(u, e) in s0.gCost
    ensures Step(u, e) in s0.gCost ==> Expanded(ctx, u, explored, s0, d).gCost[Step(u, e)] == s0.gCost[Step(u, e)]
    decreases d
  {
    if d > 0 {
      ExpandedAhead(ctx, u, explored, s0, d - 1, e);
      DirOfStep(u, d - 1);
      DirOfStep(u, e);
    }
  }

  /**
   * Before direction `d`: `u` keeps its g-cost, and the loop's test on the
   * state so far passes exactly when the step improves on `s0`.
   */
  lemma ExpandedTest(ctx: Context, u: Cell, explored: seq<Cell>, visited: set<Cell>, s0: Expanding, d: nat)
    requires ValidGrid(ctx.grid) && u in s0.gCost && d < |Directions| && (forall c :: c in visited <==> c in explored)
    ensures Ready(ctx, u, explored, visited, s0, d, Expanded(ctx, u, explored, s0, d))
  {
    ExpandedOwn(ctx, u, explored, s0, d);
    ExpandedAhead(ctx, u, explored, s0, d, d);
    DirOfStep(u, d);
  }

  /** The expansion heap is `s0.frontier` followed by `Pushes`, and the counter has advanced once per push. */
  lemma {:induction false} ExpandedFrontier(ctx: Context, u: Cell, explored: seq<Cell>, s0: Expanding, d: nat)
    requires ValidGrid(ctx.grid) && u in s0.gCost && d <= |Directions|
    ensures Expanded(ctx, u, explored, s0, d).frontier
              == s0.frontier + Pushes(ctx.grid, ctx.goal, ctx.priority, u, explored, s0.gCost, s0.counter, d)
    ensures Expanded(ctx, u, explored, s0, d).counter
              == s0.counter + |Pushes(ctx.grid, ctx.goal, ctx.priority, u, explored, s0.gCost, s0.counter, d)|
    decreases d
  {
    if d > 0 {
      var p := Pushes(ctx.grid, ctx.goal, ctx.priority, u, explored, s0.gCost, s0.counter, d - 1);
      var n := Step(u, d - 1);
      var g := s0.gCost[u] + 1;
      var s := Expanded(ctx, u, explored, s0, d - 1);
      ExpandedFrontier(ctx, u, explored, s0, d - 1);
      ExpandedStep(ctx, u, explored, s0, d);
      PushesNext(ctx.grid, ctx.goal, ctx.priority, u, explored, s0.gCost, s0.counter, d - 1, p);
      if Improves(ctx.grid, u, n, explored, s0.gCost) {
        var e := Entry(ctx.priority(g, n, ctx.goal), s0.counter + |p| + 1, n);
        assert Expanded(ctx, u, explored, s0, d).frontier == s.frontier + [e];
        assert s0.frontier + p + [e] == s0.frontier + (p + [e]);
      }
    }
  }

  /** The expansion g-costs are those of `s0` with each pushed cell lowered to `g[u] + 1`. */
  lemma {:induction false} ExpandedLowers(ctx: Context, u: Cell, explored: seq<Cell>, s0: Expanding, d: nat)
    requires ValidGrid(ctx.grid) && u in s0.gCost && d <= |Directions|
    ensures Expanded(ctx, u, explored, s0, d).gCost
              == Lowered(s0.gCost, Cells(Pushes(ctx.grid, ctx.goal, ctx.priority, u, explored, s0.gCost, s0.counter, d)), s0.gCost[u] + 1)
    decreases d
  {
    if d > 0 {
      ExpandedLowers(ctx, u, explored, s0, d - 1);
      LowersStep(ctx, u, explored, s0, d - 1, Expanded(ctx, u, explored, s0, d - 1), Expanded(ctx, u, explored, s0, d));
    }
  }

  /** Direction `e` lowers the cell it pushes, if any, on top of the map lowered so far. */
  lemma LowersStep(ctx: Context, u: Cell, explored: seq<Cell>, s0: Expanding, e: nat, s: Expanding, t: Expanding)
    requires ValidGrid(ctx.grid) && u in s0.gCost && e < |Directions|
    requires s.gCost == Lowered(s0.gCost, Cells(Pushes(ctx.grid, ctx.goal, ctx.priority, u, explored, s0.gCost, s0.counter, e)), s0.gCost[u] + 1)
    requires t == Direction(ctx, u, explored, s0, e, s)
    ensures t.gCost == Lowered(s0.gCost, Cells(Pushes(ctx.grid, ctx.goal, ctx.priority, u, explored, s0.gCost, s0.counter, e + 1)), s0.gCost[u] + 1)
  {
    var p := Pushes(ctx.grid, ctx.goal, ctx.priority, u, explored, s0.gCost, s0.counter, e);
    PushesNext(ctx.grid, ctx.goal, ctx.priority, u, explored, s0.gCost, s0.counter, e, p);
    if Improves(ctx.grid, u, Step(u, e), explored, s0.gCost) {
      var g := s0.gCost[u] + 1;
      LoweredAppend(s0.gCost, p, Entry(ctx.priority(g, Step(u, e), ctx.goal), s0.counter + |p| + 1, Step(u, e)), g);
    }
  }

  /** After all four directions: the heap gained the entries of `Pushes`, and their cells the g-cost `g[u] + 1`. */
  lemma ExpandedDone(ctx: Context, u: Cell, explored: seq<Cell>, frontier0: seq<Entry>, gs0: seq<nat>, counter0: nat,
                     gCost0: map<Cell, nat>, parent0: map<Cell, Option<Cell>>, st: Expanding)
    requires ValidGrid(ctx.grid) && u in gCost0
    requires st == Expanded(ctx, u, explored, Expanding(frontier0, gs0, counter0, gCost0, parent0), |Directions|)
    ensures st.frontier == frontier0 + Pushes(ctx.grid, ctx.goal, ctx.priority, u, explored, gCost0, counter0, |Directions|)
    ensures st.gCost == Lowered(gCost0, Cells(Pushes(ctx.grid, ctx.goal, ctx.priority, u, explored, gCost0, counter0, |Directions|)), gCost0[u] + 1)
  {
    ExpandedFrontier(ctx, u, explored, Expanding(frontier0, gs0, counter0, gCost0, parent0), |Directions|);
    ExpandedLowers(ctx, u, explored, Expanding(frontier0, gs0, counter0, gCost0, parent0), |Directions|);
  }

  /**
   * One direction keeps the parent tree consistent: either `n`, an unvisited
   * neighbour of the explored `u`, gets parent `u` and g-cost `g[u] + 1`, or
   * nothing changes.
   */
  /**
   * What the loop knows before direction `e` from the state `s`: `u` keeps
   * its g-cost from `s0`, and the loop's test on `s` passes exactly when the
   * step improves on `s0`.
   */
  ghost predicate Ready(ctx: Context, u: Cell, explored: seq<Cell>, visited: set<Cell>, s0: Expanding, e: nat, s: Expanding)
    requires ValidGrid(ctx.grid) && u in s0.gCost && e < |Directions|
  {
    && u in s.gCost && s.gCost[u] == s0.gCost[u]
    && (Relaxes(ctx.grid, visited, s.gCost, u, Step(u, e)) <==> Improves(ctx.grid, u, Step(u, e), explored, s0.gCost))
  }

  /** The parent tree survives direction `e`, relaxed or skipped. */
  lemma TreeStep(ctx: Context, u: Cell, explored: seq<Cell>, visited: set<Cell>, s0: Expanding, e: nat, s: Expanding, t: Expanding)
    requires ValidGrid(ctx.grid) && u in s0.gCost && e < |Directions| && Ready(ctx, u, explored, visited, s0, e, s)
    requires u in visited && ctx.start in visited && Tree(ctx, s.parent, s.gCost, visited)
    requires t == Direction(ctx, u, explored, s0, e, s)
    ensures Tree(ctx, t.parent, t.gCost, visited)
  {
    if Improves(ctx.grid, u, Step(u, e), explored, s0.gCost) {
      TreePushed(ctx, u, explored, visited, s0, e, s, t);
    }
  }

  /** The parent tree survives direction `e` when its neighbour is pushed. */
  lemma TreePushed(ctx: Context, u: Cell, explored: seq<Cell>, visited: set<Cell>, s0: Expanding, e: nat, s: Expanding, t: Expanding)
    requires ValidGrid(ctx.grid) && u in s0.gCost && e < |Directions| && Ready(ctx, u, explored, visited, s0, e, s)
    requires u in visited && ctx.start in visited && Tree(ctx, s.parent, s.gCost, visited)
    requires Improves(ctx.grid, u, Step(u, e), explored, s0.gCost)
    requires t == Push(ctx, u, Step(u, e), s0.gCost[u] + 1, s)
    ensures Tree(ctx, t.parent, t.gCost, visited)
  {
    DirOfStep(u, e);
    TreeRelax(ctx, s.parent, s.gCost, visited, u, Step(u, e), t.parent, t.gCost);
  }

  /** The parent tree stays consistent over the directions below `d`. */
  lemma {:induction false} ExpandTree(ctx: Context, u: Cell, explored: seq<Cell>, visited: set<Cell>, s0: Expanding, d: nat)
    requires ValidGrid(ctx.grid) && u in s0.gCost && d <= |Directions| && (forall c :: c in visited <==> c in explored)
    requires u in visited && ctx.start in visited && Tree(ctx, s0.parent, s0.gCost, visited)
    ensures Tree(ctx, Expanded(ctx, u, explored, s0, d).parent, Expanded(ctx, u, explored, s0, d).gCost, visited)
    decreases d
  {
    if d > 0 {
      ExpandTree(ctx, u, explored, visited, s0, d - 1);
      ExpandedTest(ctx, u, explored, visited, s0, d - 1);
      TreeStep(ctx, u, explored, visited, s0, d - 1, Expanded(ctx, u, explored, s0, d - 1), Expanded(ctx, u, explored, s0, d));
    }
  }

  /** Direction `e` keeps the heap entries consistent with the g-costs and the counter. */
  lemma EntriesStep(ctx: Context, u: Cell, explored: seq<Cell>, visited: set<Cell>, s0: Expanding, e: nat, s: Expanding, t: Expanding)
    requires ValidGrid(ctx.grid) && u in s0.gCost && e < |Directions| && Ready(ctx, u, explored, visited, s0, e, s)
    requires Entries(ctx, s.frontier, s.gs, s.counter, s.gCost)
    requires t == Direction(ctx, u, explored, s0, e, s)
    ensures Entries(ctx, t.frontier, t.gs, t.counter, t.gCost)
  {
    if Improves(ctx.grid, u, Step(u, e), explored, s0.gCost) {
      EntriesPush(ctx, s.frontier, s.gs, s.counter, s.gCost, Step(u, e), s0.gCost[u] + 1);
    }
  }

  /** The heap entries stay consistent with the g-costs and the counter over the directions below `d`. */
  lemma {:induction false} ExpandEntries(ctx: Context, u: Cell, explored: seq<Cell>, visited: set<Cell>, s0: Expanding, d: nat)
    requires ValidGrid(ctx.grid) && u in s0.gCost && d <= |Directions| && (forall c :: c in visited <==> c in explored)
    requires Entries(ctx, s0.frontier, s0.gs, s0.counter, s0.gCost)
    ensures Entries(ctx, Expanded(ctx, u, explored, s0, d).frontier, Expanded(ctx, u, explored, s0, d).gs, Expanded(ctx, u, explored, s0, d).counter, Expanded(ctx, u, explored, s0, d).gCost)
    decreases d
  {
    if d > 0 {
      ExpandEntries(ctx, u, explored, visited, s0, d - 1);
      ExpandedTest(ctx, u, explored, visited, s0, d - 1);
      EntriesStep(ctx, u, explored, visited, s0, d - 1, Expanded(ctx, u, explored, s0, d - 1), Expanded(ctx, u, explored, s0, d));
    }
  }

  /** Direction `e` keeps a heap entry carrying the g-cost of every unvisited cell that has one. */
  lemma LatestStep(ctx: Context, u: Cell, explored: seq<Cell>, visited: set<Cell>, s0: Expanding, e: nat, s: Expanding, t: Expanding)
    requires ValidGrid(ctx.grid) && u in s0.gCost && e < |Directions| && Ready(ctx, u, explored, visited, s0, e, s)
    requires Latest(s.frontier, s.gs, s.gCost, visited)
    requires t == Direction(ctx, u, explored, s0, e, s)
    ensures Latest(t.frontier, t.gs, t.gCost, visited)
  {
    var g := s0.gCost[u] + 1;
    if Improves(ctx.grid, u, Step(u, e), explored, s0.gCost) {
      LatestPush(s.frontier, s.gs, s.gCost, visited, Entry(ctx.priority(g, Step(u, e), ctx.goal), s.counter + 1, Step(u, e)), g);
    }
  }

  /** Every unvisited cell with a g-cost keeps a heap entry carrying it, over the directions below `d`. */
  lemma {:induction false} ExpandLatest(ctx: Context, u: Cell, explored: seq<Cell>, visited: set<Cell>, s0: Expanding, d: nat)
    requires ValidGrid(ctx.grid) && u in s0.gCost && d <= |Directions| && (forall c :: c in visited <==> c in explored)
    requires Latest(s0.frontier, s0.gs, s0.gCost, visited)
    ensures Latest(Expanded(ctx, u, explored, s0, d).frontier, Expanded(ctx, u, explored, s0, d).gs, Expanded(ctx, u, explored, s0, d).gCost, visited)
    decreases d
  {
    if d > 0 {
      ExpandLatest(ctx, u, explored, visited, s0, d - 1);
      ExpandedTest(ctx, u, explored, visited, s0, d - 1);
      LatestStep(ctx, u, explored, visited, s0, d - 1, Expanded(ctx, u, explored, s0, d - 1), Expanded(ctx, u, explored, s0, d));
    }
  }

  /** The heap and the parent tree stay consistent over all four directions. */
  lemma ExpandQueue(ctx: Context, u: Cell, explored: seq<Cell>, visited: set<Cell>, s0: Expanding, st: Expanding)
    requires ValidGrid(ctx.grid) && u in s0.gCost && (forall c :: c in visited <==> c in explored)
    requires u in visited && ctx.start in visited
    requires Queue(ctx, s0.frontier, s0.gs, s0.counter, s0.gCost, visited, s0.parent)
    requires st == Expanded(ctx, u, explored, s0, |Directions|)
    ensures Queue(ctx, st.frontier, st.gs, st.counter, st.gCost, visited, st.parent)
  {
    ExpandTree(ctx, u, explored, visited, s0, |Directions|);
    ExpandEntries(ctx, u, explored, visited, s0, |Directions|);
    ExpandLatest(ctx, u, explored, visited, s0, |Directions|);
  }

  /** Direction `e` extends the g-cost bounds to it and raises no g-cost. */
  lemma CostsStep(ctx: Context, u: Cell, explored: seq<Cell>, visited: set<Cell>, s0: Expanding, e: nat, s: Expanding, t: Expanding)
    requires ValidGrid(ctx.grid) && u in s0.gCost && e < |Directions| && Ready(ctx, u, explored, visited, s0, e, s)
    requires Costs(ctx, u, e, s.gCost, visited) && NoHigher(s.gCost, s0.gCost)
    requires t == Direction(ctx, u, explored, s0, e, s)
    ensures Costs(ctx, u, e + 1, t.gCost, visited) && NoHigher(t.gCost, s0.gCost)
  {
    var n := Step(u, e);
    if Improves(ctx.grid, u, n, explored, s0.gCost) {
      DirOfStep(u, e);
      CostsRelax(ctx, u, e, n, s.gCost[u] + 1, s.gCost, visited);
      NoHigherTrans(s.gCost[n := s.gCost[u] + 1], s.gCost, s0.gCost);
    } else {
      CostsSkip(ctx, u, e, s.gCost, visited);
    }
  }

  /** The g-cost bounds hold for the directions below `d`, and no g-cost has risen. */
  lemma {:induction false} ExpandCosts(ctx: Context, u: Cell, explored: seq<Cell>, visited: set<Cell>, s0: Expanding, d: nat)
    requires ValidGrid(ctx.grid) && u in s0.gCost && d <= |Directions| && (forall c :: c in visited <==> c in explored)
    requires Costs(ctx, u, 0, s0.gCost, visited)
    ensures Costs(ctx, u, d, Expanded(ctx, u, explored, s0, d).gCost, visited)
    ensures NoHigher(Expanded(ctx, u, explored, s0, d).gCost, s0.gCost)
    decreases d
  {
    if d > 0 {
      ExpandCosts(ctx, u, explored, visited, s0, d - 1);
      ExpandedTest(ctx, u, explored, visited, s0, d - 1);
      CostsStep(ctx, u, explored, visited, s0, d - 1, Expanded(ctx, u, explored, s0, d - 1), Expanded(ctx, u, explored, s0, d));
    }
  }

  /** A step in a direction above every earlier one keeps the cells in direction order. */
  lemma OrderPush(u: Cell, cells: seq<Cell>, n: Cell)
    requires Ascending(u, cells)
    requires forall j :: 0 <= j < |cells| ==> Dir(u, cells[j]) < Dir(u, n)
    ensures Ascending(u, cells + [n])
  {
    assert forall j :: 0 <= j < |cells| ==> (cells + [n])[j] == cells[j];
  }

  /** Directions that rise from each cell to the next rise along the whole sequence. */
  lemma AscendingOrder(u: Cell, cells: seq<Cell>)
    requires Ascending(u, cells) && forall j :: 0 <= j < |cells| ==> Dir(u, cells[j]) < 4
    ensures InDirectionOrder(u, cells)
  {
    forall i, j | 0 <= i < j < |cells| ensures Dir(u, cells[i]) < Dir(u, cells[j]) {
      AscendingFrom(u, cells, i, j);
    }
  }

  lemma {:induction false} AscendingFrom(u: Cell, cells: seq<Cell>, i: nat, j: nat)
    requires Ascending(u, cells) && i < j < |cells|
    ensures Dir(u, cells[i]) < Dir(u, cells[j])
    decreases j - i
  {
    if i + 1 < j {
      AscendingFrom(u, cells, i, j - 1);
    }
  }

  lemma CellsPush(frontier: seq<Entry>, e: Entry)
    ensures Cells(frontier + [e]) == Cells(frontier) + [e.cell]
  {
  }

  /** Outside `cells` the lowered map is `g0`; on `cells` it is `g`. */
  lemma {:induction false} LoweredAt(g0: map<Cell, nat>, cells: seq<Cell>, g: nat, c: Cell)
    ensures c !in cells ==> (c in Lowered(g0, cells, g) <==> c in g0)
    ensures c !in cells && c in g0 ==> Lowered(g0, cells, g)[c] == g0[c]
    ensures c in cells ==> c in Lowered(g0, cells, g) && Lowered(g0, cells, g)[c] == g
    decreases |cells|
  {
    if cells != [] {
      var init := cells[..|cells| - 1];
      assert cells == init + [cells[|cells| - 1]];
      LoweredAt(g0, init, g, c);
    }
  }

  /** The run before the first iteration: the initial heap and g-costs, nothing recorded. */
  lemma RunStart(ctx: Context)
    requires ValidGrid(ctx.grid)
    ensures Head(ctx, [], [], [[Entry(ctx.priority(0, ctx.start, ctx.goal), 0, ctx.start)]], [],
                 [map[ctx.start := 0]], [0], [Entry(ctx.priority(0, ctx.start, ctx.goal), 0, ctx.start)],
                 map[ctx.start := 0])
  {
  }

  /** A stale pop: one more snapshot, the heap loses the entry, nothing else changes. */
  lemma RunStale(ctx: Context, order: seq<Cell>, history: seq<seq<Cell>>, heaps: seq<seq<Entry>>, pops: seq<nat>,
                 costs: seq<map<Cell, nat>>, marks: seq<nat>, frontier: seq<Entry>, gCost: map<Cell, nat>, k: nat)
    requires ValidGrid(ctx.grid) && Head(ctx, order, history, heaps, pops, costs, marks, frontier, gCost)
    requires IsLeast(frontier, k) && DistinctCounters(frontier) && frontier[k].cell in order
    ensures Head(ctx, order, history + [Cells(frontier)], heaps + [RemoveAt(frontier, k)], pops + [k],
                 costs + [gCost], marks + [|order|], RemoveAt(frontier, k), gCost)
  {
    var history', heaps', pops', costs', marks' :=
      history + [Cells(frontier)], heaps + [RemoveAt(frontier, k)], pops + [k], costs + [gCost], marks + [|order|];
    assert order[..|order|] == order;
    assert forall i :: 0 <= i < |history| ==> history'[i] == history[i] && pops'[i] == pops[i] && marks'[i] == marks[i];
    assert forall i :: 0 <= i < |heaps| ==> heaps'[i] == heaps[i] && costs'[i] == costs[i];
    assert PopAt(order, history'[|history|], heaps'[|history|], pops'[|history|], marks'[|history|], marks'[|history| + 1]);
    assert HeapStep(ctx.grid, ctx.goal, ctx.priority, order[..marks'[|history|]], heaps'[|history|], costs'[|history|],
                    pops'[|history|], heaps'[|history| + 1], costs'[|history| + 1]);
  }

  /** A fresh pop: one more snapshot, and the popped cell is the next explored one. */
  lemma RunFresh(ctx: Context, order: seq<Cell>, history: seq<seq<Cell>>, heaps: seq<seq<Entry>>, pops: seq<nat>,
                 costs: seq<map<Cell, nat>>, marks: seq<nat>, frontier: seq<Entry>, gCost: map<Cell, nat>, k: nat)
    requires ValidGrid(ctx.grid) && Head(ctx, order, history, heaps, pops, costs, marks, frontier, gCost)
    requires IsLeast(frontier, k) && DistinctCounters(frontier) && frontier[k].cell !in order
    ensures HeapRun(ctx.grid, ctx.start, ctx.goal, ctx.priority, order + [frontier[k].cell], history + [Cells(frontier)],
                    heaps, pops + [k], costs, marks + [|order| + 1])
  {
    var mark: nat := |order| + 1;
    var order', history', pops', marks' := order + [frontier[k].cell], history + [Cells(frontier)], pops + [k], marks + [mark];
    assert forall i :: 0 <= i < |history| ==> history'[i] == history[i] && pops'[i] == pops[i] && marks'[i] == marks[i];
    assert forall m :: 0 <= m <= |order| ==> order'[..m] == order[..m];
    assert forall m :: 0 <= m < |order| ==> order'[m] == order[m];
    forall i | 0 <= i < |history|
      ensures PopAt(order', history'[i], heaps[i], pops'[i], marks'[i], marks'[i + 1])
    {
      assert PopAt(order, history[i], heaps[i], pops[i], marks[i], marks[i + 1]);
    }
    assert PopAt(order', history'[|history|], heaps[|history|], pops'[|history|], marks'[|history|], marks'[|history| + 1]);
    forall i | 0 <= i < |heaps| - 1
      ensures HeapStep(ctx.grid, ctx.goal, ctx.priority, order'[..marks'[i]], heaps[i], costs[i], pops'[i], heaps[i + 1], costs[i + 1])
    {
      assert HeapStep(ctx.grid, ctx.goal, ctx.priority, order[..marks[i]], heaps[i], costs[i], pops[i], heaps[i + 1], costs[i + 1]);
    }
  }

  /** Expanding the freshly popped `u`: the heap after its pushes is the next one of the run. */
  lemma RunExpand(ctx: Context, order: seq<Cell>, history: seq<seq<Cell>>, heaps: seq<seq<Entry>>, pops: seq<nat>,
                  costs: seq<map<Cell, nat>>, marks: seq<nat>, frontier: seq<Entry>, gCost: map<Cell, nat>, k: nat,
                  pushed: seq<Entry>, gCost1: map<Cell, nat>)
    requires ValidGrid(ctx.grid) && Head(ctx, order, history, heaps, pops, costs, marks, frontier, gCost)
    requires k < |frontier| && frontier[k].cell !in order
    requires HeapRun(ctx.grid, ctx.start, ctx.goal, ctx.priority, order + [frontier[k].cell], history + [Cells(frontier)],
                     heaps, pops + [k], costs, marks + [|order| + 1])
    requires Expansion(ctx.grid, ctx.goal, ctx.priority, frontier[k].cell, order + [frontier[k].cell], frontier, gCost,
                       pushed, gCost1)
    ensures Head(ctx, order + [frontier[k].cell], history + [Cells(frontier)], heaps + [RemoveAt(frontier, k) + pushed],
                 pops + [k], costs + [gCost1], marks + [|order| + 1], RemoveAt(frontier, k) + pushed, gCost1)
  {
    var frontier1, mark: nat := RemoveAt(frontier, k) + pushed, |order| + 1;
    var order', history', pops', marks' := order + [frontier[k].cell], history + [Cells(frontier)], pops + [k], marks + [mark];
    ExpansionStep(ctx.grid, ctx.goal, ctx.priority, order, frontier, gCost, k, pushed, gCost1);
    assert order'[..marks'[|history|]] == order;
    RunAppend(ctx.grid, ctx.start, ctx.goal, ctx.priority, order', history', heaps, pops', costs, marks', frontier1, gCost1);
  }

  /** Removing a fresh entry `k` and appending what its expansion pushes is a step of the run. */
  lemma ExpansionStep(grid: Grid, goal: Cell, priority: (nat, Cell, Cell) -> int, seen: seq<Cell>,
                      h0: seq<Entry>, g0: map<Cell, nat>, k: nat, pushed: seq<Entry>, g1: map<Cell, nat>)
    requires ValidGrid(grid) && k < |h0| && h0[k].cell !in seen
    requires Expansion(grid, goal, priority, h0[k].cell, seen + [h0[k].cell], h0, g0, pushed, g1)
    ensures HeapStep(grid, goal, priority, seen, h0, g0, k, RemoveAt(h0, k) + pushed, g1)
  {
    var h1 := RemoveAt(h0, k) + pushed;
    assert h1[..|h0| - 1] == RemoveAt(h0, k) && h1[|h0| - 1..] == pushed;
  }

  /** A run whose last pop is recorded but not yet its heap grows by the step that pop makes. */
  lemma RunAppend(grid: Grid, start: Cell, goal: Cell, priority: (nat, Cell, Cell) -> int,
                  order: seq<Cell>, history: seq<seq<Cell>>, heaps: seq<seq<Entry>>, pops: seq<nat>,
                  costs: seq<map<Cell, nat>>, marks: seq<nat>, h1: seq<Entry>, g1: map<Cell, nat>)
    requires ValidGrid(grid) && HeapRun(grid, start, goal, priority, order, history, heaps, pops, costs, marks)
    requires |heaps| == |history|
    requires HeapStep(grid, goal, priority, order[..marks[|history| - 1]], heaps[|history| - 1], costs[|history| - 1],
                      pops[|history| - 1], h1, g1)
    ensures HeapRun(grid, start, goal, priority, order, history, heaps + [h1], pops, costs + [g1], marks)
  {
    assert forall i :: 0 <= i < |heaps| ==> (heaps + [h1])[i] == heaps[i] && (costs + [g1])[i] == costs[i];
  }

  /**
   * One pass of the outer loop of `search` that explores `u`, the cell of the
   * least entry, not yet visited and not the goal: once its neighbours are
   * pushed, the loop-head state holds again and the recorded run gains the
   * pop, the new heap and the new g-costs.
   */
  lemma ExpandStep(ctx: Context, frontier0: seq<Entry>, gs0: seq<nat>, counter: nat, gCost: map<Cell, nat>,
                   visited: set<Cell>, parent: map<Cell, Option<Cell>>, order: seq<Cell>, history: seq<seq<Cell>>,
                   heaps: seq<seq<Entry>>, pops: seq<nat>, costs: seq<map<Cell, nat>>, marks: seq<nat>,
                   k: nat, st: Expanding)
    requires WellFormed(ctx) && LoopInv(ctx, frontier0, gs0, counter, gCost, visited, parent, order, history)
    requires Head(ctx, order, history, heaps, pops, costs, marks, frontier0, gCost)
    requires IsLeast(frontier0, k) && frontier0[k].cell !in visited && frontier0[k].cell != ctx.goal
    requires st == Expanded(ctx, frontier0[k].cell, order + [frontier0[k].cell],
                            Expanding(RemoveAt(frontier0, k), RemoveAt(gs0, k), counter, gCost, parent), |Directions|)
    ensures LoopInv(ctx, st.frontier, st.gs, st.counter, st.gCost, visited + {frontier0[k].cell}, st.parent,
                    order + [frontier0[k].cell], history + [Cells(frontier0)])
    ensures Head(ctx, order + [frontier0[k].cell], history + [Cells(frontier0)], heaps + [st.frontier], pops + [k],
                 costs + [st.gCost], marks + [|order| + 1], st.frontier, st.gCost)
  {
    var u := frontier0[k].cell;
    var order1 := order + [u];
    BeginExpand(ctx, frontier0, gs0, counter, gCost, visited, parent, order, history, k);
    RunFresh(ctx, order, history, heaps, pops, costs, marks, frontier0, gCost, k);
    FinishExpand(ctx, u, visited + {u}, RemoveAt(frontier0, k), RemoveAt(gs0, k), counter, gCost, parent, order1,
                 history + [Cells(frontier0)], st);
    PushesExpansion(ctx.grid, ctx.goal, ctx.priority, u, order1, frontier0, gCost, counter);
    RunExpand(ctx, order, history, heaps, pops, costs, marks, frontier0, gCost, k,
              Pushes(ctx.grid, ctx.goal, ctx.priority, u, order1, gCost, counter, |Directions|), st.gCost);
  }

  /**
   * The inner loop of `search`: each in-bounds, free, unvisited neighbour of
   * `u` whose g-cost is missing or strictly higher than `g[u] + 1` gets that
   * g-cost, parent `u`, a fresh counter and a new heap entry. The state it
   * leaves is the `Expanded` state of all four directions.
   */
  method PushNeighbours(s: TrackedGridSearch, priority: (nat, Cell, Cell) -> int, goal: Cell, ghost ctx: Context,
                        u: Cell, frontier0: seq<Entry>, ghost gs0: seq<nat>, counter0: nat,
                        gCost0: map<Cell, nat>, visited: set<Cell>, parent0: map<Cell, Option<Cell>>)
    returns (frontier: seq<Entry>, ghost gs: seq<nat>, counter: nat, gCost: map<Cell, nat>,
             parent: map<Cell, Option<Cell>>)
    requires s.Valid() && ValidGrid(ctx.grid)
    requires ctx.grid == s.grid && ctx.goal == goal && ctx.priority == priority
    requires u in gCost0 && (forall c :: c in visited <==> c in s.visitedOrder)
    ensures Expanding(frontier, gs, counter, gCost, parent)
              == Expanded(ctx, u, s.visitedOrder, Expanding(frontier0, gs0, counter0, gCost0, parent0), |Directions|)
  {
    ghost var s0 := Expanding(frontier0, gs0, counter0, gCost0, parent0);
    frontier, gs, counter, gCost, parent := frontier0, gs0, counter0, gCost0, parent0;
    for d := 0 to |Directions|
      invariant Expanding(frontier, gs, counter, gCost, parent) == Expanded(ctx, u, s.visitedOrder, s0, d)
    {
      var n := Step(u, d);
      ExpandedTest(ctx, u, s.visitedOrder, visited, s0, d);
      if Relaxes(s.grid, visited, gCost, u, n) {
        var newG := gCost[u] + 1;
        gCost := gCost[n := newG];
        var f := priority(newG, n, goal);
        parent := parent[n := Some(u)];
        counter := counter + 1;
        frontier := frontier + [Entry(f, counter, n)];
        gs := gs + [newG];
      }
    }
  }

  /**
   * One pass of the outer loop of `search`: record the heap, pop its least
   * entry, then skip a visited cell, stop at the goal, or explore the cell.
   * The result comes back when the goal is reached; otherwise the loop-head
   * state holds again and the search has progressed (one more explored cell,
   * or the same explored cells and a smaller heap).
   */
  method Pass(s: TrackedGridSearch, priority: (nat, Cell, Cell) -> int, goal: Cell, ghost ctx: Context,
              frontier0: seq<Entry>, ghost gs0: seq<nat>, counter0: nat, gCost0: map<Cell, nat>,
              visited0: set<Cell>, parent0: map<Cell, Option<Cell>>, ghost heaps0: seq<seq<Entry>>,
              ghost pops0: seq<nat>, ghost costs0: seq<map<Cell, nat>>, ghost marks0: seq<nat>)
    returns (res: Option<SearchResult>, frontier: seq<Entry>, ghost gs: seq<nat>, counter: nat,
             gCost: map<Cell, nat>, visited: set<Cell>, parent: map<Cell, Option<Cell>>,
             ghost heaps: seq<seq<Entry>>, ghost pops: seq<nat>, ghost costs: seq<map<Cell, nat>>, ghost marks: seq<nat>)
    requires s.Valid() && WellFormed(ctx) && ctx.grid == s.grid && ctx.goal == goal && ctx.priority == priority
    requires frontier0 != []
    requires LoopInv(ctx, frontier0, gs0, counter0, gCost0, visited0, parent0, s.visitedOrder, s.frontierHistory)
    requires Head(ctx, s.visitedOrder, s.frontierHistory, heaps0, pops0, costs0, marks0, frontier0, gCost0)
    modifies s
    ensures res.None? ==> LoopInv(ctx, frontier, gs, counter, gCost, visited, parent, s.visitedOrder, s.frontierHistory)
    ensures res.None? ==> Head(ctx, s.visitedOrder, s.frontierHistory, heaps, pops, costs, marks, frontier, gCost)
    ensures res.None? ==>
              |Universe(ctx) - visited| < |Universe(ctx) - visited0| || (visited == visited0 && |frontier| < |frontier0|)
    ensures res.Some? ==> res.value.visitedOrder == s.visitedOrder && res.value.frontierHistory == s.frontierHistory
    ensures res.Some? ==> SearchContract(ctx.grid, ctx.start, ctx.goal, res.value)
    ensures res.Some? ==> HeapTrace(ctx.start, res.value.visitedOrder, res.value.frontierHistory)
    ensures res.Some? ==> HeapRun(ctx.grid, ctx.start, ctx.goal, ctx.priority, res.value.visitedOrder,
                                  res.value.frontierHistory, heaps, pops, costs, marks)
    ensures res.Some? ==> res.value.success && |heaps| == |res.value.frontierHistory|
    ensures res.Some? && ctx.optimal ==> Shortest(ctx.grid, res.value.path, ctx.start, ctx.goal)
  {
    ghost var order0, history0 := s.visitedOrder, s.frontierHistory;
    ghost var stay: nat, mark: nat := |order0|, |order0| + 1;
    res := None;
    heaps, pops, costs, marks := heaps0, pops0, costs0, marks0;
    var frontierCells := Cells(frontier0);
    s.RecordFrontier(frontierCells);
    var k := HeapPop(frontier0);
    var u := frontier0[k].cell;
    frontier, gs, counter, gCost, visited, parent := RemoveAt(frontier0, k), RemoveAt(gs0, k), counter0, gCost0, visited0, parent0;
    if u in visited {
      StalePop(ctx, frontier0, gs0, counter0, gCost0, visited0, parent0, order0, history0, k);
      RunStale(ctx, order0, history0, heaps0, pops0, costs0, marks0, frontier0, gCost0, k);
      heaps, pops, costs, marks := heaps0 + [frontier], pops0 + [k], costs0 + [gCost0], marks0 + [stay];
      return;
    }
    RemainderShrinks(Universe(ctx), visited0, u);
    visited := visited0 + {u};
    s.RecordExplored(u);
    if u == goal {
      var path := s.ReconstructPath(parent0, goal, gCost0);
      var r := s.CreateResult(path, true);
      Reached(ctx, frontier0, gs0, counter0, gCost0, visited0, parent0, order0, history0, heaps0, pops0, costs0, marks0, k, r);
      res := Some(r);
      pops, marks := pops0 + [k], marks0 + [mark];
      return;
    }
    frontier, gs, counter, gCost, parent := PushNeighbours(s, priority, goal, ctx, u, frontier, gs, counter0,
                                                           gCost0, visited, parent0);
    ExpandStep(ctx, frontier0, gs0, counter0, gCost0, visited0, parent0, order0, history0, heaps0, pops0, costs0, marks0, k,
               Expanding(frontier, gs, counter, gCost, parent));
    heaps, pops, costs, marks := heaps0 + [frontier], pops0 + [k], costs0 + [gCost], marks0 + [mark];
  }

  /**
   * The recorded run determines every pop: with distinct counters, the
   * entry popped at iteration `i` is the only least entry of heap `i`, so
   * `heappop` had no choice to make.
   */
  lemma RunPopsDetermined(grid: Grid, start: Cell, goal: Cell, priority: (nat, Cell, Cell) -> int,
                          order: seq<Cell>, history: seq<seq<Cell>>, heaps: seq<seq<Entry>>, pops: seq<nat>,
                          costs: seq<map<Cell, nat>>, marks: seq<nat>, i: nat, k: nat)
    requires ValidGrid(grid) && HeapRun(grid, start, goal, priority, order, history, heaps, pops, costs, marks)
    requires i < |history| && IsLeast(heaps[i], k)
    ensures k == pops[i]
  {
    assert PopAt(order, history[i], heaps[i], pops[i], marks[i], marks[i + 1]);
    LeastIsUnique(heaps[i], k, pops[i]);
  }

  /**
   * `AStar.search(start, goal)` with the searcher's `calculate_priority`
   * passed in as `priority`. Shares the contract of every search; its
   * snapshots are the heaps of a `HeapRun`, each pop the least entry of its
   * heap; and, when `priority` is g plus a consistent heuristic `h`, it
   * returns a shortest path.
   */
  method Search(s: TrackedGridSearch, start: Cell, goal: Cell, priority: (nat, Cell, Cell) -> int,
                ghost h: (Cell, Cell) -> int, ghost optimal: bool)
    returns (r: SearchResult, ghost heaps: seq<seq<Entry>>, ghost pops: seq<nat>,
             ghost costs: seq<map<Cell, nat>>, ghost marks: seq<nat>)
    requires s.Valid()
    requires optimal ==> IsCostPlus(priority, h) && Consistent(s.grid, h, goal)
    modifies s
    ensures r.visitedOrder == s.visitedOrder && r.frontierHistory == s.frontierHistory
    ensures SearchContract(s.grid, start, goal, r)
    ensures HeapTrace(start, r.visitedOrder, r.frontierHistory)
    ensures HeapRun(s.grid, start, goal, priority, r.visitedOrder, r.frontierHistory, heaps, pops, costs, marks)
    ensures r.success ==> |heaps| == |r.frontierHistory|
    ensures !r.success ==> |heaps| == |r.frontierHistory| + 1 && heaps[|heaps| - 1] == []
    ensures optimal && r.success ==> Shortest(s.grid, r.path, start, goal)
  {
    ghost var ctx := Context(s.grid, start, goal, priority, h, optimal);
    s.InitTracking();
    var counter := 0;
    var gCost := map[start := 0];
    var fStart := priority(0, start, goal);
    var frontier := [Entry(fStart, counter, start)];
    ghost var gs: seq<nat> := [0];
    var visited: set<Cell> := {};
    var parent := map[start := None];
    Start(ctx);
    RunStart(ctx);
    heaps, pops, costs, marks := [frontier], [], [gCost], [0];
    while frontier != []
      invariant LoopInv(ctx, frontier, gs, counter, gCost, visited, parent, s.visitedOrder, s.frontierHistory)
      invariant Head(ctx, s.visitedOrder, s.frontierHistory, heaps, pops, costs, marks, frontier, gCost)
      decreases |Universe(ctx) - visited|, |frontier|
    {
      var res;
      res, frontier, gs, counter, gCost, visited, parent, heaps, pops, costs, marks :=
        Pass(s, priority, goal, ctx, frontier, gs, counter, gCost, visited, parent, heaps, pops, costs, marks);
      if res.Some? {
        r := res.value;
        return;
      }
    }
    r := s.CreateResult([], false);
    Fail(ctx, gCost, visited, parent, gs, counter, s.visitedOrder, s.frontierHistory, r);
  }

  /**
   * `astar_search(grid, start, goal, heuristic)`: a fresh A* searcher whose
   * heuristic is the given one or, when none is given, Manhattan distance.
   * With Manhattan distance, or any consistent heuristic, the path is shortest.
   */
  method AStarSearch(grid: Grid, start: Cell, goal: Cell, heuristic: Option<(Cell, Cell) -> int>)
    returns (r: SearchResult, ghost heaps: seq<seq<Entry>>, ghost pops: seq<nat>,
             ghost costs: seq<map<Cell, nat>>, ghost marks: seq<nat>)
    requires ValidGrid(grid)
    ensures SearchContract(grid, start, goal, r)
    ensures HeapTrace(start, r.visitedOrder, r.frontierHistory)
    ensures HeapRun(grid, start, goal, PriorityOf(if heuristic.Some? then heuristic.value else ManhattanDistance),
                    r.visitedOrder, r.frontierHistory, heaps, pops, costs, marks)
    ensures r.success ==> |heaps| == |r.frontierHistory|
    ensures !r.success ==> |heaps| == |r.frontierHistory| + 1 && heaps[|heaps| - 1] == []
    ensures heuristic.None? && r.success ==> Shortest(grid, r.path, start, goal)
    ensures heuristic.Some? && Consistent(grid, heuristic.value, goal) && r.success ==>
              Shortest(grid, r.path, start, goal)
  {
    var h := if heuristic.Some? then heuristic.value else ManhattanDistance;
    PriorityIsCostPlus(h);
    ManhattanConsistent(grid, goal);
    var searcher := new TrackedGridSearch(grid);
    r, heaps, pops, costs, marks := Search(searcher, start, goal, PriorityOf(h), h, Consistent(grid, h, goal));
  }
}
