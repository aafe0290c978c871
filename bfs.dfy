/**
 * Breadth-first search with tracking: a FIFO queue, cells marked visited
 * when they are pushed, one snapshot and one explored cell per iteration.
 */
module Bfs {
  import opened Utils
  import opened Paths

  /**
   * Consecutive snapshots of a FIFO frontier: `next` is `prev` without its
   * head `u`, followed, in direction order, by the neighbour of `u` in each
   * direction exactly when it is a move from `u` that was neither explored
   * earlier (in `seen`) nor waiting in `prev`.
   */
  ghost predicate FifoStep(grid: Grid, seen: seq<Cell>, prev: seq<Cell>, next: seq<Cell>)
    requires ValidGrid(grid)
  {
    && |prev| > 0 && |next| >= |prev| - 1 && next[..|prev| - 1] == prev[1..]
    && InDirectionOrder(prev[0], next[|prev| - 1..])
    && forall e :: 0 <= e < |Directions| ==>
         (Step(prev[0], e) in next[|prev| - 1..] <==> FreshMove(grid, prev[0], Step(prev[0], e), seen, prev))
  }

  /** The cells a FIFO step appends are exactly the fresh neighbours of the popped head. */
  lemma FifoStepAppends(grid: Grid, seen: seq<Cell>, prev: seq<Cell>, next: seq<Cell>)
    requires ValidGrid(grid) && FifoStep(grid, seen, prev, next)
    ensures forall n :: n in next[|prev| - 1..] <==> FreshMove(grid, prev[0], n, seen, prev)
  {
    forall n
      ensures n in next[|prev| - 1..] <==> FreshMove(grid, prev[0], n, seen, prev)
    {
      if Adjacent(prev[0], n) {
        assert Step(prev[0], Dir(prev[0], n)) == n;
      }
    }
  }

  /**
   * BFS telemetry: one snapshot per explored cell, the first snapshot is
   * `[start]`, each explored cell is the head of its snapshot, no snapshot
   * repeats a cell, and each snapshot follows from the previous one by a FIFO
   * step over the cells explored before it.
   */
  ghost predicate FifoTrace(grid: Grid, start: Cell, order: seq<Cell>, history: seq<seq<Cell>>)
    requires ValidGrid(grid)
  {
    && |history| == |order|
    && (|history| > 0 ==> history[0] == [start])
    && (forall i :: 0 <= i < |history| ==> history[i] != [] && history[i][0] == order[i] && Distinct(history[i]))
    && (forall i {:trigger FifoStep(grid, order[..i], history[i], history[i + 1])} ::
          0 <= i < |history| - 1 ==> FifoStep(grid, order[..i], history[i], history[i + 1]))
  }

  /** Queue distances never decrease and span at most one level. */
  ghost predicate Layered(queue: seq<Cell>, dist: map<Cell, nat>) {
    (forall i :: 0 <= i < |queue| ==> queue[i] in dist) &&
    (forall i, j :: 0 <= i <= j < |queue| ==> dist[queue[i]] <= dist[queue[j]] <= dist[queue[0]] + 1)
  }

  /** No walk reaches a cell of `V` in fewer steps than its recorded distance. */
  ghost predicate LowerBound(grid: Grid, start: Cell, V: set<Cell>, dist: map<Cell, nat>)
    requires ValidGrid(grid)
  {
    forall c, w :: c in V && IsWalk(grid, w, start, c) ==> c in dist && dist[c] <= |w| - 1
  }

  /** Every walk to a cell outside `V` takes at least `k` steps. */
  ghost predicate FarOutside(grid: Grid, start: Cell, V: set<Cell>, k: nat)
    requires ValidGrid(grid)
  {
    forall c, w :: c !in V && IsWalk(grid, w, start, c) ==> k <= |w| - 1
  }

  /**
   * The heart of the optimality argument: while the queue's head is at
   * distance `d`, every unvisited cell is at least `d + 1` steps away, because
   * a shorter walk would leave the visited set from an explored cell, and
   * explored cells have all their neighbours visited.
   */
  lemma UnvisitedAreFar(grid: Grid, start: Cell, queue: seq<Cell>, visited: set<Cell>,
                        order: seq<Cell>, dist: map<Cell, nat>)
    requires ValidGrid(grid) && queue != [] && start in visited
    requires Partition(visited, queue, order) && Explored(grid, order, visited)
    requires Layered(queue, dist)
    requires LowerBound(grid, start, visited, dist)
    ensures FarOutside(grid, start, visited, dist[queue[0]] + 1)
  {
    forall c, w | c !in visited && IsWalk(grid, w, start, c)
      ensures dist[queue[0]] + 1 <= |w| - 1
    {
      var j := FirstExit(grid, w, start, c, visited);
      WalkPrefix(grid, w, start, c, j);
      var p := w[j - 1];
      assert Move(grid, p, w[j]);
      assert p !in order;
      var i :| 0 <= i < |queue| && queue[i] == p;
      assert dist[p] <= j - 1;
    }
  }

  /** While expanding a cell at distance `level`: the queue holds levels `level` and `level + 1`, in order. */
  ghost predicate Banded(queue: seq<Cell>, dist: map<Cell, nat>, level: nat) {
    && (forall i :: 0 <= i < |queue| ==> queue[i] in dist && level <= dist[queue[i]] <= level + 1)
    && (forall i, j :: 0 <= i <= j < |queue| ==> dist[queue[i]] <= dist[queue[j]])
  }

  /** The last snapshot (if any) leads to the current queue by a FIFO step; the first queue is `[start]`. */
  ghost predicate Pending(grid: Grid, start: Cell, order: seq<Cell>, history: seq<seq<Cell>>, queue: seq<Cell>)
    requires ValidGrid(grid)
  {
    && (history == [] ==> queue == [start])
    && (history != [] ==> order != [] && FifoStep(grid, order[..|order| - 1], history[|history| - 1], queue))
  }

  /**
   * The queue while `u`, the head of the snapshot `q0`, is expanded: the rest
   * of `q0`, then, in direction order, exactly the neighbours of `u` in the
   * directions below `d` that were neither explored earlier nor in `q0`.
   */
  ghost predicate Pushing(grid: Grid, u: Cell, q0: seq<Cell>, seen: seq<Cell>, queue: seq<Cell>, d: nat)
    requires ValidGrid(grid)
  {
    && q0 != [] && q0[0] == u
    && |queue| >= |q0| - 1 && queue[..|q0| - 1] == q0[1..]
    && InDirectionOrder(u, queue[|q0| - 1..])
    && (forall i :: |q0| - 1 <= i < |queue| ==> Dir(u, queue[i]) < d)
    && forall e :: 0 <= e < d && e < |Directions| ==>
         (Step(u, e) in queue[|q0| - 1..] <==> FreshMove(grid, u, Step(u, e), seen, q0))
  }

  /** The state at the head of the BFS loop. */
  ghost predicate LoopInv(grid: Grid, start: Cell, goal: Cell, queue: seq<Cell>, visited: set<Cell>,
                          parent: map<Cell, Option<Cell>>, dist: map<Cell, nat>,
                          order: seq<Cell>, history: seq<seq<Cell>>)
    requires ValidGrid(grid)
  {
    && Marked(grid, start, visited, parent, dist)
    && Partition(visited, queue, order)
    && goal !in order
    && Explored(grid, order, visited)
    && Layered(queue, dist)
    && LowerBound(grid, start, visited, dist)
    && FifoTrace(grid, start, order, history)
    && Pending(grid, start, order, history, queue)
  }

  /**
   * The state while the neighbours of `u` (popped from the snapshot `q0`, at
   * distance `level`) are pushed: directions below `d` are done.
   */
  ghost predicate ExpandInv(grid: Grid, start: Cell, goal: Cell, q0: seq<Cell>, u: Cell, level: nat, d: nat,
                            queue: seq<Cell>, visited: set<Cell>,
                            parent: map<Cell, Option<Cell>>, dist: map<Cell, nat>,
                            order: seq<Cell>, history: seq<seq<Cell>>)
    requires ValidGrid(grid)
  {
    && d <= |Directions|
    && ExpandMarks(grid, start, goal, u, level, d, queue, visited, parent, dist, order)
    && ExpandBands(grid, start, q0, u, level, d, queue, visited, dist, order, history)
  }

  /** The marking half of `ExpandInv`: the parent tree, the partition and the explored cells. */
  ghost predicate ExpandMarks(grid: Grid, start: Cell, goal: Cell, u: Cell, level: nat, d: nat,
                              queue: seq<Cell>, visited: set<Cell>,
                              parent: map<Cell, Option<Cell>>, dist: map<Cell, nat>, order: seq<Cell>)
    requires ValidGrid(grid)
  {
    && Marked(grid, start, visited, parent, dist)
    && Partition(visited, queue, order)
    && goal !in order
    && order != [] && order[|order| - 1] == u && u in dist && dist[u] == level
    && ExploredExcept(grid, order, visited, u)
    && DoneDirs(grid, u, 0, d, visited)
  }

  /** The level half of `ExpandInv`: distance bands, bounds, the FIFO trace and the push order. */
  ghost predicate ExpandBands(grid: Grid, start: Cell, q0: seq<Cell>, u: Cell, level: nat, d: nat,
                              queue: seq<Cell>, visited: set<Cell>, dist: map<Cell, nat>,
                              order: seq<Cell>, history: seq<seq<Cell>>)
    requires ValidGrid(grid)
  {
    && Banded(queue, dist, level)
    && LowerBound(grid, start, visited, dist)
    && FarOutside(grid, start, visited, level + 1)
    && FifoTrace(grid, start, order, history)
    && history != [] && history[|history| - 1] == q0
    && order != [] && Pushing(grid, u, q0, order[..|order| - 1], queue, d)
  }

  lemma Start(grid: Grid, start: Cell, goal: Cell)
    requires ValidGrid(grid)
    ensures LoopInv(grid, start, goal, [start], {start}, map[start := None], map[start := 0], [], [])
  {
  }

  /** Appending a pop to a FIFO trace. */
  lemma FifoExtend(grid: Grid, start: Cell, order: seq<Cell>, history: seq<seq<Cell>>, q0: seq<Cell>)
    requires ValidGrid(grid) && FifoTrace(grid, start, order, history) && Pending(grid, start, order, history, q0)
    requires q0 != [] && Distinct(q0)
    ensures FifoTrace(grid, start, order + [q0[0]], history + [q0])
  {
    var order', history' := order + [q0[0]], history + [q0];
    assert forall i :: 0 <= i < |history| ==> history'[i] == history[i] && order'[i] == order[i];
    assert forall i :: 0 <= i <= |order| ==> order'[..i] == order[..i];
  }

  lemma LayeredBand(queue: seq<Cell>, dist: map<Cell, nat>)
    requires Layered(queue, dist) && queue != []
    ensures Banded(queue[1..], dist, dist[queue[0]])
  {
    assert forall i :: 0 <= i < |queue| - 1 ==> queue[1..][i] == queue[i + 1];
  }

  lemma BandLayered(queue: seq<Cell>, dist: map<Cell, nat>, level: nat)
    requires Banded(queue, dist, level)
    ensures Layered(queue, dist)
  {
  }

  lemma ExploredPop(grid: Grid, order: seq<Cell>, visited: set<Cell>, u: Cell)
    requires ValidGrid(grid) && Explored(grid, order, visited)
    ensures ExploredExcept(grid, order + [u], visited, u)
  {
  }

  lemma PushingStart(grid: Grid, u: Cell, q0: seq<Cell>, seen: seq<Cell>)
    requires ValidGrid(grid) && q0 != [] && q0[0] == u
    ensures Pushing(grid, u, q0, seen, q0[1..], 0)
  {
    assert q0[1..][..|q0| - 1] == q0[1..];
    assert q0[1..][|q0| - 1..] == [];
  }

  lemma PushingPush(grid: Grid, u: Cell, q0: seq<Cell>, seen: seq<Cell>, queue: seq<Cell>, d: nat)
    requires ValidGrid(grid) && Pushing(grid, u, q0, seen, queue, d) && d < |Directions|
    requires Move(grid, u, Step(u, d)) && Step(u, d) !in seen && Step(u, d) !in q0
    ensures Pushing(grid, u, q0, seen, queue + [Step(u, d)], d + 1)
  {
    DirOfStep(u, d);
    var queue' := queue + [Step(u, d)];
    assert queue'[..|q0| - 1] == queue[..|q0| - 1];
    assert queue'[|q0| - 1..] == queue[|q0| - 1..] + [Step(u, d)];
  }

  lemma PushingSkip(grid: Grid, u: Cell, q0: seq<Cell>, seen: seq<Cell>, queue: seq<Cell>, d: nat)
    requires ValidGrid(grid) && Pushing(grid, u, q0, seen, queue, d) && d < |Directions|
    requires Move(grid, u, Step(u, d)) ==> Step(u, d) in seen || Step(u, d) in q0
    ensures Pushing(grid, u, q0, seen, queue, d + 1)
  {
    DirOfStep(u, d);
  }

  lemma PushingDone(grid: Grid, u: Cell, q0: seq<Cell>, seen: seq<Cell>, queue: seq<Cell>)
    requires ValidGrid(grid) && Pushing(grid, u, q0, seen, queue, |Directions|)
    ensures FifoStep(grid, seen, q0, queue)
  {
  }

  /** A neighbour that is not marked was neither explored earlier nor in the snapshot being expanded. */
  lemma Unseen(grid: Grid, u: Cell, q0: seq<Cell>, queue: seq<Cell>, visited: set<Cell>, order: seq<Cell>,
               d: nat, n: Cell)
    requires ValidGrid(grid) && order != [] && order[|order| - 1] == u
    requires Pushing(grid, u, q0, order[..|order| - 1], queue, d) && Partition(visited, queue, order)
    requires n !in visited
    ensures n !in order[..|order| - 1] && n !in q0
  {
    assert order == order[..|order| - 1] + [u];
    assert q0 == [u] + queue[..|q0| - 1];
  }

  /** A marked neighbour in a direction not yet handled was explored earlier or is in the snapshot. */
  lemma Seen(grid: Grid, u: Cell, q0: seq<Cell>, queue: seq<Cell>, visited: set<Cell>, order: seq<Cell>, d: nat)
    requires ValidGrid(grid) && order != [] && order[|order| - 1] == u && d < |Directions|
    requires Pushing(grid, u, q0, order[..|order| - 1], queue, d) && Partition(visited, queue, order)
    requires Step(u, d) in visited
    ensures Step(u, d) in order[..|order| - 1] || Step(u, d) in q0
  {
    var n := Step(u, d);
    DirOfStep(u, d);
    assert order == order[..|order| - 1] + [u];
    assert queue == q0[1..] + queue[|q0| - 1..];
    assert n !in queue[|q0| - 1..];
  }

  /** A cell marked at `level + 1` while every unmarked cell is at least that far keeps the lower bound. */
  lemma LowerBoundPush(grid: Grid, start: Cell, visited: set<Cell>, dist: map<Cell, nat>, n: Cell, level: nat)
    requires ValidGrid(grid) && LowerBound(grid, start, visited, dist) && FarOutside(grid, start, visited, level + 1)
    requires n !in visited
    ensures LowerBound(grid, start, visited + {n}, dist[n := level + 1])
    ensures FarOutside(grid, start, visited + {n}, level + 1)
  {
  }

  lemma BandedPush(queue: seq<Cell>, dist: map<Cell, nat>, level: nat, n: Cell)
    requires Banded(queue, dist, level) && n !in dist
    ensures Banded(queue + [n], dist[n := level + 1], level)
  {
    var queue' := queue + [n];
    assert forall i :: 0 <= i < |queue| ==> queue'[i] == queue[i] && queue[i] != n;
  }

  /** Popping the head `u` of the queue (not the goal) and recording both telemetry entries. */
  lemma BeginExpand(grid: Grid, start: Cell, goal: Cell, q0: seq<Cell>, visited: set<Cell>,
                    parent: map<Cell, Option<Cell>>, dist: map<Cell, nat>,
                    order: seq<Cell>, history: seq<seq<Cell>>)
    requires ValidGrid(grid) && LoopInv(grid, start, goal, q0, visited, parent, dist, order, history)
    requires q0 != [] && q0[0] != goal
    ensures q0[0] in dist
    ensures ExpandInv(grid, start, goal, q0, q0[0], dist[q0[0]], 0, q0[1..], visited, parent, dist,
                      order + [q0[0]], history + [q0])
  {
    BeginMarks(grid, start, goal, q0, visited, parent, dist, order);
    BeginBands(grid, start, q0, visited, dist, order, history);
  }

  /** The marking half of `BeginExpand`. */
  lemma BeginMarks(grid: Grid, start: Cell, goal: Cell, q0: seq<Cell>, visited: set<Cell>,
                   parent: map<Cell, Option<Cell>>, dist: map<Cell, nat>, order: seq<Cell>)
    requires ValidGrid(grid) && Marked(grid, start, visited, parent, dist) && Partition(visited, q0, order)
    requires goal !in order && Explored(grid, order, visited) && q0 != [] && q0[0] != goal
    ensures q0[0] in dist
    ensures ExpandMarks(grid, start, goal, q0[0], dist[q0[0]], 0, q0[1..], visited, parent, dist, order + [q0[0]])
  {
    var u := q0[0];
    PartitionPop(visited, q0, q0[1..], order, u);
    ExploredPop(grid, order, visited, u);
    MarksIntro(grid, start, goal, u, dist[u], 0, q0[1..], visited, parent, dist, order + [u]);
  }

  /** The level half of `BeginExpand`. */
  lemma BeginBands(grid: Grid, start: Cell, q0: seq<Cell>, visited: set<Cell>, dist: map<Cell, nat>,
                   order: seq<Cell>, history: seq<seq<Cell>>)
    requires ValidGrid(grid) && q0 != [] && start in visited
    requires Partition(visited, q0, order) && Explored(grid, order, visited)
    requires Layered(q0, dist) && LowerBound(grid, start, visited, dist)
    requires FifoTrace(grid, start, order, history) && Pending(grid, start, order, history, q0)
    ensures ExpandBands(grid, start, q0, q0[0], dist[q0[0]], 0, q0[1..], visited, dist, order + [q0[0]],
                        history + [q0])
  {
    var u := q0[0];
    UnvisitedAreFar(grid, start, q0, visited, order, dist);
    LayeredBand(q0, dist);
    FifoExtend(grid, start, order, history, q0);
    PushingStart(grid, u, q0, order);
    assert (order + [u])[..|order + [u]| - 1] == order;
    BandsIntro(grid, start, q0, u, dist[u], 0, q0[1..], visited, dist, order + [u], history + [q0]);
  }

  /** `ExpandBands` from its parts. */
  lemma BandsIntro(grid: Grid, start: Cell, q0: seq<Cell>, u: Cell, level: nat, d: nat,
                   queue: seq<Cell>, visited: set<Cell>, dist: map<Cell, nat>,
                   order: seq<Cell>, history: seq<seq<Cell>>)
    requires ValidGrid(grid)
    requires Banded(queue, dist, level) && LowerBound(grid, start, visited, dist)
    requires FarOutside(grid, start, visited, level + 1) && FifoTrace(grid, start, order, history)
    requires history != [] && history[|history| - 1] == q0
    requires order != [] && Pushing(grid, u, q0, order[..|order| - 1], queue, d)
    ensures ExpandBands(grid, start, q0, u, level, d, queue, visited, dist, order, history)
  {
  }

  /** Pushing the neighbour in direction `d`. */
  lemma PushStep(grid: Grid, start: Cell, goal: Cell, q0: seq<Cell>, u: Cell, level: nat, d: nat,
                 queue: seq<Cell>, visited: set<Cell>, parent: map<Cell, Option<Cell>>, dist: map<Cell, nat>,
                 order: seq<Cell>, history: seq<seq<Cell>>)
    requires ValidGrid(grid)
    requires ExpandInv(grid, start, goal, q0, u, level, d, queue, visited, parent, dist, order, history)
    requires d < |Directions| && IsValidMove(grid, Step(u, d).r, Step(u, d).c, visited)
    ensures ExpandInv(grid, start, goal, q0, u, level, d + 1, queue + [Step(u, d)], visited + {Step(u, d)},
                      parent[Step(u, d) := Some(u)], dist[Step(u, d) := level + 1], order, history)
  {
    ValidMoveIsFreshMove(grid, u, d, visited);
    Unseen(grid, u, q0, queue, visited, order, d, Step(u, d));
    PushMarks(grid, start, goal, u, level, d, queue, visited, parent, dist, order);
    PushBands(grid, start, q0, u, level, d, queue, visited, dist, order, history);
  }

  /** The marking half after pushing the neighbour in direction `d`. */
  lemma PushMarks(grid: Grid, start: Cell, goal: Cell, u: Cell, level: nat, d: nat, queue: seq<Cell>,
                  visited: set<Cell>, parent: map<Cell, Option<Cell>>, dist: map<Cell, nat>, order: seq<Cell>)
    requires ValidGrid(grid) && ExpandMarks(grid, start, goal, u, level, d, queue, visited, parent, dist, order)
    requires d < |Directions| && Move(grid, u, Step(u, d)) && Step(u, d) !in visited
    ensures ExpandMarks(grid, start, goal, u, level, d + 1, queue + [Step(u, d)], visited + {Step(u, d)},
                        parent[Step(u, d) := Some(u)], dist[Step(u, d) := level + 1], order)
  {
    var n := Step(u, d);
    MarkedPush(grid, start, visited, parent, dist, u, n);
    PartitionPush(visited, queue, order, n);
    DoneDirsUp(grid, u, d, visited, visited + {n});
    MarksIntro(grid, start, goal, u, level, d + 1, queue + [n], visited + {n}, parent[n := Some(u)],
               dist[n := level + 1], order);
  }

  /** `ExpandMarks` from its parts. */
  lemma MarksIntro(grid: Grid, start: Cell, goal: Cell, u: Cell, level: nat, d: nat,
                   queue: seq<Cell>, visited: set<Cell>,
                   parent: map<Cell, Option<Cell>>, dist: map<Cell, nat>, order: seq<Cell>)
    requires ValidGrid(grid)
    requires Marked(grid, start, visited, parent, dist) && Partition(visited, queue, order)
    requires goal !in order && order != [] && order[|order| - 1] == u && u in dist && dist[u] == level
    requires ExploredExcept(grid, order, visited, u) && DoneDirs(grid, u, 0, d, visited)
    ensures ExpandMarks(grid, start, goal, u, level, d, queue, visited, parent, dist, order)
  {
  }

  /** The level half after pushing the neighbour in direction `d`. */
  lemma PushBands(grid: Grid, start: Cell, q0: seq<Cell>, u: Cell, level: nat, d: nat, queue: seq<Cell>,
                  visited: set<Cell>, dist: map<Cell, nat>, order: seq<Cell>, history: seq<seq<Cell>>)
    requires ValidGrid(grid) && ExpandBands(grid, start, q0, u, level, d, queue, visited, dist, order, history)
    requires dist.Keys == visited && d < |Directions| && Step(u, d) !in visited
    requires Move(grid, u, Step(u, d)) && Step(u, d) !in order[..|order| - 1] && Step(u, d) !in q0
    ensures ExpandBands(grid, start, q0, u, level, d + 1, queue + [Step(u, d)], visited + {Step(u, d)},
                        dist[Step(u, d) := level + 1], order, history)
  {
    var n := Step(u, d);
    BandedPush(queue, dist, level, n);
    LowerBoundPush(grid, start, visited, dist, n, level);
    PushingPush(grid, u, q0, order[..|order| - 1], queue, d);
  }

  /** Skipping direction `d`: the neighbour is out of bounds, a wall, or visited. */
  lemma SkipStep(grid: Grid, start: Cell, goal: Cell, q0: seq<Cell>, u: Cell, level: nat, d: nat,
                 queue: seq<Cell>, visited: set<Cell>, parent: map<Cell, Option<Cell>>, dist: map<Cell, nat>,
                 order: seq<Cell>, history: seq<seq<Cell>>)
    requires ValidGrid(grid)
    requires ExpandInv(grid, start, goal, q0, u, level, d, queue, visited, parent, dist, order, history)
    requires d < |Directions| && !IsValidMove(grid, Step(u, d).r, Step(u, d).c, visited)
    ensures ExpandInv(grid, start, goal, q0, u, level, d + 1, queue, visited, parent, dist, order, history)
  {
    ValidMoveIsFreshMove(grid, u, d, visited);
    DoneDirsUp(grid, u, d, visited, visited);
    if Step(u, d) in visited {
      Seen(grid, u, q0, queue, visited, order, d);
    }
    PushingSkip(grid, u, q0, order[..|order| - 1], queue, d);
  }

  /** After all four directions the loop-head state holds again. */
  lemma EndExpand(grid: Grid, start: Cell, goal: Cell, q0: seq<Cell>, u: Cell, level: nat,
                  queue: seq<Cell>, visited: set<Cell>, parent: map<Cell, Option<Cell>>, dist: map<Cell, nat>,
                  order: seq<Cell>, history: seq<seq<Cell>>)
    requires ValidGrid(grid)
    requires ExpandInv(grid, start, goal, q0, u, level, |Directions|, queue, visited, parent, dist, order, history)
    ensures LoopInv(grid, start, goal, queue, visited, parent, dist, order, history)
  {
    ExploredRestore(grid, order, visited, u);
    BandLayered(queue, dist, level);
    PushingDone(grid, u, q0, order[..|order| - 1], queue);
  }

  /** Popping the goal: the reconstructed path and the telemetry meet the contract. */
  lemma Succeed(grid: Grid, start: Cell, goal: Cell, q0: seq<Cell>, visited: set<Cell>,
                parent: map<Cell, Option<Cell>>, dist: map<Cell, nat>,
                order: seq<Cell>, history: seq<seq<Cell>>, r: SearchResult)
    requires ValidGrid(grid) && LoopInv(grid, start, goal, q0, visited, parent, dist, order, history)
    requires q0 != [] && q0[0] == goal
    requires ParentChain(parent, dist, r.path, goal)
    requires r.CountsAgree() && r.success
    requires r.visitedOrder == order + [goal] && r.frontierHistory == history + [q0]
    ensures SearchContract(grid, start, goal, r)
    ensures FifoTrace(grid, start, r.visitedOrder, r.frontierHistory)
    ensures Shortest(grid, r.path, start, goal)
  {
    SucceedPath(grid, start, goal, visited, parent, dist, r);
    SucceedTrace(grid, start, goal, q0, visited, order, history, r);
  }

  /** The path half of `Succeed`: the parent chain is a walk, and no walk is shorter. */
  lemma SucceedPath(grid: Grid, start: Cell, goal: Cell, visited: set<Cell>,
                    parent: map<Cell, Option<Cell>>, dist: map<Cell, nat>, r: SearchResult)
    requires ValidGrid(grid) && Marked(grid, start, visited, parent, dist)
    requires LowerBound(grid, start, visited, dist) && goal in visited
    requires ParentChain(parent, dist, r.path, goal) && r.success
    ensures Outcome(grid, start, goal, r) && Shortest(grid, r.path, start, goal)
  {
    ChainOutcome(grid, start, goal, parent, dist, r);
  }

  /** The telemetry half of `Succeed`. */
  lemma SucceedTrace(grid: Grid, start: Cell, goal: Cell, q0: seq<Cell>, visited: set<Cell>,
                     order: seq<Cell>, history: seq<seq<Cell>>, r: SearchResult)
    requires ValidGrid(grid) && Partition(visited, q0, order) && goal !in order && start in visited
    requires FifoTrace(grid, start, order, history) && Pending(grid, start, order, history, q0)
    requires q0 != [] && q0[0] == goal
    requires r.CountsAgree() && r.success
    requires r.visitedOrder == order + [goal] && r.frontierHistory == history + [q0]
    ensures Telemetry(start, goal, r)
    ensures FifoTrace(grid, start, r.visitedOrder, r.frontierHistory)
  {
    FifoExtend(grid, start, order, history, q0);
    if order != [] {
      assert history[0][0] == order[0];
    }
    SuccessTelemetry(start, goal, order, history, q0, r);
  }

  /** The queue ran out: the explored cells are closed under moves, so the goal is unreachable. */
  lemma Fail(grid: Grid, start: Cell, goal: Cell, visited: set<Cell>,
             parent: map<Cell, Option<Cell>>, dist: map<Cell, nat>,
             order: seq<Cell>, history: seq<seq<Cell>>, r: SearchResult)
    requires ValidGrid(grid) && LoopInv(grid, start, goal, [], visited, parent, dist, order, history)
    requires r.CountsAgree() && !r.success && r.path == []
    requires r.visitedOrder == order && r.frontierHistory == history
    ensures SearchContract(grid, start, goal, r)
    ensures FifoTrace(grid, start, r.visitedOrder, r.frontierHistory)
  {
    assert Closed(grid, visited);
    forall c | Reachable(grid, start, c)
      ensures c in order
    {
      ClosedHoldsReachable(grid, start, visited, c);
    }
    forall c | c in order
      ensures Reachable(grid, start, c)
    {
      var w := TreeWalk(grid, start, parent, dist, c);
    }
  }

  /**
   * The inner loop of `search`: for each direction in order, a neighbour of
   * `u` that is a valid move is marked, given parent `u`, and appended to the
   * queue. Afterwards every neighbour of `u` is marked and the loop-head state
   * holds again; the loop measure (unmarked in-bounds cells, then queue
   * length) has decreased.
   */
  method PushNeighbours(s: TrackedGridSearch, ghost start: Cell, ghost goal: Cell, ghost q0: seq<Cell>, u: Cell,
                        queue0: seq<Cell>, visited0: set<Cell>, parent0: map<Cell, Option<Cell>>,
                        ghost dist0: map<Cell, nat>)
    returns (queue: seq<Cell>, visited: set<Cell>, parent: map<Cell, Option<Cell>>, ghost dist: map<Cell, nat>)
    requires s.Valid() && u in dist0 && |queue0| < |q0|
    requires ExpandInv(s.grid, start, goal, q0, u, dist0[u], 0, queue0, visited0, parent0, dist0,
                       s.visitedOrder, s.frontierHistory)
    ensures LoopInv(s.grid, start, goal, queue, visited, parent, dist, s.visitedOrder, s.frontierHistory)
    ensures |AllCells(s.grid) - visited| < |AllCells(s.grid) - visited0| ||
            (visited == visited0 && |queue| < |q0|)
  {
    var grid := s.grid;
    ghost var order, history := s.visitedOrder, s.frontierHistory;
    queue, visited, parent, dist := queue0, visited0, parent0, dist0;
    ghost var level := dist0[u];
    for d := 0 to |Directions|
      invariant ExpandInv(grid, start, goal, q0, u, level, d, queue, visited, parent, dist, order, history)
      invariant |AllCells(grid) - visited| < |AllCells(grid) - visited0| ||
                (visited == visited0 && |queue| < |q0|)
    {
      var n := Step(u, d);
      if IsValidMove(grid, n.r, n.c, visited) {
        MarkShrinks(grid, visited, n);
        PushStep(grid, start, goal, q0, u, level, d, queue, visited, parent, dist, order, history);
        visited := visited + {n};
        parent := parent[n := Some(u)];
        dist := dist[n := level + 1];
        queue := queue + [n];
      } else {
        SkipStep(grid, start, goal, q0, u, level, d, queue, visited, parent, dist, order, history);
      }
    }
    EndExpand(grid, start, goal, q0, u, level, queue, visited, parent, dist, order, history);
  }

  /**
   * `BFS.search(start, goal)`. Shares the contract of every search and adds:
   * one snapshot per explored cell, FIFO snapshots, and a shortest path.
   */
  method Search(s: TrackedGridSearch, start: Cell, goal: Cell) returns (r: SearchResult)
    requires s.Valid()
    modifies s
    ensures r.visitedOrder == s.visitedOrder && r.frontierHistory == s.frontierHistory
    ensures SearchContract(s.grid, start, goal, r)
    ensures FifoTrace(s.grid, start, r.visitedOrder, r.frontierHistory)
    ensures r.success ==> Shortest(s.grid, r.path, start, goal)
  {
    s.InitTracking();
    var queue := [start];
    var visited := {start};
    var parent := map[start := None];
    ghost var dist := map[start := 0];
    Start(s.grid, start, goal);
    while queue != []
      invariant LoopInv(s.grid, start, goal, queue, visited, parent, dist, s.visitedOrder, s.frontierHistory)
      decreases |AllCells(s.grid) - visited|, |queue|
    {
      ghost var q0, order0, history0 := queue, s.visitedOrder, s.frontierHistory;
      s.RecordFrontier(queue);
      var u := queue[0];
      queue := queue[1..];
      s.RecordExplored(u);
      if u == goal {
        var path := s.ReconstructPath(parent, goal, dist);
        r := s.CreateResult(path, true);
        Succeed(s.grid, start, goal, q0, visited, parent, dist, order0, history0, r);
        return;
      }
      BeginExpand(s.grid, start, goal, q0, visited, parent, dist, order0, history0);
      queue, visited, parent, dist := PushNeighbours(s, start, goal, q0, u, queue, visited, parent, dist);
    }
    r := s.CreateResult([], false);
    Fail(s.grid, start, goal, visited, parent, dist, s.visitedOrder, s.frontierHistory, r);
  }

  /** `bfs_search(grid, start, goal)`: a fresh searcher, then `search`. */
  method BfsSearch(grid: Grid, start: Cell, goal: Cell) returns (r: SearchResult)
    requires ValidGrid(grid)
    ensures SearchContract(grid, start, goal, r)
    ensures FifoTrace(grid, start, r.visitedOrder, r.frontierHistory)
    ensures r.success ==> Shortest(grid, r.path, start, goal)
  {
    var searcher := new TrackedGridSearch(grid);
    r := Search(searcher, start, goal);
  }
}
