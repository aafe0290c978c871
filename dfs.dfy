/**
 * Depth-first search with tracking: a LIFO stack, cells marked visited when
 * they are pushed, neighbours pushed in reversed direction order so that
 * the one to the right is popped first.
 */
module Dfs {
  import opened Utils
  import opened Paths

  /** The top of a non-empty stack. */
  function Top(stack: seq<Cell>): Cell
    requires stack != []
  {
    stack[|stack| - 1]
  }

  /**
   * Consecutive snapshots of a LIFO frontier: `next` is `prev` without its
   * top `u`, followed, in reversed direction order, by the neighbour of `u`
   * in each direction exactly when it is a move from `u` that was neither
   * explored earlier (in `seen`) nor waiting in `prev`.
   */
  ghost predicate LifoStep(grid: Grid, seen: seq<Cell>, prev: seq<Cell>, next: seq<Cell>)
    requires ValidGrid(grid)
  {
    && |prev| > 0 && |next| >= |prev| - 1 && next[..|prev| - 1] == prev[..|prev| - 1]
    && InReversedDirectionOrder(Top(prev), next[|prev| - 1..])
    && forall e :: 0 <= e < |Directions| ==>
         (Step(Top(prev), e) in next[|prev| - 1..] <==> FreshMove(grid, Top(prev), Step(Top(prev), e), seen, prev))
  }

  /** The cells a LIFO step pushes are exactly the fresh neighbours of the popped top. */
  lemma LifoStepPushes(grid: Grid, seen: seq<Cell>, prev: seq<Cell>, next: seq<Cell>)
    requires ValidGrid(grid) && LifoStep(grid, seen, prev, next)
    ensures forall n :: n in next[|prev| - 1..] <==> FreshMove(grid, Top(prev), n, seen, prev)
  {
    forall n
      ensures n in next[|prev| - 1..] <==> FreshMove(grid, Top(prev), n, seen, prev)
    {
      if Adjacent(Top(prev), n) {
        assert Step(Top(prev), Dir(Top(prev), n)) == n;
      }
    }
  }

  /**
   * DFS telemetry: one snapshot per explored cell, the first snapshot is
   * `[start]`, each explored cell is the top (last element) of its snapshot,
   * no snapshot repeats a cell, and each snapshot follows from the previous
   * one by a LIFO step over the cells explored before it.
   */
  ghost predicate LifoTrace(grid: Grid, start: Cell, order: seq<Cell>, history: seq<seq<Cell>>)
    requires ValidGrid(grid)
  {
    && |history| == |order|
    && (|history| > 0 ==> history[0] == [start])
    && (forall i :: 0 <= i < |history| ==> history[i] != [] && Top(history[i]) == order[i] && Distinct(history[i]))
    && (forall i {:trigger LifoStep(grid, order[..i], history[i], history[i + 1])} ::
          0 <= i < |history| - 1 ==> LifoStep(grid, order[..i], history[i], history[i + 1]))
  }

  /** The last snapshot (if any) leads to the current stack by a LIFO step; the first stack is `[start]`. */
  ghost predicate Pending(grid: Grid, start: Cell, order: seq<Cell>, history: seq<seq<Cell>>, stack: seq<Cell>)
    requires ValidGrid(grid)
  {
    && (history == [] ==> stack == [start])
    && (history != [] ==> order != [] && LifoStep(grid, order[..|order| - 1], history[|history| - 1], stack))
  }

  /**
   * The stack while `u`, the top of the snapshot `s0`, is expanded: the rest
   * of `s0`, then, in reversed direction order, exactly the neighbours of `u`
   * in the directions from `d` up that were neither explored earlier nor in `s0`.
   */
  ghost predicate Stacking(grid: Grid, u: Cell, s0: seq<Cell>, seen: seq<Cell>, stack: seq<Cell>, d: nat)
    requires ValidGrid(grid)
  {
    && s0 != [] && Top(s0) == u
    && |stack| >= |s0| - 1 && stack[..|s0| - 1] == s0[..|s0| - 1]
    && InReversedDirectionOrder(u, stack[|s0| - 1..])
    && (forall i :: |s0| - 1 <= i < |stack| ==> d <= Dir(u, stack[i]))
    && forall e :: d <= e < |Directions| ==>
         (Step(u, e) in stack[|s0| - 1..] <==> FreshMove(grid, u, Step(u, e), seen, s0))
  }

  /** The state at the head of the DFS loop. */
  ghost predicate LoopInv(grid: Grid, start: Cell, goal: Cell, stack: seq<Cell>, visited: set<Cell>,
                          parent: map<Cell, Option<Cell>>, depth: map<Cell, nat>,
                          order: seq<Cell>, history: seq<seq<Cell>>)
    requires ValidGrid(grid)
  {
    && Marked(grid, start, visited, parent, depth)
    && Partition(visited, stack, order)
    && goal !in order
    && Explored(grid, order, visited)
    && LifoTrace(grid, start, order, history)
    && Pending(grid, start, order, history, stack)
  }

  /**
   * The state while the neighbours of `u` (popped from the snapshot `s0`)
   * are pushed: the directions from `d` up are done.
   */
  ghost predicate ExpandInv(grid: Grid, start: Cell, goal: Cell, s0: seq<Cell>, u: Cell, d: nat,
                            stack: seq<Cell>, visited: set<Cell>,
                            parent: map<Cell, Option<Cell>>, depth: map<Cell, nat>,
                            order: seq<Cell>, history: seq<seq<Cell>>)
    requires ValidGrid(grid)
  {
    && d <= |Directions|
    && Marked(grid, start, visited, parent, depth)
    && Partition(visited, stack, order)
    && goal !in order
    && order != [] && order[|order| - 1] == u && u in visited
    && ExploredExcept(grid, order, visited, u)
    && DoneDirs(grid, u, d, |Directions|, visited)
    && LifoTrace(grid, start, order, history)
    && history != [] && history[|history| - 1] == s0
    && Stacking(grid, u, s0, order[..|order| - 1], stack, d)
  }

  lemma Start(grid: Grid, start: Cell, goal: Cell)
    requires ValidGrid(grid)
    ensures LoopInv(grid, start, goal, [start], {start}, map[start := None], map[start := 0], [], [])
  {
  }

  /** Appending a pop to a LIFO trace. */
  lemma LifoExtend(grid: Grid, start: Cell, order: seq<Cell>, history: seq<seq<Cell>>, s0: seq<Cell>)
    requires ValidGrid(grid) && LifoTrace(grid, start, order, history) && Pending(grid, start, order, history, s0)
    requires s0 != [] && Distinct(s0)
    ensures LifoTrace(grid, start, order + [Top(s0)], history + [s0])
  {
    var order', history' := order + [Top(s0)], history + [s0];
    assert forall i :: 0 <= i < |history| ==> history'[i] == history[i] && order'[i] == order[i];
    assert forall i :: 0 <= i <= |order| ==> order'[..i] == order[..i];
  }

  lemma ExploredPop(grid: Grid, order: seq<Cell>, visited: set<Cell>, u: Cell)
    requires ValidGrid(grid) && Explored(grid, order, visited)
    ensures ExploredExcept(grid, order + [u], visited, u)
  {
  }

  lemma StackingStart(grid: Grid, u: Cell, s0: seq<Cell>, seen: seq<Cell>)
    requires ValidGrid(grid) && s0 != [] && Top(s0) == u
    ensures Stacking(grid, u, s0, seen, s0[..|s0| - 1], |Directions|)
  {
    assert s0[..|s0| - 1][..|s0| - 1] == s0[..|s0| - 1];
    assert s0[..|s0| - 1][|s0| - 1..] == [];
  }

  lemma StackingPush(grid: Grid, u: Cell, s0: seq<Cell>, seen: seq<Cell>, stack: seq<Cell>, d: nat)
    requires ValidGrid(grid) && Stacking(grid, u, s0, seen, stack, d + 1) && d < |Directions|
    requires Move(grid, u, Step(u, d)) && Step(u, d) !in seen && Step(u, d) !in s0
    ensures Stacking(grid, u, s0, seen, stack + [Step(u, d)], d)
  {
    DirOfStep(u, d);
    var stack' := stack + [Step(u, d)];
    assert stack'[..|s0| - 1] == stack[..|s0| - 1];
    assert stack'[|s0| - 1..] == stack[|s0| - 1..] + [Step(u, d)];
  }

  lemma StackingSkip(grid: Grid, u: Cell, s0: seq<Cell>, seen: seq<Cell>, stack: seq<Cell>, d: nat)
    requires ValidGrid(grid) && Stacking(grid, u, s0, seen, stack, d + 1) && d < |Directions|
    requires Move(grid, u, Step(u, d)) ==> Step(u, d) in seen || Step(u, d) in s0
    ensures Stacking(grid, u, s0, seen, stack, d)
  {
    DirOfStep(u, d);
  }

  lemma StackingDone(grid: Grid, u: Cell, s0: seq<Cell>, seen: seq<Cell>, stack: seq<Cell>)
    requires ValidGrid(grid) && Stacking(grid, u, s0, seen, stack, 0)
    ensures LifoStep(grid, seen, s0, stack)
  {
  }

  /** A neighbour that is not marked was neither explored earlier nor in the snapshot being expanded. */
  lemma Unseen(grid: Grid, u: Cell, s0: seq<Cell>, stack: seq<Cell>, visited: set<Cell>, order: seq<Cell>,
               d: nat, n: Cell)
    requires ValidGrid(grid) && order != [] && Top(order) == u
    requires Stacking(grid, u, s0, order[..|order| - 1], stack, d) && Partition(visited, stack, order)
    requires n !in visited
    ensures n !in order[..|order| - 1] && n !in s0
  {
    assert order == order[..|order| - 1] + [u];
    assert s0 == stack[..|s0| - 1] + [u];
  }

  /** A marked neighbour in a direction not yet handled was explored earlier or is in the snapshot. */
  lemma Seen(grid: Grid, u: Cell, s0: seq<Cell>, stack: seq<Cell>, visited: set<Cell>, order: seq<Cell>, d: nat)
    requires ValidGrid(grid) && order != [] && Top(order) == u && d < |Directions|
    requires Stacking(grid, u, s0, order[..|order| - 1], stack, d + 1) && Partition(visited, stack, order)
    requires Step(u, d) in visited
    ensures Step(u, d) in order[..|order| - 1] || Step(u, d) in s0
  {
    var n := Step(u, d);
    DirOfStep(u, d);
    assert order == order[..|order| - 1] + [u];
    assert stack == s0[..|s0| - 1] + stack[|s0| - 1..];
    assert n !in stack[|s0| - 1..];
  }

  /** Popping the top `u` of the stack (not the goal) and recording both telemetry entries. */
  lemma BeginExpand(grid: Grid, start: Cell, goal: Cell, s0: seq<Cell>, visited: set<Cell>,
                    parent: map<Cell, Option<Cell>>, depth: map<Cell, nat>,
                    order: seq<Cell>, history: seq<seq<Cell>>)
    requires ValidGrid(grid) && LoopInv(grid, start, goal, s0, visited, parent, depth, order, history)
    requires s0 != [] && s0[|s0| - 1] != goal
    ensures ExpandInv(grid, start, goal, s0, s0[|s0| - 1], |Directions|, s0[..|s0| - 1], visited, parent, depth,
                      order + [s0[|s0| - 1]], history + [s0])
  {
    PopExplored(grid, start, goal, s0, visited, parent, depth, order);
    PopTrace(grid, start, s0, order, history);
  }

  /** The marking, the partition and the explored cells after popping the top `u`. */
  lemma PopExplored(grid: Grid, start: Cell, goal: Cell, s0: seq<Cell>, visited: set<Cell>,
                    parent: map<Cell, Option<Cell>>, depth: map<Cell, nat>, order: seq<Cell>)
    requires ValidGrid(grid) && Marked(grid, start, visited, parent, depth) && Partition(visited, s0, order)
    requires Explored(grid, order, visited) && goal !in order
    requires s0 != [] && s0[|s0| - 1] != goal
    ensures Partition(visited, s0[..|s0| - 1], order + [s0[|s0| - 1]])
    ensures goal !in order + [s0[|s0| - 1]] && s0[|s0| - 1] in visited
    ensures ExploredExcept(grid, order + [s0[|s0| - 1]], visited, s0[|s0| - 1])
    ensures DoneDirs(grid, s0[|s0| - 1], |Directions|, |Directions|, visited)
  {
    PartitionPopLast(visited, s0, order);
    ExploredPop(grid, order, visited, s0[|s0| - 1]);
  }

  /** The LIFO trace and the stack layout after popping the top `u` of the snapshot `s0`. */
  lemma PopTrace(grid: Grid, start: Cell, s0: seq<Cell>, order: seq<Cell>, history: seq<seq<Cell>>)
    requires ValidGrid(grid) && LifoTrace(grid, start, order, history) && Pending(grid, start, order, history, s0)
    requires s0 != [] && Distinct(s0)
    ensures LifoTrace(grid, start, order + [Top(s0)], history + [s0])
    ensures Stacking(grid, Top(s0), s0, (order + [Top(s0)])[..|order + [Top(s0)]| - 1], s0[..|s0| - 1], |Directions|)
  {
    LifoExtend(grid, start, order, history, s0);
    StackingStart(grid, Top(s0), s0, order);
    assert (order + [Top(s0)])[..|order + [Top(s0)]| - 1] == order;
  }

  /** Pushing the neighbour in direction `d`. */
  lemma PushStep(grid: Grid, start: Cell, goal: Cell, s0: seq<Cell>, u: Cell, d: nat,
                 stack: seq<Cell>, visited: set<Cell>, parent: map<Cell, Option<Cell>>, depth: map<Cell, nat>,
                 order: seq<Cell>, history: seq<seq<Cell>>)
    requires ValidGrid(grid)
    requires ExpandInv(grid, start, goal, s0, u, d + 1, stack, visited, parent, depth, order, history)
    requires d < |Directions| && IsValidMove(grid, Step(u, d).r, Step(u, d).c, visited)
    ensures ExpandInv(grid, start, goal, s0, u, d, stack + [Step(u, d)], visited + {Step(u, d)},
                      parent[Step(u, d) := Some(u)], depth[Step(u, d) := depth[u] + 1], order, history)
  {
    var n := Step(u, d);
    ValidMoveIsFreshMove(grid, u, d, visited);
    MarkedPush(grid, start, visited, parent, depth, u, n);
    PartitionPush(visited, stack, order, n);
    DoneDirsDown(grid, u, d, visited, visited + {n});
    Unseen(grid, u, s0, stack, visited, order, d + 1, n);
    StackingPush(grid, u, s0, order[..|order| - 1], stack, d);
  }

  /** Skipping direction `d`: the neighbour is out of bounds, a wall, or visited. */
  lemma SkipStep(grid: Grid, start: Cell, goal: Cell, s0: seq<Cell>, u: Cell, d: nat,
                 stack: seq<Cell>, visited: set<Cell>, parent: map<Cell, Option<Cell>>, depth: map<Cell, nat>,
                 order: seq<Cell>, history: seq<seq<Cell>>)
    requires ValidGrid(grid)
    requires ExpandInv(grid, start, goal, s0, u, d + 1, stack, visited, parent, depth, order, history)
    requires d < |Directions| && !IsValidMove(grid, Step(u, d).r, Step(u, d).c, visited)
    ensures ExpandInv(grid, start, goal, s0, u, d, stack, visited, parent, depth, order, history)
  {
    ValidMoveIsFreshMove(grid, u, d, visited);
    DoneDirsDown(grid, u, d, visited, visited);
    if Step(u, d) in visited {
      Seen(grid, u, s0, stack, visited, order, d);
    }
    StackingSkip(grid, u, s0, order[..|order| - 1], stack, d);
  }

  /** After all four directions the loop-head state holds again. */
  lemma EndExpand(grid: Grid, start: Cell, goal: Cell, s0: seq<Cell>, u: Cell,
                  stack: seq<Cell>, visited: set<Cell>, parent: map<Cell, Option<Cell>>, depth: map<Cell, nat>,
                  order: seq<Cell>, history: seq<seq<Cell>>)
    requires ValidGrid(grid)
    requires ExpandInv(grid, start, goal, s0, u, 0, stack, visited, parent, depth, order, history)
    ensures LoopInv(grid, start, goal, stack, visited, parent, depth, order, history)
  {
    ExploredRestore(grid, order, visited, u);
    StackingDone(grid, u, s0, order[..|order| - 1], stack);
  }

  /** Popping the goal: the reconstructed path and the telemetry meet the contract. */
  lemma Succeed(grid: Grid, start: Cell, goal: Cell, s0: seq<Cell>, visited: set<Cell>,
                parent: map<Cell, Option<Cell>>, depth: map<Cell, nat>,
                order: seq<Cell>, history: seq<seq<Cell>>, r: SearchResult)
    requires ValidGrid(grid) && LoopInv(grid, start, goal, s0, visited, parent, depth, order, history)
    requires s0 != [] && s0[|s0| - 1] == goal
    requires ParentChain(parent, depth, r.path, goal)
    requires r.CountsAgree() && r.success
    requires r.visitedOrder == order + [goal] && r.frontierHistory == history + [s0]
    ensures SearchContract(grid, start, goal, r)
    ensures LifoTrace(grid, start, r.visitedOrder, r.frontierHistory)
  {
    ChainOutcome(grid, start, goal, parent, depth, r);
    SucceedTrace(grid, start, goal, s0, visited, order, history, r);
  }

  /** The telemetry half of `Succeed`. */
  lemma SucceedTrace(grid: Grid, start: Cell, goal: Cell, s0: seq<Cell>, visited: set<Cell>,
                     order: seq<Cell>, history: seq<seq<Cell>>, r: SearchResult)
    requires ValidGrid(grid) && Partition(visited, s0, order) && goal !in order && start in visited
    requires LifoTrace(grid, start, order, history) && Pending(grid, start, order, history, s0)
    requires s0 != [] && Top(s0) == goal
    requires r.CountsAgree() && r.success
    requires r.visitedOrder == order + [goal] && r.frontierHistory == history + [s0]
    ensures Telemetry(start, goal, r)
    ensures LifoTrace(grid, start, r.visitedOrder, r.frontierHistory)
  {
    LifoExtend(grid, start, order, history, s0);
    if order != [] {
      assert Top(history[0]) == order[0];
    }
    SuccessTelemetry(start, goal, order, history, s0, r);
  }

  /** The stack ran out: the explored cells are closed under moves, so the goal is unreachable. */
  lemma Fail(grid: Grid, start: Cell, goal: Cell, visited: set<Cell>,
             parent: map<Cell, Option<Cell>>, depth: map<Cell, nat>,
             order: seq<Cell>, history: seq<seq<Cell>>, r: SearchResult)
    requires ValidGrid(grid) && LoopInv(grid, start, goal, [], visited, parent, depth, order, history)
    requires r.CountsAgree() && !r.success && r.path == []
    requires r.visitedOrder == order && r.frontierHistory == history
    ensures SearchContract(grid, start, goal, r)
    ensures LifoTrace(grid, start, r.visitedOrder, r.frontierHistory)
  {
    assert Closed(grid, visited);
    forall c | Reachable(grid, start, c)
      ensures c in order
    {
      ClosedHoldsReachable(grid, start, visited, c);
    }
    forall c | c in order
      ensures Reachable(grid, start, c)
    {
      var w := TreeWalk(grid, start, parent, depth, c);
    }
  }

  /**
   * The inner loop of `search`: for each direction in reversed order, a
   * neighbour of `u` that is a valid move is marked, given parent `u`, and
   * pushed. Afterwards every neighbour of `u` is marked and the loop-head
   * state holds again; the loop measure (unmarked in-bounds cells, then
   * stack height) has decreased.
   */
  method PushNeighbours(s: TrackedGridSearch, ghost start: Cell, ghost goal: Cell, ghost s0: seq<Cell>, u: Cell,
                        stack0: seq<Cell>, visited0: set<Cell>, parent0: map<Cell, Option<Cell>>,
                        ghost depth0: map<Cell, nat>)
    returns (stack: seq<Cell>, visited: set<Cell>, parent: map<Cell, Option<Cell>>, ghost depth: map<Cell, nat>)
    requires s.Valid() && |stack0| < |s0|
    requires ExpandInv(s.grid, start, goal, s0, u, |Directions|, stack0, visited0, parent0, depth0,
                       s.visitedOrder, s.frontierHistory)
    ensures LoopInv(s.grid, start, goal, stack, visited, parent, depth, s.visitedOrder, s.frontierHistory)
    ensures |AllCells(s.grid) - visited| < |AllCells(s.grid) - visited0| ||
            (visited == visited0 && |stack| < |s0|)
  {
    stack, visited, parent, depth := stack0, visited0, parent0, depth0;
    for d := |Directions| downto 0
      invariant ExpandInv(s.grid, start, goal, s0, u, d, stack, visited, parent, depth,
                          s.visitedOrder, s.frontierHistory)
      invariant |AllCells(s.grid) - visited| < |AllCells(s.grid) - visited0| ||
                (visited == visited0 && |stack| < |s0|)
    {
      var n := Step(u, d);
      if IsValidMove(s.grid, n.r, n.c, visited) {
        MarkShrinks(s.grid, visited, n);
        PushStep(s.grid, start, goal, s0, u, d, stack, visited, parent, depth,
                 s.visitedOrder, s.frontierHistory);
        visited := visited + {n};
        parent := parent[n := Some(u)];
        depth := depth[n := depth[u] + 1];
        stack := stack + [n];
      } else {
        SkipStep(s.grid, start, goal, s0, u, d, stack, visited, parent, depth,
                 s.visitedOrder, s.frontierHistory);
      }
    }
    EndExpand(s.grid, start, goal, s0, u, stack, visited, parent, depth, s.visitedOrder, s.frontierHistory);
  }

  /**
   * `DFS.search(start, goal)`. Shares the contract of every search and adds:
   * one snapshot per explored cell, each explored cell the top of its
   * snapshot, and LIFO snapshots.
   */
  method Search(s: TrackedGridSearch, start: Cell, goal: Cell) returns (r: SearchResult)
    requires s.Valid()
    modifies s
    ensures r.visitedOrder == s.visitedOrder && r.frontierHistory == s.frontierHistory
    ensures SearchContract(s.grid, start, goal, r)
    ensures LifoTrace(s.grid, start, r.visitedOrder, r.frontierHistory)
  {
    s.InitTracking();
    var stack := [start];
    var visited := {start};
    var parent := map[start := None];
    ghost var depth := map[start := 0];
    Start(s.grid, start, goal);
    while stack != []
      invariant LoopInv(s.grid, start, goal, stack, visited, parent, depth, s.visitedOrder, s.frontierHistory)
      decreases |AllCells(s.grid) - visited|, |stack|
    {
      ghost var s0, order0, history0 := stack, s.visitedOrder, s.frontierHistory;
      s.RecordFrontier(stack);
      var u := stack[|stack| - 1];
      stack := stack[..|stack| - 1];
      s.RecordExplored(u);
      if u == goal {
        var path := s.ReconstructPath(parent, goal, depth);
        r := s.CreateResult(path, true);
        Succeed(s.grid, start, goal, s0, visited, parent, depth, order0, history0, r);
        return;
      }
      BeginExpand(s.grid, start, goal, s0, visited, parent, depth, order0, history0);
      stack, visited, parent, depth := PushNeighbours(s, start, goal, s0, u, stack, visited, parent, depth);
    }
    r := s.CreateResult([], false);
    Fail(s.grid, start, goal, visited, parent, depth, s.visitedOrder, s.frontierHistory, r);
  }

  /** `dfs_search(grid, start, goal)`: a fresh searcher, then `search`. */
  method DfsSearch(grid: Grid, start: Cell, goal: Cell) returns (r: SearchResult)
    requires ValidGrid(grid)
    ensures SearchContract(grid, start, goal, r)
    ensures LifoTrace(grid, start, r.visitedOrder, r.frontierHistory)
  {
    var searcher := new TrackedGridSearch(grid);
    r := Search(searcher, start, goal);
  }
}
