/**
 * The vocabulary the searches are specified in: 4-connected walks through
 * free cells, reachability, shortest walks, the parent trees the searches
 * build, and the result contract all four searches share.
 */
module Paths {
  import opened Utils

  /**
   * `w` walks from `s` to `t`: every step moves to an adjacent cell that is in
   * bounds and free. The first cell itself is not checked, as no search
   * checks its start cell.
   */
  ghost predicate IsWalk(grid: Grid, w: seq<Cell>, s: Cell, t: Cell)
    requires ValidGrid(grid)
  {
    |w| > 0 && w[0] == s && w[|w| - 1] == t &&
    forall i :: 0 <= i < |w| - 1 ==> Move(grid, w[i], w[i + 1])
  }

  ghost predicate Reachable(grid: Grid, s: Cell, t: Cell)
    requires ValidGrid(grid)
  {
    exists w :: IsWalk(grid, w, s, t)
  }

  /** `p` is a walk from `s` to `t` and no walk from `s` to `t` has fewer cells. */
  ghost predicate Shortest(grid: Grid, p: seq<Cell>, s: Cell, t: Cell)
    requires ValidGrid(grid)
  {
    IsWalk(grid, p, s, t) && forall w :: IsWalk(grid, w, s, t) ==> |p| <= |w|
  }

  /**
   * The parent map of a search: rooted at `start` (the only cell mapped to
   * None), acyclic by `depth`, and every other cell is one move from its parent.
   */
  ghost predicate ParentTree(grid: Grid, start: Cell, parent: map<Cell, Option<Cell>>, depth: map<Cell, nat>)
    requires ValidGrid(grid)
  {
    Ranked(parent, depth) && start in parent && parent[start] == None &&
    forall c {:trigger parent[c]} :: c in parent && c != start ==> parent[c].Some? && Move(grid, parent[c].value, c)
  }

  /** Re-parenting a cell that is nobody's parent under a neighbour it can be entered from keeps a parent tree. */
  lemma ParentTreeReparent(grid: Grid, start: Cell, parent: map<Cell, Option<Cell>>, depth: map<Cell, nat>,
                           u: Cell, n: Cell)
    requires ValidGrid(grid) && ParentTree(grid, start, parent, depth)
    requires u in parent && Move(grid, u, n) && n != start
    requires forall c :: c in parent ==> parent[c] != Some(n)
    ensures ParentTree(grid, start, parent[n := Some(u)], depth[n := depth[u] + 1])
  {
    RankedReparent(parent, depth, u, n);
  }

  /** Every cell of a parent tree is reachable, by a walk of `depth + 1` cells. */
  lemma {:induction false} TreeWalk(grid: Grid, start: Cell, parent: map<Cell, Option<Cell>>,
                                    depth: map<Cell, nat>, c: Cell) returns (w: seq<Cell>)
    requires ValidGrid(grid) && ParentTree(grid, start, parent, depth) && c in parent
    ensures IsWalk(grid, w, start, c) && |w| == depth[c] + 1
    decreases depth[c]
  {
    RankedParent(parent, depth, c);
    if c == start {
      w := [c];
    } else {
      var p := parent[c].value;
      var w' := TreeWalk(grid, start, parent, depth, p);
      w := w' + [c];
      assert forall i :: 0 <= i < |w'| ==> w[i] == w'[i];
    }
  }

  /**
   * The chain of parent pointers that `ReconstructPath` returns is a walk from
   * the root to the goal that never repeats a cell.
   */
  lemma ChainIsWalk(grid: Grid, start: Cell, parent: map<Cell, Option<Cell>>, depth: map<Cell, nat>,
                    path: seq<Cell>, goal: Cell)
    requires ValidGrid(grid) && ParentTree(grid, start, parent, depth) && ParentChain(parent, depth, path, goal)
    ensures IsWalk(grid, path, start, goal) && Distinct(path)
  {
    forall i | 0 <= i < |path| - 1
      ensures Move(grid, path[i], path[i + 1])
    {
      assert path[i + 1] != start;
    }
  }

  /** Cutting a walk after its k-th cell leaves a walk to that cell. */
  lemma WalkPrefix(grid: Grid, w: seq<Cell>, s: Cell, t: Cell, k: nat)
    requires ValidGrid(grid) && IsWalk(grid, w, s, t) && 0 < k <= |w|
    ensures IsWalk(grid, w[..k], s, w[k - 1])
  {
  }

  /** A walk from inside `V` to outside `V` has a step that leaves `V`. */
  lemma FirstExit(grid: Grid, w: seq<Cell>, s: Cell, t: Cell, V: set<Cell>) returns (j: nat)
    requires ValidGrid(grid) && IsWalk(grid, w, s, t) && s in V && t !in V
    ensures 0 < j < |w| && w[j - 1] in V && w[j] !in V
  {
    j := 1;
    while w[j] in V
      invariant 0 < j < |w| && w[j - 1] in V
      decreases |w| - j
    {
      j := j + 1;
    }
  }

  /** No move leads out of `V`. */
  ghost predicate Closed(grid: Grid, V: set<Cell>)
    requires ValidGrid(grid)
  {
    forall v, n :: v in V && Move(grid, v, n) ==> n in V
  }

  /** A set that holds `start` and that no move leaves holds every reachable cell. */
  lemma ClosedHoldsReachable(grid: Grid, start: Cell, V: set<Cell>, t: Cell)
    requires ValidGrid(grid) && start in V && Closed(grid, V) && Reachable(grid, start, t)
    ensures t in V
  {
    var w :| IsWalk(grid, w, start, t);
    var i := 0;
    while i < |w| - 1
      invariant 0 <= i < |w| && w[i] in V
    {
      assert Move(grid, w[i], w[i + 1]);
      i := i + 1;
    }
  }

  /**
   * The bookkeeping of a search that marks cells when it pushes them: the
   * marked cells are exactly the keys of the parent tree (and of its depth map).
   */
  ghost predicate Marked(grid: Grid, start: Cell, visited: set<Cell>,
                         parent: map<Cell, Option<Cell>>, depth: map<Cell, nat>)
    requires ValidGrid(grid)
  {
    ParentTree(grid, start, parent, depth) && parent.Keys == visited && depth.Keys == visited
  }

  /**
   * Every marked cell is either waiting in the frontier or already explored,
   * never both, and neither sequence repeats a cell.
   */
  ghost predicate Partition(visited: set<Cell>, frontier: seq<Cell>, order: seq<Cell>) {
    && (forall c :: c in visited <==> c in frontier || c in order)
    && Distinct(frontier) && Distinct(order)
    && (forall i, j :: 0 <= i < |frontier| && 0 <= j < |order| ==> frontier[i] != order[j])
  }

  /**
   * `n` is one move from `u` and is neither among the cells explored before
   * (`seen`) nor waiting in the `frontier` snapshot: the neighbours a search
   * that marks on push adds when it expands `u`.
   */
  ghost predicate FreshMove(grid: Grid, u: Cell, n: Cell, seen: seq<Cell>, frontier: seq<Cell>)
    requires ValidGrid(grid)
  {
    Move(grid, u, n) && n !in seen && n !in frontier
  }

  /** Every move out of an explored cell leads to a marked cell. */
  ghost predicate Explored(grid: Grid, order: seq<Cell>, visited: set<Cell>)
    requires ValidGrid(grid)
  {
    forall v, n :: v in order && Move(grid, v, n) ==> n in visited
  }

  /** Every explored cell except `u` has all its neighbours marked. */
  ghost predicate ExploredExcept(grid: Grid, order: seq<Cell>, visited: set<Cell>, u: Cell)
    requires ValidGrid(grid)
  {
    forall v, n :: v in order && v != u && Move(grid, v, n) ==> n in visited
  }

  /** The neighbours of `u` in the directions `lo` up to (not including) `hi` are marked. */
  ghost predicate DoneDirs(grid: Grid, u: Cell, lo: nat, hi: nat, visited: set<Cell>)
    requires ValidGrid(grid)
  {
    forall e :: lo <= e < hi && e < |Directions| && Move(grid, u, Step(u, e)) ==> Step(u, e) in visited
  }

  /** Moving the popped cell `u` from the frontier to the explored cells. */
  lemma PartitionPop(visited: set<Cell>, frontier: seq<Cell>, rest: seq<Cell>, order: seq<Cell>, u: Cell)
    requires Partition(visited, frontier, order)
    requires frontier == [u] + rest || frontier == rest + [u]
    ensures Partition(visited, rest, order + [u])
    ensures u in visited
  {
    assert u in frontier;
    PopDistinct(frontier, rest, u);
    var order' := order + [u];
    forall c
      ensures c in visited <==> c in rest || c in order'
    {
      assert c in frontier <==> c == u || c in rest;
    }
    assert forall j :: 0 <= j < |order| ==> order'[j] == order[j];
    forall i, j | 0 <= i < |rest| && 0 <= j < |order'|
      ensures rest[i] != order'[j]
    {
      if j < |order| {
        var m := if frontier == [u] + rest then i + 1 else i;
        assert rest[i] == frontier[m];
      }
    }
  }

  /** Popping the last cell of the frontier (a stack pop). */
  lemma PartitionPopLast(visited: set<Cell>, frontier: seq<Cell>, order: seq<Cell>)
    requires Partition(visited, frontier, order) && frontier != []
    ensures Partition(visited, frontier[..|frontier| - 1], order + [frontier[|frontier| - 1]])
    ensures frontier[|frontier| - 1] in visited
  {
    assert frontier == frontier[..|frontier| - 1] + [frontier[|frontier| - 1]];
    PartitionPop(visited, frontier, frontier[..|frontier| - 1], order, frontier[|frontier| - 1]);
  }

  /** Removing one end of a repetition-free frontier leaves a repetition-free rest without it. */
  lemma PopDistinct(frontier: seq<Cell>, rest: seq<Cell>, u: Cell)
    requires Distinct(frontier)
    requires frontier == [u] + rest || frontier == rest + [u]
    ensures Distinct(rest) && u !in rest
  {
    if frontier == [u] + rest {
      assert forall i :: 0 <= i < |rest| ==> rest[i] == frontier[i + 1];
      assert frontier[0] == u;
    } else {
      assert forall i :: 0 <= i < |rest| ==> rest[i] == frontier[i];
      assert frontier[|rest|] == u;
    }
  }

  /** Marking `n` and pushing it. */
  lemma PartitionPush(visited: set<Cell>, frontier: seq<Cell>, order: seq<Cell>, n: Cell)
    requires Partition(visited, frontier, order) && n !in visited
    ensures Partition(visited + {n}, frontier + [n], order)
  {
    assert n !in frontier && n !in order;
  }

  /** Marking `n` with parent `u`, one level below it. */
  lemma MarkedPush(grid: Grid, start: Cell, visited: set<Cell>, parent: map<Cell, Option<Cell>>,
                   depth: map<Cell, nat>, u: Cell, n: Cell)
    requires ValidGrid(grid) && Marked(grid, start, visited, parent, depth)
    requires u in visited && Move(grid, u, n) && n !in visited
    ensures Marked(grid, start, visited + {n}, parent[n := Some(u)], depth[n := depth[u] + 1])
  {
    RankedPush(parent, depth, u, n);
    assert n != start;
  }

  /** Once all four directions of `u` are done, `u` joins the closed explored cells. */
  lemma ExploredRestore(grid: Grid, order: seq<Cell>, visited: set<Cell>, u: Cell)
    requires ValidGrid(grid)
    requires ExploredExcept(grid, order, visited, u) && DoneDirs(grid, u, 0, |Directions|, visited)
    ensures Explored(grid, order, visited)
  {
    forall v, n | v in order && Move(grid, v, n)
      ensures n in visited
    {
      if v == u {
        assert Step(u, Dir(u, n)) == n;
      }
    }
  }

  /** Direction `d` of `u` is done once its neighbour is marked or is no move: the done range grows upwards. */
  lemma DoneDirsUp(grid: Grid, u: Cell, d: nat, visited: set<Cell>, visited': set<Cell>)
    requires ValidGrid(grid) && d < |Directions| && DoneDirs(grid, u, 0, d, visited) && visited <= visited'
    requires Move(grid, u, Step(u, d)) ==> Step(u, d) in visited'
    ensures DoneDirs(grid, u, 0, d + 1, visited')
  {
  }

  /** The same, for a range that grows downwards. */
  lemma DoneDirsDown(grid: Grid, u: Cell, d: nat, visited: set<Cell>, visited': set<Cell>)
    requires ValidGrid(grid) && d < |Directions| && DoneDirs(grid, u, d + 1, |Directions|, visited)
    requires visited <= visited'
    requires Move(grid, u, Step(u, d)) ==> Step(u, d) in visited'
    ensures DoneDirs(grid, u, d, |Directions|, visited')
  {
  }

  /**
   * The telemetry every search returns: consistent counters, no cell
   * explored twice, exploration starting at `start` and stopping at the
   * first exploration of `goal`, and the one-step trace when `start == goal`.
   */
  ghost predicate Telemetry(start: Cell, goal: Cell, r: SearchResult) {
    && r.CountsAgree()
    && Distinct(r.visitedOrder)
    && |r.visitedOrder| > 0 && r.visitedOrder[0] == start
    && |r.frontierHistory| > 0 && r.frontierHistory[0] == [start]
    && (forall i :: 0 <= i < |r.visitedOrder| - 1 ==> r.visitedOrder[i] != goal)
    && (r.success ==> r.visitedOrder[|r.visitedOrder| - 1] == goal)
    && (start == goal ==> r.visitedOrder == [start] && r.frontierHistory == [[start]])
  }

  /**
   * A search that stops on its first exploration of `goal`, after the
   * repetition-free exploration `order` that began at `start` (or with the
   * first frontier `[start]` when nothing was explored before), returns the
   * telemetry every search promises.
   */
  lemma SuccessTelemetry(start: Cell, goal: Cell, order: seq<Cell>, history: seq<seq<Cell>>, last: seq<Cell>,
                         r: SearchResult)
    requires Distinct(order) && goal !in order && |history| == |order|
    requires order != [] ==> order[0] == start && history[0] == [start]
    requires order == [] ==> goal == start && last == [start]
    requires r.CountsAgree() && r.success
    requires r.visitedOrder == order + [goal] && r.frontierHistory == history + [last]
    ensures Telemetry(start, goal, r)
  {
    if order != [] {
      assert order[0] in order;
    }
  }

  /**
   * The outcome every search returns: success exactly when `goal` is
   * reachable, with a repetition-free walk as the path; on failure an empty
   * path after exploring exactly the reachable cells; and the one-cell path
   * when `start == goal`.
   */
  ghost predicate Outcome(grid: Grid, start: Cell, goal: Cell, r: SearchResult)
    requires ValidGrid(grid)
  {
    && (r.success <==> Reachable(grid, start, goal))
    && (r.success ==> IsWalk(grid, r.path, start, goal) && Distinct(r.path))
    && (!r.success ==> r.path == [] && forall c :: c in r.visitedOrder <==> Reachable(grid, start, c))
    && (start == goal ==> r.success && r.path == [start])
  }

  /**
   * A successful result whose path is the parent chain to `goal` has the
   * outcome every search promises.
   */
  lemma ChainOutcome(grid: Grid, start: Cell, goal: Cell, parent: map<Cell, Option<Cell>>, depth: map<Cell, nat>,
                     r: SearchResult)
    requires ValidGrid(grid) && ParentTree(grid, start, parent, depth) && ParentChain(parent, depth, r.path, goal)
    requires r.success
    ensures Outcome(grid, start, goal, r)
  {
    ChainIsWalk(grid, start, parent, depth, r.path, goal);
    if start == goal {
      RankedParent(parent, depth, start);
    }
  }

  /** What every search returns. */
  ghost predicate SearchContract(grid: Grid, start: Cell, goal: Cell, r: SearchResult)
    requires ValidGrid(grid)
  {
    Telemetry(start, goal, r) && Outcome(grid, start, goal, r)
  }

  /**
   * Any two searches for the same query agree on whether `goal` is found,
   * and when it is not they have explored the same cells: BFS, DFS, A* and
   * GBFS differ only in the order of exploration and the path they return.
   */
  lemma SearchesAgree(grid: Grid, start: Cell, goal: Cell, r1: SearchResult, r2: SearchResult)
    requires ValidGrid(grid)
    requires SearchContract(grid, start, goal, r1) && SearchContract(grid, start, goal, r2)
    ensures r1.success <==> r2.success
    ensures !r1.success ==> r1.path == r2.path == [] && forall c :: c in r1.visitedOrder <==> c in r2.visitedOrder
    ensures !r1.success ==> r1.exploredCount == r2.exploredCount
  {
    if !r1.success {
      SameCellsSameCount(r1.visitedOrder, r2.visitedOrder);
    }
  }

  /** Two repetition-free sequences with the same elements have the same length. */
  lemma SameCellsSameCount(a: seq<Cell>, b: seq<Cell>)
    requires Distinct(a) && Distinct(b)
    requires forall c :: c in a <==> c in b
    ensures |a| == |b|
  {
    DistinctCount(a);
    DistinctCount(b);
    assert (set c | c in a) == (set c | c in b);
  }

  /** A repetition-free sequence has as many elements as the set of its cells. */
  lemma {:induction false} DistinctCount(a: seq<Cell>)
    requires Distinct(a)
    ensures |set c | c in a| == |a|
  {
    if a != [] {
      var t := a[1..];
      assert Distinct(t) by {
        forall i, j | 0 <= i < j < |t|
          ensures t[i] != t[j]
        {
          assert t[i] == a[i + 1] && t[j] == a[j + 1];
        }
      }
      DistinctCount(t);
      assert a[0] !in t;
      assert (set c | c in a) == (set c | c in t) + {a[0]};
    }
  }
}
