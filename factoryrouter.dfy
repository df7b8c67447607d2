/**
 * The magic-state factory router: a breadth-first search from a factory
 * output through free routing cells to the top row of the factory region.
 */
module FactoryRouters {
  import opened Wrappers
  import opened Patches
  import opened Transactions
  import opened Grids
  import opened Responses
  import opened Routing
  import opened Buffers

  /** A cell where the search may stop: on the top row, and in the strict column if one is given. */
  predicate Goal(p: Pos, strictCol: Option<int>)
  {
    p.row == 0 && (strictCol.None? || strictCol.value == p.col)
  }

  /** A walk from `start` over adjacent cells, every cell after `start` free routing space. */
  predicate Walk(cells: seq<Patch>, g: Grid, start: Pos, ps: seq<Pos>)
    requires Holds(g, |cells|)
  {
    |ps| > 0 && ps[0] == start && Contiguous(ps) && forall i | 1 <= i < |ps| :: Free(cells, g, ps[i].row, ps[i].col)
  }

  /** The free neighbours of the first `upto` queued cells have all been seen. */
  predicate Closed(cells: seq<Patch>, g: Grid, queue: seq<Pos>, seen: set<Pos>, upto: nat)
    requires Holds(g, |cells|) && upto <= |queue|
  {
    forall i, k | 0 <= i < upto && 0 <= k < 4 ::
      Free(cells, g, Neighbours(queue[i])[k].row, Neighbours(queue[i])[k].col) ==> Neighbours(queue[i])[k] in seen
  }

  /**
   * When the seen cells are exactly the queued ones and the free neighbours of
   * every queued cell are seen, every walk from the first queued cell stays
   * among the seen cells.
   */
  lemma {:induction false} WalkStaysSeen(cells: seq<Patch>, g: Grid, queue: seq<Pos>, seen: set<Pos>, order: map<Pos, nat>, ps: seq<Pos>, n: nat)
    requires Holds(g, |cells|) && |queue| > 0 && Walk(cells, g, queue[0], ps) && n < |ps|
    requires queue[0] in seen
    requires forall x | x in seen :: x in order && order[x] < |queue| && queue[order[x]] == x
    requires Closed(cells, g, queue, seen, |queue|)
    ensures ps[n] in seen
  {
    if n > 0 {
      WalkStaysSeen(cells, g, queue, seen, order, ps, n - 1);
      var q := queue[order[ps[n - 1]]];
      var k := NeighbourIndex(q, ps[n]);
      assert Free(cells, g, Neighbours(q)[k].row, Neighbours(q)[k].col);
    }
  }

  /**
   * The search bookkeeping: `queue` lists the seen cells in the order they
   * were found (`order` gives each one's index), each seen cell other than
   * `start` has a parent found before it and adjacent to it, and every cell
   * but `start` is free routing space of the region.
   */
  predicate SearchState(cells: seq<Patch>, g: Grid, h: nat, w: nat, start: Pos,
                        queue: seq<Pos>, seen: set<Pos>, parent: map<Pos, Pos>, order: map<Pos, nat>)
    requires Holds(g, |cells|)
  {
    |queue| > 0 && queue[0] == start
    && (forall i | 0 <= i < |queue| :: queue[i] in seen && queue[i] in order && order[queue[i]] == i)
    && (forall x | x in seen :: x in order && order[x] < |queue| && queue[order[x]] == x)
    && (forall x {:trigger x in parent} | x in seen :: x == start || x in parent)
    && (forall x | x in parent ::
          x in seen && parent[x] in seen && order[parent[x]] < order[x] && Adjacent(parent[x], x) && Free(cells, g, x.row, x.col))
    && (forall x | x in seen :: 0 <= x.row < h && 0 <= x.col < w)
  }

  /**
   * The loop over the four neighbours of the cell just taken from the queue:
   * every free neighbour not yet seen gets `cur` as its parent and joins the
   * queue.
   */
  method Expand(cells: seq<Patch>, g: Grid, h: nat, w: nat, start: Pos, cur: Pos, ghost qi: nat, ghost strictCol: Option<int>,
                queue0: seq<Pos>, seen0: set<Pos>, parent0: map<Pos, Pos>, ghost order0: map<Pos, nat>)
    returns (queue: seq<Pos>, seen: set<Pos>, parent: map<Pos, Pos>, ghost order: map<Pos, nat>)
    requires Rect(g, h, w) && Holds(g, |cells|)
    requires SearchState(cells, g, h, w, start, queue0, seen0, parent0, order0)
    requires qi < |queue0| && queue0[qi] == cur && Closed(cells, g, queue0, seen0, qi)
    requires forall i | 0 <= i <= qi :: !Goal(queue0[i], strictCol)
    ensures SearchState(cells, g, h, w, start, queue, seen, parent, order)
    ensures queue0 <= queue
    ensures |Cells(h, w) - seen| == |Cells(h, w) - seen0| - (|queue| - |queue0|)
    ensures Closed(cells, g, queue, seen, qi + 1)
    ensures forall i | 0 <= i <= qi :: !Goal(queue[i], strictCol)
  {
    queue, seen, parent, order := queue0, seen0, parent0, order0;
    var nb := Neighbours(cur);
    for k := 0 to 4
      invariant SearchState(cells, g, h, w, start, queue, seen, parent, order)
      invariant queue0 <= queue
      invariant |Cells(h, w) - seen| == |Cells(h, w) - seen0| - (|queue| - |queue0|)
      invariant seen0 <= seen && Closed(cells, g, queue, seen, qi)
      invariant forall k' | 0 <= k' < k :: Free(cells, g, nb[k'].row, nb[k'].col) ==> nb[k'] in seen
    {
      ghost var queue1, seen1 := queue, seen;
      queue, seen, parent, order := Visit(cells, g, h, w, start, cur, nb[k], queue, seen, parent, order);
      ClosedGrow(cells, g, queue1, seen1, queue, seen, qi);
      forall k' | 0 <= k' <= k && Free(cells, g, nb[k'].row, nb[k'].col) ensures nb[k'] in seen {
        if k' < k {
          assert nb[k'] in seen1;
        }
      }
    }
    assert queue[qi] == cur;
    ClosedStep(cells, g, queue, seen, qi);
  }

  /**
   * One neighbour `n` of `cur`: if it is in the region, free and not yet
   * seen, it is recorded with parent `cur` and joins the queue.
   */
  method Visit(cells: seq<Patch>, g: Grid, h: nat, w: nat, start: Pos, cur: Pos, n: Pos,
               queue0: seq<Pos>, seen0: set<Pos>, parent0: map<Pos, Pos>, ghost order0: map<Pos, nat>)
    returns (queue: seq<Pos>, seen: set<Pos>, parent: map<Pos, Pos>, ghost order: map<Pos, nat>)
    requires Rect(g, h, w) && Holds(g, |cells|)
    requires SearchState(cells, g, h, w, start, queue0, seen0, parent0, order0) && cur in seen0 && Adjacent(cur, n)
    ensures SearchState(cells, g, h, w, start, queue, seen, parent, order)
    ensures queue0 <= queue && seen0 <= seen
    ensures |Cells(h, w) - seen| == |Cells(h, w) - seen0| - (|queue| - |queue0|)
    ensures Free(cells, g, n.row, n.col) ==> n in seen
  {
    queue, seen, parent, order := queue0, seen0, parent0, order0;
    if 0 <= n.row < h && 0 <= n.col < w {
      if RouteAvailable(cells[g[n.row][n.col]]) && n !in seen {
        Push(cells, g, h, w, start, queue, seen, parent, order, cur, n);
        parent := parent[n := cur];
        queue := queue + [n];
        seen := seen + {n};
        order := order[n := |queue| - 1];
      }
    }
  }

  /** Adding a free, unseen neighbour of a seen cell keeps the bookkeeping and shrinks the unseen cells by one. */
  lemma Push(cells: seq<Patch>, g: Grid, h: nat, w: nat, start: Pos,
             queue: seq<Pos>, seen: set<Pos>, parent: map<Pos, Pos>, order: map<Pos, nat>, cur: Pos, n: Pos)
    requires Rect(g, h, w) && Holds(g, |cells|)
    requires SearchState(cells, g, h, w, start, queue, seen, parent, order)
    requires cur in seen && Adjacent(cur, n) && Free(cells, g, n.row, n.col) && n !in seen
    ensures SearchState(cells, g, h, w, start, queue + [n], seen + {n}, parent[n := cur], order[n := |queue|])
    ensures |Cells(h, w) - (seen + {n})| == |Cells(h, w) - seen| - 1
  {
    CellsHas(h, w, n);
    assert Cells(h, w) - (seen + {n}) == (Cells(h, w) - seen) - {n};
    var q := queue + [n];
    assert forall i | 0 <= i < |queue| :: q[i] == queue[i];
  }

  /** Growing the queue at its end and the seen set keeps what was closed closed. */
  lemma ClosedGrow(cells: seq<Patch>, g: Grid, queue: seq<Pos>, seen: set<Pos>, queue': seq<Pos>, seen': set<Pos>, upto: nat)
    requires Holds(g, |cells|) && upto <= |queue| && queue <= queue' && seen <= seen'
    requires Closed(cells, g, queue, seen, upto)
    ensures Closed(cells, g, queue', seen', upto)
  {
    assert forall i | 0 <= i < upto :: queue'[i] == queue[i];
  }

  /** Once the free neighbours of queued cell `i` are seen, the closed prefix extends past it. */
  lemma ClosedStep(cells: seq<Patch>, g: Grid, queue: seq<Pos>, seen: set<Pos>, i: nat)
    requires Holds(g, |cells|) && i < |queue| && Closed(cells, g, queue, seen, i)
    requires forall k | 0 <= k < 4 :: Free(cells, g, Neighbours(queue[i])[k].row, Neighbours(queue[i])[k].col) ==> Neighbours(queue[i])[k] in seen
    ensures Closed(cells, g, queue, seen, i + 1)
  {
  }

  /**
   * Following parents back from `goal` to `start`, then reversing: a walk
   * from `start` to `goal` through free cells, no cell twice.
   */
  method Rebuild(cells: seq<Patch>, g: Grid, h: nat, w: nat, start: Pos, goal: Pos,
                 queue: seq<Pos>, seen: set<Pos>, parent: map<Pos, Pos>, ghost order: map<Pos, nat>)
    returns (route: seq<Pos>)
    requires Rect(g, h, w) && Holds(g, |cells|) && InGrid(g, start)
    requires SearchState(cells, g, h, w, start, queue, seen, parent, order) && goal in seen
    ensures Walk(cells, g, start, route) && route[|route| - 1] == goal && AllIn(g, route) && NoRepeats(route)
  {
    var frag := [goal];
    var p := goal;
    while p in parent
      invariant p in seen && |frag| > 0 && frag[0] == goal && frag[|frag| - 1] == p
      invariant Contiguous(frag)
      invariant forall i | 0 <= i < |frag| :: frag[i] in seen && order[frag[i]] >= order[p]
      invariant forall i | 0 <= i < |frag| - 1 :: frag[i] in parent
      invariant forall i, j | 0 <= i < j < |frag| :: order[frag[i]] > order[frag[j]]
      decreases order[p]
    {
      ContiguousJoin(frag, [parent[p]]);
      p := parent[p];
      frag := frag + [p];
    }
    route := Reversed(frag);
    ContiguousReversed(frag);
    assert route[0] == start;
    forall i | 1 <= i < |route| ensures Free(cells, g, route[i].row, route[i].col) {
      assert route[i] == frag[|frag| - 1 - i] && frag[|frag| - 1 - i] in parent;
    }
    forall i, j | 0 <= i < j < |route| ensures route[i] != route[j] {
      assert route[i] == frag[|frag| - 1 - i] && route[j] == frag[|frag| - 1 - j];
    }
    forall i | 0 <= i < |route| ensures InGrid(g, route[i]) {
      assert route[i] == frag[|frag| - 1 - i];
    }
  }

  /**
   * `bfs(curr_patch, strict_col)`: breadth-first search from `start` through
   * free routing cells, stopping at the first goal cell taken from the queue,
   * and the path to it rebuilt by following parents back to `start`.
   */
  method Bfs(cells: seq<Patch>, g: Grid, h: nat, w: nat, start: Pos, strictCol: Option<int>)
    returns (path: Option<seq<Pos>>)
    requires Rect(g, h, w) && Holds(g, |cells|) && InGrid(g, start)
    ensures path.Some? ==>
      Walk(cells, g, start, path.value) && Goal(path.value[|path.value| - 1], strictCol)
      && AllIn(g, path.value) && NoRepeats(path.value)
    ensures path.None? ==> forall ps | Walk(cells, g, start, ps) :: !Goal(ps[|ps| - 1], strictCol)
  {
    var queue := [start];
    var qi := 0;
    var parent: map<Pos, Pos> := map[];
    var seen: set<Pos> := {start};
    ghost var order: map<Pos, nat> := map[start := 0];
    while qi < |queue|
      invariant SearchState(cells, g, h, w, start, queue, seen, parent, order)
      invariant qi <= |queue| && Closed(cells, g, queue, seen, qi)
      invariant forall i | 0 <= i < qi :: !Goal(queue[i], strictCol)
      decreases |Cells(h, w) - seen|, |queue| - qi
    {
      var cur := queue[qi];
      if Goal(cur, strictCol) {
        var route := Rebuild(cells, g, h, w, start, cur, queue, seen, parent, order);
        return Some(route);
      }
      queue, seen, parent, order := Expand(cells, g, h, w, start, cur, qi, strictCol, queue, seen, parent, order);
      qi := qi + 1;
    }
    forall ps | Walk(cells, g, start, ps) ensures !Goal(ps[|ps| - 1], strictCol) {
      WalkStaysSeen(cells, g, queue, seen, order, ps, |ps| - 1);
      assert queue[order[ps[|ps| - 1]]] == ps[|ps| - 1];
    }
    return None;
  }

  /**
   * `_make_transaction(path, connect)`: the output is measured and is the
   * magic state; activation takes it out of the region's available states and
   * unlocking puts it back if it still holds a T.
   */
  function FactoryProposal(g: Grid, path: seq<Pos>, pool: nat): (t: Proposal)
    requires |path| > 0 && AllIn(g, path)
    ensures t.move == IdsAt(g, path) && t.measure == [At(g, path[0])] && t.magic == Some(At(g, path[0]))
    ensures t.connectCol == Some(path[|path| - 1].col)
    ensures t.onActivate == RemoveMagicState(pool) && t.onUnlock == RestoreMagicState(pool)
  {
    Proposal(IdsAt(g, path), [At(g, path[0])], Some(path[|path| - 1].col), Some(At(g, path[0])), RemoveMagicState(pool), RestoreMagicState(pool))
  }

  /**
   * `_request_transaction(output_col, strict_output_col)` over the positions of
   * the region's available states sorted by (|column − output column|, row),
   * the output column first clamped into the region: the transaction along
   * the search path of the first output that offers a T and reaches a goal
   * cell.  `k` is the position in the queue of the output used.
   */
  method Request(cells: seq<Patch>, g: Grid, h: nat, w: nat, queue: seq<Pos>, outputCol: int, strict: bool, pool: nat)
    returns (r: Option<Proposal>, route: seq<Pos>, ghost k: nat)
    requires Rect(g, h, w) && Holds(g, |cells|) && w > 0
    requires forall i | 0 <= i < |queue| :: InGrid(g, queue[i])
    requires QueueOrder(queue, Clamp(outputCol, 0, w - 1))
    ensures var goalCol := if strict then Some(Clamp(outputCol, 0, w - 1)) else None;
      r.Some? ==>
        k < |queue| && Stocked(cells, g, queue[k].row, queue[k].col)
        && Walk(cells, g, queue[k], route) && Goal(route[|route| - 1], goalCol)
        && AllIn(g, route) && TRoute(cells, g, route) && NoRepeats(route)
        && r.value == FactoryProposal(g, route, pool)
    ensures var goalCol := if strict then Some(Clamp(outputCol, 0, w - 1)) else None;
      forall j | 0 <= j < (if r.Some? then k else |queue|) && Stocked(cells, g, queue[j].row, queue[j].col) ::
        forall ps | Walk(cells, g, queue[j], ps) :: !Goal(ps[|ps| - 1], goalCol)
  {
    var col := Clamp(outputCol, 0, w - 1);
    var goalCol := if strict then Some(col) else None;
    route := [];
    k := 0;
    for i := 0 to |queue|
      invariant forall j | 0 <= j < i && Stocked(cells, g, queue[j].row, queue[j].col) ::
        forall ps | Walk(cells, g, queue[j], ps) :: !Goal(ps[|ps| - 1], goalCol)
    {
      var output := queue[i];
      if !TAvailable(cells[g[output.row][output.col]]) {
        continue;
      }
      var path := Bfs(cells, g, h, w, output, goalCol);
      if path.Some? {
        route, k := path.value, i;
        assert TRoute(cells, g, route) by {
          forall j | 1 <= j < |route| ensures RouteAvailable(cells[At(g, route[j])]) {
            assert Free(cells, g, route[j].row, route[j].col);
          }
        }
        return Some(FactoryProposal(g, route, pool)), route, k;
      }
    }
    r := None;
  }

  /**
   * `generic_transaction(source_patch)`: the request towards the source's
   * column in the region's own coordinates (`localX`, as `tl` gives it),
   * answered with SUCCESS, or the default response.
   */
  method Generic(cells: seq<Patch>, g: Grid, h: nat, w: nat, queue: seq<Pos>, localX: int, strict: bool, pool: nat)
    returns (resp: Response, ghost route: seq<Pos>, ghost k: nat)
    requires Rect(g, h, w) && Holds(g, |cells|) && w > 0
    requires forall i | 0 <= i < |queue| :: InGrid(g, queue[i])
    requires QueueOrder(queue, Clamp(localX, 0, w - 1))
    ensures resp.status == Success || resp == FailedResponse()
    ensures resp.status == Success ==>
      resp.transaction.Some? && resp.transaction.value.magic.Some?
      && resp.transaction.value.magic.value < |cells| && TAvailable(cells[resp.transaction.value.magic.value])
      && resp.transaction.value.onUnlock == RestoreMagicState(pool)
    ensures var goalCol := if strict then Some(Clamp(localX, 0, w - 1)) else None;
      resp.status == Success ==>
        k < |queue| && Stocked(cells, g, queue[k].row, queue[k].col)
        && Walk(cells, g, queue[k], route) && Goal(route[|route| - 1], goalCol)
        && resp.transaction == Some(FactoryProposal(g, route, pool))
        && forall j | 0 <= j < k && Stocked(cells, g, queue[j].row, queue[j].col) ::
             forall ps | Walk(cells, g, queue[j], ps) :: !Goal(ps[|ps| - 1], goalCol)
    ensures resp.status != Success ==>
      forall j | 0 <= j < |queue| && Stocked(cells, g, queue[j].row, queue[j].col) ::
        forall ps | Walk(cells, g, queue[j], ps) :: !Goal(ps[|ps| - 1], if strict then Some(Clamp(localX, 0, w - 1)) else None)
  {
    var trans, path;
    trans, path, k := Request(cells, g, h, w, queue, localX, strict, pool);
    route := path;
    if trans.Some? {
      resp := MakeResponse(Success, trans);
    } else {
      resp := FailedResponse();
    }
  }
}
