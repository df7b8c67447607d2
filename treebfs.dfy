/**
 * The breadth-first part of the tree buffer router's `reparse_tree`: from
 * the last cell of a tree node, a search over ROUTE patches collects the T
 * patches it meets face on, and each one found becomes a path fragment
 * rebuilt through the search's parent links.
 */
module TreeBfs {
  import opened Wrappers
  import opened Patches
  import opened Grids

  /**
   * `matching_rotation`: a T patch at `to` met from `from` faces the right
   * way when the step is horizontal and its Z edge is not on top, or the
   * step is vertical and its Z edge is on top.
   */
  predicate Matching(from: Pos, to: Pos, o: PatchOrientation)
  {
    (from.row == to.row) != (o == ZTop)
  }

  /** The patch at `p` is a T patch (used or not). */
  predicate IsT(cells: seq<Patch>, g: Grid, p: Pos)
    requires Holds(g, |cells|)
  {
    InGrid(g, p) && cells[At(g, p)].patchType == T
  }

  /** The patch at `p` is a ROUTE patch (locked or not). */
  predicate IsRoute(cells: seq<Patch>, g: Grid, p: Pos)
    requires Holds(g, |cells|)
  {
    InGrid(g, p) && cells[At(g, p)].patchType == Route
  }

  /** `p` is a T patch that a step from `from` meets with the matching orientation. */
  predicate Faces(cells: seq<Patch>, g: Grid, from: Pos, p: Pos)
    requires Holds(g, |cells|)
  {
    IsT(cells, g, p) && Matching(from, p, cells[At(g, p)].orientation)
  }

  /** The search's variables: the queue (never shortened: `qi` in the method marks its head), seen cells, parents, results. */
  datatype Scan = Scan(queue: seq<Pos>, seen: set<Pos>, parent: map<Pos, Pos>, results: seq<Pos>)

  /**
   * One neighbour `n` of the cell `cur` just taken from the queue.  A T patch
   * facing `cur` gets `cur` as its parent and is added to the results; an
   * unseen ROUTE patch gets `cur` as its parent and joins the queue.  As
   * written (`guarded` false) the T branch does not look at `seen`, so the
   * search's own start cell, when it is a T patch, can be given a parent;
   * with `guarded` the T branch skips seen cells.
   */
  function Visit(cells: seq<Patch>, g: Grid, cur: Pos, n: Pos, guarded: bool, st: Scan): (r: Scan)
    requires Holds(g, |cells|)
  {
    if Faces(cells, g, cur, n) && !(guarded && n in st.seen) then
      st.(parent := st.parent[n := cur], results := st.results + [n])
    else if IsRoute(cells, g, n) && n !in st.seen then
      st.(queue := st.queue + [n], seen := st.seen + {n}, parent := st.parent[n := cur])
    else st
  }

  /** The first `k` neighbours of `cur` visited, in the order down, left, right, up. */
  function ScanPrefix(cells: seq<Patch>, g: Grid, cur: Pos, guarded: bool, st: Scan, k: nat): Scan
    requires Holds(g, |cells|) && k <= 4
  {
    if k == 0 then st else Visit(cells, g, cur, Neighbours(cur)[k - 1], guarded, ScanPrefix(cells, g, cur, guarded, st, k - 1))
  }

  /**
   * The guarded search's bookkeeping: `queue` lists the seen cells in the
   * order found (`order` indexes them), every seen cell but `start` is a
   * ROUTE patch with a parent found before it, `start` has no parent, every
   * parent is seen and adjacent to its child, a cell with a parent that is
   * not seen is a T patch facing its parent, and every result is such a cell.
   */
  ghost predicate BfsState(cells: seq<Patch>, g: Grid, start: Pos, st: Scan, order: map<Pos, nat>)
    requires Holds(g, |cells|)
  {
    |st.queue| > 0 && st.queue[0] == start && start !in st.parent
    && (forall i | 0 <= i < |st.queue| :: st.queue[i] in st.seen && st.queue[i] in order && order[st.queue[i]] == i)
    && (forall x | x in st.seen :: x in order && order[x] < |st.queue| && st.queue[order[x]] == x)
    && (forall x {:trigger x in st.parent} | x in st.seen :: x == start || (x in st.parent && IsRoute(cells, g, x)))
    && (forall x | x in st.parent ::
          st.parent[x] in st.seen && Adjacent(st.parent[x], x)
          && (x in st.seen ==> order[st.parent[x]] < order[x])
          && (x !in st.seen ==> Faces(cells, g, st.parent[x], x)))
    && (forall k | 0 <= k < |st.results| :: st.results[k] in st.parent && st.results[k] !in st.seen)
  }

  /** One guarded visit keeps the bookkeeping, given `order` extended for a newly queued cell. */
  lemma VisitKeeps(cells: seq<Patch>, g: Grid, h: nat, w: nat, start: Pos, cur: Pos, qi: nat, n: Pos, st: Scan, order: map<Pos, nat>)
    requires Rect(g, h, w) && Holds(g, |cells|) && BfsState(cells, g, start, st, order)
    requires qi < |st.queue| && st.queue[qi] == cur && Adjacent(cur, n)
    ensures var r := Visit(cells, g, cur, n, true, st);
      var o := if |r.queue| > |st.queue| then order[n := |st.queue|] else order;
      BfsState(cells, g, start, r, o)
      && st.queue <= r.queue && |r.queue| <= |st.queue| + 1
      && |Cells(h, w) - r.seen| == |Cells(h, w) - st.seen| - (|r.queue| - |st.queue|)
  {
    if Faces(cells, g, cur, n) && n !in st.seen {
      VisitFinds(cells, g, start, cur, n, st, order);
    } else if !Faces(cells, g, cur, n) && IsRoute(cells, g, n) && n !in st.seen {
      VisitQueues(cells, g, h, w, start, cur, qi, n, st, order);
    } else {
      assert Visit(cells, g, cur, n, true, st) == st;
    }
  }

  /** A T patch facing the current cell becomes a result with the current cell as parent. */
  lemma VisitFinds(cells: seq<Patch>, g: Grid, start: Pos, cur: Pos, n: Pos, st: Scan, order: map<Pos, nat>)
    requires Holds(g, |cells|) && BfsState(cells, g, start, st, order)
    requires cur in st.seen && Adjacent(cur, n)
    requires Faces(cells, g, cur, n) && n !in st.seen
    ensures BfsState(cells, g, start, st.(parent := st.parent[n := cur], results := st.results + [n]), order)
  {
    var r := st.(parent := st.parent[n := cur], results := st.results + [n]);
    forall x | x in r.parent
      ensures r.parent[x] in r.seen && Adjacent(r.parent[x], x)
      ensures x in r.seen ==> order[r.parent[x]] < order[x]
      ensures x !in r.seen ==> Faces(cells, g, r.parent[x], x)
    {
      if x != n {
        assert r.parent[x] == st.parent[x];
      }
    }
    forall k | 0 <= k < |r.results| ensures r.results[k] in r.parent && r.results[k] !in r.seen {
      if k < |st.results| {
        assert r.results[k] == st.results[k];
      }
    }
  }

  /** An unseen ROUTE patch joins the queue, with the current cell as parent. */
  lemma VisitQueues(cells: seq<Patch>, g: Grid, h: nat, w: nat, start: Pos, cur: Pos, qi: nat, n: Pos, st: Scan, order: map<Pos, nat>)
    requires Rect(g, h, w) && Holds(g, |cells|) && BfsState(cells, g, start, st, order)
    requires qi < |st.queue| && st.queue[qi] == cur && Adjacent(cur, n)
    requires IsRoute(cells, g, n) && n !in st.seen
    ensures var r := st.(queue := st.queue + [n], seen := st.seen + {n}, parent := st.parent[n := cur]);
      BfsState(cells, g, start, r, order[n := |st.queue|])
      && |Cells(h, w) - r.seen| == |Cells(h, w) - st.seen| - 1
  {
    var r := st.(queue := st.queue + [n], seen := st.seen + {n}, parent := st.parent[n := cur]);
    var o := order[n := |st.queue|];
    QueuedIndexed(st.queue, st.seen, order, n);
    assert n != start;
    forall x | x in r.seen ensures x == start || (x in r.parent && IsRoute(cells, g, x)) {
      if x != n {
        assert x in st.seen;
      }
    }
    QueuedParents(cells, g, start, cur, qi, n, st, order);
    forall k | 0 <= k < |r.results| ensures r.results[k] in r.parent && r.results[k] !in r.seen {
      assert r.results[k] in st.parent && r.results[k] !in st.seen;
      assert IsT(cells, g, r.results[k]);
    }
    CellsHas(h, w, n);
    assert Cells(h, w) - r.seen == (Cells(h, w) - st.seen) - {n};
  }

  /** The parent links after an unseen ROUTE patch joins the queue. */
  lemma QueuedParents(cells: seq<Patch>, g: Grid, start: Pos, cur: Pos, qi: nat, n: Pos, st: Scan, order: map<Pos, nat>)
    requires Holds(g, |cells|) && BfsState(cells, g, start, st, order)
    requires qi < |st.queue| && st.queue[qi] == cur && Adjacent(cur, n) && n !in st.seen
    ensures var seen := st.seen + {n};
      var parent := st.parent[n := cur];
      var o := order[n := |st.queue|];
      forall x | x in parent ::
        parent[x] in seen && Adjacent(parent[x], x)
        && (x in seen ==> o[parent[x]] < o[x])
        && (x !in seen ==> Faces(cells, g, parent[x], x))
  {
    var seen := st.seen + {n};
    var parent := st.parent[n := cur];
    var o := order[n := |st.queue|];
    forall x | x in parent
      ensures parent[x] in seen && Adjacent(parent[x], x)
      ensures x in seen ==> o[parent[x]] < o[x]
      ensures x !in seen ==> Faces(cells, g, parent[x], x)
    {
      if x != n {
        assert x in st.parent && parent[x] == st.parent[x];
        assert x in st.seen ==> o[x] == order[x];
        assert o[st.parent[x]] == order[st.parent[x]];
      } else {
        assert o[cur] == qi;
      }
    }
  }

  /** Appending an unseen cell to the queue, at the next index, keeps queue and index in step. */
  lemma QueuedIndexed(queue: seq<Pos>, seen: set<Pos>, order: map<Pos, nat>, n: Pos)
    requires forall i | 0 <= i < |queue| :: queue[i] in seen && queue[i] in order && order[queue[i]] == i
    requires forall x | x in seen :: x in order && order[x] < |queue| && queue[order[x]] == x
    requires n !in seen
    ensures var q := queue + [n];
      var o := order[n := |queue|];
      (forall i | 0 <= i < |q| :: q[i] in seen + {n} && q[i] in o && o[q[i]] == i)
      && (forall x | x in seen + {n} :: x in o && o[x] < |q| && q[o[x]] == x)
  {
    var q := queue + [n];
    var o := order[n := |queue|];
    forall i | 0 <= i < |q| ensures q[i] in seen + {n} && q[i] in o && o[q[i]] == i {
      if i < |queue| {
        assert q[i] == queue[i] && q[i] != n;
      }
    }
  }

  /**
   * The search loop of `reparse_tree`, with the T branch guarded: every cell
   * taken from the queue has its four neighbours visited.
   */
  method Explore(cells: seq<Patch>, g: Grid, h: nat, w: nat, start: Pos) returns (st: Scan, ghost order: map<Pos, nat>)
    requires Rect(g, h, w) && Holds(g, |cells|) && InGrid(g, start)
    ensures BfsState(cells, g, start, st, order)
  {
    st := Scan([start], {start}, map[], []);
    order := map[start := 0];
    var qi := 0;
    while qi < |st.queue|
      invariant BfsState(cells, g, start, st, order) && qi <= |st.queue|
      decreases |Cells(h, w) - st.seen|, |st.queue| - qi
    {
      var cur := st.queue[qi];
      ghost var st0 := st;
      for k := 0 to 4
        invariant st == ScanPrefix(cells, g, cur, true, st0, k)
        invariant BfsState(cells, g, start, st, order)
        invariant st0.queue <= st.queue
        invariant |Cells(h, w) - st.seen| == |Cells(h, w) - st0.seen| - (|st.queue| - |st0.queue|)
      {
        var n := Neighbours(cur)[k];
        VisitKeeps(cells, g, h, w, start, cur, qi, n, st, order);
        var next := Visit(cells, g, cur, n, true, st);
        if |next.queue| > |st.queue| {
          order := order[n := |st.queue|];
        }
        st := next;
      }
      qi := qi + 1;
    }
  }

  /**
   * The patches of one found path fragment, in the order the new child's
   * path takes them: it leaves `start` by an adjacent cell, runs over ROUTE
   * patches, and ends at a T patch facing the cell before it.
   */
  predicate FragmentOk(cells: seq<Patch>, g: Grid, start: Pos, f: seq<Pos>)
    requires Holds(g, |cells|)
  {
    |f| > 0 && Adjacent(start, f[0]) && Contiguous(f) && AllIn(g, f)
    && (forall k | 0 <= k < |f| - 1 :: IsRoute(cells, g, f[k]))
    && Faces(cells, g, if |f| > 1 then f[|f| - 2] else start, f[|f| - 1])
  }

  /**
   * Rebuilding the fragment of the result `x`: parent links are followed
   * from `x` until a cell without a parent, that cell (the start) is popped,
   * and the rest is reversed.  With the guarded search the walk ends: after
   * its first step every cell is a seen one found earlier than the last.
   */
  method Rebuild(cells: seq<Patch>, g: Grid, start: Pos, st: Scan, ghost order: map<Pos, nat>, x: Pos) returns (f: seq<Pos>)
    requires Holds(g, |cells|) && BfsState(cells, g, start, st, order)
    requires x in st.parent && x !in st.seen
    ensures FragmentOk(cells, g, start, f) && f[|f| - 1] == x
  {
    var chain := [x];
    var y := x;
    while y in st.parent
      invariant |chain| > 0 && chain[0] == x && chain[|chain| - 1] == y
      invariant Contiguous(chain)
      invariant y == x || y in st.seen
      invariant |chain| > 1 ==> chain[1] == st.parent[x] && y in st.seen
      invariant forall k | 1 <= k < |chain| - 1 :: IsRoute(cells, g, chain[k])
      decreases if y in st.seen then order[y] else |st.queue|
    {
      var next := st.parent[y];
      ContiguousJoin(chain, [next]);
      chain := chain + [next];
      y := next;
    }
    assert y == start && |chain| > 1;
    ChainFragment(cells, g, start, x, chain);
    f := Reversed(chain[..|chain| - 1]);
  }

  /** The parent walk `chain` from `x` to `start`, without `start` and reversed, is a fragment ending at `x`. */
  lemma ChainFragment(cells: seq<Patch>, g: Grid, start: Pos, x: Pos, chain: seq<Pos>)
    requires Holds(g, |cells|) && |chain| > 1 && chain[0] == x && chain[|chain| - 1] == start
    requires Contiguous(chain) && Faces(cells, g, chain[1], x)
    requires forall k | 1 <= k < |chain| - 1 :: IsRoute(cells, g, chain[k])
    ensures var f := Reversed(chain[..|chain| - 1]);
      FragmentOk(cells, g, start, f) && f[|f| - 1] == x
  {
    var kept := chain[..|chain| - 1];
    var f := Reversed(kept);
    assert f[0] == chain[|chain| - 2];
    assert Adjacent(chain[|chain| - 2], chain[|chain| - 1]);
    forall k | 0 <= k < |kept| - 1 ensures Adjacent(kept[k], kept[k + 1]) {
      assert kept[k] == chain[k] && kept[k + 1] == chain[k + 1];
    }
    ContiguousReversed(kept);
    forall k | 0 <= k < |f| ensures InGrid(g, f[k]) {
      var j := |kept| - 1 - k;
      assert f[k] == chain[j];
      if j > 0 {
        assert IsRoute(cells, g, chain[j]);
      }
    }
    forall k | 0 <= k < |f| - 1 ensures IsRoute(cells, g, f[k]) {
      assert f[k] == chain[|kept| - 1 - k];
    }
    assert (if |f| > 1 then f[|f| - 2] else start) == chain[1];
  }

  /**
   * The fragments `reparse_tree` turns into children when the node's own
   * neighbours give none: one per search result, in the order found.
   */
  method BfsFragments(cells: seq<Patch>, g: Grid, h: nat, w: nat, start: Pos) returns (frags: seq<seq<Pos>>)
    requires Rect(g, h, w) && Holds(g, |cells|) && InGrid(g, start)
    ensures forall k | 0 <= k < |frags| :: FragmentOk(cells, g, start, frags[k])
  {
    var st, order := Explore(cells, g, h, w, start);
    frags := [];
    for k := 0 to |st.results|
      invariant forall j | 0 <= j < |frags| :: FragmentOk(cells, g, start, frags[j])
    {
      var f := Rebuild(cells, g, start, st, order, st.results[k]);
      frags := frags + [f];
    }
  }

  /** A route patch above a T patch that has been used and not yet released. */
  function CycleCells(): seq<Patch>
  {
    [NewPatch(PlainPatch, Route, 0, 0, ZTop), NewPatch(PlainPatch, T, 1, 0, ZTop).(used := true)]
  }

  function CycleGrid(): Grid
  {
    [[0], [1]]
  }

  /** Following parent links `n` times from `x`, stopping at a cell without one. */
  function Follow(parent: map<Pos, Pos>, x: Pos, n: nat): Pos
    decreases n
  {
    if n == 0 || x !in parent then x else Follow(parent, parent[x], n - 1)
  }

  /** Two cells that are each other's parent: the rebuilding loop never leaves them. */
  lemma {:induction false} FollowCycle(parent: map<Pos, Pos>, a: Pos, b: Pos, n: nat)
    requires a in parent && b in parent && parent[a] == b && parent[b] == a
    ensures Follow(parent, a, n) in parent && Follow(parent, b, n) in parent
  {
    if n > 0 {
      FollowCycle(parent, a, b, n - 1);
    }
  }

  /**
   * The conditions of the example: `s` is a T patch whose only neighbour in
   * the grid is the ROUTE patch `r` just above it, which it faces, and `r` has
   * no neighbour in the grid but `s`.
   */
  predicate CycleShape(cells: seq<Patch>, g: Grid, s: Pos, r: Pos)
    requires Holds(g, |cells|)
  {
    r == Neighbours(s)[3] && IsRoute(cells, g, r) && Faces(cells, g, r, s)
    && (forall i | 0 <= i < 3 :: !InGrid(g, Neighbours(s)[i]))
    && (forall i | 1 <= i < 4 :: !InGrid(g, Neighbours(r)[i]))
  }

  /**
   * The search as written, started at a T patch `s` below a ROUTE patch `r`
   * (as in `CycleCells`, where `s` has been used and not yet released): `r`
   * gets the start as its parent, then the start, met again from `r` face on,
   * gets `r` as its parent and becomes a result.  Rebuilding that result
   * follows the two parent links for ever.  The guarded search records neither
   * and finds nothing.
   */
  lemma StartRevisited(cells: seq<Patch>, g: Grid, s: Pos, r: Pos)
    requires Holds(g, |cells|) && CycleShape(cells, g, s, r)
    ensures var st1 := ScanPrefix(cells, g, s, false, Scan([s], {s}, map[], []), 4);
      var st2 := ScanPrefix(cells, g, r, false, st1, 4);
      st1.queue == [s, r] && st2.queue == [s, r]
      && st2.parent == map[r := s, s := r] && st2.results == [s]
      && forall n: nat :: Follow(st2.parent, st2.results[0], n) in st2.parent
    ensures var st1 := ScanPrefix(cells, g, s, true, Scan([s], {s}, map[], []), 4);
      var st2 := ScanPrefix(cells, g, r, true, st1, 4);
      st2.queue == [s, r] && st2.parent == map[r := s] && st2.results == []
  {
    CycleFirstScan(cells, g, false, s, r);
    CycleSecondScan(cells, g, false, s, r);
    CycleFirstScan(cells, g, true, s, r);
    CycleSecondScan(cells, g, true, s, r);
    var m := map[r := s, s := r];
    forall n: nat ensures Follow(m, s, n) in m {
      FollowCycle(m, s, r, n);
    }
  }

  /** The two-patch region of `CycleCells` has the shape of the example, with `s` = (1, 0) and `r` = (0, 0). */
  lemma CycleFacts()
    ensures Holds(CycleGrid(), |CycleCells()|)
    ensures CycleShape(CycleCells(), CycleGrid(), Pos(1, 0), Pos(0, 0))
  {
    CyclePatches();
    CycleBelow();
    CycleAbove();
  }

  lemma CyclePatches()
    ensures |CycleCells()| == 2 && Holds(CycleGrid(), 2)
    ensures IsRoute(CycleCells(), CycleGrid(), Pos(0, 0)) && Faces(CycleCells(), CycleGrid(), Pos(0, 0), Pos(1, 0))
  {
    var cells, g := CycleCells(), CycleGrid();
    assert At(g, Pos(0, 0)) == 0 && At(g, Pos(1, 0)) == 1;
    assert cells[0].patchType == Route && cells[1].patchType == T && cells[1].orientation == ZTop;
  }

  /** The T patch's neighbours: only the ROUTE patch above it is in the grid. */
  lemma CycleBelow()
    ensures Neighbours(Pos(1, 0))[3] == Pos(0, 0)
    ensures forall i | 0 <= i < 3 :: !InGrid(CycleGrid(), Neighbours(Pos(1, 0))[i])
  {
    NeighboursOf(1, 0);
  }

  /** The ROUTE patch's neighbours: only the T patch below it is in the grid. */
  lemma CycleAbove()
    ensures forall i | 1 <= i < 4 :: !InGrid(CycleGrid(), Neighbours(Pos(0, 0))[i])
  {
    NeighboursOf(0, 0);
  }

  lemma NeighboursOf(r: int, c: int)
    ensures Neighbours(Pos(r, c)) == [Pos(r + 1, c), Pos(r, c - 1), Pos(r, c + 1), Pos(r - 1, c)]
  {
  }

  /** A neighbour outside the grid leaves the scan as it is. */
  lemma VisitOutside(cells: seq<Patch>, g: Grid, cur: Pos, n: Pos, guarded: bool, st: Scan)
    requires Holds(g, |cells|) && !InGrid(g, n)
    ensures Visit(cells, g, cur, n, guarded, st) == st
  {
  }

  /** Neighbours `j` to `k` - 1 of `cur` lying outside the grid are skipped. */
  lemma {:induction false} OutsideSkipped(cells: seq<Patch>, g: Grid, cur: Pos, guarded: bool, st: Scan, j: nat, k: nat)
    requires Holds(g, |cells|) && j <= k <= 4
    requires forall i | j <= i < k :: !InGrid(g, Neighbours(cur)[i])
    ensures ScanPrefix(cells, g, cur, guarded, st, k) == ScanPrefix(cells, g, cur, guarded, st, j)
  {
    if j < k {
      OutsideSkipped(cells, g, cur, guarded, st, j, k - 1);
      VisitOutside(cells, g, cur, Neighbours(cur)[k - 1], guarded, ScanPrefix(cells, g, cur, guarded, st, k - 1));
    }
  }

  /** The first scan, from `s`: only the ROUTE patch above it is queued. */
  lemma CycleFirstScan(cells: seq<Patch>, g: Grid, guarded: bool, s: Pos, r: Pos)
    requires Holds(g, |cells|) && CycleShape(cells, g, s, r)
    ensures ScanPrefix(cells, g, s, guarded, Scan([s], {s}, map[], []), 4) == Scan([s, r], {s, r}, map[r := s], [])
  {
    OutsideSkipped(cells, g, s, guarded, Scan([s], {s}, map[], []), 0, 3);
    assert s != r;
  }

  /** The second scan, from `r`: only `s` below it is met, and as written it is taken as a result. */
  lemma CycleSecondScan(cells: seq<Patch>, g: Grid, guarded: bool, s: Pos, r: Pos)
    requires Holds(g, |cells|) && CycleShape(cells, g, s, r)
    ensures var st2 := ScanPrefix(cells, g, r, guarded, Scan([s, r], {s, r}, map[r := s], []), 4);
      st2.queue == [s, r]
      && st2.parent == (if guarded then map[r := s] else map[r := s, s := r])
      && st2.results == (if guarded then [] else [s])
  {
    var st1 := Scan([s, r], {s, r}, map[r := s], []);
    assert Neighbours(r)[0] == s;
    OutsideSkipped(cells, g, r, guarded, st1, 1, 4);
    if guarded {
      assert s in st1.seen && !IsRoute(cells, g, s);
    }
  }
}
