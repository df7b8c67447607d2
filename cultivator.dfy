/**
 * The dense cultivator buffer router: a region of cultivator patches, some of
 * which hold a magic state, and L-shaped routes from a held state to the
 * routing bus row above the region.
 *
 * Candidate states are tried nearest to the output column first.  A route
 * runs along the state's row to the output column and then up that column to
 * row 0 (strict mode), or straight up the state's own column (non-strict
 * mode).  `fromOwnRow` selects how far down the vertical segment starts:
 * `true` is the router as written (the segment starts on the state's own row),
 * `false` is the corrected router (it starts one row above).
 *
 * Positions are the local coordinates `local_y` and `local_x`.  The source
 * reads them as `.row` and `.col`, which the base patch no longer has, so the
 * program as written raises as soon as the pool is not empty.
 */
module CultivatorRouters {
  import opened Wrappers
  import opened Patches
  import opened Transactions
  import opened Grids
  import opened Routing
  import opened Buffers

  /** The column the route climbs: the output column in strict mode, the state's own otherwise. */
  function VertCol(t: Pos, oc: int, strict: bool): int
  {
    if strict then oc else t.col
  }

  /** The row the vertical segment starts on. */
  function VertTop(t: Pos, fromOwnRow: bool): int
  {
    if fromOwnRow then t.row else t.row - 1
  }

  /** The vertical segment, from its start row up to row 0. */
  function Vert(t: Pos, oc: int, strict: bool, fromOwnRow: bool): seq<Pos>
    requires t.row >= 0
  {
    ColumnUp(VertCol(t, oc, strict), VertTop(t, fromOwnRow), 0)
  }

  /** The horizontal segment: the state's row from its column to the output column. */
  function Horizontal(t: Pos, oc: int): (r: seq<Pos>)
    ensures |r| > 0 && r[0] == t && r[|r| - 1] == Pos(t.row, oc)
    ensures forall i | 0 <= i < |r| :: r[i].row == t.row && Between(r[i].col, t.col, oc)
    ensures Contiguous(r)
  {
    var cols := RangeDirected(t.col, oc);
    var r := seq(|cols|, i requires 0 <= i < |cols| => Pos(t.row, cols[i]));
    assert forall i | 0 <= i < |cols| :: cols[i] == (if t.col <= oc then t.col + i else t.col - i) by {
      RangeDirectedValues(t.col, oc);
    }
    r
  }

  /** The values of a directed range. */
  lemma RangeDirectedValues(a: int, b: int)
    ensures forall i | 0 <= i < |RangeDirected(a, b)| :: RangeDirected(a, b)[i] == (if a <= b then a + i else a - i)
  {
  }

  /** The candidate route from state `t`. */
  function CultPath(t: Pos, oc: int, strict: bool, fromOwnRow: bool): (p: seq<Pos>)
    requires t.row >= 0
    ensures |p| > 0 && p[0] == t
  {
    if strict then Horizontal(t, oc) + Vert(t, oc, strict, fromOwnRow)
    else [t] + Vert(t, oc, strict, fromOwnRow)
  }

  /** Every position of `ps` from index `from` on is free routing space of the region. */
  predicate FreeFrom(cells: seq<Patch>, g: Grid, ps: seq<Pos>, from: nat)
    requires Holds(g, |cells|)
  {
    forall i | from <= i < |ps| :: Free(cells, g, ps[i].row, ps[i].col)
  }

  /** The router accepts state `t`: its vertical segment, and every route cell after the state, is free. */
  predicate Accepts(cells: seq<Patch>, g: Grid, t: Pos, oc: int, strict: bool, fromOwnRow: bool)
    requires Holds(g, |cells|) && t.row >= 0
  {
    FreeFrom(cells, g, Vert(t, oc, strict, fromOwnRow), 0) && FreeFrom(cells, g, CultPath(t, oc, strict, fromOwnRow), 1)
  }

  /** The index of the first queued state the router accepts. */
  function FirstAccepted(cells: seq<Patch>, g: Grid, queue: seq<Pos>, oc: int, strict: bool, fromOwnRow: bool): (k: Option<nat>)
    requires Holds(g, |cells|) && forall i | 0 <= i < |queue| :: queue[i].row >= 0
    ensures k.Some? ==> k.value < |queue| && Accepts(cells, g, queue[k.value], oc, strict, fromOwnRow)
    ensures k.Some? ==> forall j | 0 <= j < k.value :: !Accepts(cells, g, queue[j], oc, strict, fromOwnRow)
    ensures k.None? ==> forall j | 0 <= j < |queue| :: !Accepts(cells, g, queue[j], oc, strict, fromOwnRow)
  {
    if |queue| == 0 then None
    else if Accepts(cells, g, queue[0], oc, strict, fromOwnRow) then Some(0)
    else
      match FirstAccepted(cells, g, queue[1..], oc, strict, fromOwnRow)
      case None => None
      case Some(k) => Some(k + 1)
  }

  /**
   * `_make_transaction(buffer, path, connect)`: the state is measured and is the
   * magic state; activation removes it from the region's pool and unlocking
   * releases every held cell.
   */
  function CultProposal(g: Grid, path: seq<Pos>, pool: nat): (t: Proposal)
    requires |path| > 0 && AllIn(g, path)
    ensures t.move == IdsAt(g, path) && t.measure == [At(g, path[0])] && t.magic == Some(At(g, path[0]))
    ensures t.connectCol == Some(path[|path| - 1].col)
    ensures t.onActivate == RemoveMagicState(pool) && t.onUnlock == ReleaseHeldCells
  {
    Proposal(IdsAt(g, path), [At(g, path[0])], Some(path[|path| - 1].col), Some(At(g, path[0])), RemoveMagicState(pool), ReleaseHeldCells)
  }

  /** Every cell the router reads is in the region. */
  predicate QueueInRegion(g: Grid, queue: seq<Pos>)
  {
    forall i | 0 <= i < |queue| :: InGrid(g, queue[i])
  }

  /** The route from an in-region state stays in the region. */
  lemma CultPathIn(g: Grid, h: nat, w: nat, t: Pos, oc: int, strict: bool, fromOwnRow: bool)
    requires Rect(g, h, w) && InGrid(g, t) && 0 <= oc < w
    ensures AllIn(g, CultPath(t, oc, strict, fromOwnRow))
  {
    var p := CultPath(t, oc, strict, fromOwnRow);
    var hz := Horizontal(t, oc);
    var v := Vert(t, oc, strict, fromOwnRow);
    forall i | 0 <= i < |p| ensures InGrid(g, p[i]) {
      if strict {
        if i < |hz| {
          assert p[i] == hz[i];
        } else {
          assert p[i] == v[i - |hz|];
        }
      } else if i > 0 {
        assert p[i] == v[i - 1];
      }
    }
  }

  /**
   * `request_transaction(output_col, strict_output_col)` over a queue of the
   * pool's states sorted by (|col − output_col|, row): the transaction for the
   * first state the router accepts, or `None`.
   */
  function Request(cells: seq<Patch>, g: Grid, h: nat, w: nat, queue: seq<Pos>, oc: int, strict: bool, pool: nat, fromOwnRow: bool): (r: Option<Proposal>)
    requires Rect(g, h, w) && Holds(g, |cells|) && QueueInRegion(g, queue) && QueueOrder(queue, oc) && 0 <= oc < w
    ensures r.None? <==> forall j | 0 <= j < |queue| :: !Accepts(cells, g, queue[j], oc, strict, fromOwnRow)
    ensures r.Some? ==> exists k | 0 <= k < |queue| ::
      Accepts(cells, g, queue[k], oc, strict, fromOwnRow)
      && (forall j | 0 <= j < k :: !Accepts(cells, g, queue[j], oc, strict, fromOwnRow))
      && AllIn(g, CultPath(queue[k], oc, strict, fromOwnRow))
      && r.value == CultProposal(g, CultPath(queue[k], oc, strict, fromOwnRow), pool)
  {
    match FirstAccepted(cells, g, queue, oc, strict, fromOwnRow)
    case None => None
    case Some(k) =>
      CultPathIn(g, h, w, queue[k], oc, strict, fromOwnRow);
      Some(CultProposal(g, CultPath(queue[k], oc, strict, fromOwnRow), pool))
  }

  /**
   * The corrected route from an in-region state is a route: contiguous, free
   * after the state once accepted, ending on row 0 of the climbing column (the
   * output column in strict mode), and visiting no position twice.
   */
  lemma CultPathShape(t: Pos, oc: int, strict: bool)
    requires t.row >= 0
    ensures var p := CultPath(t, oc, strict, false);
      Contiguous(p) && p[|p| - 1] == Pos(0, VertCol(t, oc, strict))
      && NoRepeats(p)
  {
    var p := CultPath(t, oc, strict, false);
    var v := Vert(t, oc, strict, false);
    ColumnUpContiguous(VertCol(t, oc, strict), t.row - 1, 0);
    assert forall i | 0 <= i < |v| :: v[i].row < t.row;
    if strict {
      var hz := Horizontal(t, oc);
      ContiguousJoin(hz, v);
      forall i, j | 0 <= i < j < |p| ensures p[i] != p[j] {
        RangeDirectedValues(t.col, oc);
        if j < |hz| {
          assert p[i] == hz[i] && p[j] == hz[j];
        } else if i < |hz| {
          assert p[i] == hz[i] && p[j] == v[j - |hz|];
        } else {
          assert p[i] == v[i - |hz|] && p[j] == v[j - |hz|];
        }
      }
    } else {
      ContiguousJoin([t], v);
      forall i, j | 0 <= i < j < |p| ensures p[i] != p[j] {
        if i == 0 {
          assert p[j] == v[j - 1];
        } else {
          assert p[i] == v[i - 1] && p[j] == v[j - 1];
        }
      }
    }
  }

  /**
   * The corrected router's transaction is a magic-state route when the chosen
   * state offers a magic state: contiguous, free after the state, ending on
   * row 0 of the climbing column, which is the connection column.
   */
  lemma RequestRoute(cells: seq<Patch>, g: Grid, h: nat, w: nat, queue: seq<Pos>, oc: int, strict: bool, pool: nat)
    requires Rect(g, h, w) && Holds(g, |cells|) && QueueInRegion(g, queue) && QueueOrder(queue, oc) && 0 <= oc < w
    requires Request(cells, g, h, w, queue, oc, strict, pool, false).Some?
    ensures exists k | 0 <= k < |queue| ::
      var p := CultPath(queue[k], oc, strict, false);
      AllIn(g, p) && Contiguous(p) && RoutableAfterFirst(cells, g, p)
      && (Stocked(cells, g, queue[k].row, queue[k].col) ==> TRoute(cells, g, p))
      && p[|p| - 1] == Pos(0, VertCol(queue[k], oc, strict))
      && (strict ==> p[|p| - 1].col == oc)
      && Request(cells, g, h, w, queue, oc, strict, pool, false).value == CultProposal(g, p, pool)
  {
    var k :| 0 <= k < |queue| && Accepts(cells, g, queue[k], oc, strict, false)
      && AllIn(g, CultPath(queue[k], oc, strict, false))
      && Request(cells, g, h, w, queue, oc, strict, pool, false).value == CultProposal(g, CultPath(queue[k], oc, strict, false), pool);
    CultPathShape(queue[k], oc, strict);
    var p := CultPath(queue[k], oc, strict, false);
    assert RoutableAfterFirst(cells, g, p) by {
      forall i | 1 <= i < |p| ensures RouteAvailable(cells[At(g, p[i])]) {
        assert Free(cells, g, p[i].row, p[i].col);
      }
    }
  }

  /**
   * As written, when the climbing column is the state's own column (non-strict
   * mode, or a state in the output column) the vertical segment begins with the
   * state itself, so a state is accepted only if its own cell is free routing
   * space, which a cell offering a magic state never is.
   */
  lemma OwnColumnNeverServed(cells: seq<Patch>, g: Grid, t: Pos, oc: int, strict: bool)
    requires Holds(g, |cells|) && InGrid(g, t)
    requires !strict || t.col == oc
    requires Stocked(cells, g, t.row, t.col)
    ensures !Accepts(cells, g, t, oc, strict, true)
  {
    var v := Vert(t, oc, strict, true);
    assert v[0] == t;
    AvailabilityExclusive(cells[g[t.row][t.col]]);
  }

  /** As written, a strict route that turns a corner lists the corner cell twice. */
  lemma CornerListedTwice(t: Pos, oc: int)
    requires t.row >= 0 && t.col != oc
    ensures var p := CultPath(t, oc, true, true);
      exists i, j | 0 <= i < j < |p| :: p[i] == p[j] == Pos(t.row, oc)
  {
    var p := CultPath(t, oc, true, true);
    var hz := Horizontal(t, oc);
    assert p[|hz| - 1] == Pos(t.row, oc);
    assert p[|hz|] == Vert(t, oc, true, true)[0] == Pos(t.row, oc);
  }

  /**
   * A region of one column: a free cultivator above one holding a magic state,
   * with the bus connection in that column.
   */
  function ExampleCells(): (cells: seq<Patch>)
    ensures |cells| == 2
    ensures RouteAvailable(cells[0]) && TAvailable(cells[1])
  {
    [NewPatch(CultPatch, Cultivator, 0, 0, ZTop), NewPatch(CultPatch, Cultivator, 1, 0, ZTop).(hasT := true)]
  }

  /**
   * On that region the router as written finds nothing in strict mode, while
   * the corrected router serves the state straight up its column.
   */
  lemma OwnColumnExample()
    ensures var cells, g := ExampleCells(), [[0], [1]];
      Request(cells, g, 2, 1, [Pos(1, 0)], 0, true, 0, true).None?
      && Request(cells, g, 2, 1, [Pos(1, 0)], 0, true, 0, false) == Some(CultProposal(g, [Pos(1, 0), Pos(0, 0)], 0))
  {
    var cells, g := ExampleCells(), [[0], [1]];
    OwnColumnNeverServed(cells, g, Pos(1, 0), 0, true);
    var p := CultPath(Pos(1, 0), 0, true, false);
    assert Horizontal(Pos(1, 0), 0) == [Pos(1, 0)];
    assert Vert(Pos(1, 0), 0, true, false) == [Pos(0, 0)];
    assert p == [Pos(1, 0), Pos(0, 0)];
    assert Accepts(cells, g, Pos(1, 0), 0, true, false);
  }
}
