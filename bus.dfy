/**
 * The two simplest routers: the route bus, which reserves a run of its one
 * row, and the register router, which reserves the one patch holding a
 * gate's target register.
 */
module SimpleRouters {
  import opened Wrappers
  import opened Patches
  import opened Transactions
  import opened Grids

  /** The bus cells from column `lo` to column `hi - 1`, left to right. */
  function BusPath(bus: seq<PatchId>, lo: int, hi: int): (r: seq<PatchId>)
    requires 0 <= lo <= hi <= |bus|
    ensures |r| == hi - lo
    ensures forall i | 0 <= i < |r| :: r[i] == bus[lo + i]
  {
    bus[lo..hi]
  }

  /**
   * `StandardBusRouter.request_transaction(start, end)` on the bus row `bus`:
   * the cells between the two columns, inclusive and in ascending order, if
   * both columns are on the bus and none of those cells is locked.
   */
  function BusRequest(cells: seq<Patch>, bus: seq<PatchId>, s: int, e: int): (r: Option<Proposal>)
    requires InRange(bus, |cells|)
    ensures r.Some? <==>
      (0 <= s < |bus| && 0 <= e < |bus|
       && forall c | (if s < e then s else e) <= c <= (if s < e then e else s) :: !Locked(cells[bus[c]]))
    ensures r.Some? ==> (
      var lo := if s < e then s else e;
      var hi := if s < e then e else s;
      r.value.move == bus[lo..hi + 1]
      && r.value.measure == []
      && r.value.connectCol.None? && r.value.magic.None?
      && r.value.onActivate.NoCallback? && r.value.onUnlock.NoCallback?)
  {
    if !(0 <= s < |bus|) || !(0 <= e < |bus|) then None
    else
      var lo := if s < e then s else e;
      var hi := if s < e then e else s;
      var path := BusPath(bus, lo, hi + 1);
      if exists i | 0 <= i < |path| :: Locked(cells[path[i]]) then None
      else Some(Proposal(path, [], None, None, NoCallback, NoCallback))
  }

  /** The bus does not care which end of the run is the start. */
  lemma BusSymmetric(cells: seq<Patch>, bus: seq<PatchId>, s: int, e: int)
    requires InRange(bus, |cells|)
    ensures BusRequest(cells, bus, s, e) == BusRequest(cells, bus, e, s)
  {
  }

  /** A successful bus path has one cell per column of the run and ends at the two requested columns. */
  lemma BusPathEnds(cells: seq<Patch>, bus: seq<PatchId>, s: int, e: int)
    requires InRange(bus, |cells|)
    requires BusRequest(cells, bus, s, e).Some?
    ensures var m := BusRequest(cells, bus, s, e).value.move;
      |m| == (if s < e then e - s else s - e) + 1
      && m[0] == bus[if s < e then s else e] && m[|m| - 1] == bus[if s < e then e else s]
  {
  }

  /**
   * `BaselineRegisterRouter.request_transaction`: the register patch at the
   * target's physical position, unless it is locked.  The one patch is both
   * the move and the measure set, and the connection column is the
   * position's column.
   */
  function RegisterRequest(cells: seq<Patch>, g: Grid, pos: Pos): (r: Option<Proposal>)
    requires Holds(g, |cells|) && InGrid(g, pos)
    ensures r.Some? <==> !Locked(cells[At(g, pos)])
    ensures r.Some? ==> r.value == Proposal([At(g, pos)], [At(g, pos)], Some(pos.col), None, NoCallback, NoCallback)
  {
    var reg := At(g, pos);
    if Locked(cells[reg]) then None
    else Some(Proposal([reg], [reg], Some(pos.col), None, NoCallback, NoCallback))
  }
}
