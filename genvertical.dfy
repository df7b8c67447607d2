/**
 * The generic vertical router: a buffer crossed from its bottom row (where
 * the input arrives) to its top row, climbing where it can and otherwise
 * stepping sideways towards the output column, never beyond the columns
 * between input and output.
 */
module GenericVerticalRouters {
  import opened Wrappers
  import opened Patches
  import opened Transactions
  import opened Grids
  import opened Responses
  import opened Routing
  import opened Buffers

  /**
   * `_request_transaction(output_col, input_col)`: the walk from the bottom
   * cell of the input column.  Each step climbs one row if that cell is free
   * and otherwise moves one column towards the output column; leaving the
   * columns between input and output, or a blocked sideways step, fails.  On
   * success nothing is measured and the connection column is the output
   * column.  `route` is the walk as positions.
   */
  method Walk(cells: seq<Patch>, g: Grid, h: nat, w: nat, outputCol: int, inputCol: int)
    returns (r: Option<Proposal>, route: seq<Pos>)
    requires Rect(g, h, w) && Holds(g, |cells|) && h > 0
    requires 0 <= inputCol < w && 0 <= outputCol < w
    ensures !Free(cells, g, h - 1, inputCol) ==> r.None?
    ensures inputCol == outputCol ==> (r.Some? <==> forall k | 0 <= k < h :: Free(cells, g, k, inputCol))
    ensures r.Some? ==>
      |route| > 0 && route[0] == Pos(h - 1, inputCol) && route[|route| - 1].row == 0
      && Contiguous(route) && AllIn(g, route) && AllRoutable(cells, g, route)
      && (forall i | 0 <= i < |route| :: Between(route[i].col, inputCol, outputCol))
      && r.value == Proposal(IdsAt(g, route), [], Some(outputCol), None, NoCallback, NoCallback)
  {
    var dir := if inputCol < outputCol then 1 else -1;
    var col := inputCol;
    var row := h - 1;
    route := [];
    if !Free(cells, g, row, col) {
      return None, route;
    }
    route := [Pos(row, col)];
    while row > 0
      invariant 0 <= row < h && Between(col, inputCol, outputCol)
      invariant |route| > 0 && route[0] == Pos(h - 1, inputCol) && route[|route| - 1] == Pos(row, col)
      invariant Contiguous(route)
      invariant forall i | 0 <= i < |route| :: Free(cells, g, route[i].row, route[i].col) && Between(route[i].col, inputCol, outputCol)
      invariant inputCol == outputCol ==> col == inputCol && forall k | row <= k < h :: Free(cells, g, k, inputCol)
      decreases row + Abs(outputCol - col)
    {
      if Free(cells, g, row - 1, col) {
        ContiguousJoin(route, [Pos(row - 1, col)]);
        route := route + [Pos(row - 1, col)];
        row := row - 1;
        continue;
      }
      var newCol := col + dir;
      if !Between(newCol, inputCol, outputCol) {
        return None, route;
      }
      if Free(cells, g, row, newCol) {
        ContiguousJoin(route, [Pos(row, newCol)]);
        route := route + [Pos(row, newCol)];
        col := newCol;
      } else {
        return None, route;
      }
    }
    r := Some(Proposal(IdsAt(g, route), [], Some(outputCol), None, NoCallback, NoCallback));
  }

  /**
   * The inherited `generic_transaction(source_patch, input_col)`: the walk
   * towards the source's column within the region, passed on with
   * CHECK_DOWNSTREAM, or the default response.
   */
  method Generic(cells: seq<Patch>, g: Grid, h: nat, w: nat, sourceX: int, offsetX: int, inputCol: int)
    returns (resp: Response)
    requires Rect(g, h, w) && Holds(g, |cells|) && h > 0
    requires 0 <= inputCol < w && 0 <= sourceX - offsetX < w
    ensures resp.status != Success
    ensures resp.status == CheckDownstream ==>
      resp.transaction.Some? && resp.transaction.value.connectCol == Some(sourceX - offsetX)
      && resp.transaction.value.measure == []
    ensures !Free(cells, g, h - 1, inputCol) ==> resp == FailedResponse()
  {
    var trans, route := Walk(cells, g, h, w, sourceX - offsetX, inputCol);
    resp := DefaultGeneric(trans);
  }
}
