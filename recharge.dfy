/**
 * The rechargeable buffer router: a magic-state buffer whose columns are
 * queues.  Magic states leave at the top (row 0, next to the routing bus
 * above), new ones are stored from the bottom, and local moves shift stored
 * states one row up.  All positions are positions of the region's view.
 */
module RechargeableRouters {
  import opened Wrappers
  import opened Patches
  import opened Transactions
  import opened Grids
  import opened Regions
  import opened Responses
  import opened Buffers

  /**
   * The constructor: every patch of the view records its view position as its
   * local coordinates.  Nothing else about any patch changes, and patches
   * outside the view are untouched.
   */
  method AssignLocalCoords(d: Device, g: Grid, h: nat, w: nat)
    requires Rect(g, h, w) && Holds(g, |d.cells|) && d.Valid()
    modifies d`cells
    ensures d.Valid() && |d.cells| == old(|d.cells|)
    ensures forall p | 0 <= p < |d.cells| ::
      d.cells[p] == old(d.cells[p]).(localY := d.cells[p].localY, localX := d.cells[p].localX)
    ensures forall p | 0 <= p < |d.cells| && !Mentions(g, p) :: d.cells[p] == old(d.cells[p])
    ensures Injective(g) ==> CoordsMatch(d.cells, g)
  {
    for r := 0 to h
      invariant d.Valid() && |d.cells| == old(|d.cells|)
      invariant forall p | 0 <= p < |d.cells| ::
        d.cells[p] == old(d.cells[p]).(localY := d.cells[p].localY, localX := d.cells[p].localX)
      invariant forall p | 0 <= p < |d.cells| && !Mentions(g, p) :: d.cells[p] == old(d.cells[p])
      invariant Injective(g) ==> forall r', c' | 0 <= r' < r && 0 <= c' < w ::
        d.cells[g[r'][c']].localY == r' && d.cells[g[r'][c']].localX == c'
    {
      for c := 0 to w
        invariant d.Valid() && |d.cells| == old(|d.cells|)
        invariant forall p | 0 <= p < |d.cells| ::
          d.cells[p] == old(d.cells[p]).(localY := d.cells[p].localY, localX := d.cells[p].localX)
        invariant forall p | 0 <= p < |d.cells| && !Mentions(g, p) :: d.cells[p] == old(d.cells[p])
        invariant Injective(g) ==> forall r', c' | (0 <= r' < r && 0 <= c' < w) || (r' == r && 0 <= c' < c) ::
          d.cells[g[r'][c']].localY == r' && d.cells[g[r'][c']].localX == c'
      {
        var p := g[r][c];
        d.cells := d.cells[p := d.cells[p].(localY := r, localX := c)];
      }
    }
  }

  /** Column `c` is a better choice than column `d` for output column `oc`: nearer, or as near and further left. */
  predicate Better(c: int, d: int, oc: int)
  {
    Abs(c - oc) < Abs(d - oc) || (Abs(c - oc) == Abs(d - oc) && c <= d)
  }

  /**
   * The first candidate column when the columns are ordered by distance from
   * `oc` and, at equal distance, from left to right (the order of a stable
   * sort of `range(w)` by distance, and of `min` over (distance, column)).
   */
  function Nearest(cand: seq<bool>, oc: int): (r: Option<nat>)
    ensures r.Some? <==> exists c | 0 <= c < |cand| :: cand[c]
    ensures r.Some? ==> r.value < |cand| && cand[r.value]
    ensures r.Some? ==> forall d | 0 <= d < |cand| && cand[d] :: Better(r.value, d, oc)
  {
    if cand == [] then None
    else
      var last := |cand| - 1;
      var r := Nearest(cand[..last], oc);
      if !cand[last] then
        assert forall c | 0 <= c < last :: cand[..last][c] == cand[c];
        r
      else if r.None? || Abs(last - oc) < Abs(r.value - oc) then Some(last)
      else r
  }

  /** The position of the stored magic state handed out first, if any column offers one. */
  predicate HasState(cells: seq<Patch>, g: Grid, h: nat, w: nat)
    requires Holds(g, |cells|)
  {
    exists c, r | 0 <= c < w && 0 <= r < h :: IsState(cells, g, c, r)
  }

  /** A column that is free from top to bottom, so a route can pass through the buffer. */
  predicate HasPassthrough(cells: seq<Patch>, g: Grid, h: nat, w: nat)
    requires Holds(g, |cells|)
  {
    exists c | 0 <= c < w :: IsSlot(cells, g, h, c, 0)
  }

  /** The move that takes the state at `t` out at the top: `t` and the cells above it, upwards. */
  function StateMove(g: Grid, t: Pos): (p: Proposal)
    requires InGrid(g, t) && forall k | 0 <= k < t.row :: InGrid(g, Pos(k, t.col))
    ensures |p.move| == t.row + 1 && p.move[0] == At(g, t) && p.measure == [At(g, t)]
  {
    var path := ColumnUp(t.col, t.row, 0);
    Proposal(IdsAt(g, path), [At(g, t)], Some(t.col), Some(At(g, t)), NoCallback, NoCallback)
  }

  /**
   * `_request_transaction(output_col)`: the stored state of the first column,
   * nearest to `oc` first, that has one, with the route from it straight up
   * to row 0; the state is both the measured patch and the magic state, and
   * the connection column is its column.  `src` is the state's position.
   */
  method Request(cells: seq<Patch>, g: Grid, h: nat, w: nat, oc: int) returns (r: Option<Proposal>, src: Option<Pos>)
    requires Rect(g, h, w) && Holds(g, |cells|)
    ensures r.Some? <==> src.Some?
    ensures src.None? <==> !HasState(cells, g, h, w)
    ensures src.Some? ==>
      var t := src.value;
      0 <= t.col < w && 0 <= t.row < h && IsState(cells, g, t.col, t.row)
      && (forall d, k | 0 <= d < w && 0 <= k < h && IsState(cells, g, d, k) :: Better(t.col, d, oc))
      && r == Some(StateMove(g, t))
  {
    var states := BufferStates(cells, g, h, w);
    var cand := seq(w, c requires 0 <= c < w => states[c].Some?);
    var best := Nearest(cand, oc);
    if best.None? {
      r, src := None, None;
      forall c, k | 0 <= c < w && 0 <= k < h ensures !IsState(cells, g, c, k) {
        assert !cand[c];
      }
    } else {
      var t := states[best.value].value;
      forall d, k | 0 <= d < w && 0 <= k < h && IsState(cells, g, d, k) ensures Better(t.col, d, oc) {
        assert cand[d];
      }
      assert IsState(cells, g, t.col, t.row);
      src := Some(t);
      r := Some(StateMove(g, t));
    }
  }

  /** Row 0 is a slot exactly when the whole column is free, and then it is the column's only slot. */
  lemma SlotZeroUnique(cells: seq<Patch>, g: Grid, h: nat, c: int, r: int)
    requires Holds(g, |cells|)
    requires IsSlot(cells, g, h, c, 0) && IsSlot(cells, g, h, c, r)
    ensures r == 0
  {
  }

  /** The route through a fully free column, from the bottom row up to row 0. */
  function PassthroughMove(g: Grid, h: nat, c: int): (p: Proposal)
    requires h > 0 && forall k | 0 <= k < h :: InGrid(g, Pos(k, c))
    ensures |p.move| == h && p.measure == [] && p.magic.None?
  {
    Proposal(IdsAt(g, ColumnUp(c, h - 1, 0)), [], Some(c), None, NoCallback, NoCallback)
  }

  /**
   * `request_passthrough(output_col)`: among the columns free from top to
   * bottom, the one best for `oc`, crossed from the bottom row to row 0 with
   * nothing measured; `None` when no column is fully free.
   */
  method Passthrough(cells: seq<Patch>, g: Grid, h: nat, w: nat, oc: int) returns (r: Option<Proposal>, col: Option<nat>)
    requires Rect(g, h, w) && Holds(g, |cells|)
    ensures r.Some? <==> col.Some?
    ensures col.None? <==> !HasPassthrough(cells, g, h, w)
    ensures col.Some? ==>
      col.value < w && h > 0 && IsSlot(cells, g, h, col.value, 0)
      && (forall d | 0 <= d < w && IsSlot(cells, g, h, d, 0) :: Better(col.value, d, oc))
      && r == Some(PassthroughMove(g, h, col.value))
  {
    var slots := BufferSlots(cells, g, h, w);
    var cand := seq(w, c requires 0 <= c < w => slots[c].Some? && slots[c].value.row == 0);
    forall c | 0 <= c < w ensures cand[c] <==> IsSlot(cells, g, h, c, 0) {
      if IsSlot(cells, g, h, c, 0) {
        SlotZeroUnique(cells, g, h, c, slots[c].value.row);
      }
    }
    var best := Nearest(cand, oc);
    if best.None? {
      r, col := None, None;
    } else {
      col := best;
      r := Some(PassthroughMove(g, h, best.value));
    }
  }

  /**
   * `generic_transaction(source_patch)`: the source's global (y, x) position,
   * relative to the region's offset, is seen through the region's view; its
   * column is the requested output column.  A stored state gives SUCCESS, a
   * passthrough column CHECK_DOWNSTREAM, and neither the default response.
   * `None` where the view's bearing is not one of the four and `tl` raises.
   */
  method Generic(cells: seq<Patch>, g: Grid, h: nat, w: nat, rotation: int, offset: Pos, source: Pos)
    returns (resp: Option<Response>)
    requires Rect(g, h, w) && Holds(g, |cells|)
    ensures resp.Some? <==> rotation in {Top, Right, Bottom, Left}
    ensures resp.Some? ==>
      (resp.value.status == Success <==> HasState(cells, g, h, w))
      && (resp.value.status == CheckDownstream <==> !HasState(cells, g, h, w) && HasPassthrough(cells, g, h, w))
      && (resp.value.status == Failed <==> resp.value == FailedResponse())
  {
    var local := Tl(rotation, h, w, Pos(source.row - offset.row, source.col - offset.col));
    if local.None? {
      return None;
    }
    var trans, src := Request(cells, g, h, w, local.value.col);
    if trans.Some? {
      return Some(MakeResponse(Success, trans));
    }
    var pass, col := Passthrough(cells, g, h, w, local.value.col);
    if pass.Some? {
      return Some(MakeResponse(CheckDownstream, pass));
    }
    return Some(FailedResponse());
  }

  /**
   * `upkeep_transaction(slot)`: the route from the bottom row up to the slot,
   * in the slot's column, which is where a new state is stored.
   */
  function UpkeepMove(g: Grid, h: nat, slot: Pos): (p: Proposal)
    requires slot.row < h && forall k | slot.row <= k < h :: InGrid(g, Pos(k, slot.col))
    ensures |p.move| == h - slot.row && p.move[|p.move| - 1] == At(g, slot)
    ensures p.measure == [At(g, slot)] && p.connectCol == Some(slot.col) && p.magic.None?
  {
    var path := ColumnUp(slot.col, h - 1, slot.row);
    Proposal(IdsAt(g, path), [At(g, slot)], Some(slot.col), None, NoCallback, NoCallback)
  }

  /** The route of an upkeep move into a slot is contiguous and free throughout. */
  lemma UpkeepRouteFree(cells: seq<Patch>, g: Grid, h: nat, c: int, r: int)
    requires Holds(g, |cells|) && IsSlot(cells, g, h, c, r)
    ensures Contiguous(ColumnUp(c, h - 1, r)) && AllIn(g, ColumnUp(c, h - 1, r))
    ensures AllRoutable(cells, g, ColumnUp(c, h - 1, r))
  {
    ColumnUpContiguous(c, h - 1, r);
    var path := ColumnUp(c, h - 1, r);
    forall i | 0 <= i < |path| ensures InGrid(g, path[i]) && RouteAvailable(cells[At(g, path[i])]) {
      assert path[i] == Pos(h - 1 - i, c);
      assert Free(cells, g, h - 1 - i, c);
    }
  }

  /** A stored state at `p` can move up one row into the free cell above it. */
  predicate CanShift(cells: seq<Patch>, g: Grid, p: Pos)
    requires Holds(g, |cells|)
  {
    p.row >= 1 && InGrid(g, p) && InGrid(g, Pos(p.row - 1, p.col))
    && TAvailable(cells[At(g, p)]) && RouteAvailable(cells[At(g, Pos(p.row - 1, p.col))])
  }

  /** The shifting cells of row `r` among its first `n` columns, left to right. */
  function RowShifts(cells: seq<Patch>, g: Grid, r: int, n: nat): seq<Pos>
    requires Holds(g, |cells|)
  {
    if n == 0 then []
    else RowShifts(cells, g, r, n - 1) + (if CanShift(cells, g, Pos(r, n - 1)) then [Pos(r, n - 1)] else [])
  }

  /** The shifting cells of rows 1 to `n - 1` of a `w`-column grid, in row-major order. */
  function Shifts(cells: seq<Patch>, g: Grid, w: nat, n: nat): seq<Pos>
    requires Holds(g, |cells|)
  {
    if n <= 1 then [] else Shifts(cells, g, w, n - 1) + RowShifts(cells, g, n - 1, w)
  }

  /** The local move of the state at `p` into the cell above it. */
  function ShiftMove(cells: seq<Patch>, g: Grid, p: Pos): (m: Proposal)
    requires Holds(g, |cells|) && CanShift(cells, g, p)
    ensures m.move == [At(g, p), At(g, Pos(p.row - 1, p.col))] && m.measure == [At(g, Pos(p.row - 1, p.col))]
    ensures m.magic == Some(At(g, p)) && m.connectCol.None?
  {
    Proposal([At(g, p), At(g, Pos(p.row - 1, p.col))], [At(g, Pos(p.row - 1, p.col))], None, Some(At(g, p)), NoCallback, NoCallback)
  }

  lemma {:induction false} RowShiftsSound(cells: seq<Patch>, g: Grid, r: int, n: nat)
    requires Holds(g, |cells|)
    ensures forall i | 0 <= i < |RowShifts(cells, g, r, n)| ::
      RowShifts(cells, g, r, n)[i].row == r && 0 <= RowShifts(cells, g, r, n)[i].col < n
      && CanShift(cells, g, RowShifts(cells, g, r, n)[i])
  {
    if n > 0 {
      RowShiftsSound(cells, g, r, n - 1);
      var s := RowShifts(cells, g, r, n - 1);
      var st := RowShifts(cells, g, r, n);
      forall i | 0 <= i < |st| ensures st[i].row == r && 0 <= st[i].col < n && CanShift(cells, g, st[i]) {
        if i < |s| {
          assert st[i] == s[i];
        }
      }
    }
  }

  lemma {:induction false} RowShiftsIncreasing(cells: seq<Patch>, g: Grid, r: int, n: nat)
    requires Holds(g, |cells|)
    ensures forall i, j | 0 <= i < j < |RowShifts(cells, g, r, n)| ::
      RowShifts(cells, g, r, n)[i].col < RowShifts(cells, g, r, n)[j].col
  {
    if n > 0 {
      RowShiftsIncreasing(cells, g, r, n - 1);
      RowShiftsSound(cells, g, r, n - 1);
      var s := RowShifts(cells, g, r, n - 1);
      var st := RowShifts(cells, g, r, n);
      forall i, j | 0 <= i < j < |st| ensures st[i].col < st[j].col {
        if j < |s| {
          assert st[i] == s[i] && st[j] == s[j];
        } else {
          assert st[i] == s[i];
        }
      }
    }
  }

  lemma {:induction false} RowShiftsComplete(cells: seq<Patch>, g: Grid, r: int, n: nat)
    requires Holds(g, |cells|)
    ensures forall c | 0 <= c < n && CanShift(cells, g, Pos(r, c)) :: Pos(r, c) in RowShifts(cells, g, r, n)
  {
    if n > 0 {
      RowShiftsComplete(cells, g, r, n - 1);
      var s := RowShifts(cells, g, r, n - 1);
      var st := RowShifts(cells, g, r, n);
      forall c | 0 <= c < n && CanShift(cells, g, Pos(r, c)) ensures Pos(r, c) in st {
        if c < n - 1 {
          assert Pos(r, c) in s;
        } else {
          assert st[|st| - 1] == Pos(r, c);
        }
      }
    }
  }

  /** `Shifts` lists only shifting cells of rows 1 to `n - 1`. */
  lemma {:induction false} ShiftsSound(cells: seq<Patch>, g: Grid, w: nat, n: nat)
    requires Holds(g, |cells|)
    ensures forall i | 0 <= i < |Shifts(cells, g, w, n)| ::
      1 <= Shifts(cells, g, w, n)[i].row < n && 0 <= Shifts(cells, g, w, n)[i].col < w
      && CanShift(cells, g, Shifts(cells, g, w, n)[i])
  {
    if n > 1 {
      ShiftsSound(cells, g, w, n - 1);
      RowShiftsSound(cells, g, n - 1, w);
      var s := Shifts(cells, g, w, n - 1);
      var t := RowShifts(cells, g, n - 1, w);
      var st := Shifts(cells, g, w, n);
      forall i | 0 <= i < |st| ensures 1 <= st[i].row < n && 0 <= st[i].col < w && CanShift(cells, g, st[i]) {
        if i < |s| {
          assert st[i] == s[i];
        } else {
          assert st[i] == t[i - |s|];
        }
      }
    }
  }

  /** `Shifts` lists no cell twice. */
  lemma {:induction false} ShiftsDistinct(cells: seq<Patch>, g: Grid, w: nat, n: nat)
    requires Holds(g, |cells|)
    ensures forall i, j | 0 <= i < j < |Shifts(cells, g, w, n)| :: Shifts(cells, g, w, n)[i] != Shifts(cells, g, w, n)[j]
  {
    if n > 1 {
      ShiftsDistinct(cells, g, w, n - 1);
      ShiftsSound(cells, g, w, n - 1);
      RowShiftsSound(cells, g, n - 1, w);
      RowShiftsIncreasing(cells, g, n - 1, w);
      var s := Shifts(cells, g, w, n - 1);
      var t := RowShifts(cells, g, n - 1, w);
      var st := Shifts(cells, g, w, n);
      forall i, j | 0 <= i < j < |st| ensures st[i] != st[j] {
        if j < |s| {
          assert st[i] == s[i] && st[j] == s[j];
        } else if i < |s| {
          assert st[i] == s[i] && st[j] == t[j - |s|];
        } else {
          assert st[i] == t[i - |s|] && st[j] == t[j - |s|];
        }
      }
    }
  }

  /** `Shifts` lists every shifting cell of rows 1 to `n - 1`. */
  lemma {:induction false} ShiftsComplete(cells: seq<Patch>, g: Grid, w: nat, n: nat)
    requires Holds(g, |cells|)
    ensures forall r, c | 1 <= r < n && 0 <= c < w && CanShift(cells, g, Pos(r, c)) :: Pos(r, c) in Shifts(cells, g, w, n)
  {
    if n > 1 {
      ShiftsComplete(cells, g, w, n - 1);
      RowShiftsComplete(cells, g, n - 1, w);
      var s := Shifts(cells, g, w, n - 1);
      var t := RowShifts(cells, g, n - 1, w);
      forall r, c | 1 <= r < n && 0 <= c < w && CanShift(cells, g, Pos(r, c)) ensures Pos(r, c) in s + t {
        if r < n - 1 {
          assert Pos(r, c) in s;
        } else {
          assert Pos(r, c) in t;
        }
      }
    }
  }

  /**
   * `all_local_upkeep_transactions`: one local move for every stored state
   * below row 0 whose upper neighbour is free, scanning rows from the top and
   * each row from the left; `sites` lists the states moved.
   */
  method AllLocalUpkeep(cells: seq<Patch>, g: Grid, h: nat, w: nat) returns (moves: seq<Proposal>, ghost sites: seq<Pos>)
    requires Rect(g, h, w) && Holds(g, |cells|)
    ensures sites == Shifts(cells, g, w, h) && |moves| == |sites|
    ensures forall i | 0 <= i < |sites| :: CanShift(cells, g, sites[i]) && moves[i] == ShiftMove(cells, g, sites[i])
  {
    moves, sites := [], [];
    if h == 0 {
      return;
    }
    for row := 1 to h
      invariant sites == Shifts(cells, g, w, row) && |moves| == |sites|
      invariant forall i | 0 <= i < |sites| :: CanShift(cells, g, sites[i]) && moves[i] == ShiftMove(cells, g, sites[i])
    {
      for col := 0 to w
        invariant sites == Shifts(cells, g, w, row) + RowShifts(cells, g, row, col) && |moves| == |sites|
        invariant forall i | 0 <= i < |sites| :: CanShift(cells, g, sites[i]) && moves[i] == ShiftMove(cells, g, sites[i])
      {
        if TAvailable(cells[g[row][col]]) && RouteAvailable(cells[g[row - 1][col]]) {
          assert CanShift(cells, g, Pos(row, col));
          moves := moves + [ShiftMove(cells, g, Pos(row, col))];
          sites := sites + [Pos(row, col)];
        } else {
          assert !CanShift(cells, g, Pos(row, col));
        }
      }
    }
  }

  /**
   * Two local moves of different states never share a patch: each reserves a
   * stored state and the free cell above it, and on a grid where no patch
   * appears twice no state is another move's free cell or state.
   */
  lemma ShiftMovesDisjoint(cells: seq<Patch>, g: Grid, p: Pos, q: Pos)
    requires Holds(g, |cells|) && Injective(g)
    requires CanShift(cells, g, p) && CanShift(cells, g, q) && p != q
    ensures forall a, b | 0 <= a < 2 && 0 <= b < 2 :: ShiftMove(cells, g, p).move[a] != ShiftMove(cells, g, q).move[b]
  {
    AvailabilityExclusive(cells[At(g, p)]);
    AvailabilityExclusive(cells[At(g, q)]);
  }
}
