/**
 * Magic-state buffer regions: the prefilled layouts, the rechargeable buffer
 * layout, and the two per-column scans every buffer router relies on (where
 * the next stored T would go, and which stored T can be reached from the top).
 */
module Buffers {
  import opened Wrappers
  import opened Patches
  import opened Grids
  import opened Regions

  /** The orientation with integer value `v`. */
  function OrientationOf(v: nat): (o: PatchOrientation)
    requires v <= 1
    ensures o.Value() == v
  {
    if v == 0 then XTop else ZTop
  }

  /** `PrefilledMagicStateRegion(w, h, "default")`: a T patch in every cell, Z on top. */
  function PrefilledDefault(h: nat, w: nat): (rows: seq<seq<Patch>>)
    ensures |rows| == h
    ensures forall r | 0 <= r < h :: |rows[r]| == w
    ensures forall r, c | 0 <= r < h && 0 <= c < w ::
      rows[r][c].patchType == T && rows[r][c].orientation == ZTop && TAvailable(rows[r][c])
      && rows[r][c].localY == r && rows[r][c].localX == c
  {
    seq(h, r => seq(w, c => NewPatch(PlainPatch, T, r, c, ZTop)))
  }

  /**
   * The "chessboard" orientation: row 0 keeps Z on top; below it the
   * orientation alternates like the squares of a chessboard, with the pattern
   * inverted in the left half of the region (columns below `w / 2`).
   */
  function ChessboardOrientation(r: int, c: int, w: int): PatchOrientation
  {
    if r <= 0 then ZTop
    else OrientationOf(((r + c) % 2 + (if c < w / 2 then 1 else 0)) % 2)
  }

  /**
   * `PrefilledMagicStateRegion(w, h, "chessboard")`.  Row 0 is built before
   * rows 1 to h - 1, so a height of 0 still gives one row.
   */
  function PrefilledChessboard(h: nat, w: nat): (rows: seq<seq<Patch>>)
    ensures |rows| == if h == 0 then 1 else h
    ensures forall r | 0 <= r < |rows| :: |rows[r]| == w
    ensures forall r, c | 0 <= r < |rows| && 0 <= c < w ::
      rows[r][c].patchType == T && TAvailable(rows[r][c])
      && rows[r][c].orientation == ChessboardOrientation(r, c, w)
      && rows[r][c].localY == r && rows[r][c].localX == c
  {
    seq(if h == 0 then 1 else h, r => seq(w, c => NewPatch(PlainPatch, T, r, c, ChessboardOrientation(r, c, w))))
  }

  /**
   * Below row 0, neighbours in the same half of the chessboard layout have
   * opposite orientations, vertically and horizontally, and the two halves
   * meet with equal orientations.
   */
  lemma ChessboardAlternates(r: nat, c: nat, w: nat)
    requires r >= 1
    ensures ChessboardOrientation(r + 1, c, w) != ChessboardOrientation(r, c, w)
    ensures (c + 1 < w / 2 || w / 2 <= c) ==> ChessboardOrientation(r, c + 1, w) != ChessboardOrientation(r, c, w)
    ensures c + 1 == w / 2 ==> ChessboardOrientation(r, c + 1, w) == ChessboardOrientation(r, c, w)
  {
  }

  /** `MagicStateBufferRegion(w, h)`: every cell an empty buffer patch. */
  function BufferLayout(h: nat, w: nat): (rows: seq<seq<Patch>>)
    ensures |rows| == h
    ensures forall r | 0 <= r < h :: |rows[r]| == w
    ensures forall r, c | 0 <= r < h && 0 <= c < w ::
      rows[r][c].cls.BufferPatch? && rows[r][c].patchType == RouteBuffer
      && RouteAvailable(rows[r][c]) && !TAvailable(rows[r][c])
      && rows[r][c].localY == r && rows[r][c].localX == c
  {
    seq(h, r => seq(w, c => NewPatch(BufferPatch, RouteBuffer, r, c, ZTop)))
  }

  /** The buffer region counts every cell as a T buffer. */
  function BufferStats(h: nat, w: nat): (s: RegionStats)
    ensures s.numTBuffers == w * h && s.numRegisters == 0 && s.numBellBuffers == 0
  {
    NoStats().(numTBuffers := w * h)
  }

  /** The cell at (r, c) of the grid can carry a route. */
  predicate Free(cells: seq<Patch>, g: Grid, r: int, c: int)
    requires Holds(g, |cells|)
  {
    InGrid(g, Pos(r, c)) && RouteAvailable(cells[g[r][c]])
  }

  /** The cell at (r, c) of the grid offers a magic state. */
  predicate Stocked(cells: seq<Patch>, g: Grid, r: int, c: int)
    requires Holds(g, |cells|)
  {
    InGrid(g, Pos(r, c)) && TAvailable(cells[g[r][c]])
  }

  /**
   * Row `r` of column `c` is the buffer slot: it and every row below it are
   * free, and the row above (if any) is not.
   */
  predicate IsSlot(cells: seq<Patch>, g: Grid, h: nat, c: int, r: int)
    requires Holds(g, |cells|)
  {
    0 <= r < h && (forall k | r <= k < h :: Free(cells, g, k, c)) && (r > 0 ==> !Free(cells, g, r - 1, c))
  }

  /**
   * Row `r` of column `c` holds the buffer state: it offers a magic state and
   * every row above it is free, so the state can be moved out at the top.
   */
  predicate IsState(cells: seq<Patch>, g: Grid, c: int, r: int)
    requires Holds(g, |cells|)
  {
    0 <= r && Stocked(cells, g, r, c) && forall k | 0 <= k < r :: Free(cells, g, k, c)
  }

  /** A column has at most one buffer state. */
  lemma StateUnique(cells: seq<Patch>, g: Grid, c: int, r1: int, r2: int)
    requires Holds(g, |cells|)
    requires IsState(cells, g, c, r1) && IsState(cells, g, c, r2)
    ensures r1 == r2
  {
    if r1 < r2 {
      assert Free(cells, g, r1, c);
      AvailabilityExclusive(cells[g[r1][c]]);
    } else if r2 < r1 {
      assert Free(cells, g, r2, c);
      AvailabilityExclusive(cells[g[r2][c]]);
    }
  }

  /** From a buffer state, the route straight up its column to row 0 is a magic-state route. */
  lemma StateMoveRoute(cells: seq<Patch>, g: Grid, c: int, r: int)
    requires Holds(g, |cells|) && IsState(cells, g, c, r)
    ensures Contiguous(ColumnUp(c, r, 0))
    ensures ColumnUp(c, r, 0)[0] == Pos(r, c) && ColumnUp(c, r, 0)[r] == Pos(0, c)
    ensures TRoute(cells, g, ColumnUp(c, r, 0))
  {
    ColumnUpContiguous(c, r, 0);
    var path := ColumnUp(c, r, 0);
    forall i | 1 <= i < |path| ensures InGrid(g, path[i]) && RouteAvailable(cells[At(g, path[i])]) {
      assert path[i] == Pos(r - i, c);
      assert Free(cells, g, r - i, c);
    }
  }

  /**
   * `get_buffer_slots`: per column, the topmost cell of the run of free cells
   * rising from the bottom row, or `None` when the bottom cell is not free.
   */
  method BufferSlots(cells: seq<Patch>, g: Grid, h: nat, w: nat) returns (slots: seq<Option<Pos>>)
    requires Rect(g, h, w) && Holds(g, |cells|)
    ensures |slots| == w
    ensures forall c | 0 <= c < w :: slots[c].Some? <==> h > 0 && Free(cells, g, h - 1, c)
    ensures forall c | 0 <= c < w && slots[c].Some? :: slots[c].value.col == c && IsSlot(cells, g, h, c, slots[c].value.row)
  {
    slots := [];
    for col := 0 to w
      invariant |slots| == col
      invariant forall c | 0 <= c < col :: slots[c].Some? <==> h > 0 && Free(cells, g, h - 1, c)
      invariant forall c | 0 <= c < col && slots[c].Some? :: slots[c].value.col == c && IsSlot(cells, g, h, c, slots[c].value.row)
    {
      var topmost: Option<Pos> := None;
      var row := h - 1;
      while row >= 0
        invariant -1 <= row < h
        invariant topmost.None? <==> row == h - 1
        invariant topmost.Some? ==> topmost.value == Pos(row + 1, col)
        invariant forall k | row < k < h :: Free(cells, g, k, col)
      {
        if Free(cells, g, row, col) {
          topmost := Some(Pos(row, col));
        } else {
          break;
        }
        row := row - 1;
      }
      slots := slots + [topmost];
    }
  }

  /** The scan of one column of `get_buffer_states`. */
  method ColumnState(cells: seq<Patch>, g: Grid, h: nat, w: nat, col: nat) returns (topmost: Option<Pos>)
    requires Rect(g, h, w) && Holds(g, |cells|) && col < w
    ensures topmost.Some? ==> topmost.value.col == col && IsState(cells, g, col, topmost.value.row)
    ensures topmost.None? ==> forall r | 0 <= r < h :: !IsState(cells, g, col, r)
  {
    topmost := None;
    var row := 0;
    while row < h
      invariant 0 <= row <= h
      invariant forall k | 0 <= k < row :: Free(cells, g, k, col)
    {
      if Stocked(cells, g, row, col) {
        return Some(Pos(row, col));
      } else if !Free(cells, g, row, col) {
        forall r | 0 <= r < h ensures !IsState(cells, g, col, r) {
          if r < row {
            assert Free(cells, g, r, col);
            AvailabilityExclusive(cells[g[r][col]]);
          } else if r > row {
            assert !Free(cells, g, row, col);
          }
        }
        return None;
      }
      row := row + 1;
    }
    forall r | 0 <= r < h ensures !IsState(cells, g, col, r) {
      assert Free(cells, g, r, col);
      AvailabilityExclusive(cells[g[r][col]]);
    }
  }

  /**
   * `get_buffer_states`: per column, the first cell offering a magic state
   * reached from row 0 through free cells, or `None` when the column is
   * blocked (or exhausted) first.
   */
  method BufferStates(cells: seq<Patch>, g: Grid, h: nat, w: nat) returns (states: seq<Option<Pos>>)
    requires Rect(g, h, w) && Holds(g, |cells|)
    ensures |states| == w
    ensures forall c | 0 <= c < w && states[c].Some? :: states[c].value.col == c && IsState(cells, g, c, states[c].value.row)
    ensures forall c | 0 <= c < w && states[c].None? :: forall r | 0 <= r < h :: !IsState(cells, g, c, r)
  {
    states := [];
    for col := 0 to w
      invariant |states| == col
      invariant forall c | 0 <= c < col && states[c].Some? :: states[c].value.col == c && IsState(cells, g, c, states[c].value.row)
      invariant forall c | 0 <= c < col && states[c].None? :: forall r | 0 <= r < h :: !IsState(cells, g, c, r)
    {
      var topmost := ColumnState(cells, g, h, w, col);
      states := states + [topmost];
    }
  }
}
