/**
 * Widget regions: the orientation transform of a region's local view, the
 * inference of that orientation from the region's placement next to its
 * upstream region, cell and row lookup, and the statistics record.
 */
module Regions {
  import opened Wrappers
  import opened Patches
  import opened Grids

  /** `TopEdgePosition`: the bearing of the region's top edge. */
  const Top: int := 0
  const Right: int := 90
  const Bottom: int := 180
  const Left: int := 270

  predicate InBox(h: int, w: int, p: Pos)
  {
    0 <= p.row < h && 0 <= p.col < w
  }

  /**
   * `WidgetRegionView.tl`: the position in the stored grid of view position
   * `p`, for a region of stored height `h` and width `w` (the view reports
   * the stored height and width).  A bearing that is not one of the four
   * raises.
   */
  function Tl(rotation: int, h: int, w: int, p: Pos): (r: Option<Pos>)
    ensures r.Some? <==> rotation in {Top, Right, Bottom, Left}
    ensures rotation == Top ==> r == Some(p)
    ensures rotation == Bottom ==> r == Some(Pos(h - 1 - p.row, w - 1 - p.col))
    ensures rotation == Right ==> r == Some(Pos(p.col, h - 1 - p.row))
    ensures rotation == Left ==> r == Some(Pos(w - 1 - p.col, p.row))
  {
    if rotation == Top then Some(p)
    else if rotation == Bottom then Some(Pos(h - 1 - p.row, w - 1 - p.col))
    else if rotation == Right then Some(Pos(p.col, h - 1 - p.row))
    else if rotation == Left then Some(Pos(w - 1 - p.col, p.row))
    else None
  }

  /** The half turn is its own inverse and keeps positions inside the region. */
  lemma BottomInvolution(h: int, w: int, p: Pos)
    ensures Tl(Bottom, h, w, Tl(Bottom, h, w, p).value) == Some(p)
    ensures InBox(h, w, p) ==> InBox(h, w, Tl(Bottom, h, w, p).value)
  {
  }

  /**
   * A quarter turn followed by the opposite quarter turn shifts the row by
   * the difference of width and height, so the two undo each other exactly
   * on square regions.
   */
  lemma QuarterTurnsUndo(h: int, w: int, p: Pos)
    ensures Tl(Left, h, w, Tl(Right, h, w, p).value) == Some(Pos(p.row + w - h, p.col))
    ensures Tl(Left, h, w, Tl(Right, h, w, p).value) == Some(p) <==> h == w
  {
  }

  /** On a square region the quarter turns keep positions inside the region. */
  lemma QuarterTurnInBox(n: int, p: Pos)
    requires InBox(n, n, p)
    ensures InBox(n, n, Tl(Right, n, n, p).value) && InBox(n, n, Tl(Left, n, n, p).value)
  {
  }

  /**
   * Because the view keeps the stored height and width, a quarter-turned view
   * of a region that is not square reaches outside the stored grid: in a
   * one-row, two-column region the view cell (0, 1) is stored at (1, 0).
   */
  lemma QuarterTurnLeavesWideRegion()
    ensures InBox(1, 2, Pos(0, 1))
    ensures Tl(Right, 1, 2, Pos(0, 1)) == Some(Pos(1, 0)) && !InBox(1, 2, Pos(1, 0))
    ensures Tl(Left, 1, 2, Pos(0, 0)) == Some(Pos(1, 0))
  {
  }

  /** Every view position of an `h` by `w` region maps to a stored position. */
  predicate ViewFits(rotation: int, h: nat, w: nat)
  {
    forall r, c | 0 <= r < h && 0 <= c < w ::
      Tl(rotation, h, w, Pos(r, c)).Some? && InBox(h, w, Tl(rotation, h, w, Pos(r, c)).value)
  }

  /**
   * The view's indexing is total on its positions exactly for the upright
   * and the half-turned region, and for quarter turns of a square one.
   */
  lemma ViewFitsExactly(rotation: int, h: nat, w: nat)
    requires h > 0 && w > 0
    ensures ViewFits(rotation, h, w) <==>
      rotation == Top || rotation == Bottom || ((rotation == Right || rotation == Left) && h == w)
  {
    if (rotation == Right || rotation == Left) && h != w {
      var p := if rotation == Right then (if w > h then Pos(0, w - 1) else Pos(0, 0))
               else (if w > h then Pos(0, 0) else Pos(h - 1, 0));
      assert !(Tl(rotation, h, w, p).Some? && InBox(h, w, Tl(rotation, h, w, p).value));
    }
  }

  /** The grid as seen through the view: `view[r, c]` is the stored cell at `tl((r, c))`. */
  function ViewGrid(g: Grid, rotation: int, h: nat, w: nat): (v: Grid)
    requires Rect(g, h, w) && ViewFits(rotation, h, w)
    ensures Rect(v, h, w)
    ensures forall r, c | 0 <= r < h && 0 <= c < w :: v[r][c] == At(g, Tl(rotation, h, w, Pos(r, c)).value)
  {
    seq(h, r requires 0 <= r < h =>
      seq(w, c requires 0 <= c < w => At(g, Tl(rotation, h, w, Pos(r, c)).value)))
  }

  lemma ViewOfUpright(g: Grid, h: nat, w: nat)
    requires Rect(g, h, w)
    ensures ViewFits(Top, h, w) && ViewGrid(g, Top, h, w) == g
  {
    var v := ViewGrid(g, Top, h, w);
    forall r | 0 <= r < h ensures v[r] == g[r] {
    }
  }

  /** Where the upstream region is and how big it is, when it is known. */
  datatype Neighbour = Neighbour(offset: Option<Pos>, height: int, width: int)

  /**
   * The rotation chosen when the region is constructed at `offset` (the
   * position of its top-left cell as (row, column)): facing the upstream
   * region it sits below, above, to the right of, or to the left of; the
   * class default 0 when either placement is unknown or the regions overlap.
   */
  function InferRotation(offset: Option<Pos>, h: int, w: int, upstream: Option<Neighbour>): (r: int)
    ensures r in {Top, Right, Bottom, Left}
    ensures offset.None? || upstream.None? || upstream.value.offset.None? ==> r == Top
    ensures offset.Some? && upstream.Some? && upstream.value.offset.Some? ==>
      var me := offset.value;
      var up := upstream.value.offset.value;
      var u := upstream.value;
      (me.row >= up.row + u.height ==> r == Top)
      && (me.row < up.row + u.height && me.row + h <= up.row ==> r == Bottom)
      && (me.row < up.row + u.height && me.row + h > up.row && me.col >= up.col + u.width ==> r == Left)
      && (me.row < up.row + u.height && me.row + h > up.row && me.col < up.col + u.width && me.col + w <= up.col ==> r == Right)
  {
    if offset.None? || upstream.None? || upstream.value.offset.None? then Top
    else
      var me := offset.value;
      var up := upstream.value.offset.value;
      if me.row >= up.row + upstream.value.height then Top
      else if me.row + h <= up.row then Bottom
      else if me.col >= up.col + upstream.value.width then Left
      else if me.col + w <= up.col then Right
      else Top
  }

  /** A region placed directly below its upstream region keeps the identity view. */
  lemma BelowIsUpright(up: Pos, uh: int, uw: int, h: int, w: int, col: int)
    ensures InferRotation(Some(Pos(up.row + uh, col)), h, w, Some(Neighbour(Some(up), uh, uw))) == Top
  {
  }

  /** `WidgetRegion.__getitem__` keys and results. */
  datatype Key = CellKey(row: int, col: int) | RowKey(row: int) | OtherKey
  datatype Item = CellItem(id: PatchId) | RowItem(ids: seq<PatchId>) | TypeError

  /** A pair looks up one cell, an integer one row; any other key is a type error. */
  function GetItem(g: Grid, key: Key): (r: Item)
    requires key.CellKey? ==> InGrid(g, Pos(key.row, key.col))
    requires key.RowKey? ==> 0 <= key.row < |g|
    ensures key.CellKey? ==> r == CellItem(At(g, Pos(key.row, key.col)))
    ensures key.RowKey? ==> r == RowItem(g[key.row])
    ensures r.TypeError? <==> key.OtherKey?
  {
    match key
    case CellKey(row, col) => CellItem(g[row][col])
    case RowKey(row) => RowItem(g[row])
    case OtherKey => TypeError
  }

  /**
   * `RegionStats`: the three counters every statistics record has, each 0
   * unless given.
   */
  datatype RegionStats = RegionStats(numRegisters: int, numTBuffers: int, numBellBuffers: int)

  function NoStats(): RegionStats { RegionStats(0, 0, 0) }

  /** `RegionStats.__add__`: the key-wise sum. */
  function AddStats(a: RegionStats, b: RegionStats): (r: RegionStats)
    ensures r.numRegisters == a.numRegisters + b.numRegisters
    ensures r.numTBuffers == a.numTBuffers + b.numTBuffers
    ensures r.numBellBuffers == a.numBellBuffers + b.numBellBuffers
  {
    RegionStats(a.numRegisters + b.numRegisters, a.numTBuffers + b.numTBuffers, a.numBellBuffers + b.numBellBuffers)
  }

  /** The empty record is neutral, and the order of summation does not matter. */
  lemma StatsMonoid(a: RegionStats, b: RegionStats, c: RegionStats)
    ensures AddStats(NoStats(), a) == a && AddStats(a, NoStats()) == a
    ensures AddStats(a, b) == AddStats(b, a)
    ensures AddStats(AddStats(a, b), c) == AddStats(a, AddStats(b, c))
  {
  }

  /** The statistics of a list of regions added up left to right, as the layout templates do. */
  function SumStats(s: seq<RegionStats>): RegionStats
  {
    if s == [] then NoStats() else AddStats(SumStats(s[..|s| - 1]), s[|s| - 1])
  }

  lemma {:induction false} SumStatsAppend(s: seq<RegionStats>, t: seq<RegionStats>)
    ensures SumStats(s + t) == AddStats(SumStats(s), SumStats(t))
    decreases |t|
  {
    if t == [] {
      assert s + t == s;
      StatsMonoid(SumStats(s), NoStats(), NoStats());
    } else {
      var t' := t[..|t| - 1];
      assert (s + t)[..|s + t| - 1] == s + t';
      SumStatsAppend(s, t');
      StatsMonoid(SumStats(s), SumStats(t'), t[|t| - 1]);
    }
  }
}
