/**
 * Magic-state factory regions: a block of routing patches onto which
 * factories are stamped.  A factory reserves its rectangular footprint and
 * turns its output positions into factory-output patches; each cycle the
 * region moves drained factories back to work and collects the output of
 * the factories that finished.  A factory's generator is an oracle here:
 * `done` is the set of factories whose `update()` reports a finished batch.
 */
module FactoryRegions {
  import opened Wrappers
  import opened Patches
  import opened Grids
  import opened Regions
  import opened Transactions

  /** `MagicStateFactoryRegion(width, height)`: every cell a plain routing patch. */
  function FactoryLayout(h: nat, w: nat): (rows: seq<seq<Patch>>)
    ensures |rows| == h && forall r | 0 <= r < h :: |rows[r]| == w
    ensures forall r, c | 0 <= r < h && 0 <= c < w ::
      rows[r][c].cls.PlainPatch? && rows[r][c].patchType == Route && RouteAvailable(rows[r][c])
      && rows[r][c].localY == r && rows[r][c].localX == c
  {
    seq(h, r => seq(w, c => NewPatch(PlainPatch, Route, r, c, ZTop)))
  }

  /** Patches whose local coordinates are their positions in the layout are never listed twice. */
  lemma CoordsInjective(cells: seq<Patch>, g: Grid)
    requires Holds(g, |cells|) && CoordsMatch(cells, g)
    ensures Injective(g)
  {
    forall r1, c1, r2, c2 | 0 <= r1 < |g| && 0 <= c1 < |g[r1]| && 0 <= r2 < |g| && 0 <= c2 < |g[r2]| && g[r1][c1] == g[r2][c2]
      ensures r1 == r2 && c1 == c2
    {
      assert cells[g[r1][c1]].localY == r1 && cells[g[r2][c2]].localY == r2;
    }
  }

  /**
   * Creating a region's patches: the rows are appended to the arena one
   * patch at a time, and the grid of their new ids is returned.
   */
  method Place(d: Device, rows: seq<seq<Patch>>, h: nat, w: nat) returns (g: Grid)
    requires d.Valid()
    requires |rows| == h && forall r | 0 <= r < h :: |rows[r]| == w
    requires forall r, c | 0 <= r < h && 0 <= c < w :: rows[r][c].lock == null && rows[r][c].localY == r && rows[r][c].localX == c
    modifies d`cells
    ensures d.Valid() && Rect(g, h, w) && Holds(g, |d.cells|) && Injective(g)
    ensures old(|d.cells|) <= |d.cells| && d.cells[..old(|d.cells|)] == old(d.cells)
    ensures forall r, c | 0 <= r < h && 0 <= c < w :: old(|d.cells|) <= g[r][c] && d.cells[g[r][c]] == rows[r][c]
  {
    g := [];
    for r := 0 to h
      invariant d.Valid() && Rect(g, r, w) && Holds(g, |d.cells|)
      invariant old(|d.cells|) <= |d.cells| && d.cells[..old(|d.cells|)] == old(d.cells)
      invariant forall r', c | 0 <= r' < r && 0 <= c < w :: old(|d.cells|) <= g[r'][c] && d.cells[g[r'][c]] == rows[r'][c]
    {
      var line: seq<PatchId> := [];
      for c := 0 to w
        invariant d.Valid() && Rect(g, r, w) && Holds(g, |d.cells|)
        invariant old(|d.cells|) <= |d.cells| && d.cells[..old(|d.cells|)] == old(d.cells)
        invariant forall r', c' | 0 <= r' < r && 0 <= c' < w :: old(|d.cells|) <= g[r'][c'] && d.cells[g[r'][c']] == rows[r'][c']
        invariant |line| == c
        invariant forall c' | 0 <= c' < c :: old(|d.cells|) <= line[c'] < |d.cells| && d.cells[line[c']] == rows[r][c']
      {
        d.cells := d.cells + [rows[r][c]];
        line := line + [|d.cells| - 1];
      }
      g := g + [line];
    }
    CoordsInjective(d.cells, g);
  }

  /** A prefix one longer is the prefix and the next element. */
  lemma TakeOneMore<X>(s: seq<X>, k: nat)
    requires k < |s|
    ensures s[..k + 1] == s[..k] + [s[k]]
  {
  }

  lemma InAppend<X>(x: X, s: seq<X>, y: X)
    ensures x in s + [y] <==> x in s || x == y
  {
  }

  /** One factory placed in the region: its size, its output offsets, the output patches and where it sits. */
  datatype Factory = Factory(height: nat, width: nat, positions: seq<Pos>, outputs: seq<PatchId>, layoutPos: Pos)

  /** How `add_factory` ends: placed, or the error it raises. */
  datatype Placement = Added | OutOfBounds | NotRoute | NotUpright

  /** Every output offset lies inside a factory of height `fh` and width `fw`. */
  predicate Offsets(positions: seq<Pos>, fh: nat, fw: nat)
  {
    forall k | 0 <= k < |positions| :: 0 <= positions[k].row < fh && 0 <= positions[k].col < fw
  }

  /** The footprint of a factory of height `fh` and width `fw` with top-left corner (row, col). */
  predicate InPrint(row: int, col: int, fh: int, fw: int, q: Pos)
  {
    row <= q.row < row + fh && col <= q.col < col + fw
  }

  /** Python's `min` on two (row, col) tuples: the lexicographically smaller, the first on a tie. */
  function MinPos(cur: Pos, item: Pos): (m: Pos)
    ensures m == cur || m == item
    ensures m.row < cur.row || (m.row == cur.row && m.col <= cur.col)
    ensures m.row < item.row || (m.row == item.row && m.col <= item.col)
  {
    if item.row < cur.row || (item.row == cur.row && item.col < cur.col) then item else cur
  }

  class FactoryRegion {
    const height: nat
    const width: nat
    /** The bearing of the region's top edge; factories can only be placed on an upright or upside-down region. */
    const rotation: int
    /** The key of the region's `available_states` pool in `Device.states`. */
    const tag: nat
    const g: Grid
    var factories: seq<Factory>
    var active: set<nat>
    var waiting: set<nat>

    /** The grid covers the region, every factory is either active or waiting, and outputs name patches. */
    ghost predicate Valid(d: Device)
      reads this, d
    {
      Rect(g, height, width) && Holds(g, |d.cells|) && Injective(g)
      && tag in d.states
      && active !! waiting
      && (forall i | i in active + waiting :: i < |factories|)
      && (forall i | 0 <= i < |factories| :: InRange(factories[i].outputs, |d.cells|))
    }

    /** A region over the patches `g` of the arena, with no factories and an empty pool. */
    constructor (g: Grid, h: nat, w: nat, rotation: int, tag: nat, d: Device)
      requires Rect(g, h, w) && Holds(g, |d.cells|) && Injective(g)
      modifies d`states
      ensures Valid(d)
      ensures this.g == g && height == h && width == w && this.rotation == rotation && this.tag == tag
      ensures factories == [] && active == {} && waiting == {}
      ensures d.states == old(d.states)[tag := {}]
    {
      d.states := d.states[tag := {}];
      this.g := g;
      height := h;
      width := w;
      this.rotation := rotation;
      this.tag := tag;
      factories := [];
      active := {};
      waiting := {};
    }

    /** `_get_local` and `_set_local` assert this before touching a cell. */
    predicate Upright()
    {
      rotation == Top || rotation == Bottom
    }

    /** The footprint lies inside the region. */
    predicate Fits(row: int, col: int, fh: nat, fw: nat)
    {
      0 <= row && row + fh <= height && 0 <= col && col + fw <= width
    }

    /** The patch at local view position `q`. */
    function Id(q: Pos): PatchId
      requires Rect(g, height, width) && Upright() && InBox(height, width, q)
    {
      At(g, Tl(rotation, height, width, q).value)
    }

    /** Distinct view positions name distinct patches. */
    lemma IdsDistinct(t: Pos)
      requires Rect(g, height, width) && Injective(g) && Upright() && InBox(height, width, t)
      ensures forall q | InBox(height, width, q) && q != t :: Id(q) != Id(t)
    {
    }

    /** The patch at a view position is one of the grid's. */
    lemma IdMentioned(t: Pos)
      requires Rect(g, height, width) && Upright() && InBox(height, width, t)
      ensures Mentions(g, Id(t))
    {
      var s := Tl(rotation, height, width, t).value;
      assert g[s.row][s.col] == Id(t);
    }

    /** Every cell of the footprint is plain routing space. */
    ghost predicate AllRoute(cells: seq<Patch>, row: int, col: int, fh: nat, fw: nat)
      requires Rect(g, height, width) && Holds(g, |cells|) && Upright() && Fits(row, col, fh, fw)
    {
      forall q | InBox(height, width, q) && InPrint(row, col, fh, fw, q) :: cells[Id(q)].patchType == Route
    }

    /** The patches of the output positions, in the order of `positions`, duplicates kept. */
    function Outputs(row: int, col: int, fh: nat, fw: nat, positions: seq<Pos>): (r: seq<PatchId>)
      requires Rect(g, height, width) && Upright() && Fits(row, col, fh, fw) && Offsets(positions, fh, fw)
      ensures |r| == |positions|
    {
      seq(|positions|, k requires 0 <= k < |positions| => Id(Pos(row + positions[k].row, col + positions[k].col)))
    }

    /** The output patches are patches of the arena. */
    lemma OutputsInRange(row: int, col: int, fh: nat, fw: nat, positions: seq<Pos>, n: nat)
      requires Rect(g, height, width) && Holds(g, n) && Upright() && Fits(row, col, fh, fw) && Offsets(positions, fh, fw)
      ensures InRange(Outputs(row, col, fh, fw, positions), n)
    {
    }

    /** `layout_position`: the smallest of the footprint's corners in stored coordinates. */
    function LayoutPosition(row: int, col: int, fh: nat, fw: nat): Pos
      requires Upright()
    {
      var c0 := Tl(rotation, height, width, Pos(row, col)).value;
      var c1 := Tl(rotation, height, width, Pos(row, col + fw - 1)).value;
      var c2 := Tl(rotation, height, width, Pos(row + fh - 1, col)).value;
      var c3 := Tl(rotation, height, width, Pos(row + fh - 1, col + fw - 1)).value;
      MinPos(MinPos(MinPos(c0, c1), c2), c3)
    }

    /** The layout position is the stored top-left corner of the footprint. */
    lemma LayoutPositionIsCorner(row: int, col: int, fh: nat, fw: nat)
      requires Upright() && fh >= 1 && fw >= 1
      ensures rotation == Top ==> LayoutPosition(row, col, fh, fw) == Pos(row, col)
      ensures rotation == Bottom ==> LayoutPosition(row, col, fh, fw) == Pos(height - row - fh, width - col - fw)
    {
    }

    /** A factory-output patch for factory `f` at local position `q`. */
    function OutputPatch(f: nat, q: Pos): (p: Patch)
      ensures p.cls == FactoryOutputPatch(f) && p.patchType == FactoryOutput && p.tCount == 0 && p.lock == null
      ensures !TAvailable(p) && !RouteAvailable(p)
    {
      NewPatch(FactoryOutputPatch(f), FactoryOutput, q.row, q.col, ZTop)
    }

    /**
     * The patch at `q` after factory `f` has been placed: footprint cells
     * are reserved, output positions hold fresh output patches.
     */
    function Placed(before: Patch, f: nat, row: int, col: int, fh: nat, fw: nat, positions: seq<Pos>, q: Pos): Patch
    {
      if !InPrint(row, col, fh, fw, q) then before
      else if Pos(q.row - row, q.col - col) in positions then OutputPatch(f, q)
      else before.(patchType := Reserved)
    }

    /** Some footprint cells, all of them routing patches before, have been reserved; nothing else changed. */
    ghost predicate PartlyReserved(cells: seq<Patch>, base: seq<Patch>, row: int, col: int, fh: nat, fw: nat)
      requires Rect(g, height, width) && Holds(g, |base|) && |cells| == |base| && Upright()
    {
      forall q | InBox(height, width, q) ::
        cells[Id(q)] == base[Id(q)]
        || (InPrint(row, col, fh, fw, q) && base[Id(q)].patchType == Route && cells[Id(q)] == base[Id(q)].(patchType := Reserved))
    }

    /** Exactly the footprint cells have been reserved. */
    ghost predicate AllReserved(cells: seq<Patch>, base: seq<Patch>, row: int, col: int, fh: nat, fw: nat)
      requires Rect(g, height, width) && Holds(g, |base|) && |cells| == |base| && Upright()
    {
      forall q | InBox(height, width, q) ::
        cells[Id(q)] == if InPrint(row, col, fh, fw, q) then base[Id(q)].(patchType := Reserved) else base[Id(q)]
    }

    /** Every cell of the region is as placing factory `f` leaves it. */
    ghost predicate AllPlaced(cells: seq<Patch>, base: seq<Patch>, f: nat, row: int, col: int, fh: nat, fw: nat, positions: seq<Pos>)
      requires Rect(g, height, width) && Holds(g, |base|) && |cells| == |base| && Upright()
    {
      forall q | InBox(height, width, q) :: cells[Id(q)] == Placed(base[Id(q)], f, row, col, fh, fw, positions, q)
    }

    /**
     * `cells` is `base` with the footprint cells before (r, c) in row-major
     * order reserved, and those were all routing patches.
     */
    ghost predicate ReservedUpTo(cells: seq<Patch>, base: seq<Patch>, row: int, col: int, fw: nat, r: int, c: int)
      requires Rect(g, height, width) && Holds(g, |base|) && |cells| == |base| && Upright()
    {
      forall q | InBox(height, width, q) ::
        && (cells[Id(q)] == if InPrint(row, col, r - row, fw, q) || (q.row == r && col <= q.col < c) then base[Id(q)].(patchType := Reserved) else base[Id(q)])
        && (InPrint(row, col, r - row, fw, q) || (q.row == r && col <= q.col < c) ==> base[Id(q)].patchType == Route)
    }

    /** Only cells of the grid change. */
    ghost predicate OutsideKept(cells: seq<Patch>, base: seq<Patch>)
    {
      |cells| == |base| && forall p | 0 <= p < |cells| && !Mentions(g, p) :: cells[p] == base[p]
    }

    /** Reserving one more cell extends the reserved prefix by that cell. */
    lemma ReserveStep(cells: seq<Patch>, base: seq<Patch>, row: int, col: int, fw: nat, r: int, c: int)
      requires Rect(g, height, width) && Injective(g) && Holds(g, |base|) && |cells| == |base| && Upright()
      requires InBox(height, width, Pos(r, c)) && row <= r && col <= c < col + fw
      requires ReservedUpTo(cells, base, row, col, fw, r, c) && cells[Id(Pos(r, c))].patchType == Route
      ensures ReservedUpTo(cells[Id(Pos(r, c)) := cells[Id(Pos(r, c))].(patchType := Reserved)], base, row, col, fw, r, c + 1)
    {
      IdsDistinct(Pos(r, c));
    }

    /**
     * The inner loop of `add_factory`'s first loop: the cells of row `r` of
     * the footprint, left to right.
     */
    method ReserveRow(d: Device, row: int, col: int, fw: nat, r: int, ghost base: seq<Patch>) returns (ok: bool)
      requires Valid(d) && d.Valid() && Upright() && Holds(g, |base|)
      requires 0 <= row <= r < height && 0 <= col && col + fw <= width
      requires OutsideKept(d.cells, base) && ReservedUpTo(d.cells, base, row, col, fw, r, col)
      modifies d`cells
      ensures Valid(d) && d.Valid() && OutsideKept(d.cells, base)
      ensures ok ==> ReservedUpTo(d.cells, base, row, col, fw, r, col + fw)
      ensures !ok ==> exists c | col <= c < col + fw :: ReservedUpTo(d.cells, base, row, col, fw, r, c) && base[Id(Pos(r, c))].patchType != Route
    {
      for c := col to col + fw
        invariant Valid(d) && d.Valid() && OutsideKept(d.cells, base)
        invariant ReservedUpTo(d.cells, base, row, col, fw, r, c)
      {
        var t := Pos(r, c);
        var p := Id(t);
        if d.cells[p].patchType != Route {
          return false;
        }
        ReserveStep(d.cells, base, row, col, fw, r, c);
        IdMentioned(t);
        d.SetType(p, Reserved);
      }
      ok := true;
    }

    /** A full row reserved is the start of the next row. */
    lemma NextRow(cells: seq<Patch>, base: seq<Patch>, row: int, col: int, fw: nat, r: int)
      requires Rect(g, height, width) && Holds(g, |base|) && |cells| == |base| && Upright()
      requires row <= r && ReservedUpTo(cells, base, row, col, fw, r, col + fw)
      ensures ReservedUpTo(cells, base, row, col, fw, r + 1, col)
    {
    }

    /** A cell that was not routing space, met before the end, makes the footprint not all routing space. */
    lemma StoppedEarly(cells: seq<Patch>, base: seq<Patch>, row: int, col: int, fh: nat, fw: nat, r: int, c: int)
      requires Rect(g, height, width) && Holds(g, |base|) && |cells| == |base| && Upright() && Fits(row, col, fh, fw)
      requires row <= r < row + fh && col <= c < col + fw
      requires ReservedUpTo(cells, base, row, col, fw, r, c) && base[Id(Pos(r, c))].patchType != Route
      ensures !AllRoute(base, row, col, fh, fw)
      ensures PartlyReserved(cells, base, row, col, fh, fw)
    {
      assert InBox(height, width, Pos(r, c)) && InPrint(row, col, fh, fw, Pos(r, c));
    }

    /** Once every row is reserved, the footprint was all routing space and is now all reserved. */
    lemma AllRows(cells: seq<Patch>, base: seq<Patch>, row: int, col: int, fh: nat, fw: nat)
      requires Rect(g, height, width) && Holds(g, |base|) && |cells| == |base| && Upright() && Fits(row, col, fh, fw)
      requires ReservedUpTo(cells, base, row, col, fw, row + fh, col)
      ensures AllRoute(base, row, col, fh, fw)
      ensures AllReserved(cells, base, row, col, fh, fw)
    {
    }

    /**
     * The first loop of `add_factory`: every footprint cell, row by row,
     * must be a routing patch and becomes a reserved one.  At the first cell
     * that is not, the source's assertion fails, and the cells reserved so
     * far stay reserved.
     */
    method Reserve(d: Device, row: int, col: int, fh: nat, fw: nat) returns (ok: bool)
      requires Valid(d) && d.Valid() && Upright() && Fits(row, col, fh, fw)
      modifies d`cells
      ensures Valid(d) && d.Valid() && OutsideKept(d.cells, old(d.cells))
      ensures ok == AllRoute(old(d.cells), row, col, fh, fw)
      ensures PartlyReserved(d.cells, old(d.cells), row, col, fh, fw)
      ensures ok ==> AllReserved(d.cells, old(d.cells), row, col, fh, fw)
    {
      ghost var base := d.cells;
      for r := row to row + fh
        invariant Valid(d) && d.Valid() && OutsideKept(d.cells, base)
        invariant ReservedUpTo(d.cells, base, row, col, fw, r, col)
      {
        ok := ReserveRow(d, row, col, fw, r, base);
        if !ok {
          ghost var c :| col <= c < col + fw && ReservedUpTo(d.cells, base, row, col, fw, r, c) && base[Id(Pos(r, c))].patchType != Route;
          StoppedEarly(d.cells, base, row, col, fh, fw, r, c);
          return;
        }
        NextRow(d.cells, base, row, col, fw, r);
      }
      AllRows(d.cells, base, row, col, fh, fw);
      ok := true;
    }

    /** `cells` is `base` with the output positions among `ps` turned into output patches of factory `f`. */
    ghost predicate OutputsUpTo(cells: seq<Patch>, base: seq<Patch>, row: int, col: int, fh: nat, fw: nat, ps: seq<Pos>, f: nat)
      requires Rect(g, height, width) && Holds(g, |base|) && |cells| == |base| && Upright()
    {
      forall q | InBox(height, width, q) ::
        cells[Id(q)] == if InPrint(row, col, fh, fw, q) && Pos(q.row - row, q.col - col) in ps then OutputPatch(f, q) else base[Id(q)]
    }

    /** Placing the next output position, whether or not it was placed before. */
    lemma OutputStep(cells: seq<Patch>, base: seq<Patch>, row: int, col: int, fh: nat, fw: nat, ps: seq<Pos>, o: Pos, f: nat)
      requires Rect(g, height, width) && Injective(g) && Holds(g, |base|) && |cells| == |base| && Upright() && Fits(row, col, fh, fw)
      requires 0 <= o.row < fh && 0 <= o.col < fw
      requires forall q | InBox(height, width, q) && InPrint(row, col, fh, fw, q) :: base[Id(q)].patchType == Reserved
      requires OutputsUpTo(cells, base, row, col, fh, fw, ps, f)
      ensures var t := Pos(row + o.row, col + o.col);
        OutputsUpTo(if cells[Id(t)].patchType == Reserved then cells[Id(t) := OutputPatch(f, t)] else cells, base, row, col, fh, fw, ps + [o], f)
    {
      var t := Pos(row + o.row, col + o.col);
      var p := Id(t);
      var after := if cells[p].patchType == Reserved then cells[p := OutputPatch(f, t)] else cells;
      IdsDistinct(t);
      forall q | InBox(height, width, q)
        ensures after[Id(q)] == if InPrint(row, col, fh, fw, q) && Pos(q.row - row, q.col - col) in ps + [o] then OutputPatch(f, q) else base[Id(q)]
      {
        var off := Pos(q.row - row, q.col - col);
        InAppend(off, ps, o);
        if q != t {
          assert off != o;
          assert after[Id(q)] == cells[Id(q)];
        } else {
          assert off == o && InPrint(row, col, fh, fw, q);
          if off in ps {
            assert cells[p] == OutputPatch(f, t);
          } else {
            assert cells[p] == base[p];
          }
        }
      }
    }

    /** One step of the second loop of `add_factory`: the output at offset `o`. */
    method OutputAt(d: Device, row: int, col: int, fh: nat, fw: nat, ghost ps: seq<Pos>, o: Pos, f: nat, ghost base: seq<Patch>) returns (p: PatchId)
      requires Valid(d) && d.Valid() && Upright() && Fits(row, col, fh, fw) && 0 <= o.row < fh && 0 <= o.col < fw
      requires Holds(g, |base|) && OutsideKept(d.cells, base)
      requires forall q | InBox(height, width, q) && InPrint(row, col, fh, fw, q) :: base[Id(q)].patchType == Reserved
      requires OutputsUpTo(d.cells, base, row, col, fh, fw, ps, f)
      modifies d`cells
      ensures Valid(d) && d.Valid() && OutsideKept(d.cells, base)
      ensures p == Id(Pos(row + o.row, col + o.col))
      ensures OutputsUpTo(d.cells, base, row, col, fh, fw, ps + [o], f)
    {
      var t := Pos(row + o.row, col + o.col);
      p := Id(t);
      OutputStep(d.cells, base, row, col, fh, fw, ps, o, f);
      IdMentioned(t);
      if d.cells[p].patchType == Reserved {
        d.cells := d.cells[p := OutputPatch(f, t)];
      }
    }

    /** The listed outputs grow one position at a time. */
    lemma OutputsPrefix(row: int, col: int, fh: nat, fw: nat, positions: seq<Pos>, k: nat)
      requires Rect(g, height, width) && Upright() && Fits(row, col, fh, fw) && Offsets(positions, fh, fw) && k < |positions|
      ensures Outputs(row, col, fh, fw, positions)[..k + 1]
        == Outputs(row, col, fh, fw, positions)[..k] + [Id(Pos(row + positions[k].row, col + positions[k].col))]
    {
    }

    /**
     * The second loop of `add_factory`: each output position that is still
     * reserved becomes an output patch of factory `f`; every position's
     * patch is listed, so an offset given twice is listed twice.
     */
    method PlaceOutputs(d: Device, row: int, col: int, fh: nat, fw: nat, positions: seq<Pos>, f: nat) returns (outputs: seq<PatchId>)
      requires Valid(d) && d.Valid() && Upright() && Fits(row, col, fh, fw) && Offsets(positions, fh, fw)
      requires forall q | InBox(height, width, q) && InPrint(row, col, fh, fw, q) :: d.cells[Id(q)].patchType == Reserved
      modifies d`cells
      ensures Valid(d) && d.Valid() && OutsideKept(d.cells, old(d.cells))
      ensures outputs == Outputs(row, col, fh, fw, positions)
      ensures OutputsUpTo(d.cells, old(d.cells), row, col, fh, fw, positions, f)
    {
      ghost var base := d.cells;
      outputs := [];
      for k := 0 to |positions|
        invariant Valid(d) && d.Valid() && OutsideKept(d.cells, base)
        invariant outputs == Outputs(row, col, fh, fw, positions)[..k]
        invariant OutputsUpTo(d.cells, base, row, col, fh, fw, positions[..k], f)
      {
        var p := OutputAt(d, row, col, fh, fw, positions[..k], positions[k], f, base);
        TakeOneMore(positions, k);
        OutputsPrefix(row, col, fh, fw, positions, k);
        outputs := outputs + [p];
      }
      assert positions[..|positions|] == positions;
    }

    /** The placement effect on every cell of the region, from the results of the two loops. */
    lemma PlacedCells(cells: seq<Patch>, mid: seq<Patch>, base: seq<Patch>, row: int, col: int, fh: nat, fw: nat, positions: seq<Pos>, f: nat)
      requires Rect(g, height, width) && Holds(g, |base|) && |mid| == |base| && |cells| == |base| && Upright() && Fits(row, col, fh, fw)
      requires AllReserved(mid, base, row, col, fh, fw)
      requires OutputsUpTo(cells, mid, row, col, fh, fw, positions, f)
      ensures AllPlaced(cells, base, f, row, col, fh, fw, positions)
    {
    }

    /** The end of `add_factory`: the factory is appended to the list and is active. */
    method Record(d: Device, fac: Factory)
      requires Valid(d) && InRange(fac.outputs, |d.cells|)
      modifies this
      ensures Valid(d)
      ensures factories == old(factories) + [fac] && active == old(active) + {|old(factories)|} && waiting == old(waiting)
    {
      active := active + {|factories|};
      factories := factories + [fac];
    }

    /** `add_factory` past its two checks: the two loops, then the factory is recorded as active. */
    method Stamp(d: Device, row: int, col: int, fh: nat, fw: nat, positions: seq<Pos>) returns (ok: bool)
      requires Valid(d) && d.Valid() && fh >= 1 && fw >= 1 && Offsets(positions, fh, fw) && Fits(row, col, fh, fw) && Upright()
      modifies this, d`cells
      ensures Valid(d) && d.Valid() && OutsideKept(d.cells, old(d.cells))
      ensures ok == AllRoute(old(d.cells), row, col, fh, fw)
      ensures !ok ==> factories == old(factories) && active == old(active) && waiting == old(waiting)
      ensures !ok ==> PartlyReserved(d.cells, old(d.cells), row, col, fh, fw)
      ensures ok ==> (factories == old(factories) + [Factory(fh, fw, positions, Outputs(row, col, fh, fw, positions), LayoutPosition(row, col, fh, fw))]
        && active == old(active) + {|old(factories)|} && waiting == old(waiting))
      ensures ok ==> AllPlaced(d.cells, old(d.cells), |old(factories)|, row, col, fh, fw, positions)
    {
      ghost var base := d.cells;
      ok := Reserve(d, row, col, fh, fw);
      if !ok {
        return;
      }
      ghost var mid := d.cells;
      var f := |factories|;
      var outputs := PlaceOutputs(d, row, col, fh, fw, positions, f);
      PlacedCells(d.cells, mid, base, row, col, fh, fw, positions, f);
      OutputsInRange(row, col, fh, fw, positions, |d.cells|);
      Record(d, Factory(fh, fw, positions, outputs, LayoutPosition(row, col, fh, fw)));
    }

    /**
     * `add_factory`: place a factory of height `fh` and width `fw` whose
     * outputs sit at `positions` (offsets inside the factory) with its
     * top-left corner at view position (row, col).  It becomes factory
     * number `|factories|` and starts out active.
     */
    method AddFactory(d: Device, row: int, col: int, fh: nat, fw: nat, positions: seq<Pos>) returns (res: Placement)
      requires Valid(d) && d.Valid() && fh >= 1 && fw >= 1 && Offsets(positions, fh, fw)
      modifies this, d`cells
      ensures Valid(d) && d.Valid() && OutsideKept(d.cells, old(d.cells))
      ensures res == OutOfBounds <==> !Fits(row, col, fh, fw)
      ensures res == NotUpright <==> Fits(row, col, fh, fw) && !Upright()
      ensures res == Added <==> Fits(row, col, fh, fw) && Upright() && AllRoute(old(d.cells), row, col, fh, fw)
      ensures res != Added ==> factories == old(factories) && active == old(active) && waiting == old(waiting)
      ensures res == OutOfBounds || res == NotUpright ==> d.cells == old(d.cells)
      ensures res == NotRoute ==> Upright() && PartlyReserved(d.cells, old(d.cells), row, col, fh, fw)
      ensures res == Added ==> (Upright() && Fits(row, col, fh, fw)
        && factories == old(factories) + [Factory(fh, fw, positions, Outputs(row, col, fh, fw, positions), LayoutPosition(row, col, fh, fw))]
        && active == old(active) + {|old(factories)|} && waiting == old(waiting)
        && AllPlaced(d.cells, old(d.cells), |old(factories)|, row, col, fh, fw, positions))
    {
      if !Fits(row, col, fh, fw) {
        return OutOfBounds;
      }
      if !Upright() {
        return NotUpright;
      }
      var ok := Stamp(d, row, col, fh, fw, positions);
      res := if ok then Added else NotRoute;
    }

    /** The factory record `add_factory` makes for a factory placed with its top-left corner at `o`. */
    function FactoryAt(o: Pos, fh: nat, fw: nat, positions: seq<Pos>): Factory
      requires Rect(g, height, width) && Upright() && Fits(o.row, o.col, fh, fw) && Offsets(positions, fh, fw)
    {
      Factory(fh, fw, positions, Outputs(o.row, o.col, fh, fw, positions), LayoutPosition(o.row, o.col, fh, fw))
    }

    /** Every cell above row `lim` is a routing patch. */
    ghost predicate RouteAbove(cells: seq<Patch>, lim: int)
      requires Rect(g, height, width) && Holds(g, |cells|) && Upright()
    {
      forall q | InBox(height, width, q) && q.row < lim :: cells[Id(q)].patchType == Route
    }

    /** Every cell of rows `top` to `bottom - 1` from column `c` on is a routing patch. */
    ghost predicate RouteRight(cells: seq<Patch>, top: int, bottom: int, c: int)
      requires Rect(g, height, width) && Holds(g, |cells|) && Upright()
    {
      forall q | InBox(height, width, q) && top <= q.row < bottom && c <= q.col :: cells[Id(q)].patchType == Route
    }

    /** A footprint inside a free band is free. */
    lemma FreeFootprint(cells: seq<Patch>, row: int, col: int, fh: nat, fw: nat)
      requires Rect(g, height, width) && Holds(g, |cells|) && Upright() && Fits(row, col, fh, fw)
      requires RouteRight(cells, row, row + fh, col)
      ensures AllRoute(cells, row, col, fh, fw)
    {
    }

    /** Placing a factory leaves every cell outside its footprint as it was. */
    lemma PlacedOutside(cells: seq<Patch>, base: seq<Patch>, f: nat, row: int, col: int, fh: nat, fw: nat, positions: seq<Pos>, lim: int, top: int, bottom: int, c: int)
      requires Rect(g, height, width) && Holds(g, |base|) && |cells| == |base| && Upright()
      requires AllPlaced(cells, base, f, row, col, fh, fw, positions)
      ensures lim <= row && RouteAbove(base, lim) ==> RouteAbove(cells, lim)
      ensures (bottom <= row || row + fh <= top || col + fw <= c) && RouteRight(base, top, bottom, c) ==> RouteRight(cells, top, bottom, c)
    {
    }

    /** The cells of a freshly made region are all routing patches. */
    lemma FreshRoute(cells: seq<Patch>)
      requires Rect(g, height, width) && Holds(g, |cells|) && Upright()
      requires forall r, c | 0 <= r < height && 0 <= c < width :: cells[g[r][c]].patchType == Route
      ensures RouteAbove(cells, height)
    {
      forall q | InBox(height, width, q) && q.row < height
        ensures cells[Id(q)].patchType == Route
      {
        var s := Tl(rotation, height, width, q).value;
        assert cells[g[s.row][s.col]].patchType == Route;
      }
    }

    /** Free rows above a limit are free above any lower limit. */
    lemma AboveLower(cells: seq<Patch>, lim: int, lim': int)
      requires Rect(g, height, width) && Holds(g, |cells|) && Upright()
      requires RouteAbove(cells, lim) && lim' <= lim
      ensures RouteAbove(cells, lim')
    {
    }

    /** A band of free rows is free from every column on. */
    lemma AboveIsRight(cells: seq<Patch>, lim: int, top: int, bottom: int, c: int)
      requires Rect(g, height, width) && Holds(g, |cells|) && Upright()
      requires RouteAbove(cells, lim) && bottom <= lim
      ensures RouteRight(cells, top, bottom, c)
    {
    }

    /**
     * The factories `fs` are the ones `add_factory` records for tiles with
     * top-left corners `placed`, all active and none waiting.
     */
    ghost predicate Tiled(fs: seq<Factory>, act: set<nat>, wt: set<nat>, placed: seq<Pos>, fh: nat, fw: nat, positions: seq<Pos>)
      requires Rect(g, height, width) && Upright() && Offsets(positions, fh, fw)
    {
      |fs| == |placed| && wt == {} && (forall j | 0 <= j < |fs| :: j in act)
      && forall j | 0 <= j < |placed| :: Fits(placed[j].row, placed[j].col, fh, fw) && fs[j] == FactoryAt(placed[j], fh, fw, positions)
    }

    lemma TiledAppend(fs: seq<Factory>, act: set<nat>, placed: seq<Pos>, o: Pos, fh: nat, fw: nat, positions: seq<Pos>)
      requires Rect(g, height, width) && Upright() && Offsets(positions, fh, fw) && Fits(o.row, o.col, fh, fw)
      requires Tiled(fs, act, {}, placed, fh, fw, positions)
      ensures Tiled(fs + [FactoryAt(o, fh, fw, positions)], act + {|fs|}, {}, placed + [o], fh, fw, positions)
    {
    }

    lemma TiledSame(fs: seq<Factory>, act: set<nat>, wt: set<nat>, p: seq<Pos>, q: seq<Pos>, fh: nat, fw: nat, positions: seq<Pos>)
      requires Rect(g, height, width) && Upright() && Offsets(positions, fh, fw)
      requires p == q && Tiled(fs, act, wt, p, fh, fw, positions)
      ensures Tiled(fs, act, wt, q, fh, fw, positions)
    {
    }

    /** One tile of `with_factory_factory`, placed on free routing patches: it is added and nothing outside it changes. */
    method AddTile(d: Device, o: Pos, fh: nat, fw: nat, positions: seq<Pos>, ghost placed: seq<Pos>, ghost lim: int, ghost next: int)
      requires Valid(d) && d.Valid() && fh >= 1 && fw >= 1 && Offsets(positions, fh, fw)
      requires Upright() && Fits(o.row, o.col, fh, fw) && lim <= o.row && o.col + fw <= next
      requires Tiled(factories, active, waiting, placed, fh, fw, positions)
      requires RouteAbove(d.cells, lim) && RouteRight(d.cells, o.row, o.row + fh, o.col)
      modifies this, d`cells
      ensures Valid(d) && d.Valid() && |d.cells| == old(|d.cells|)
      ensures Tiled(factories, active, waiting, placed + [o], fh, fw, positions)
      ensures RouteAbove(d.cells, lim) && RouteRight(d.cells, o.row, o.row + fh, next)
    {
      FreeFootprint(d.cells, o.row, o.col, fh, fw);
      ghost var before := d.cells;
      ghost var fs, act := factories, active;
      var res := AddFactory(d, o.row, o.col, fh, fw, positions);
      PlacedOutside(d.cells, before, |fs|, o.row, o.col, fh, fw, positions, lim, o.row, o.row + fh, next);
      TiledAppend(fs, act, placed, o, fh, fw, positions);
    }

    /**
     * One row of tiles of `with_factory_factory`: a factory at (row, c) for
     * each `c` in `cols`, on a band of free routing patches.
     */
    method PlaceRow(d: Device, fh: nat, fw: nat, positions: seq<Pos>, row: int, cols: seq<int>, step: nat, ghost lim: int, ghost placed0: seq<Pos>)
      requires Valid(d) && d.Valid() && fh >= 1 && fw >= 1 && Offsets(positions, fh, fw) && step >= fw
      requires 0 <= row && row + fh <= height && lim <= row && Upright()
      requires cols == RangeUp(0, width - fw + 1, step)
      requires Tiled(factories, active, waiting, placed0, fh, fw, positions)
      requires RouteAbove(d.cells, lim) && RouteRight(d.cells, row, row + fh, 0)
      modifies this, d`cells
      ensures Valid(d) && d.Valid() && |d.cells| == old(|d.cells|)
      ensures Tiled(factories, active, waiting, placed0 + RowOrigins(row, cols), fh, fw, positions)
      ensures RouteAbove(d.cells, lim)
    {
      ghost var placed := placed0;
      for k := 0 to |cols|
        invariant Valid(d) && d.Valid() && |d.cells| == old(|d.cells|)
        invariant placed == placed0 + RowOrigins(row, cols[..k])
        invariant Tiled(factories, active, waiting, placed, fh, fw, positions)
        invariant RouteAbove(d.cells, lim)
        invariant k < |cols| ==> RouteRight(d.cells, row, row + fh, cols[k])
      {
        placed := PlaceNext(d, fh, fw, positions, row, cols, step, k, lim, placed0, placed);
      }
      assert cols[..|cols|] == cols;
      TiledSame(factories, active, waiting, placed, placed0 + RowOrigins(row, cols), fh, fw, positions);
    }

    /** One pass of `PlaceRow`'s loop: the tile at column `cols[k]`. */
    method PlaceNext(d: Device, fh: nat, fw: nat, positions: seq<Pos>, row: int, cols: seq<int>, step: nat, k: nat,
                     ghost lim: int, ghost placed0: seq<Pos>, ghost placedK: seq<Pos>)
      returns (ghost placed: seq<Pos>)
      requires Valid(d) && d.Valid() && fh >= 1 && fw >= 1 && Offsets(positions, fh, fw) && step >= fw
      requires 0 <= row && row + fh <= height && lim <= row && Upright()
      requires cols == RangeUp(0, width - fw + 1, step) && k < |cols|
      requires placedK == placed0 + RowOrigins(row, cols[..k])
      requires Tiled(factories, active, waiting, placedK, fh, fw, positions)
      requires RouteAbove(d.cells, lim) && RouteRight(d.cells, row, row + fh, cols[k])
      modifies this, d`cells
      ensures Valid(d) && d.Valid() && |d.cells| == old(|d.cells|)
      ensures placed == placed0 + RowOrigins(row, cols[..k + 1])
      ensures Tiled(factories, active, waiting, placed, fh, fw, positions)
      ensures RouteAbove(d.cells, lim)
      ensures k + 1 < |cols| ==> RouteRight(d.cells, row, row + fh, cols[k + 1])
    {
      RangeUpFacts(0, width - fw + 1, step, k);
      RangeUpFacts(0, width - fw + 1, step, 0);
      AddTile(d, Pos(row, cols[k]), fh, fw, positions, placedK, lim, if k + 1 < |cols| then cols[k + 1] else width);
      RowOriginsStep(row, cols, k);
      placed := placedK + [Pos(row, cols[k])];
      AppendAssoc(placed0, RowOrigins(row, cols[..k]), [Pos(row, cols[k])]);
    }

    /** A fresh upright region with no factories, its routing patches free, ready for tiles of `fh` by `fw`. */
    ghost predicate Bare(d: Device, fh: nat, fw: nat, positions: seq<Pos>)
      reads this, d
    {
      Valid(d) && d.Valid() && fh >= 1 && fw >= 1 && Offsets(positions, fh, fw) && fh <= height && Upright()
      && factories == [] && active == {} && waiting == {}
      && RouteAbove(d.cells, height)
    }

    /** The tiles at `placed` are down, and the routing patches above the bottom band are free. */
    ghost predicate Banded(d: Device, fh: nat, fw: nat, positions: seq<Pos>, placed: seq<Pos>)
      reads this, d
    {
      Valid(d) && d.Valid() && fh >= 1 && fw >= 1 && Offsets(positions, fh, fw) && fh <= height && Upright()
      && Tiled(factories, active, waiting, placed, fh, fw, positions)
      && RouteAbove(d.cells, height - fh)
    }

    /** Both loops of `with_factory_factory` on a fresh upright region: every tile is placed. */
    method Tile(d: Device, fh: nat, fw: nat, positions: seq<Pos>)
      requires Bare(d, fh, fw, positions)
      modifies this, d`cells
      ensures Valid(d) && d.Valid()
      ensures Tiled(factories, active, waiting, Origins(height, width, fh, fw), fh, fw, positions)
    {
      PlaceBottom(d, fh, fw, positions);
      TileAbove(d, fh, fw, positions);
    }

    /** The first loop of `with_factory_factory`: the bottom band of tiles, at columns 0, fw, 2fw, …. */
    method PlaceBottom(d: Device, fh: nat, fw: nat, positions: seq<Pos>)
      requires Bare(d, fh, fw, positions)
      modifies this, d`cells
      ensures Banded(d, fh, fw, positions, [] + RowOrigins(height - fh, RangeUp(0, width - fw + 1, fw)))
    {
      var bandCols := RangeUp(0, width - fw + 1, fw);
      AboveIsRight(d.cells, height, height - fh, height, 0);
      PlaceRow(d, fh, fw, positions, height - fh, bandCols, fw, height - fh, []);
    }

    /** The upper rows of `with_factory_factory` on top of the bottom band: every tile of the region is then placed. */
    method TileAbove(d: Device, fh: nat, fw: nat, positions: seq<Pos>)
      requires fw >= 1 && Banded(d, fh, fw, positions, [] + RowOrigins(height - fh, RangeUp(0, width - fw + 1, fw)))
      modifies this, d`cells
      ensures Valid(d) && d.Valid()
      ensures Tiled(factories, active, waiting, Origins(height, width, fh, fw), fh, fw, positions)
    {
      ghost var placed := TileUpper(d, fh, fw, positions, [] + RowOrigins(height - fh, RangeUp(0, width - fw + 1, fw)));
      OriginsSplit(height, width, fh, fw, placed);
      TiledSame(factories, active, waiting, placed, Origins(height, width, fh, fw), fh, fw, positions);
    }

    /** The upper loop of `with_factory_factory`: rows going up, one free row apart, from just above the bottom band. */
    method TileUpper(d: Device, fh: nat, fw: nat, positions: seq<Pos>, ghost placed0: seq<Pos>) returns (ghost placed: seq<Pos>)
      requires Banded(d, fh, fw, positions, placed0)
      modifies this, d`cells
      ensures Valid(d) && d.Valid()
      ensures placed == placed0 + UpperOrigins(RangeDown(height - 2 * fh - 1, -1, fh + 1), RangeUp(0, width - fw + 1, fw + 1))
      ensures Tiled(factories, active, waiting, placed, fh, fw, positions)
    {
      var rows := RangeDown(height - 2 * fh - 1, -1, fh + 1);
      var cols := RangeUp(0, width - fw + 1, fw + 1);
      placed := placed0;
      if |rows| > 0 {
        RangeDownFacts(height - 2 * fh - 1, -1, fh + 1, 0);
        AboveLower(d.cells, height - fh, rows[0] + fh);
      }
      for i := 0 to |rows|
        invariant Valid(d) && d.Valid()
        invariant placed == placed0 + UpperOrigins(rows[..i], cols)
        invariant Tiled(factories, active, waiting, placed, fh, fw, positions)
        invariant i < |rows| ==> RouteAbove(d.cells, rows[i] + fh)
      {
        RangeDownFacts(height - 2 * fh - 1, -1, fh + 1, i);
        AboveIsRight(d.cells, rows[i] + fh, rows[i], rows[i] + fh, 0);
        PlaceRow(d, fh, fw, positions, rows[i], cols, fw + 1, rows[i], placed);
        placed := placed + RowOrigins(rows[i], cols);
        UpperOriginsStep(rows, cols, i);
        AppendAssoc(placed0, UpperOrigins(rows[..i], cols), RowOrigins(rows[i], cols));
        if i + 1 < |rows| {
          RangeDownFacts(height - 2 * fh - 1, -1, fh + 1, i + 1);
          AboveLower(d.cells, rows[i], rows[i + 1] + fh);
        }
      }
      assert rows[..|rows|] == rows;
    }

    /** The waiting factories whose outputs are all empty and unlocked: phase one of `update` resets them. */
    ghost function Refilled(cells: seq<Patch>): set<nat>
      reads this
    {
      set i | i in waiting && i < |factories| && InRange(factories[i].outputs, |cells|) && Drained(cells, factories[i].outputs)
    }

    /** The per-cell and pool effect of collecting the outputs of the fired factories below `n`. */
    ghost predicate CollectedUpTo(d: Device, base: seq<Patch>, pool0: set<PatchId>, states0: map<nat, set<PatchId>>, fired: set<nat>, n: nat)
      requires n <= |factories|
      reads this, d
    {
      |d.cells| == |base|
      && (forall p | 0 <= p < |base| :: d.cells[p] == Bump(base[p], Produced(factories, fired, p, n)))
      && d.states == states0[tag := pool0 + Collected(factories, fired, n)]
    }

    /** Phase two's last loop for one fired factory: each listed output gains a T and joins the pool. */
    method Collect(d: Device, i: nat, ghost base: seq<Patch>, ghost pool0: set<PatchId>, ghost states0: map<nat, set<PatchId>>, ghost fired: set<nat>)
      requires Valid(d) && d.Valid() && i < |factories| && i in fired
      requires CollectedUpTo(d, base, pool0, states0, fired, i)
      modifies d
      ensures Valid(d) && d.Valid()
      ensures CollectedUpTo(d, base, pool0, states0, fired, i + 1)
    {
      var outs := factories[i].outputs;
      var cells, pool := AddOutputs(d.cells, d.states[tag], outs);
      d.cells := cells;
      d.states := d.states[tag := pool];
      CollectDone(d, base, pool0, states0, fired, i);
    }

    /** After the last listed output, the fired factories up to and including `i` are collected. */
    lemma CollectDone(d: Device, base: seq<Patch>, pool0: set<PatchId>, states0: map<nat, set<PatchId>>, fired: set<nat>, i: nat)
      requires i < |factories| && i in fired && |d.cells| == |base|
      requires forall p | 0 <= p < |base| :: d.cells[p] == Bump(base[p], Produced(factories, fired, p, i) + multiset(factories[i].outputs)[p])
      requires d.states == states0[tag := pool0 + Collected(factories, fired, i) + Elems(factories[i].outputs)]
      ensures CollectedUpTo(d, base, pool0, states0, fired, i + 1)
    {
      CollectNext(factories, fired, i);
      assert pool0 + Collected(factories, fired, i + 1) == pool0 + Collected(factories, fired, i) + Elems(factories[i].outputs);
    }

    /**
     * `update`, one cycle.  Phase one: the waiting factories whose outputs
     * are all empty and unlocked are reset and become active.  Phase two:
     * the active factories in `done` (those whose generator reports a
     * finished batch) become waiting, and each of their outputs gains one T
     * per time it is listed and joins the region's pool.
     */
    method Update(d: Device, done: set<nat>)
      requires Valid(d) && d.Valid()
      modifies this, d
      ensures Valid(d) && d.Valid() && factories == old(factories)
      ensures var fired := (old(active) + old(Refilled(d.cells))) * done;
        && active == (old(active) + old(Refilled(d.cells))) - fired
        && waiting == (old(waiting) - old(Refilled(d.cells))) + fired
        && |d.cells| == old(|d.cells|)
        && (forall p | 0 <= p < |d.cells| :: d.cells[p] == Bump(old(d.cells[p]), Produced(factories, fired, p, |factories|)))
        && d.states == old(d.states)[tag := Pool(old(d.states), tag) + Collected(factories, fired, |factories|)]
    {
      Reset(d);
      Fire(d, done);
    }

    /** Phase one of `update`: the waiting factories whose outputs are drained become active again. */
    method Reset(d: Device)
      requires Valid(d) && d.Valid()
      modifies this
      ensures Valid(d) && factories == old(factories)
      ensures active == old(active) + old(Refilled(d.cells)) && waiting == old(waiting) - old(Refilled(d.cells))
    {
      var reset := set i | i in waiting && i < |factories| && InRange(factories[i].outputs, |d.cells|) && Drained(d.cells, factories[i].outputs);
      waiting := waiting - reset;
      active := active + reset;
    }

    /** Phase two of `update`: the active factories that are done go to waiting and their outputs are collected. */
    method Fire(d: Device, done: set<nat>)
      requires Valid(d) && d.Valid()
      modifies this, d
      ensures Valid(d) && d.Valid() && factories == old(factories)
      ensures var fired := old(active) * done;
        && active == old(active) - fired
        && waiting == old(waiting) + fired
        && |d.cells| == old(|d.cells|)
        && (forall p | 0 <= p < |d.cells| :: d.cells[p] == Bump(old(d.cells[p]), Produced(factories, fired, p, |factories|)))
        && d.states == old(d.states)[tag := Pool(old(d.states), tag) + Collected(factories, fired, |factories|)]
    {
      var fired := set i | i in active && i in done;
      active := active - fired;
      waiting := waiting + fired;
      assert forall i | i in active + waiting :: i in old(active) + old(waiting);
      CollectAll(d, fired);
    }

    /** The last loop of phase two: the outputs of every fired factory, in factory order. */
    method CollectAll(d: Device, fired: set<nat>)
      requires Valid(d) && d.Valid()
      modifies d
      ensures Valid(d) && d.Valid()
      ensures |d.cells| == old(|d.cells|)
      ensures forall p | 0 <= p < |d.cells| :: d.cells[p] == Bump(old(d.cells[p]), Produced(factories, fired, p, |factories|))
      ensures d.states == old(d.states)[tag := Pool(old(d.states), tag) + Collected(factories, fired, |factories|)]
    {
      ghost var base := d.cells;
      ghost var pool0 := Pool(d.states, tag);
      ghost var states0 := d.states;
      SameEntry(states0, tag);
      assert pool0 + Collected(factories, fired, 0) == pool0;
      for i := 0 to |factories|
        invariant Valid(d) && d.Valid() && CollectedUpTo(d, base, pool0, states0, fired, i)
      {
        if i in fired {
          Collect(d, i, base, pool0, states0, fired);
        } else {
          SkipNext(factories, fired, i);
        }
      }
    }
  }

  /** All the listed outputs are empty and unlocked. */
  predicate Drained(cells: seq<Patch>, outputs: seq<PatchId>)
    requires InRange(outputs, |cells|)
  {
    forall k | 0 <= k < |outputs| :: cells[outputs[k]].tCount == 0 && !Locked(cells[outputs[k]])
  }

  /** A patch with `n` more T states. */
  function Bump(p: Patch, n: nat): Patch
  {
    p.(tCount := p.tCount + n)
  }

  /** How many times `p` is listed among the outputs of the factories below `n` that are in `fired`. */
  function Produced(fs: seq<Factory>, fired: set<nat>, p: PatchId, n: nat): nat
    requires n <= |fs|
  {
    if n == 0 then 0
    else Produced(fs, fired, p, n - 1) + (if n - 1 in fired then multiset(fs[n - 1].outputs)[p] else 0)
  }

  /** The outputs of the factories below `n` that are in `fired`. */
  function Collected(fs: seq<Factory>, fired: set<nat>, n: nat): set<PatchId>
    requires n <= |fs|
  {
    if n == 0 then {}
    else Collected(fs, fired, n - 1) + (if n - 1 in fired then Elems(fs[n - 1].outputs) else {})
  }

  /** The set of a prefix one longer. */
  lemma ElemsOfTake(s: seq<PatchId>, k: nat)
    requires k < |s|
    ensures Elems(s[..k + 1]) == Elems(s[..k]) + {s[k]}
  {
    TakeOneMore(s, k);
    ElemsAppend(s[..k], s[k]);
  }

  /** The elements of a list, as a set. */
  function Elems(s: seq<PatchId>): (r: set<PatchId>)
    ensures forall x :: x in r <==> x in s
  {
    set k | 0 <= k < |s| :: s[k]
  }

  lemma ElemsAppend(s: seq<PatchId>, x: PatchId)
    ensures Elems(s + [x]) == Elems(s) + {x}
  {
    assert forall y :: y in s + [x] <==> y in s || y == x;
  }

  /** Writing back the value a key already has leaves the map as it was. */
  lemma SameEntry<K, V>(m: map<K, V>, k: K)
    requires k in m
    ensures m[k := m[k]] == m
  {
  }

  /** Collecting one fired factory more. */
  lemma CollectNext(fs: seq<Factory>, fired: set<nat>, i: nat)
    requires i < |fs| && i in fired
    ensures Collected(fs, fired, i + 1) == Collected(fs, fired, i) + Elems(fs[i].outputs)
    ensures forall p :: Produced(fs, fired, p, i + 1) == Produced(fs, fired, p, i) + multiset(fs[i].outputs)[p]
  {
  }

  /**
   * The last loop of `update` for one finished factory: every listed
   * output gains one T per time it is listed and joins the pool.
   */
  method AddOutputs(cells: seq<Patch>, pool: set<PatchId>, outs: seq<PatchId>) returns (cells': seq<Patch>, pool': set<PatchId>)
    requires InRange(outs, |cells|)
    ensures |cells'| == |cells| && forall p | 0 <= p < |cells| :: cells'[p] == Bump(cells[p], multiset(outs)[p])
    ensures pool' == pool + Elems(outs)
  {
    cells', pool' := cells, pool;
    assert multiset(outs[..0]) == multiset{};
    for k := 0 to |outs|
      invariant |cells'| == |cells| && forall p | 0 <= p < |cells| :: cells'[p] == Bump(cells[p], multiset(outs[..k])[p])
      invariant pool' == pool + Elems(outs[..k])
    {
      var p := outs[k];
      TakeOneMore(outs, k);
      ElemsOfTake(outs, k);
      assert multiset(outs[..k + 1]) == multiset(outs[..k]) + multiset{p};
      cells' := cells'[p := cells'[p].(tCount := cells'[p].tCount + 1)];
      pool' := pool' + {p};
    }
    assert outs[..|outs|] == outs;
  }

  /** A factory that did not fire adds nothing. */
  lemma SkipNext(fs: seq<Factory>, fired: set<nat>, i: nat)
    requires i < |fs| && i !in fired
    ensures Collected(fs, fired, i + 1) == Collected(fs, fired, i)
    ensures forall p :: Produced(fs, fired, p, i + 1) == Produced(fs, fired, p, i)
  {
  }

  /** A patch joins the pool exactly when it gains at least one T. */
  lemma {:induction false} CollectedIffProduced(fs: seq<Factory>, fired: set<nat>, p: PatchId, n: nat)
    requires n <= |fs|
    ensures p in Collected(fs, fired, n) <==> Produced(fs, fired, p, n) > 0
  {
    if n > 0 {
      CollectedIffProduced(fs, fired, p, n - 1);
      if n - 1 in fired {
        assert p in fs[n - 1].outputs <==> multiset(fs[n - 1].outputs)[p] > 0;
      }
    }
  }

  /** Every output of a fired factory gains a T for each time it is listed, and joins the pool. */
  lemma {:induction false} FiredOutputStocked(fs: seq<Factory>, fired: set<nat>, n: nat, i: nat, k: nat)
    requires n <= |fs| && i < n && i in fired && k < |fs[i].outputs|
    ensures Produced(fs, fired, fs[i].outputs[k], n) >= multiset(fs[i].outputs)[fs[i].outputs[k]] >= 1
    ensures fs[i].outputs[k] in Collected(fs, fired, n)
  {
    assert fs[i].outputs[k] in multiset(fs[i].outputs);
    if i < n - 1 {
      FiredOutputStocked(fs, fired, n - 1, i, k);
    }
    CollectedIffProduced(fs, fired, fs[i].outputs[k], n);
  }

  /** A patch listed by no fired factory keeps its T count. */
  lemma {:induction false} UnlistedUnchanged(fs: seq<Factory>, fired: set<nat>, p: PatchId, n: nat)
    requires n <= |fs|
    requires forall i | 0 <= i < n && i in fired :: p !in fs[i].outputs
    ensures Produced(fs, fired, p, n) == 0
  {
    if n > 0 {
      UnlistedUnchanged(fs, fired, p, n - 1);
      if n - 1 in fired {
        assert multiset(fs[n - 1].outputs)[p] == 0;
      }
    }
  }

  lemma EmptyAppend<X>(s: seq<X>)
    ensures [] + s == s
  {
  }

  lemma AppendAssoc<X>(a: seq<X>, b: seq<X>, c: seq<X>)
    ensures a + b + c == a + (b + c)
  {
  }

  /** Python's `range(lo, hi, step)` for a positive step. */
  function RangeUp(lo: int, hi: int, step: nat): (r: seq<int>)
    requires step >= 1
    decreases hi - lo
  {
    if lo >= hi then [] else [lo] + RangeUp(lo + step, hi, step)
  }

  /** The values of an ascending range start at `lo`, go up by `step` and stay below `hi`; the next one would not. */
  lemma {:induction false} RangeUpFacts(lo: int, hi: int, step: nat, k: nat)
    requires step >= 1
    decreases hi - lo
    ensures var r := RangeUp(lo, hi, step);
      (|r| > 0 <==> lo < hi)
      && (k < |r| ==> r[k] == lo + k * step && lo <= r[k] < hi)
      && (k + 1 < |r| ==> r[k + 1] == r[k] + step)
      && (k + 1 == |r| ==> hi <= r[k] + step)
  {
    if lo < hi {
      var r, t := RangeUp(lo, hi, step), RangeUp(lo + step, hi, step);
      assert r == [lo] + t;
      if k > 0 {
        RangeUpFacts(lo + step, hi, step, k - 1);
        assert (k - 1) * step + step == k * step;
        if k < |r| {
          assert r[k] == t[k - 1];
        }
        if k + 1 < |r| {
          assert r[k + 1] == t[k];
        }
      } else {
        RangeUpFacts(lo + step, hi, step, 0);
      }
    }
  }

  /** Python's `range(hi, lo, -step)` for a positive step. */
  function RangeDown(hi: int, lo: int, step: nat): (r: seq<int>)
    requires step >= 1
    decreases hi - lo
  {
    if hi <= lo then [] else [hi] + RangeDown(hi - step, lo, step)
  }

  /** The values of a descending range start at `hi`, go down by `step` and stay above `lo`. */
  lemma {:induction false} RangeDownFacts(hi: int, lo: int, step: nat, k: nat)
    requires step >= 1
    decreases hi - lo
    ensures var r := RangeDown(hi, lo, step);
      (|r| > 0 <==> lo < hi)
      && (k < |r| ==> r[k] == hi - k * step && lo < r[k] <= hi)
      && (k + 1 < |r| ==> r[k + 1] == r[k] - step)
  {
    if lo < hi {
      var r, t := RangeDown(hi, lo, step), RangeDown(hi - step, lo, step);
      assert r == [hi] + t;
      if k > 0 {
        RangeDownFacts(hi - step, lo, step, k - 1);
        assert (k - 1) * step + step == k * step;
        if k < |r| {
          assert r[k] == t[k - 1];
        }
        if k + 1 < |r| {
          assert r[k + 1] == t[k];
        }
      } else {
        RangeDownFacts(hi - step, lo, step, 0);
      }
    }
  }

  /** The top-left corners of the factories of one row of the tiling. */
  function RowOrigins(row: int, cols: seq<int>): (r: seq<Pos>)
    ensures |r| == |cols| && forall k | 0 <= k < |cols| :: r[k] == Pos(row, cols[k])
  {
    seq(|cols|, k requires 0 <= k < |cols| => Pos(row, cols[k]))
  }

  lemma RowOriginsStep(row: int, cols: seq<int>, k: nat)
    requires k < |cols|
    ensures RowOrigins(row, cols[..k + 1]) == RowOrigins(row, cols[..k]) + [Pos(row, cols[k])]
  {
  }

  /** The origins of the upper rows, top row last as the loop places them. */
  function UpperOrigins(rows: seq<int>, cols: seq<int>): seq<Pos>
  {
    if |rows| == 0 then [] else UpperOrigins(rows[..|rows| - 1], cols) + RowOrigins(rows[|rows| - 1], cols)
  }

  /**
   * Where `with_factory_factory` puts factories of height `fh` and width
   * `fw` in a region of height `h` and width `w`: a bottom band at columns
   * 0, fw, 2fw, …, then, going up, rows one cell apart at columns 0, fw+1,
   * 2(fw+1), ….
   */
  function Origins(h: nat, w: nat, fh: nat, fw: nat): seq<Pos>
    requires fh >= 1 && fw >= 1
  {
    RowOrigins(h - fh, RangeUp(0, w - fw + 1, fw))
    + UpperOrigins(RangeDown(h - 2 * fh - 1, -1, fh + 1), RangeUp(0, w - fw + 1, fw + 1))
  }

  lemma OriginsSplit(h: nat, w: nat, fh: nat, fw: nat, placed: seq<Pos>)
    requires fh >= 1 && fw >= 1
    requires placed == [] + RowOrigins(h - fh, RangeUp(0, w - fw + 1, fw)) + UpperOrigins(RangeDown(h - 2 * fh - 1, -1, fh + 1), RangeUp(0, w - fw + 1, fw + 1))
    ensures placed == Origins(h, w, fh, fw)
  {
    EmptyAppend(RowOrigins(h - fh, RangeUp(0, w - fw + 1, fw)));
  }

  /**
   * `with_factory_factory`: a new factory region of height `height` and
   * width `width`, tiled with factories.  No region when the height is
   * smaller than a factory, or when a factory is to be placed on a region
   * that is neither upright nor upside down; otherwise every tile is placed.
   */
  method WithFactoryFactory(d: Device, width: nat, height: nat, fw: nat, fh: nat, positions: seq<Pos>, rotation: int, tag: nat)
    returns (region: FactoryRegion?)
    requires d.Valid() && fw >= 1 && fh >= 1 && Offsets(positions, fh, fw)
    modifies d
    ensures d.Valid()
    ensures region == null <==> height < fh || (rotation != Top && rotation != Bottom && Origins(height, width, fh, fw) != [])
    ensures height < fh ==> d.cells == old(d.cells)
    ensures region != null ==> (fresh(region) && region.Valid(d)
      && region.height == height && region.width == width && region.rotation == rotation && region.tag == tag
      && (region.Upright() ==> region.Tiled(region.factories, region.active, region.waiting, Origins(height, width, fh, fw), fh, fw, positions))
      && (!region.Upright() ==> region.factories == [] && Origins(height, width, fh, fw) == []))
  {
    if height < fh {
      return null;
    }
    var g := Place(d, FactoryLayout(height, width), height, width);
    var r := new FactoryRegion(g, height, width, rotation, tag, d);
    var all := Origins(height, width, fh, fw);
    if !r.Upright() {
      if all != [] {
        // the first placement fails the orientation assertion and raises
        var res := r.AddFactory(d, all[0].row, all[0].col, fh, fw, positions);
        return null;
      }
      return r;
    }
    r.FreshRoute(d.cells);
    r.Tile(d, fh, fw, positions);
    region := r;
  }

  lemma UpperOriginsStep(rows: seq<int>, cols: seq<int>, i: nat)
    requires i < |rows|
    ensures UpperOrigins(rows[..i + 1], cols) == UpperOrigins(rows[..i], cols) + RowOrigins(rows[i], cols)
  {
    assert rows[..i + 1][..i] == rows[..i];
  }
}
