/**
 * T-cultivator buffer regions: a block of cultivator patches, each of which
 * grows a magic state of its own.  The dense layout is cultivators only; the
 * sparse layout turns every third row into a routing row.  Each cycle every
 * empty, unlocked cultivator polls its generator, and the cultivators that
 * produced a T join the region's pool.  A generator is an oracle here:
 * `produced[i]` is the answer the i-th listed cultivator would get.
 */
module CultivatorRegions {
  import opened Patches
  import opened Grids
  import opened FactoryRegions

  /** The two values of `buffer_type`. */
  datatype Density = Dense | Sparse

  /** In the sparse layout row `r` of `h` is a routing row when (h - r) mod 3 is 2; the dense layout has none. */
  predicate RouteRow(density: Density, h: int, r: int)
  {
    density == Sparse && (h - r) % 3 == 2
  }

  /** The patch at row `r`, column `c` of a cultivator region `h` rows high. */
  function LayoutPatch(density: Density, h: nat, r: nat, c: nat): (p: Patch)
    ensures p.localY == r && p.localX == c && p.lock == null && !p.hasT && p.orientation == ZTop
    ensures p.cls.CultPatch? <==> !RouteRow(density, h, r)
    ensures RouteRow(density, h, r) ==> p.cls.PlainPatch? && p.patchType == Route
    ensures !RouteRow(density, h, r) ==> p.patchType == Cultivator
  {
    if RouteRow(density, h, r) then NewPatch(PlainPatch, Route, r, c, ZTop)
    else NewPatch(CultPatch, Cultivator, r, c, ZTop)
  }

  /** The patches of `TCultivatorBufferRegion(width, height, buffer_type)`, row by row. */
  function CultivatorLayout(density: Density, h: nat, w: nat): (rows: seq<seq<Patch>>)
    ensures |rows| == h && forall r | 0 <= r < h :: |rows[r]| == w
    ensures forall r, c | 0 <= r < h && 0 <= c < w :: rows[r][c] == LayoutPatch(density, h, r, c)
  {
    seq(h, (r: nat) => seq(w, (c: nat) => LayoutPatch(density, h, r, c)))
  }

  /**
   * In the sparse layout every cultivator row touches a routing row, above
   * or below, except the top row when the height is one more than a
   * multiple of three.
   */
  lemma SparseRowsTouchRoute(h: nat, r: nat)
    requires r < h && !RouteRow(Sparse, h, r)
    ensures (r >= 1 && RouteRow(Sparse, h, r - 1)) || (r + 1 < h && RouteRow(Sparse, h, r + 1)) <==> !(r == 0 && h % 3 == 1)
  {
  }

  /** `update_cells`: the cultivator patches of the first `n` rows, row by row and left to right. */
  function UpdateCells(g: Grid, density: Density, h: int, n: nat): seq<PatchId>
    requires n <= |g|
  {
    if n == 0 then [] else UpdateCells(g, density, h, n - 1) + (if RouteRow(density, h, n - 1) then [] else g[n - 1])
  }

  /** Every listed cell is a cell of a cultivator row among the first `n`. */
  lemma {:induction false} UpdateCellsSource(g: Grid, density: Density, h: int, n: nat, k: nat) returns (r: nat, c: nat)
    requires n <= |g| && k < |UpdateCells(g, density, h, n)|
    ensures r < n && c < |g[r]| && !RouteRow(density, h, r) && UpdateCells(g, density, h, n)[k] == g[r][c]
  {
    var a := UpdateCells(g, density, h, n - 1);
    if k < |a| {
      r, c := UpdateCellsSource(g, density, h, n - 1, k);
    } else {
      r, c := n - 1, k - |a|;
    }
  }

  /** Every cell of a cultivator row among the first `n` is listed. */
  lemma {:induction false} UpdateCellsComplete(g: Grid, density: Density, h: int, n: nat, r: nat, c: nat)
    requires n <= |g| && r < n && c < |g[r]| && !RouteRow(density, h, r)
    ensures g[r][c] in UpdateCells(g, density, h, n)
  {
    var a := UpdateCells(g, density, h, n - 1);
    if r < n - 1 {
      UpdateCellsComplete(g, density, h, n - 1, r, c);
    } else {
      assert UpdateCells(g, density, h, n)[|a| + c] == g[r][c];
    }
  }

  /** No patch is listed twice. */
  predicate Distinct(s: seq<PatchId>)
  {
    forall i, j | 0 <= i < j < |s| :: s[i] != s[j]
  }

  /** A cell of an earlier row is not a cell of row `n - 1`. */
  lemma EarlierRowApart(g: Grid, density: Density, h: int, n: nat, i: nat, c': nat)
    requires 1 <= n <= |g| && Injective(g) && i < |UpdateCells(g, density, h, n - 1)| && c' < |g[n - 1]|
    ensures UpdateCells(g, density, h, n - 1)[i] != g[n - 1][c']
  {
    var r, c := UpdateCellsSource(g, density, h, n - 1, i);
  }

  /** No patch is listed twice when no patch sits at two positions of the grid. */
  lemma {:induction false} UpdateCellsDistinct(g: Grid, density: Density, h: int, n: nat)
    requires n <= |g| && Injective(g)
    ensures Distinct(UpdateCells(g, density, h, n))
  {
    if n > 0 {
      UpdateCellsDistinct(g, density, h, n - 1);
      var a := UpdateCells(g, density, h, n - 1);
      var uc := UpdateCells(g, density, h, n);
      if !RouteRow(density, h, n - 1) {
        assert uc == a + g[n - 1];
        forall i, j | 0 <= i < j < |uc|
          ensures uc[i] != uc[j]
        {
          if i < |a| && j < |a| {
            assert uc[i] == a[i] && uc[j] == a[j];
          } else if i < |a| {
            EarlierRowApart(g, density, h, n, i, j - |a|);
          } else {
            assert uc[i] == g[n - 1][i - |a|] && uc[j] == g[n - 1][j - |a|];
          }
        }
      }
    }
  }

  /**
   * The cells among the first `n` of `uc` where a T appeared: the
   * cultivators that were empty and unlocked and whose generator answered yes.
   */
  function Fired(cells: seq<Patch>, uc: seq<PatchId>, produced: seq<bool>, n: nat): (r: set<PatchId>)
    requires n <= |produced| == |uc| && forall i | 0 <= i < |uc| :: uc[i] < |cells| && cells[uc[i]].cls.CultPatch?
    ensures forall p :: p in r <==> exists i | 0 <= i < n ::
      (uc[i] == p && !TAvailable(cells[p]) && TAvailable(CultUpdatePatch(cells[p], produced[i]).0))
  {
    if n == 0 then {}
    else Fired(cells, uc, produced, n - 1) + (if CultUpdatePatch(cells[uc[n - 1]], produced[n - 1]).1 then {uc[n - 1]} else {})
  }

  /** `cur` is `cells` after the first `i` cells of `uc` polled. */
  ghost predicate Polled(cells: seq<Patch>, cur: seq<Patch>, uc: seq<PatchId>, produced: seq<bool>, i: nat)
    requires |produced| == |uc| && i <= |uc|
    requires forall j | 0 <= j < |uc| :: uc[j] < |cells| && cells[uc[j]].cls.CultPatch?
  {
    |cur| == |cells|
    && (forall p | 0 <= p < |cells| :: SamePlace(cells[p], cur[p]))
    && (forall j | 0 <= j < i :: cur[uc[j]] == CultUpdatePatch(cells[uc[j]], produced[j]).0)
    && (forall j | i <= j < |uc| :: cur[uc[j]] == cells[uc[j]])
    && (forall p | 0 <= p < |cells| && p !in uc :: cur[p] == cells[p])
  }

  lemma PollStep(cells: seq<Patch>, cur: seq<Patch>, uc: seq<PatchId>, produced: seq<bool>, i: nat)
    requires |produced| == |uc| && i < |uc| && Distinct(uc)
    requires forall j | 0 <= j < |uc| :: uc[j] < |cells| && cells[uc[j]].cls.CultPatch?
    requires Polled(cells, cur, uc, produced, i)
    ensures Polled(cells, cur[uc[i] := CultUpdatePatch(cur[uc[i]], produced[i]).0], uc, produced, i + 1)
  {
    var next := cur[uc[i] := CultUpdatePatch(cur[uc[i]], produced[i]).0];
    forall j | 0 <= j < i
      ensures next[uc[j]] == CultUpdatePatch(cells[uc[j]], produced[j]).0
    {
      assert uc[j] != uc[i];
    }
    forall j | i + 1 <= j < |uc|
      ensures next[uc[j]] == cells[uc[j]]
    {
      assert uc[i] != uc[j];
    }
  }

  /**
   * The loop of `update` on the arena's patches: each cell of `uc` polls
   * once, and the cells that produced a T join the pool.
   */
  method PollAll(cells: seq<Patch>, pool: set<PatchId>, uc: seq<PatchId>, produced: seq<bool>) returns (cells': seq<Patch>, pool': set<PatchId>)
    requires |produced| == |uc| && Distinct(uc)
    requires forall i | 0 <= i < |uc| :: uc[i] < |cells| && cells[uc[i]].cls.CultPatch?
    ensures Polled(cells, cells', uc, produced, |uc|)
    ensures pool' == pool + Fired(cells, uc, produced, |uc|)
  {
    cells', pool' := cells, pool;
    for i := 0 to |uc|
      invariant Polled(cells, cells', uc, produced, i)
      invariant pool' == pool + Fired(cells, uc, produced, i)
    {
      cells', pool' := PollOne(cells, cells', pool, pool', uc, produced, i);
    }
  }

  /** One turn of the loop of `update`: the `i`-th listed cell polls its generator. */
  method PollOne(ghost cells: seq<Patch>, cur: seq<Patch>, ghost pool: set<PatchId>, curPool: set<PatchId>,
                 uc: seq<PatchId>, produced: seq<bool>, i: nat) returns (next: seq<Patch>, nextPool: set<PatchId>)
    requires |produced| == |uc| && i < |uc| && Distinct(uc)
    requires forall j | 0 <= j < |uc| :: uc[j] < |cells| && cells[uc[j]].cls.CultPatch?
    requires Polled(cells, cur, uc, produced, i)
    requires curPool == pool + Fired(cells, uc, produced, i)
    ensures Polled(cells, next, uc, produced, i + 1)
    ensures nextPool == pool + Fired(cells, uc, produced, i + 1)
  {
    PollStep(cells, cur, uc, produced, i);
    var r := CultUpdatePatch(cur[uc[i]], produced[i]);
    next := cur[uc[i] := r.0];
    nextPool := if r.1 then curPool + {uc[i]} else curPool;
  }

  class CultivatorBufferRegion {
    const height: nat
    const width: nat
    const density: Density
    /** The key of the region's pool of available states in the arena. */
    const tag: nat
    const g: Grid
    /** `update_cells`: the cultivators, row by row. */
    const updateCells: seq<PatchId>

    ghost predicate Valid(d: Device)
      reads d
    {
      Rect(g, height, width) && Holds(g, |d.cells|) && Injective(g) && tag in d.states
      && updateCells == UpdateCells(g, density, height, height)
      && forall i | 0 <= i < |updateCells| :: updateCells[i] < |d.cells| && d.cells[updateCells[i]].cls.CultPatch?
    }

    /** A region over the patches `g` of the arena, whose cultivator rows hold cultivator patches; the pool starts empty. */
    constructor (g: Grid, h: nat, w: nat, density: Density, tag: nat, d: Device)
      requires Rect(g, h, w) && Holds(g, |d.cells|) && Injective(g)
      requires forall r, c | 0 <= r < h && 0 <= c < w && !RouteRow(density, h, r) :: d.cells[g[r][c]].cls.CultPatch?
      modifies d`states
      ensures Valid(d)
      ensures this.g == g && height == h && width == w && this.density == density && this.tag == tag
      ensures d.states == old(d.states)[tag := {}]
    {
      this.g := g;
      height := h;
      width := w;
      this.density := density;
      this.tag := tag;
      updateCells := UpdateCells(g, density, h, h);
      new;
      d.states := d.states[tag := {}];
      forall i | 0 <= i < |updateCells|
        ensures updateCells[i] < |d.cells| && d.cells[updateCells[i]].cls.CultPatch?
      {
        var r, c := UpdateCellsSource(g, density, h, h, i);
      }
    }

    /** A patch is listed for updates exactly when it sits in a cultivator row of the region. */
    lemma Listed(r: nat, c: nat)
      requires Rect(g, height, width) && Injective(g) && updateCells == UpdateCells(g, density, height, height)
      requires r < height && c < width
      ensures g[r][c] in updateCells <==> !RouteRow(density, height, r)
    {
      if !RouteRow(density, height, r) {
        UpdateCellsComplete(g, density, height, height, r, c);
      }
      if g[r][c] in updateCells {
        var k :| 0 <= k < |updateCells| && updateCells[k] == g[r][c];
        var r', c' := UpdateCellsSource(g, density, height, height, k);
      }
    }

    /**
     * `update`: every listed cultivator in turn polls its generator if it is
     * empty and unlocked; the ones that produced a T are added to the pool.
     * Nothing else changes.
     */
    method Update(d: Device, produced: seq<bool>)
      requires Valid(d) && d.Valid() && |produced| == |updateCells|
      modifies d`cells, d`states
      ensures Valid(d) && d.Valid() && |d.cells| == old(|d.cells|)
      ensures forall i | 0 <= i < |updateCells| :: d.cells[updateCells[i]] == CultUpdatePatch(old(d.cells)[updateCells[i]], produced[i]).0
      ensures forall p | 0 <= p < |d.cells| && p !in updateCells :: d.cells[p] == old(d.cells)[p]
      ensures d.states == old(d.states)[tag := old(d.states)[tag] + Fired(old(d.cells), updateCells, produced, |updateCells|)]
    {
      UpdateCellsDistinct(g, density, height, height);
      var cells, pool := PollAll(d.cells, d.states[tag], updateCells, produced);
      assert forall p | 0 <= p < |d.cells| :: SamePlace(d.cells[p], cells[p]);
      d.cells := cells;
      d.states := d.states[tag := pool];
    }
  }

  /**
   * `TCultivatorBufferRegion(width, height, buffer_type)` (and
   * `with_dense_layout` / `with_sparse_layout`): the layout's patches are
   * appended to the arena and the region lists their cultivators.
   */
  method NewCultivatorRegion(d: Device, width: nat, height: nat, density: Density, tag: nat) returns (region: CultivatorBufferRegion)
    requires d.Valid()
    modifies d
    ensures fresh(region) && region.Valid(d) && d.Valid()
    ensures region.height == height && region.width == width && region.density == density && region.tag == tag
    ensures old(|d.cells|) <= |d.cells| && d.cells[..old(|d.cells|)] == old(d.cells)
    ensures forall r, c | 0 <= r < height && 0 <= c < width :: d.cells[region.g[r][c]] == CultivatorLayout(density, height, width)[r][c]
    ensures d.states == old(d.states)[tag := {}]
  {
    var rows := CultivatorLayout(density, height, width);
    var g := Place(d, rows, height, width);
    region := new CultivatorBufferRegion(g, height, width, density, tag, d);
  }
}
