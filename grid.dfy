/**
 * Grids of patch ids: the rows of a widget region as a router sees them.
 * A position is (row, column) with row 0 the row nearest the region's
 * upstream neighbour.
 */
module Grids {
  import opened Patches

  datatype Pos = Pos(row: int, col: int)

  type Grid = seq<seq<PatchId>>

  /** The grid has `h` rows of `w` cells each. */
  predicate Rect(g: Grid, h: nat, w: nat)
  {
    |g| == h && forall r | 0 <= r < h :: |g[r]| == w
  }

  /** Every id in the grid names a patch of an arena of `n` patches. */
  predicate Holds(g: Grid, n: nat)
  {
    forall r, c | 0 <= r < |g| && 0 <= c < |g[r]| :: g[r][c] < n
  }

  /** No patch appears at two positions of the grid. */
  predicate Injective(g: Grid)
  {
    forall r1, c1, r2, c2 | 0 <= r1 < |g| && 0 <= c1 < |g[r1]| && 0 <= r2 < |g| && 0 <= c2 < |g[r2]| ::
      g[r1][c1] == g[r2][c2] ==> r1 == r2 && c1 == c2
  }

  /** Patch `p` appears somewhere in the grid. */
  predicate Mentions(g: Grid, p: PatchId)
  {
    exists r, c | 0 <= r < |g| && 0 <= c < |g[r]| :: g[r][c] == p
  }

  /** Every patch of the grid records its own grid position as its local coordinates. */
  predicate CoordsMatch(cells: seq<Patch>, g: Grid)
    requires Holds(g, |cells|)
  {
    forall r, c | 0 <= r < |g| && 0 <= c < |g[r]| :: cells[g[r][c]].localY == r && cells[g[r][c]].localX == c
  }

  predicate InGrid(g: Grid, p: Pos)
  {
    0 <= p.row < |g| && 0 <= p.col < |g[p.row]|
  }

  function At(g: Grid, p: Pos): PatchId
    requires InGrid(g, p)
  {
    g[p.row][p.col]
  }

  function Abs(x: int): nat { if x < 0 then -x else x }

  /** `c` lies between `a` and `b`, inclusive. */
  predicate Between(c: int, a: int, b: int)
  {
    (a <= c <= b) || (b <= c <= a)
  }

  function Manhattan(a: Pos, b: Pos): nat
  {
    Abs(a.row - b.row) + Abs(a.col - b.col)
  }

  /** `adjacent`: the two positions are one step apart horizontally or vertically. */
  predicate Adjacent(a: Pos, b: Pos)
  {
    Manhattan(a, b) == 1
  }

  /** Consecutive positions are adjacent. */
  predicate Contiguous(ps: seq<Pos>)
  {
    forall i | 0 <= i < |ps| - 1 :: Adjacent(ps[i], ps[i + 1])
  }

  predicate AllIn(g: Grid, ps: seq<Pos>)
  {
    forall i | 0 <= i < |ps| :: InGrid(g, ps[i])
  }

  /** The patches at the given positions, in order. */
  function IdsAt(g: Grid, ps: seq<Pos>): (r: seq<PatchId>)
    requires AllIn(g, ps)
    ensures |r| == |ps|
    ensures forall i | 0 <= i < |ps| :: r[i] == At(g, ps[i])
  {
    seq(|ps|, i requires 0 <= i < |ps| => At(g, ps[i]))
  }

  lemma IdsAtInRange(g: Grid, ps: seq<Pos>, n: nat)
    requires AllIn(g, ps) && Holds(g, n)
    ensures InRange(IdsAt(g, ps), n)
  {
  }

  /** Every position after the first is free routing space. */
  predicate RoutableAfterFirst(cells: seq<Patch>, g: Grid, ps: seq<Pos>)
    requires Holds(g, |cells|) && AllIn(g, ps)
  {
    forall i | 1 <= i < |ps| :: RouteAvailable(cells[At(g, ps[i])])
  }

  /** Every position is free routing space. */
  predicate AllRoutable(cells: seq<Patch>, g: Grid, ps: seq<Pos>)
    requires Holds(g, |cells|) && AllIn(g, ps)
  {
    forall i | 0 <= i < |ps| :: RouteAvailable(cells[At(g, ps[i])])
  }

  /**
   * A route for a magic state: a contiguous path of grid positions that starts
   * at a patch offering a magic state and continues through free routing
   * space.
   */
  predicate TRoute(cells: seq<Patch>, g: Grid, ps: seq<Pos>)
    requires Holds(g, |cells|)
  {
    |ps| > 0 && AllIn(g, ps) && TAvailable(cells[At(g, ps[0])]) && RoutableAfterFirst(cells, g, ps) && Contiguous(ps)
  }

  /** The positions of one column from row `hi` up to row `lo`, inclusive, upwards. */
  function ColumnUp(col: int, hi: int, lo: int): (r: seq<Pos>)
    requires lo <= hi + 1
    ensures |r| == hi - lo + 1
    ensures forall i | 0 <= i < |r| :: r[i] == Pos(hi - i, col)
    decreases hi - lo
  {
    if hi < lo then [] else [Pos(hi, col)] + ColumnUp(col, hi - 1, lo)
  }

  lemma ColumnUpContiguous(col: int, hi: int, lo: int)
    requires lo <= hi + 1
    ensures Contiguous(ColumnUp(col, hi, lo))
  {
    var r := ColumnUp(col, hi, lo);
    forall i | 0 <= i < |r| - 1 ensures Adjacent(r[i], r[i + 1]) {
      assert r[i] == Pos(hi - i, col) && r[i + 1] == Pos(hi - i - 1, col);
    }
  }

  /** Joining two contiguous paths whose ends touch gives a contiguous path. */
  lemma ContiguousJoin(a: seq<Pos>, b: seq<Pos>)
    requires Contiguous(a) && Contiguous(b)
    requires |a| > 0 && |b| > 0 ==> Adjacent(a[|a| - 1], b[0])
    ensures Contiguous(a + b)
  {
    var ab := a + b;
    forall i | 0 <= i < |ab| - 1 ensures Adjacent(ab[i], ab[i + 1]) {
      if i < |a| - 1 {
        assert ab[i] == a[i] && ab[i + 1] == a[i + 1];
      } else if i == |a| - 1 {
        assert ab[i] == a[|a| - 1] && ab[i + 1] == b[0];
      } else {
        assert ab[i] == b[i - |a|] && ab[i + 1] == b[i - |a| + 1];
      }
    }
  }

  /** The sort key of a candidate queue: distance from column `oc`, then row. */
  predicate KeyLe(a: Pos, b: Pos, oc: int)
  {
    Abs(a.col - oc) < Abs(b.col - oc) || (Abs(a.col - oc) == Abs(b.col - oc) && a.row <= b.row)
  }

  /** The queue is sorted by that key (ties in any order). */
  predicate QueueOrder(queue: seq<Pos>, oc: int)
  {
    forall i, j | 0 <= i < j < |queue| :: KeyLe(queue[i], queue[j], oc)
  }

  /** No position occurs twice. */
  predicate NoRepeats(ps: seq<Pos>)
  {
    forall i, j | 0 <= i < j < |ps| :: ps[i] != ps[j]
  }

  /** `s` backwards. */
  function Reversed<X>(s: seq<X>): (r: seq<X>)
    ensures |r| == |s| && forall i | 0 <= i < |s| :: r[i] == s[|s| - 1 - i]
  {
    seq(|s|, i requires 0 <= i < |s| => s[|s| - 1 - i])
  }

  /** A path walked backwards is still a path. */
  lemma ContiguousReversed(ps: seq<Pos>)
    requires Contiguous(ps)
    ensures Contiguous(Reversed(ps))
  {
    var r := Reversed(ps);
    forall i | 0 <= i < |r| - 1 ensures Adjacent(r[i], r[i + 1]) {
      assert r[i] == ps[|ps| - 1 - i] && r[i + 1] == ps[|ps| - 2 - i];
      assert Adjacent(ps[|ps| - 2 - i], ps[|ps| - 1 - i]);
    }
  }

  /** The four neighbours of a cell in the order routers explore them: down, left, right, up. */
  function Neighbours(p: Pos): (n: seq<Pos>)
    ensures |n| == 4 && forall k | 0 <= k < 4 :: Adjacent(p, n[k])
  {
    [Pos(p.row + 1, p.col), Pos(p.row, p.col - 1), Pos(p.row, p.col + 1), Pos(p.row - 1, p.col)]
  }

  /** Every cell adjacent to `p` is one of its four neighbours. */
  lemma NeighbourIndex(p: Pos, q: Pos) returns (k: nat)
    requires Adjacent(p, q)
    ensures k < 4 && Neighbours(p)[k] == q
  {
    if q.row == p.row + 1 { k := 0; }
    else if q.col == p.col - 1 { k := 1; }
    else if q.col == p.col + 1 { k := 2; }
    else { k := 3; }
  }

  /** The first `n` cells of row `r`. */
  function RowCells(r: int, n: nat): set<Pos>
  {
    if n == 0 then {} else RowCells(r, n - 1) + {Pos(r, n - 1)}
  }

  /** Every cell of the first `h` rows of a region `w` wide. */
  function Cells(h: nat, w: nat): set<Pos>
  {
    if h == 0 then {} else Cells(h - 1, w) + RowCells(h - 1, w)
  }

  lemma {:induction false} RowCellsHas(r: int, n: nat, c: int)
    requires 0 <= c < n
    ensures Pos(r, c) in RowCells(r, n)
  {
    if c < n - 1 {
      RowCellsHas(r, n - 1, c);
    }
  }

  /** Every cell inside the region is one of its cells. */
  lemma {:induction false} CellsHas(h: nat, w: nat, p: Pos)
    requires 0 <= p.row < h && 0 <= p.col < w
    ensures p in Cells(h, w)
  {
    if p.row < h - 1 {
      CellsHas(h - 1, w, p);
    } else {
      RowCellsHas(p.row, w, p.col);
    }
  }
}
