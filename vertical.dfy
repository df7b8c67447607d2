/**
 * The vertical buffer router over a prefilled magic-state region.  A state
 * is taken straight up its own column when an output column owns one;
 * otherwise the router probes down the output column for free cells and
 * then sideways, left first, for a state it can reach.  Positions are the
 * region's local (row, column) coordinates, which its patches carry as
 * `local_y` and `local_x`.  The source reads them as `.row` and `.col`,
 * which the base patch no longer has, so the program as written raises
 * wherever this model reads a patch's position.
 */
module VerticalBuffers {
  import opened Wrappers
  import opened Patches
  import opened Transactions
  import opened Grids
  import opened Responses
  import opened Buffers

  /** The column `e` steps from `oc`, to the left or to the right. */
  function Toward(oc: int, left: bool, e: int): int
  {
    if left then oc - e else oc + e
  }

  /** How many columns lie beyond `oc` in the probing direction. */
  function Reach(oc: int, w: int, left: bool): int
  {
    if left then oc else w - 1 - oc
  }

  /** The cells of row `row` at distances `k`, `k - 1`, ..., 1 from `oc`: a sideways run walked back towards `oc`. */
  function Run(row: int, oc: int, left: bool, k: nat): (r: seq<Pos>)
    ensures |r| == k && forall i | 0 <= i < k :: r[i] == Pos(row, Toward(oc, left, k - i))
  {
    seq(k, i => Pos(row, Toward(oc, left, k - i)))
  }

  /** The path a probe returns: the state, a sideways run in `row`, then up the output column from `row` to row 0. */
  function ProbePath(t: Pos, row: nat, oc: int, left: bool, k: nat): seq<Pos>
  {
    [t] + Run(row, oc, left, k) + ColumnUp(oc, row, 0)
  }

  /**
   * A probe path is a magic-state route ending on row 0 of the output column
   * when the state touches the end of the run and the run and the output
   * column up to `row` are free.
   */
  lemma ProbePathRoute(cells: seq<Patch>, g: Grid, t: Pos, row: nat, oc: int, left: bool, k: nat)
    requires Holds(g, |cells|)
    requires Stocked(cells, g, t.row, t.col) && Adjacent(t, Pos(row, Toward(oc, left, k)))
    requires forall e | 1 <= e <= k :: Free(cells, g, row, Toward(oc, left, e))
    requires forall i | 0 <= i <= row :: Free(cells, g, i, oc)
    ensures TRoute(cells, g, ProbePath(t, row, oc, left, k))
    ensures var p := ProbePath(t, row, oc, left, k); p[0] == t && p[|p| - 1] == Pos(0, oc)
  {
    var b := Run(row, oc, left, k);
    var c := ColumnUp(oc, row, 0);
    ColumnUpContiguous(oc, row, 0);
    forall i | 0 <= i < k - 1 ensures Adjacent(b[i], b[i + 1]) {
    }
    ContiguousJoin(b, c);
    assert (b + c)[0] == Pos(row, Toward(oc, left, k));
    ContiguousJoin([t], b + c);
    var p := ProbePath(t, row, oc, left, k);
    assert p == [t] + (b + c);
    forall i | 1 <= i < |p| ensures InGrid(g, p[i]) && RouteAvailable(cells[At(g, p[i])]) {
      if i <= k {
        assert p[i] == b[i - 1];
        assert Free(cells, g, row, Toward(oc, left, k - (i - 1)));
      } else {
        assert p[i] == c[i - 1 - k];
        assert Free(cells, g, row - (i - 1 - k), oc);
      }
    }
  }

  /** `probe_down`: the run of free cells from row 0 down the output column (as positions, top first). */
  method ProbeDown(cells: seq<Patch>, g: Grid, h: nat, w: nat, oc: int) returns (prefix: seq<Pos>)
    requires Rect(g, h, w) && Holds(g, |cells|) && 0 <= oc < w
    ensures |prefix| <= h
    ensures forall i | 0 <= i < |prefix| :: prefix[i] == Pos(i, oc) && Free(cells, g, i, oc)
    ensures |prefix| < h ==> !Free(cells, g, |prefix|, oc)
  {
    prefix := [];
    for i := 0 to h
      invariant |prefix| == i
      invariant forall j | 0 <= j < i :: prefix[j] == Pos(j, oc) && Free(cells, g, j, oc)
    {
      if Free(cells, g, i, oc) {
        prefix := prefix + [Pos(i, oc)];
      } else {
        return;
      }
    }
  }

  /**
   * The sideways probe from the bottom `depth - 1` of a free prefix of the
   * output column.  First (only when that row is below row `guard`) the row
   * itself is scanned outwards; then the rows above it, bottom to top.  In a
   * scanned row a state reached through free cells is taken either along its
   * own row or, when the free run of the row below extends under it, down
   * into that run.  The sideways run lists are kept as their lengths.
   */
  method Probe(cells: seq<Patch>, g: Grid, h: nat, w: nat, oc: int, depth: nat, left: bool, guard: nat)
    returns (route: Option<seq<Pos>>)
    requires Rect(g, h, w) && Holds(g, |cells|) && 0 <= oc < w
    requires 1 <= depth <= h && forall i | 0 <= i < depth :: Free(cells, g, i, oc)
    ensures route.Some? ==> TRoute(cells, g, route.value) && route.value[|route.value| - 1] == Pos(0, oc)
    ensures depth - 1 > guard && Reach(oc, w, left) >= 1 && Stocked(cells, g, depth - 1, Toward(oc, left, 1)) ==>
      route == Some([Pos(depth - 1, Toward(oc, left, 1))] + ColumnUp(oc, depth - 1, 0))
    ensures depth - 1 <= guard && route.Some? ==> route.value[0].row < depth - 1
  {
    var sr := depth - 1;
    var prev := 0;
    if sr > guard {
      route, prev := ScanBottom(cells, g, h, w, oc, sr, left);
      if route.Some? {
        return;
      }
    }
    var r := sr - 1;
    while r >= 0
      invariant -1 <= r < sr && 0 <= prev <= Reach(oc, w, left)
      invariant forall e | 1 <= e <= prev :: Free(cells, g, r + 1, Toward(oc, left, e))
    {
      var cur;
      route, cur := ScanRow(cells, g, h, w, oc, r, left, prev);
      if route.Some? {
        return;
      }
      prev := cur;
      r := r - 1;
    }
    return None;
  }

  /**
   * The scan of the bottom row `sr` of the prefix, outwards from the output
   * column: a state reached through free cells is taken along the row.  With
   * no state, `prev` is the length of the row's free run.
   */
  method ScanBottom(cells: seq<Patch>, g: Grid, h: nat, w: nat, oc: int, sr: nat, left: bool)
    returns (route: Option<seq<Pos>>, prev: nat)
    requires Rect(g, h, w) && Holds(g, |cells|) && 0 <= oc < w && sr < h
    requires forall i | 0 <= i <= sr :: Free(cells, g, i, oc)
    ensures route.Some? ==> TRoute(cells, g, route.value) && route.value[|route.value| - 1] == Pos(0, oc)
    ensures Reach(oc, w, left) >= 1 && Stocked(cells, g, sr, Toward(oc, left, 1)) ==>
      route == Some([Pos(sr, Toward(oc, left, 1))] + ColumnUp(oc, sr, 0))
    ensures route.None? ==> prev <= Reach(oc, w, left) && forall e | 1 <= e <= prev :: Free(cells, g, sr, Toward(oc, left, e))
  {
    var reach := Reach(oc, w, left);
    if reach >= 1 {
      AvailabilityExclusive(cells[g[sr][Toward(oc, left, 1)]]);
    }
    ghost var first := reach >= 1 && Stocked(cells, g, sr, Toward(oc, left, 1));
    prev := 0;
    var d := 1;
    while d <= reach
      invariant 1 <= d <= reach + 1 && prev == d - 1
      invariant forall e | 1 <= e < d :: Free(cells, g, sr, Toward(oc, left, e))
      invariant first ==> d == 1
    {
      var c := Toward(oc, left, d);
      if Free(cells, g, sr, c) {
        prev := prev + 1;
      } else if Stocked(cells, g, sr, c) {
        ProbePathRoute(cells, g, Pos(sr, c), sr, oc, left, d - 1);
        if d == 1 {
          assert Run(sr, oc, left, 0) == [];
          assert ProbePath(Pos(sr, c), sr, oc, left, 0) == [Pos(sr, c)] + ColumnUp(oc, sr, 0);
        }
        return Some(ProbePath(Pos(sr, c), sr, oc, left, d - 1)), prev;
      } else {
        break;
      }
      d := d + 1;
    }
    return None, prev;
  }

  /**
   * The scan of row `r`, above a row whose free run has length `prev`: a
   * state reached through free cells is taken down into the run below when
   * the run extends under it, else along its own row.  With no state, `cur`
   * is the length of the row's free run.
   */
  method ScanRow(cells: seq<Patch>, g: Grid, h: nat, w: nat, oc: int, r: nat, left: bool, prev: nat)
    returns (route: Option<seq<Pos>>, cur: nat)
    requires Rect(g, h, w) && Holds(g, |cells|) && 0 <= oc < w && r + 1 < h
    requires forall i | 0 <= i <= r + 1 :: Free(cells, g, i, oc)
    requires prev <= Reach(oc, w, left) && forall e | 1 <= e <= prev :: Free(cells, g, r + 1, Toward(oc, left, e))
    ensures route.Some? ==> TRoute(cells, g, route.value) && route.value[|route.value| - 1] == Pos(0, oc)
    ensures route.Some? ==> route.value[0].row == r
    ensures route.None? ==> cur <= Reach(oc, w, left) && forall e | 1 <= e <= cur :: Free(cells, g, r, Toward(oc, left, e))
  {
    var reach := Reach(oc, w, left);
    cur := 0;
    var d := 1;
    while d <= reach
      invariant 1 <= d <= reach + 1 && cur == d - 1
      invariant forall e | 1 <= e < d :: Free(cells, g, r, Toward(oc, left, e))
    {
      var c := Toward(oc, left, d);
      if Free(cells, g, r, c) {
        cur := cur + 1;
      } else if Stocked(cells, g, r, c) && prev > 0 && d <= prev {
        ProbePathRoute(cells, g, Pos(r, c), r + 1, oc, left, d);
        return Some(ProbePath(Pos(r, c), r + 1, oc, left, d)), cur;
      } else if Stocked(cells, g, r, c) {
        ProbePathRoute(cells, g, Pos(r, c), r, oc, left, d - 1);
        return Some(ProbePath(Pos(r, c), r, oc, left, d - 1)), cur;
      } else {
        break;
      }
      d := d + 1;
    }
    return None, cur;
  }

  /** `probe_left_nonowning`: a state next to the bottom of the prefix, on its left, is taken directly. */
  method ProbeLeft(cells: seq<Patch>, g: Grid, h: nat, w: nat, prefix: seq<Pos>) returns (route: Option<seq<Pos>>)
    requires Rect(g, h, w) && Holds(g, |cells|)
    requires 1 <= |prefix| <= h && 0 <= prefix[0].col < w
    requires forall i | 0 <= i < |prefix| :: prefix[i] == Pos(i, prefix[0].col) && Free(cells, g, i, prefix[0].col)
    ensures route.Some? ==> TRoute(cells, g, route.value) && route.value[|route.value| - 1] == prefix[0]
    ensures var oc, sr := prefix[0].col, |prefix| - 1;
      sr >= 1 && oc >= 1 && Stocked(cells, g, sr, oc - 1) ==> route == Some([Pos(sr, oc - 1)] + ColumnUp(oc, sr, 0))
  {
    route := Probe(cells, g, h, w, prefix[0].col, |prefix|, true, 0);
  }

  /** `probe_right_nonowning` as the right-hand mirror of the left probe: the adjacent state on the right is taken directly. */
  method ProbeRight(cells: seq<Patch>, g: Grid, h: nat, w: nat, prefix: seq<Pos>) returns (route: Option<seq<Pos>>)
    requires Rect(g, h, w) && Holds(g, |cells|)
    requires 1 <= |prefix| <= h && 0 <= prefix[0].col < w
    requires forall i | 0 <= i < |prefix| :: prefix[i] == Pos(i, prefix[0].col) && Free(cells, g, i, prefix[0].col)
    ensures route.Some? ==> TRoute(cells, g, route.value) && route.value[|route.value| - 1] == prefix[0]
    ensures var oc, sr := prefix[0].col, |prefix| - 1;
      sr >= 1 && oc + 1 < w && Stocked(cells, g, sr, oc + 1) ==> route == Some([Pos(sr, oc + 1)] + ColumnUp(oc, sr, 0))
  {
    route := Probe(cells, g, h, w, prefix[0].col, |prefix|, false, 0);
  }

  /**
   * `probe_right_nonowning` as written: its own row is scanned only when it
   * lies below row 1, so with a prefix of two cells a state directly to the
   * right of the prefix's bottom is never the one taken.
   */
  method ProbeRightAsWritten(cells: seq<Patch>, g: Grid, h: nat, w: nat, prefix: seq<Pos>) returns (route: Option<seq<Pos>>)
    requires Rect(g, h, w) && Holds(g, |cells|)
    requires 1 <= |prefix| <= h && 0 <= prefix[0].col < w
    requires forall i | 0 <= i < |prefix| :: prefix[i] == Pos(i, prefix[0].col) && Free(cells, g, i, prefix[0].col)
    ensures route.Some? ==> TRoute(cells, g, route.value) && route.value[|route.value| - 1] == prefix[0]
    ensures |prefix| == 2 && route.Some? ==> route.value[0].row == 0
  {
    route := Probe(cells, g, h, w, prefix[0].col, |prefix|, false, 1);
  }

  /**
   * A two-by-two buffer where both probes start from the same prefix and
   * differ: column 0 is free, the state sits at (1, 1) and (0, 1) holds a
   * register.  The right-hand mirror of the left probe takes the state at
   * (1, 1); the probe as written cannot.
   */
  lemma RightProbeCounterexample() returns (cells: seq<Patch>, g: Grid)
    ensures Rect(g, 2, 2) && Holds(g, |cells|)
    ensures Free(cells, g, 0, 0) && Free(cells, g, 1, 0)
    ensures Stocked(cells, g, 1, 1) && !Free(cells, g, 0, 1) && !Stocked(cells, g, 0, 1)
  {
    cells := [NewPatch(PlainPatch, Route, 0, 0, ZTop), NewPatch(PlainPatch, Reg, 0, 1, ZTop),
              NewPatch(PlainPatch, Route, 1, 0, ZTop), NewPatch(PlainPatch, T, 1, 1, ZTop)];
    g := [[0, 1], [2, 3]];
  }

  /** `search_owning`: the first row of the column, from the top, whose patch offers a magic state. */
  method SearchOwning(cells: seq<Patch>, g: Grid, h: nat, w: nat, col: int) returns (t: Option<Pos>)
    requires Rect(g, h, w) && Holds(g, |cells|) && 0 <= col < w
    ensures t.Some? ==>
      t.value.col == col && 0 <= t.value.row < h && Stocked(cells, g, t.value.row, col)
      && forall k | 0 <= k < t.value.row :: !Stocked(cells, g, k, col)
    ensures t.None? ==> forall k | 0 <= k < h :: !Stocked(cells, g, k, col)
  {
    for r := 0 to h
      invariant forall k | 0 <= k < r :: !Stocked(cells, g, k, col)
    {
      if Stocked(cells, g, r, col) {
        return Some(Pos(r, col));
      }
    }
    return None;
  }

  /** `validate_T_path`: the first patch offers a magic state and every later one is free routing space. */
  predicate ValidTPath(cells: seq<Patch>, path: seq<PatchId>)
    requires |path| > 0 && InRange(path, |cells|)
  {
    TAvailable(cells[path[0]]) && forall i | 1 <= i < |path| :: RouteAvailable(cells[path[i]])
  }

  /**
   * The owning path of the first state of a column (`find_path_owning`: the
   * state, then straight up) is valid exactly when the state is the column's
   * buffer state, i.e. everything above it is free.
   */
  lemma OwningPathValid(cells: seq<Patch>, g: Grid, h: nat, w: nat, c: int, r: int)
    requires Rect(g, h, w) && Holds(g, |cells|) && 0 <= c < w && 0 <= r < h && Stocked(cells, g, r, c)
    ensures AllIn(g, ColumnUp(c, r, 0))
    ensures ValidTPath(cells, IdsAt(g, ColumnUp(c, r, 0))) <==> IsState(cells, g, c, r)
  {
    var path := ColumnUp(c, r, 0);
    var ids := IdsAt(g, path);
    IdsAtInRange(g, path, |cells|);
    if ValidTPath(cells, ids) {
      forall k | 0 <= k < r ensures Free(cells, g, k, c) {
        assert ids[r - k] == g[k][c];
      }
    }
    if IsState(cells, g, c, r) {
      forall i | 1 <= i < |ids| ensures RouteAvailable(cells[ids[i]]) {
        assert ids[i] == g[r - i][c] && Free(cells, g, r - i, c);
      }
    }
  }

  /** Some row of column `c` holds its buffer state. */
  predicate Owns(cells: seq<Patch>, g: Grid, h: nat, c: int)
    requires Holds(g, |cells|)
  {
    exists k | 0 <= k < h :: IsState(cells, g, c, k)
  }

  /** The smallest element of a non-empty list. */
  function MinOf(s: seq<int>): (m: int)
    requires |s| > 0
    ensures m in s && forall i | 0 <= i < |s| :: m <= s[i]
  {
    if |s| == 1 then s[0]
    else
      var m := MinOf(s[1..]);
      assert forall i | 1 <= i < |s| :: s[1..][i - 1] == s[i];
      if s[0] <= m then s[0] else m
  }

  /** `_make_transaction`: the route's first patch is measured and is the magic state. */
  function MakeProposal(g: Grid, route: seq<Pos>, connect: int): (p: Proposal)
    requires |route| > 0 && AllIn(g, route)
    ensures p.move == IdsAt(g, route) && p.measure == [At(g, route[0])] && p.magic == Some(At(g, route[0]))
    ensures p.connectCol == Some(connect)
  {
    Proposal(IdsAt(g, route), [At(g, route[0])], Some(connect), Some(At(g, route[0])), NoCallback, NoCallback)
  }

  /** The free run down column `oc` from row 0 ends at row `sr`: what `probe_down` finds. */
  predicate RunEnds(cells: seq<Patch>, g: Grid, h: nat, oc: int, sr: int)
    requires Holds(g, |cells|)
  {
    0 <= sr < h && (forall i | 0 <= i <= sr :: Free(cells, g, i, oc)) && (sr + 1 < h ==> !Free(cells, g, sr + 1, oc))
  }

  /** No output column owns a state. */
  predicate NoneOwns(cells: seq<Patch>, g: Grid, h: nat, outs: seq<int>)
    requires Holds(g, |cells|)
  {
    forall i | 0 <= i < |outs| :: !Owns(cells, g, h, outs[i])
  }

  /** A free run that ends at `sr` is the prefix `probe_down` returns. */
  lemma PrefixDepth(cells: seq<Patch>, g: Grid, h: nat, oc: int, sr: int, prefix: seq<Pos>)
    requires Holds(g, |cells|) && |prefix| <= h
    requires forall i | 0 <= i < |prefix| :: Free(cells, g, i, oc)
    requires |prefix| < h ==> !Free(cells, g, |prefix|, oc)
    requires RunEnds(cells, g, h, oc, sr)
    ensures |prefix| == sr + 1
  {
  }

  /**
   * A transaction, when there is one, is `_make_transaction` over a T route
   * ending on row 0 in one of the output columns, which it connects to.
   */
  ghost predicate Delivers(cells: seq<Patch>, g: Grid, outs: seq<int>, r: Option<Proposal>, route: seq<Pos>)
    requires Holds(g, |cells|)
  {
    r.Some? ==>
      TRoute(cells, g, route) && r.value.connectCol.Some? && r.value == MakeProposal(g, route, r.value.connectCol.value)
      && r.value.connectCol.value in outs && route[|route| - 1] == Pos(0, r.value.connectCol.value)
  }

  /**
   * `k` is the first output column that owns a state (`|outs|` when none
   * does), and that column is served: the route climbs straight up from
   * its state.
   */
  ghost predicate ServesOwner(cells: seq<Patch>, g: Grid, h: nat, outs: seq<int>, k: nat, r: Option<Proposal>, route: seq<Pos>)
    requires Holds(g, |cells|)
  {
    k <= |outs| && (forall j | 0 <= j < k :: !Owns(cells, g, h, outs[j]))
    && (k < |outs| ==>
          Owns(cells, g, h, outs[k]) && r.Some? && r.value.connectCol == Some(outs[k]) && |route| > 0
          && IsState(cells, g, outs[k], route[0].row) && route == ColumnUp(outs[k], route[0].row, 0))
  }

  /**
   * What the probes of column `oc` give: nothing when `probe_down` finds no
   * free cell; where the free run ends at row `sr >= 1`, a state just left
   * of its end is taken first, and one just right of it gives some route.
   */
  ghost predicate ServesFallback(cells: seq<Patch>, g: Grid, h: nat, w: nat, oc: int, r: Option<Proposal>, route: seq<Pos>)
    requires Rect(g, h, w) && Holds(g, |cells|)
  {
    (h == 0 || !Free(cells, g, 0, oc) ==> r.None?)
    && forall sr | RunEnds(cells, g, h, oc, sr) && sr >= 1 ::
      (oc >= 1 && Stocked(cells, g, sr, oc - 1) ==>
        route == [Pos(sr, oc - 1)] + ColumnUp(oc, sr, 0) && r == Some(MakeProposal(g, route, oc)))
      && (oc + 1 < w && Stocked(cells, g, sr, oc + 1) ==> r.Some?)
  }

  /**
   * The first loop of `request_transaction`: the first output column that
   * owns a state whose path up is valid sends it straight up.
   */
  method OwnedRoute(cells: seq<Patch>, g: Grid, h: nat, w: nat, outs: seq<int>) returns (r: Option<Proposal>, route: seq<Pos>, ghost k: nat)
    requires Rect(g, h, w) && Holds(g, |cells|)
    requires forall i | 0 <= i < |outs| :: 0 <= outs[i] < w
    ensures Delivers(cells, g, outs, r, route)
    ensures ServesOwner(cells, g, h, outs, k, r, route)
    ensures r.None? <==> k == |outs|
  {
    route := [];
    for i := 0 to |outs|
      invariant forall j | 0 <= j < i :: !Owns(cells, g, h, outs[j])
    {
      var t := SearchOwning(cells, g, h, w, outs[i]);
      if t.Some? {
        var path := ColumnUp(outs[i], t.value.row, 0);
        OwningPathValid(cells, g, h, w, outs[i], t.value.row);
        IdsAtInRange(g, path, |cells|);
        if ValidTPath(cells, IdsAt(g, path)) {
          StateMoveRoute(cells, g, outs[i], t.value.row);
          route, k := path, i;
          return Some(MakeProposal(g, path, outs[i])), route, k;
        }
        AvailabilityExclusive(cells[g[t.value.row][outs[i]]]);
        assert !Owns(cells, g, h, outs[i]);
      } else {
        assert !Owns(cells, g, h, outs[i]);
      }
    }
    return None, route, |outs|;
  }

  /**
   * The rest of `request_transaction`, for output column `oc`: `probe_down`,
   * then the left probe, then the right probe.
   */
  method FallbackRoute(cells: seq<Patch>, g: Grid, h: nat, w: nat, oc: int) returns (r: Option<Proposal>, route: seq<Pos>)
    requires Rect(g, h, w) && Holds(g, |cells|) && 0 <= oc < w
    ensures r.Some? ==> TRoute(cells, g, route) && r.value == MakeProposal(g, route, oc) && route[|route| - 1] == Pos(0, oc)
    ensures ServesFallback(cells, g, h, w, oc, r, route)
  {
    route := [];
    var prefix := ProbeDown(cells, g, h, w, oc);
    forall sr | RunEnds(cells, g, h, oc, sr) ensures |prefix| == sr + 1 {
      PrefixDepth(cells, g, h, oc, sr, prefix);
    }
    if prefix == [] {
      return None, route;
    }
    r, route := ProbeSides(cells, g, h, w, prefix);
  }

  /** The two probes from the bottom of a non-empty prefix, the left one first. */
  method ProbeSides(cells: seq<Patch>, g: Grid, h: nat, w: nat, prefix: seq<Pos>) returns (r: Option<Proposal>, route: seq<Pos>)
    requires Rect(g, h, w) && Holds(g, |cells|)
    requires 1 <= |prefix| <= h && 0 <= prefix[0].col < w
    requires forall i | 0 <= i < |prefix| :: prefix[i] == Pos(i, prefix[0].col) && Free(cells, g, i, prefix[0].col)
    ensures var oc := prefix[0].col;
      r.Some? ==> TRoute(cells, g, route) && r.value == MakeProposal(g, route, oc) && route[|route| - 1] == Pos(0, oc)
    ensures var oc, sr := prefix[0].col, |prefix| - 1;
      sr >= 1 && oc >= 1 && Stocked(cells, g, sr, oc - 1) ==>
        route == [Pos(sr, oc - 1)] + ColumnUp(oc, sr, 0) && r == Some(MakeProposal(g, route, oc))
    ensures var oc, sr := prefix[0].col, |prefix| - 1;
      sr >= 1 && oc + 1 < w && Stocked(cells, g, sr, oc + 1) ==> r.Some?
  {
    var oc := prefix[0].col;
    route := [];
    var left := ProbeLeft(cells, g, h, w, prefix);
    if left.Some? {
      route := left.value;
      return Some(MakeProposal(g, route, oc)), route;
    }
    var right := ProbeRight(cells, g, h, w, prefix);
    if right.Some? {
      route := right.value;
      return Some(MakeProposal(g, route, oc)), route;
    }
    return None, route;
  }

  /**
   * `request_transaction(output_cols)`: the first output column that owns a
   * reachable state sends it straight up; failing that, the smallest output
   * column is probed down and then left, then right.  `route` is the path
   * as positions.
   */
  method Request(cells: seq<Patch>, g: Grid, h: nat, w: nat, outs: seq<int>) returns (r: Option<Proposal>, route: seq<Pos>, ghost k: nat)
    requires Rect(g, h, w) && Holds(g, |cells|)
    requires forall i | 0 <= i < |outs| :: 0 <= outs[i] < w
    ensures outs == [] ==> r.None?
    ensures Delivers(cells, g, outs, r, route)
    ensures ServesOwner(cells, g, h, outs, k, r, route)
    ensures outs != [] && k == |outs| ==>
      ServesFallback(cells, g, h, w, MinOf(outs), r, route) && (r.Some? ==> r.value.connectCol == Some(MinOf(outs)))
  {
    if outs == [] {
      return None, [], 0;
    }
    r, route, k := OwnedRoute(cells, g, h, w, outs);
    if r.None? {
      r, route := FallbackRoute(cells, g, h, w, MinOf(outs));
    }
  }

  /** The buffer columns beside register column `regCol`: the one to its left, and its own unless it is one of the last two. */
  function BufferCols(regCol: int, w: int): (cols: seq<int>)
    ensures forall i | 0 <= i < |cols| :: cols[i] == regCol - 1 || cols[i] == regCol
    ensures regCol - 1 in cols <==> regCol > 0
    ensures regCol in cols <==> regCol < w - 2
  {
    (if regCol > 0 then [regCol - 1] else []) + (if regCol < w - 2 then [regCol] else [])
  }

  /**
   * `generic_transaction(reg_col)`: SUCCESS with the transaction for the
   * buffer columns beside the register, or the default response; never
   * CHECK_DOWNSTREAM.
   */
  method Generic(cells: seq<Patch>, g: Grid, h: nat, w: nat, regCol: int) returns (resp: Response)
    requires Rect(g, h, w) && Holds(g, |cells|) && 0 <= regCol <= w
    ensures resp.status == Success || resp == FailedResponse()
    ensures resp.status == Success ==>
      resp.transaction.Some? && resp.transaction.value.connectCol.Some?
      && resp.transaction.value.connectCol.value in BufferCols(regCol, w)
    ensures !NoneOwns(cells, g, h, BufferCols(regCol, w)) ==> resp.status == Success
  {
    var cols := BufferCols(regCol, w);
    var trans, route, k := Request(cells, g, h, w, cols);
    if trans.Some? {
      resp := MakeResponse(Success, trans);
    } else {
      resp := FailedResponse();
    }
  }
}
