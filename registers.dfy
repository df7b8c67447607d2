/**
 * Register regions: where the data qubits of a computation live.  A
 * single-row region is one row of register patches, target `t` at column
 * 2t.  A comb-shaped region alternates routing columns with pairs of
 * register columns, with an optional top row of registers, and numbers
 * its registers in row-major scan order.
 */
module RegisterRegions {
  import opened Wrappers
  import opened Patches
  import opened Grids
  import opened Regions

  /** `SingleRowRegisterRegion(width)`: one row of register patches. */
  function SingleRowLayout(w: nat): (rows: seq<seq<Patch>>)
    ensures |rows| == 1 && |rows[0]| == w
    ensures forall c | 0 <= c < w ::
      rows[0][c].patchType == Reg && rows[0][c].lock == null && rows[0][c].localY == 0 && rows[0][c].localX == c
  {
    [seq(w, c => NewPatch(PlainPatch, Reg, 0, c, ZTop))]
  }

  /** The single-row region counts `width // 2` registers. */
  function SingleRowStats(w: nat): (s: RegionStats)
    ensures s.numRegisters == w / 2 && s.numTBuffers == 0 && s.numBellBuffers == 0
  {
    NoStats().(numRegisters := w / 2)
  }

  /** `SingleRowRegisterRegion.get_physical_pos`: target `t` sits at column 2t; `None` where the source raises. */
  function SingleRowPhysicalPos(w: nat, t: int): (r: Option<Pos>)
    ensures r.Some? <==> 0 <= 2 * t < w
    ensures r.Some? ==> r.value.row == 0 && r.value.col == 2 * t
  {
    var pos := t * 2;
    if pos < 0 || pos >= w then None else Some(Pos(0, pos))
  }

  /**
   * Distinct targets sit at distinct, non-adjacent registers, and a target
   * has a position exactly when it is below ⌈w/2⌉; that bound is the
   * counted number of registers only for an even width.
   */
  lemma SingleRowTargets(w: nat, t: int, u: int)
    ensures SingleRowPhysicalPos(w, t).Some? <==> 0 <= t < (w + 1) / 2
    ensures SingleRowPhysicalPos(w, t).Some? && SingleRowPhysicalPos(w, u).Some? && t != u ==>
      Abs(SingleRowPhysicalPos(w, t).value.col - SingleRowPhysicalPos(w, u).value.col) >= 2
    ensures (w + 1) / 2 == SingleRowStats(w).numRegisters <==> w % 2 == 0
  {
  }

  /** The number of rows of a comb region: the top row is made even when the height is 0. */
  function CombHeight(height: nat, inclTop: bool): nat
  {
    if inclTop && height == 0 then 1 else height
  }

  /** The number of cells of row `r`: the top row starts with its reserved corner even when the width is 0. */
  function RowLen(w: nat, inclTop: bool, r: int): nat
  {
    if inclTop && r == 0 && w == 0 then 1 else w
  }

  /**
   * Whether (r, c) is a register of a comb with routing width `rw`.  In the
   * top row, a register is any column c ≥ 1 with (c - 1) mod (2 + rw) below
   * `rw`; in the other rows such columns are routing columns, and so is the
   * last column when its residue is rw + 1; every other cell is a register.
   */
  predicate CombReg(w: nat, rw: nat, inclTop: bool, r: int, c: int)
  {
    if inclTop && r == 0 then c >= 1 && (c - 1) % (2 + rw) < rw
    else !((c - 1) % (2 + rw) < rw || ((c - 1) % (2 + rw) == rw + 1 && c == w - 1))
  }

  /** The patch a comb region puts at (r, c). */
  function CombPatch(w: nat, rw: nat, inclTop: bool, r: int, c: int): Patch
  {
    if inclTop && r == 0 then
      NewPatch(PlainPatch, if CombReg(w, rw, inclTop, r, c) then Reg else Reserved, 0, c, ZTop)
    else if CombReg(w, rw, inclTop, r, c) then NewPatch(PlainPatch, Reg, r, c, XTop)
    else NewPatch(PlainPatch, Route, r, c, ZTop)
  }

  /** The registers among the first `n` columns of row `r`, left to right. */
  function RowRegs(w: nat, rw: nat, inclTop: bool, r: int, n: nat): seq<Pos>
  {
    if n == 0 then []
    else RowRegs(w, rw, inclTop, r, n - 1) + (if CombReg(w, rw, inclTop, r, n - 1) then [Pos(r, n - 1)] else [])
  }

  /** The registers of the first `n` rows in row-major scan order: the targets 0, 1, … of `targ_map`. */
  function Regs(w: nat, rw: nat, inclTop: bool, n: nat): seq<Pos>
  {
    if n == 0 then [] else Regs(w, rw, inclTop, n - 1) + RowRegs(w, rw, inclTop, n - 1, RowLen(w, inclTop, n - 1))
  }

  predicate Before(p: Pos, q: Pos)
  {
    p.row < q.row || (p.row == q.row && p.col < q.col)
  }

  /** Every entry of `s` is a register of the first `n` rows, inside its row. */
  predicate RegsSound(s: seq<Pos>, w: nat, rw: nat, inclTop: bool, n: int)
  {
    forall k | 0 <= k < |s| :: 0 <= s[k].row < n && 0 <= s[k].col < RowLen(w, inclTop, s[k].row)
      && CombReg(w, rw, inclTop, s[k].row, s[k].col)
  }

  /** The entries of `s` come in row-major order, so none repeats. */
  predicate Ascending(s: seq<Pos>)
  {
    forall k, l | 0 <= k < l < |s| :: Before(s[k], s[l])
  }

  /** The registers of a row prefix are registers of that row, left to right, and all of them. */
  lemma {:induction false} RowRegsFacts(w: nat, rw: nat, inclTop: bool, r: int, n: nat)
    requires 0 <= r && n <= RowLen(w, inclTop, r)
    ensures RegsSound(RowRegs(w, rw, inclTop, r, n), w, rw, inclTop, r + 1)
    ensures forall k | 0 <= k < |RowRegs(w, rw, inclTop, r, n)| ::
      RowRegs(w, rw, inclTop, r, n)[k].row == r && RowRegs(w, rw, inclTop, r, n)[k].col < n
    ensures Ascending(RowRegs(w, rw, inclTop, r, n))
    ensures forall c | 0 <= c < n && CombReg(w, rw, inclTop, r, c) :: Pos(r, c) in RowRegs(w, rw, inclTop, r, n)
  {
    if n > 0 {
      RowRegsFacts(w, rw, inclTop, r, n - 1);
    }
  }

  /** Appending the registers of row n - 1 to those of the rows above keeps every entry a register. */
  lemma SoundAppend(a: seq<Pos>, b: seq<Pos>, w: nat, rw: nat, inclTop: bool, n: nat)
    requires n > 0 && RegsSound(a, w, rw, inclTop, n - 1) && RegsSound(b, w, rw, inclTop, n)
    ensures RegsSound(a + b, w, rw, inclTop, n)
  {
    var s := a + b;
    forall k | 0 <= k < |s|
      ensures 0 <= s[k].row < n && 0 <= s[k].col < RowLen(w, inclTop, s[k].row) && CombReg(w, rw, inclTop, s[k].row, s[k].col)
    {
      if k < |a| {
        assert s[k] == a[k];
      } else {
        assert s[k] == b[k - |a|];
      }
    }
  }

  /** Appending row n - 1, in ascending order, to the ascending rows above it keeps the order. */
  lemma AscendingAppend(a: seq<Pos>, b: seq<Pos>, n: nat)
    requires n > 0 && Ascending(a) && Ascending(b)
    requires forall k | 0 <= k < |a| :: a[k].row < n - 1
    requires forall k | 0 <= k < |b| :: b[k].row == n - 1
    ensures Ascending(a + b)
  {
    var s := a + b;
    forall k, l | 0 <= k < l < |s|
      ensures Before(s[k], s[l])
    {
      if l < |a| {
        assert s[k] == a[k] && s[l] == a[l];
      } else if k < |a| {
        assert s[k] == a[k] && s[l] == b[l - |a|];
      } else {
        assert s[k] == b[k - |a|] && s[l] == b[l - |a|];
      }
    }
  }

  /** The targets are registers of the region, each one once, in row-major order, and every register is a target. */
  lemma {:induction false} RegsFacts(w: nat, rw: nat, inclTop: bool, n: nat)
    ensures RegsSound(Regs(w, rw, inclTop, n), w, rw, inclTop, n)
    ensures Ascending(Regs(w, rw, inclTop, n))
    ensures forall r, c | 0 <= r < n && 0 <= c < RowLen(w, inclTop, r) && CombReg(w, rw, inclTop, r, c) ::
      Pos(r, c) in Regs(w, rw, inclTop, n)
  {
    if n > 0 {
      RegsFacts(w, rw, inclTop, n - 1);
      RowRegsFacts(w, rw, inclTop, n - 1, RowLen(w, inclTop, n - 1));
      var a := Regs(w, rw, inclTop, n - 1);
      var b := RowRegs(w, rw, inclTop, n - 1, RowLen(w, inclTop, n - 1));
      assert Regs(w, rw, inclTop, n) == a + b;
      SoundAppend(a, b, w, rw, inclTop, n);
      AscendingAppend(a, b, n);
      var s := a + b;
      forall r, c | 0 <= r < n && 0 <= c < RowLen(w, inclTop, r) && CombReg(w, rw, inclTop, r, c)
        ensures Pos(r, c) in s
      {
        if r < n - 1 {
          assert Pos(r, c) in a;
        } else {
          assert Pos(r, c) in b;
        }
      }
    }
  }

  /** The optional top row: a reserved corner, then registers and reserved cells. */
  method CombTopRow(w: nat, rw: nat) returns (row: seq<Patch>, regs: seq<Pos>)
    ensures |row| == RowLen(w, true, 0) && forall c | 0 <= c < |row| :: row[c] == CombPatch(w, rw, true, 0, c)
    ensures regs == RowRegs(w, rw, true, 0, |row|)
  {
    row := [NewPatch(PlainPatch, Reserved, 0, 0, ZTop)];
    regs := [];
    var c := 1;
    while c < w
      invariant 1 <= c && (c <= w || c == 1) && |row| == c
      invariant forall k | 0 <= k < c :: row[k] == CombPatch(w, rw, true, 0, k)
      invariant regs == RowRegs(w, rw, true, 0, c)
    {
      if (c - 1) % (2 + rw) < rw {
        row := row + [NewPatch(PlainPatch, Reg, 0, c, ZTop)];
        regs := regs + [Pos(0, c)];
      } else {
        row := row + [NewPatch(PlainPatch, Reserved, 0, c, ZTop)];
      }
      c := c + 1;
    }
  }

  /** A lower row: routing columns and registers with X on top. */
  method CombLowerRow(w: nat, rw: nat, inclTop: bool, r: nat) returns (row: seq<Patch>, regs: seq<Pos>)
    requires !(inclTop && r == 0)
    ensures |row| == RowLen(w, inclTop, r) && forall c | 0 <= c < |row| :: row[c] == CombPatch(w, rw, inclTop, r, c)
    ensures regs == RowRegs(w, rw, inclTop, r, |row|)
  {
    row, regs := [], [];
    for c := 0 to w
      invariant |row| == c
      invariant forall k | 0 <= k < c :: row[k] == CombPatch(w, rw, inclTop, r, k)
      invariant regs == RowRegs(w, rw, inclTop, r, c)
    {
      if (c - 1) % (2 + rw) < rw || ((c - 1) % (2 + rw) == rw + 1 && c == w - 1) {
        row := row + [NewPatch(PlainPatch, Route, r, c, ZTop)];
      } else {
        row := row + [NewPatch(PlainPatch, Reg, r, c, XTop)];
        regs := regs + [Pos(r, c)];
      }
    }
  }

  /**
   * `CombShapedRegisterRegion(width, height, route_width, incl_top)`: the
   * rows of patches and `targ_map`, target k being the k-th register in
   * row-major scan order.
   */
  method CombLayout(w: nat, height: nat, rw: nat, inclTop: bool) returns (rows: seq<seq<Patch>>, targMap: seq<Pos>)
    ensures |rows| == CombHeight(height, inclTop)
    ensures forall r | 0 <= r < |rows| :: |rows[r]| == RowLen(w, inclTop, r)
    ensures forall r, c | 0 <= r < |rows| && 0 <= c < |rows[r]| :: rows[r][c] == CombPatch(w, rw, inclTop, r, c)
    ensures targMap == Regs(w, rw, inclTop, |rows|)
  {
    rows, targMap := [], [];
    var r := 0;
    if inclTop {
      var top, regs := CombTopRow(w, rw);
      rows, targMap := [top], regs;
      r := 1;
    }
    while r < height
      invariant r == |rows| && (r <= height || (inclTop && r == 1))
      invariant forall i | 0 <= i < r :: |rows[i]| == RowLen(w, inclTop, i)
      invariant forall i, c | 0 <= i < r && 0 <= c < |rows[i]| :: rows[i][c] == CombPatch(w, rw, inclTop, i, c)
      invariant targMap == Regs(w, rw, inclTop, r)
    {
      var row, regs := CombLowerRow(w, rw, inclTop, r);
      rows, targMap := rows + [row], targMap + regs;
      r := r + 1;
    }
  }

  /** The comb region counts the registers of `targ_map`. */
  function CombStats(targMap: seq<Pos>): (s: RegionStats)
    ensures s.numRegisters == |targMap| && s.numTBuffers == 0 && s.numBellBuffers == 0
  {
    NoStats().(numRegisters := |targMap|)
  }

  /**
   * `CombShapedRegisterRegion.get_physical_pos`: the mapped register's local
   * position; `None` for an unknown target.  The source reads it as
   * `(reg.row, reg.col)`, which the base patch does not have.
   */
  function CombPhysicalPos(targMap: seq<Pos>, t: int): (r: Option<Pos>)
    ensures r.Some? <==> 0 <= t < |targMap|
  {
    if 0 <= t < |targMap| then Some(targMap[t]) else None
  }

  /**
   * Every known target of a comb region sits on a register patch, no two
   * targets share one, and every register patch belongs to a target.
   */
  lemma CombTargets(w: nat, height: nat, rw: nat, inclTop: bool, t: int, u: int)
    ensures var n := CombHeight(height, inclTop);
      var m := Regs(w, rw, inclTop, n);
      (CombPhysicalPos(m, t).Some? ==>
        var p := CombPhysicalPos(m, t).value;
        0 <= p.row < n && 0 <= p.col < RowLen(w, inclTop, p.row) && CombPatch(w, rw, inclTop, p.row, p.col).patchType == Reg)
      && (CombPhysicalPos(m, t).Some? && CombPhysicalPos(m, u).Some? && t != u ==> CombPhysicalPos(m, t) != CombPhysicalPos(m, u))
      && (forall r, c | 0 <= r < n && 0 <= c < RowLen(w, inclTop, r) && CombPatch(w, rw, inclTop, r, c).patchType == Reg ::
        exists k | 0 <= k < |m| :: CombPhysicalPos(m, k) == Some(Pos(r, c)))
  {
    var n := CombHeight(height, inclTop);
    var m := Regs(w, rw, inclTop, n);
    RegsFacts(w, rw, inclTop, n);
    if CombPhysicalPos(m, t).Some? && CombPhysicalPos(m, u).Some? && t != u {
      if t < u {
        assert Before(m[t], m[u]);
      } else {
        assert Before(m[u], m[t]);
      }
    }
    forall r, c | 0 <= r < n && 0 <= c < RowLen(w, inclTop, r) && CombPatch(w, rw, inclTop, r, c).patchType == Reg
      ensures exists k | 0 <= k < |m| :: CombPhysicalPos(m, k) == Some(Pos(r, c))
    {
      assert Pos(r, c) in m;
      var k :| 0 <= k < |m| && m[k] == Pos(r, c);
      assert CombPhysicalPos(m, k) == Some(Pos(r, c));
    }
  }

  lemma MulAtLeast(d: int, n: int)
    requires d >= 1 && n > 0
    ensures d * n >= n
  {
  }

  /** The remainder determines itself: a value q·n + m with 0 ≤ m < n leaves m. */
  lemma ModOf(x: int, q: int, m: int, n: int)
    requires n > 0 && 0 <= m < n && x == q * n + m
    ensures x % n == m
  {
    var q', m' := x / n, x % n;
    var d := q - q';
    assert d * n == m' - m by {
      assert x == q' * n + m';
      assert q * n - q' * n == (q - q') * n;
    }
    if d >= 1 {
      MulAtLeast(d, n);
    } else if d <= -1 {
      MulAtLeast(-d, n);
    }
  }

  /**
   * Every register of a lower row has a routing cell beside it in its row,
   * and every register of the top row has a routing cell below it: with a
   * routing width of at least one, each register can be reached.
   */
  lemma CombRegistersReachable(w: nat, height: nat, rw: nat, inclTop: bool, r: int, c: int)
    requires rw >= 1 && 0 <= r < CombHeight(height, inclTop) && 0 <= c < w && CombReg(w, rw, inclTop, r, c)
    ensures !(inclTop && r == 0) ==>
      (c >= 1 && !CombReg(w, rw, inclTop, r, c - 1)) || (c + 1 < w && !CombReg(w, rw, inclTop, r, c + 1))
    ensures inclTop && r == 0 && 1 < height ==> !CombReg(w, rw, inclTop, 1, c)
  {
    var n := 2 + rw;
    if !(inclTop && r == 0) {
      var q, m := (c - 1) / n, (c - 1) % n;
      if m == rw {
        ModOf(c - 2, q, rw - 1, n);
      } else {
        ModOf(c, q + 1, 0, n);
      }
    }
  }
}
