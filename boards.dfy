/**
 * Putting a template's regions on a board: `make_board` stacks the regions
 * of a layout row by row, `make_explicit` pastes each region at its offset
 * on a reserved board.  A region is its rows of patch ids (as the region
 * shows them) and the positions, in the region list, of its downstream
 * regions.
 */
module Boards {
  import opened Wrappers
  import opened Patches

  datatype BoardRegion = BoardRegion(rows: seq<seq<PatchId>>, downstream: seq<nat>)

  /** Downstream regions come later in the list, as `create` lists them. */
  predicate Forward(regs: seq<BoardRegion>)
  {
    forall i, k | 0 <= i < |regs| && 0 <= k < |regs[i].downstream| :: i < regs[i].downstream[k] < |regs|
  }

  /** The rows joined end to end. */
  function Concat(rows: seq<seq<PatchId>>): seq<PatchId>
  {
    if rows == [] then [] else Concat(rows[..|rows| - 1]) + rows[|rows| - 1]
  }

  /** The cells of rows `r` onwards. */
  function RowsFrom(rows: seq<seq<PatchId>>, r: nat): multiset<PatchId>
    decreases |rows| - r
  {
    if r >= |rows| then multiset{} else multiset(rows[r]) + RowsFrom(rows, r + 1)
  }

  /** Every cell of region `i` and of the regions below it, counted once per way down to it. */
  function RegionCells(regs: seq<BoardRegion>, i: nat): multiset<PatchId>
    requires Forward(regs) && i < |regs|
    decreases |regs| - i, 1
  {
    RowsFrom(regs[i].rows, 0) + CellsBelow(regs, i, |regs[i].downstream|)
  }

  /** The cells below the first `k` downstream regions of `i`. */
  function CellsBelow(regs: seq<BoardRegion>, i: nat, k: nat): multiset<PatchId>
    requires Forward(regs) && i < |regs| && k <= |regs[i].downstream|
    decreases |regs| - i, 0, k
  {
    if k == 0 then multiset{} else CellsBelow(regs, i, k - 1) + RegionCells(regs, regs[i].downstream[k - 1])
  }

  /** An active region `e.0` about to show its row `e.1`. */
  type Active = (nat, nat)

  predicate ActiveIn(regs: seq<BoardRegion>, active: seq<Active>)
  {
    forall j | 0 <= j < |active| :: active[j].0 < |regs|
  }

  /** What an active region has still to put on the board: its remaining rows, then everything below it. */
  function Pending(regs: seq<BoardRegion>, e: Active): multiset<PatchId>
    requires Forward(regs) && e.0 < |regs|
  {
    RowsFrom(regs[e.0].rows, e.1) + CellsBelow(regs, e.0, |regs[e.0].downstream|)
  }

  function AllPending(regs: seq<BoardRegion>, active: seq<Active>): multiset<PatchId>
    requires Forward(regs) && ActiveIn(regs, active)
  {
    if active == [] then multiset{} else AllPending(regs, active[..|active| - 1]) + Pending(regs, active[|active| - 1])
  }

  /** The number of board rows an active region still takes part in. */
  function Rem(regs: seq<BoardRegion>, i: nat, r: nat): nat
    requires Forward(regs) && i < |regs|
    decreases |regs| - i, 1
  {
    (if r < |regs[i].rows| then |regs[i].rows| - r else 0) + 1 + RemBelow(regs, i, |regs[i].downstream|)
  }

  function RemBelow(regs: seq<BoardRegion>, i: nat, k: nat): nat
    requires Forward(regs) && i < |regs| && k <= |regs[i].downstream|
    decreases |regs| - i, 0, k
  {
    if k == 0 then 0 else RemBelow(regs, i, k - 1) + Rem(regs, regs[i].downstream[k - 1], 1)
  }

  function AllRem(regs: seq<BoardRegion>, active: seq<Active>): nat
    requires Forward(regs) && ActiveIn(regs, active)
  {
    if active == [] then 0 else AllRem(regs, active[..|active| - 1]) + Rem(regs, active[|active| - 1].0, active[|active| - 1].1)
  }

  /** One of the first `k` downstream regions of `i` has no rows. */
  predicate ZeroBelow(regs: seq<BoardRegion>, i: nat, k: nat)
    requires Forward(regs) && i < |regs| && k <= |regs[i].downstream|
  {
    k > 0 && (ZeroBelow(regs, i, k - 1) || |regs[regs[i].downstream[k - 1]].rows| == 0)
  }

  /** Some region below `i` has no rows, so asking it for its row 0 fails. */
  predicate Fails(regs: seq<BoardRegion>, i: nat)
    requires Forward(regs) && i < |regs|
    decreases |regs| - i, 1
  {
    FailsBelow(regs, i, |regs[i].downstream|)
  }

  /** Some region below the first `k` downstream regions of `i`, or one of them, has no rows. */
  predicate FailsBelow(regs: seq<BoardRegion>, i: nat, k: nat)
    requires Forward(regs) && i < |regs| && k <= |regs[i].downstream|
    decreases |regs| - i, 0, k
  {
    k > 0 && (FailsBelow(regs, i, k - 1) || |regs[regs[i].downstream[k - 1]].rows| == 0 || Fails(regs, regs[i].downstream[k - 1]))
  }

  predicate AnyFails(regs: seq<BoardRegion>, active: seq<Active>)
    requires Forward(regs) && ActiveIn(regs, active)
  {
    active != [] && (AnyFails(regs, active[..|active| - 1]) || Fails(regs, active[|active| - 1].0))
  }

  /** A region that has run out of rows and has a downstream region without rows. */
  predicate Stuck(regs: seq<BoardRegion>, e: Active)
    requires e.0 < |regs| && Forward(regs)
  {
    e.1 >= |regs[e.0].rows| && ZeroBelow(regs, e.0, |regs[e.0].downstream|)
  }

  predicate AnyStuck(regs: seq<BoardRegion>, active: seq<Active>)
    requires Forward(regs) && ActiveIn(regs, active)
  {
    active != [] && (AnyStuck(regs, active[..|active| - 1]) || Stuck(regs, active[|active| - 1]))
  }

  /** The downstream regions `down`, each active from its row 1. */
  function Heads(down: seq<nat>): (r: seq<Active>)
    ensures |r| == |down| && forall l | 0 <= l < |down| :: r[l] == (down[l], 1)
  {
    if down == [] then [] else Heads(down[..|down| - 1]) + [(down[|down| - 1], 1)]
  }

  /** A region without rows among the first `k` downstream regions is among the first `n`, for `n >= k`. */
  lemma {:induction false} ZeroBelowUp(regs: seq<BoardRegion>, i: nat, k: nat, n: nat)
    requires Forward(regs) && i < |regs| && k <= n <= |regs[i].downstream| && ZeroBelow(regs, i, k)
    ensures ZeroBelow(regs, i, n)
    decreases n - k
  {
    if k < n {
      ZeroBelowUp(regs, i, k + 1, n);
    }
  }

  /** One more downstream region with rows keeps the cells of the loop of `Expand` in step. */
  lemma ExpandCells(regs: seq<BoardRegion>, i: nat, k: nat, row: seq<PatchId>, next: seq<Active>)
    requires Forward(regs) && i < |regs| && k < |regs[i].downstream| && ActiveIn(regs, next)
    requires |regs[regs[i].downstream[k]].rows| > 0
    requires multiset(row) + AllPending(regs, next) == CellsBelow(regs, i, k)
    ensures ActiveIn(regs, next + [(regs[i].downstream[k], 1)])
    ensures multiset(row + regs[regs[i].downstream[k]].rows[0]) + AllPending(regs, next + [(regs[i].downstream[k], 1)]) == CellsBelow(regs, i, k + 1)
  {
    var d := regs[i].downstream[k];
    AllPendingSnoc(regs, next, (d, 1));
    assert RegionCells(regs, d) == multiset(regs[d].rows[0]) + Pending(regs, (d, 1));
  }

  /** One more downstream region with rows keeps the counts of the loop of `Expand` in step. */
  lemma ExpandCounts(regs: seq<BoardRegion>, i: nat, k: nat, next: seq<Active>)
    requires Forward(regs) && i < |regs| && k < |regs[i].downstream| && ActiveIn(regs, next)
    requires |regs[regs[i].downstream[k]].rows| > 0 && !ZeroBelow(regs, i, k)
    requires AllRem(regs, next) == RemBelow(regs, i, k)
    requires AnyFails(regs, next) <==> FailsBelow(regs, i, k)
    ensures !ZeroBelow(regs, i, k + 1)
    ensures AllRem(regs, next + [(regs[i].downstream[k], 1)]) == RemBelow(regs, i, k + 1)
    ensures AnyFails(regs, next + [(regs[i].downstream[k], 1)]) <==> FailsBelow(regs, i, k + 1)
  {
    var d := regs[i].downstream[k];
    AllPendingSnoc(regs, next, (d, 1));
    AnyFailsSnoc(regs, next, (d, 1));
  }

  /** A stuck region is one below which something fails. */
  lemma {:induction false} ZeroFails(regs: seq<BoardRegion>, i: nat, k: nat)
    requires Forward(regs) && i < |regs| && k <= |regs[i].downstream| && ZeroBelow(regs, i, k)
    ensures FailsBelow(regs, i, k)
  {
    if !(|regs[regs[i].downstream[k - 1]].rows| == 0) {
      ZeroFails(regs, i, k - 1);
    }
  }

  lemma {:induction false} StuckFails(regs: seq<BoardRegion>, active: seq<Active>)
    requires Forward(regs) && ActiveIn(regs, active) && AnyStuck(regs, active)
    ensures AnyFails(regs, active)
  {
    var e := active[|active| - 1];
    if Stuck(regs, e) {
      ZeroFails(regs, e.0, |regs[e.0].downstream|);
    } else {
      StuckFails(regs, active[..|active| - 1]);
    }
  }

  lemma AllPendingSnoc(regs: seq<BoardRegion>, active: seq<Active>, e: Active)
    requires Forward(regs) && ActiveIn(regs, active) && e.0 < |regs|
    ensures ActiveIn(regs, active + [e])
    ensures AllPending(regs, active + [e]) == AllPending(regs, active) + Pending(regs, e)
    ensures AllRem(regs, active + [e]) == AllRem(regs, active) + Rem(regs, e.0, e.1)
  {
    assert (active + [e])[..|active|] == active;
  }

  lemma AnyFailsSnoc(regs: seq<BoardRegion>, active: seq<Active>, e: Active)
    requires Forward(regs) && ActiveIn(regs, active) && e.0 < |regs|
    ensures ActiveIn(regs, active + [e])
    ensures AnyFails(regs, active + [e]) <==> AnyFails(regs, active) || Fails(regs, e.0)
    ensures AnyStuck(regs, active + [e]) <==> AnyStuck(regs, active) || Stuck(regs, e)
  {
    assert (active + [e])[..|active|] == active;
  }

  /** A region with rows left shows one more, and still has the rest and everything below it to come. */
  lemma PendingRow(regs: seq<BoardRegion>, e: Active)
    requires Forward(regs) && e.0 < |regs| && e.1 < |regs[e.0].rows|
    ensures Pending(regs, e) == multiset(regs[e.0].rows[e.1]) + Pending(regs, (e.0, e.1 + 1))
    ensures Rem(regs, e.0, e.1) == Rem(regs, e.0, e.1 + 1) + 1
  {
  }

  /**
   * The downstream regions of an exhausted region: their first rows, side
   * by side, and each of them active from its row 1.  Asking a region
   * without rows for its row 0 fails.
   */
  method Expand(regs: seq<BoardRegion>, i: nat) returns (res: Option<(seq<PatchId>, seq<Active>)>)
    requires Forward(regs) && i < |regs|
    ensures res.None? <==> ZeroBelow(regs, i, |regs[i].downstream|)
    ensures res.Some? ==> ActiveIn(regs, res.value.1)
    ensures res.Some? ==> res.value.1 == Heads(regs[i].downstream)
    ensures res.Some? ==> multiset(res.value.0) + AllPending(regs, res.value.1) == CellsBelow(regs, i, |regs[i].downstream|)
    ensures res.Some? ==> AllRem(regs, res.value.1) == RemBelow(regs, i, |regs[i].downstream|)
    ensures res.Some? ==> (AnyFails(regs, res.value.1) <==> Fails(regs, i))
    ensures res.Some? && res.value.1 == [] ==> res.value.0 == []
  {
    var down := regs[i].downstream;
    var row: seq<PatchId> := [];
    var next: seq<Active> := [];
    for k := 0 to |down|
      invariant ActiveIn(regs, next) && next == Heads(down[..k])
      invariant !ZeroBelow(regs, i, k)
      invariant multiset(row) + AllPending(regs, next) == CellsBelow(regs, i, k)
      invariant AllRem(regs, next) == RemBelow(regs, i, k)
      invariant AnyFails(regs, next) <==> FailsBelow(regs, i, k)
      invariant next == [] ==> row == []
    {
      var d := down[k];
      assert down[..k + 1][..k] == down[..k];
      if |regs[d].rows| == 0 {
        ZeroBelowUp(regs, i, k + 1, |down|);
        return None;
      }
      ExpandCells(regs, i, k, row, next);
      ExpandCounts(regs, i, k, next);
      row := row + regs[d].rows[0];
      next := next + [(d, 1)];
    }
    assert down[..|down|] == down;
    return Some((row, next));
  }

  /** What one active region adds to a board row, and what it leaves active. */
  method StepEntry(regs: seq<BoardRegion>, e: Active) returns (res: Option<(seq<PatchId>, seq<Active>)>)
    requires Forward(regs) && e.0 < |regs|
    ensures res.None? <==> Stuck(regs, e)
    ensures res.Some? ==> ActiveIn(regs, res.value.1)
    ensures res.Some? ==> multiset(res.value.0) + AllPending(regs, res.value.1) == Pending(regs, e)
    ensures res.Some? ==> AllRem(regs, res.value.1) + 1 == Rem(regs, e.0, e.1)
    ensures res.Some? ==> (AnyFails(regs, res.value.1) <==> Fails(regs, e.0))
    ensures res.Some? && res.value.1 == [] ==> res.value.0 == []
  {
    if e.1 < |regs[e.0].rows| {
      PendingRow(regs, e);
      AllPendingSnoc(regs, [], (e.0, e.1 + 1));
      AnyFailsSnoc(regs, [], (e.0, e.1 + 1));
      assert [] + [(e.0, e.1 + 1)] == [(e.0, e.1 + 1)];
      return Some((regs[e.0].rows[e.1], [(e.0, e.1 + 1)]));
    }
    res := Expand(regs, e.0);
  }

  /**
   * One board row: every active region with rows left shows its next row
   * and stays active; every exhausted one hands over to its downstream
   * regions.
   */
  method NextRow(regs: seq<BoardRegion>, active: seq<Active>) returns (res: Option<(seq<PatchId>, seq<Active>)>)
    requires Forward(regs) && ActiveIn(regs, active)
    ensures res.None? <==> AnyStuck(regs, active)
    ensures res.Some? ==> ActiveIn(regs, res.value.1)
    ensures res.Some? ==> multiset(res.value.0) + AllPending(regs, res.value.1) == AllPending(regs, active)
    ensures res.Some? ==> AllRem(regs, res.value.1) + |active| == AllRem(regs, active)
    ensures res.Some? ==> (AnyFails(regs, res.value.1) <==> AnyFails(regs, active))
    ensures res.Some? && res.value.1 == [] ==> res.value.0 == []
  {
    var row: seq<PatchId> := [];
    var next: seq<Active> := [];
    for j := 0 to |active|
      invariant ActiveIn(regs, next) && !AnyStuck(regs, active[..j])
      invariant multiset(row) + AllPending(regs, next) == AllPending(regs, active[..j])
      invariant AllRem(regs, next) + j == AllRem(regs, active[..j])
      invariant AnyFails(regs, next) <==> AnyFails(regs, active[..j])
      invariant next == [] ==> row == []
    {
      var step := StepEntry(regs, active[j]);
      if step.None? {
        StuckAt(regs, active, j);
        return None;
      }
      var (row', next') := step.value;
      NextCells(regs, active, j, row, next, row', next');
      NextCounts(regs, active, j, next, next');
      row := row + row';
      next := next + next';
    }
    assert active[..|active|] == active;
    return Some((row, next));
  }

  /** A stuck region anywhere in the active list makes the whole row fail. */
  lemma StuckAt(regs: seq<BoardRegion>, active: seq<Active>, j: nat)
    requires Forward(regs) && ActiveIn(regs, active) && j < |active| && Stuck(regs, active[j])
    ensures AnyStuck(regs, active)
  {
    assert active[..j + 1] == active[..j] + [active[j]];
    AnyFailsSnoc(regs, active[..j], active[j]);
    StuckStays(regs, active, j + 1);
  }

  /** One more active region keeps the cells of the loop of `NextRow` in step. */
  lemma NextCells(regs: seq<BoardRegion>, active: seq<Active>, j: nat, row: seq<PatchId>, next: seq<Active>,
                  row': seq<PatchId>, next': seq<Active>)
    requires Forward(regs) && ActiveIn(regs, active) && j < |active| && ActiveIn(regs, next) && ActiveIn(regs, next')
    requires multiset(row) + AllPending(regs, next) == AllPending(regs, active[..j])
    requires multiset(row') + AllPending(regs, next') == Pending(regs, active[j])
    ensures ActiveIn(regs, next + next')
    ensures multiset(row + row') + AllPending(regs, next + next') == AllPending(regs, active[..j + 1])
  {
    assert active[..j + 1] == active[..j] + [active[j]];
    AllPendingSnoc(regs, active[..j], active[j]);
    JoinActive(regs, next, next');
  }

  /** One more active region keeps the counts of the loop of `NextRow` in step. */
  lemma NextCounts(regs: seq<BoardRegion>, active: seq<Active>, j: nat, next: seq<Active>, next': seq<Active>)
    requires Forward(regs) && ActiveIn(regs, active) && j < |active| && ActiveIn(regs, next) && ActiveIn(regs, next')
    requires !AnyStuck(regs, active[..j]) && !Stuck(regs, active[j])
    requires AllRem(regs, next) + j == AllRem(regs, active[..j])
    requires AnyFails(regs, next) <==> AnyFails(regs, active[..j])
    requires AllRem(regs, next') + 1 == Rem(regs, active[j].0, active[j].1)
    requires AnyFails(regs, next') <==> Fails(regs, active[j].0)
    ensures ActiveIn(regs, next + next') && !AnyStuck(regs, active[..j + 1])
    ensures AllRem(regs, next + next') + j + 1 == AllRem(regs, active[..j + 1])
    ensures AnyFails(regs, next + next') <==> AnyFails(regs, active[..j + 1])
  {
    assert active[..j + 1] == active[..j] + [active[j]];
    AllPendingSnoc(regs, active[..j], active[j]);
    AnyFailsSnoc(regs, active[..j], active[j]);
    JoinActive(regs, next, next');
  }

  lemma {:induction false} StuckStays(regs: seq<BoardRegion>, active: seq<Active>, j: nat)
    requires Forward(regs) && ActiveIn(regs, active) && j <= |active| && AnyStuck(regs, active[..j])
    ensures AnyStuck(regs, active)
    decreases |active| - j
  {
    if j < |active| {
      assert active[..j + 1] == active[..j] + [active[j]];
      AnyFailsSnoc(regs, active[..j], active[j]);
      StuckStays(regs, active, j + 1);
    } else {
      assert active[..j] == active;
    }
  }

  lemma {:induction false} JoinActive(regs: seq<BoardRegion>, a: seq<Active>, b: seq<Active>)
    requires Forward(regs) && ActiveIn(regs, a) && ActiveIn(regs, b)
    ensures ActiveIn(regs, a + b)
    ensures AllPending(regs, a + b) == AllPending(regs, a) + AllPending(regs, b)
    ensures AllRem(regs, a + b) == AllRem(regs, a) + AllRem(regs, b)
    ensures AnyFails(regs, a + b) <==> AnyFails(regs, a) || AnyFails(regs, b)
    decreases |b|
  {
    if b == [] {
      assert a + b == a;
    } else {
      var c := b[..|b| - 1];
      var e := b[|b| - 1];
      assert b == c + [e];
      assert a + b == (a + c) + [e];
      JoinActive(regs, a, c);
      AllPendingSnoc(regs, a + c, e);
      AllPendingSnoc(regs, c, e);
      AnyFailsSnoc(regs, a + c, e);
      AnyFailsSnoc(regs, c, e);
    }
  }

  /** The board starts with the first region active at its row 0. */
  lemma BoardStart(regs: seq<BoardRegion>)
    requires Forward(regs) && regs != []
    ensures ActiveIn(regs, [(0, 0)])
    ensures multiset(Concat([])) + AllPending(regs, [(0, 0)]) == RegionCells(regs, 0)
    ensures AnyFails(regs, [(0, 0)]) <==> Fails(regs, 0)
  {
    AllPendingSnoc(regs, [], (0, 0));
    AnyFailsSnoc(regs, [], (0, 0));
    assert [] + [(0, 0)] == [(0, 0)];
  }

  /** One more board row keeps the loop of `MakeBoard` in step. */
  lemma BoardStep(regs: seq<BoardRegion>, rows: seq<seq<PatchId>>, row: seq<PatchId>, active: seq<Active>, next: seq<Active>)
    requires Forward(regs) && regs != [] && ActiveIn(regs, active) && ActiveIn(regs, next)
    requires multiset(Concat(rows)) + AllPending(regs, active) == RegionCells(regs, 0)
    requires multiset(row) + AllPending(regs, next) == AllPending(regs, active)
    requires next == [] ==> row == []
    ensures multiset(Concat(rows + [row])) + AllPending(regs, next) == RegionCells(regs, 0)
    ensures next == [] ==> (rows + [row])[|rows + [row]| - 1] == []
  {
    assert (rows + [row])[..|rows|] == rows;
  }

  /**
   * `make_board`: starting with the first region at row 0, each board row
   * is the current rows of the active regions side by side; a region out of
   * rows hands over to its downstream regions from their row 1, their row 0
   * going on the same board row.  The board holds exactly the cells of the
   * first region and the regions below it, and ends with an empty row.  An
   * empty region list, or a region without rows below the first, fails.
   */
  method MakeBoard(regs: seq<BoardRegion>) returns (board: Option<seq<seq<PatchId>>>)
    requires Forward(regs)
    ensures board.None? <==> regs == [] || Fails(regs, 0)
    ensures board.Some? ==> multiset(Concat(board.value)) == RegionCells(regs, 0)
    ensures board.Some? ==> board.value != [] && board.value[|board.value| - 1] == []
  {
    if regs == [] {
      return None;
    }
    var rows: seq<seq<PatchId>> := [];
    var active: seq<Active> := [(0, 0)];
    BoardStart(regs);
    while active != []
      invariant ActiveIn(regs, active)
      invariant multiset(Concat(rows)) + AllPending(regs, active) == RegionCells(regs, 0)
      invariant AnyFails(regs, active) <==> Fails(regs, 0)
      invariant active == [] ==> rows != [] && rows[|rows| - 1] == []
      decreases AllRem(regs, active)
    {
      var step := NextRow(regs, active);
      if step.None? {
        StuckFails(regs, active);
        return None;
      }
      var (row, next) := step.value;
      BoardStep(regs, rows, row, active, next);
      rows := rows + [row];
      active := next;
    }
    return Some(rows);
  }

  /** A cell of an explicit board: a reserved patch at its position, or a region's patch. */
  datatype BoardCell = ReservedCell(row: int, col: int) | RegionCell(id: PatchId)

  /** A region placed at its offset, with the width `make_explicit` reads. */
  datatype Placed = Placed(rowOff: int, colOff: int, width: int, rows: seq<seq<PatchId>>)

  /** The `height` x `width` board of reserved patches. */
  function ReservedBoard(width: nat, height: nat): (b: seq<seq<BoardCell>>)
    ensures |b| == height && forall r | 0 <= r < height :: |b[r]| == width && forall c | 0 <= c < width :: b[r][c] == ReservedCell(r, c)
  {
    seq(height, r requires 0 <= r < height => seq(width, c requires 0 <= c < width => ReservedCell(r, c)))
  }

  /** Python list indexing: a negative index counts from the end; out of range raises. */
  function PyIndex(i: int, n: nat): (r: Option<nat>)
    ensures r.Some? <==> -(n as int) <= i < n
    ensures r.Some? ==> r.value < n && (i >= 0 ==> r.value == i) && (i < 0 ==> r.value == i + n)
  {
    if 0 <= i < n then Some(i) else if -(n as int) <= i < 0 then Some(i + n) else None
  }

  /** Python slice bound: a negative bound counts from the end, then it is clamped into the list. */
  function SliceBound(x: int, n: nat): (r: nat)
    ensures r <= n && (0 <= x <= n ==> r == x)
  {
    if x < 0 then (if x + n < 0 then 0 else x + n) else if x > n then n else x
  }

  /** `row[lo:hi] = xs`. */
  function Splice(row: seq<BoardCell>, lo: int, hi: int, xs: seq<BoardCell>): seq<BoardCell>
  {
    var a := SliceBound(lo, |row|);
    var b := SliceBound(hi, |row|);
    row[..a] + xs + row[if b < a then a else b..]
  }

  /** A fitting slice assignment writes the new cells in place and keeps the rest of the row. */
  lemma SpliceInPlace(row: seq<BoardCell>, lo: int, xs: seq<BoardCell>)
    requires 0 <= lo && lo + |xs| <= |row|
    ensures |Splice(row, lo, lo + |xs|, xs)| == |row|
    ensures forall c | 0 <= c < |row| :: Splice(row, lo, lo + |xs|, xs)[c] == if lo <= c < lo + |xs| then xs[c - lo] else row[c]
  {
  }

  function AsCells(ids: seq<PatchId>): (r: seq<BoardCell>)
    ensures |r| == |ids| && forall c | 0 <= c < |ids| :: r[c] == RegionCell(ids[c])
  {
    seq(|ids|, c requires 0 <= c < |ids| => RegionCell(ids[c]))
  }

  /** The board after the first `r` rows of region `p` are pasted. */
  function PasteRows(b: seq<seq<BoardCell>>, p: Placed, r: nat): (res: Option<seq<seq<BoardCell>>>)
    requires r <= |p.rows|
    ensures res.Some? ==> |res.value| == |b|
  {
    if r == 0 then Some(b)
    else match PasteRows(b, p, r - 1)
      case None => None
      case Some(b') =>
        match PyIndex(p.rowOff + r - 1, |b'|)
        case None => None
        case Some(y) => Some(b'[y := Splice(b'[y], p.colOff, p.colOff + p.width, AsCells(p.rows[r - 1]))])
  }

  /** The board after the first `i` regions are pasted, each over the ones before. */
  function PasteAll(b: seq<seq<BoardCell>>, ps: seq<Placed>, i: nat): (res: Option<seq<seq<BoardCell>>>)
    requires i <= |ps|
    ensures res.Some? ==> |res.value| == |b|
  {
    if i == 0 then Some(b)
    else match PasteAll(b, ps, i - 1)
      case None => None
      case Some(b') => PasteRows(b', ps[i - 1], |ps[i - 1].rows|)
  }

  /**
   * `make_explicit`'s board: each region's rows copied in turn into the
   * reserved board at the region's offset, by slice assignment.  A row
   * offset outside the board raises.
   */
  method MakeExplicit(ps: seq<Placed>, width: nat, height: nat) returns (board: Option<seq<seq<BoardCell>>>)
    ensures board == PasteAll(ReservedBoard(width, height), ps, |ps|)
  {
    var b := ReservedBoard(width, height);
    for i := 0 to |ps|
      invariant PasteAll(ReservedBoard(width, height), ps, i) == Some(b)
    {
      var p := ps[i];
      ghost var b0 := b;
      for r := 0 to |p.rows|
        invariant PasteRows(b0, p, r) == Some(b)
      {
        var y := p.rowOff + r;
        if !(-|b| as int <= y < |b|) {
          assert PasteRows(b0, p, r + 1) == None;
          PasteRowsStaysNone(b0, p, r + 1);
          PasteAllStaysNone(ReservedBoard(width, height), ps, i + 1);
          return None;
        }
        var yy := if y < 0 then y + |b| else y;
        b := b[yy := Splice(b[yy], p.colOff, p.colOff + p.width, AsCells(p.rows[r]))];
      }
    }
    board := Some(b);
  }

  lemma {:induction false} PasteRowsStaysNone(b: seq<seq<BoardCell>>, p: Placed, r: nat)
    requires r <= |p.rows| && PasteRows(b, p, r).None?
    ensures PasteRows(b, p, |p.rows|).None?
    decreases |p.rows| - r
  {
    if r < |p.rows| {
      PasteRowsStaysNone(b, p, r + 1);
    }
  }

  lemma {:induction false} PasteAllStaysNone(b: seq<seq<BoardCell>>, ps: seq<Placed>, i: nat)
    requires i <= |ps| && PasteAll(b, ps, i).None?
    ensures PasteAll(b, ps, |ps|).None?
    decreases |ps| - i
  {
    if i < |ps| {
      PasteAllStaysNone(b, ps, i + 1);
    }
  }

  /** Row `r` of region `p` goes to a valid Python index into a board of `height` rows. */
  predicate RowOnBoard(p: Placed, r: int, height: nat)
  {
    PyIndex(p.rowOff + r, height).Some?
  }

  /** Every row of the first `i` regions goes to a valid Python index into the board. */
  predicate RowsOnBoard(ps: seq<Placed>, i: nat, height: nat)
    requires i <= |ps|
  {
    forall k, r | 0 <= k < i && 0 <= r < |ps[k].rows| :: RowOnBoard(ps[k], r, height)
  }

  lemma {:induction false} PasteRowsSome(b: seq<seq<BoardCell>>, p: Placed, r: nat)
    requires r <= |p.rows|
    ensures PasteRows(b, p, r).Some? <==> forall r' | 0 <= r' < r :: RowOnBoard(p, r', |b|)
  {
    if r > 0 {
      PasteRowsSome(b, p, r - 1);
      assert (forall r' | 0 <= r' < r :: RowOnBoard(p, r', |b|)) <==>
               (forall r' | 0 <= r' < r - 1 :: RowOnBoard(p, r', |b|)) && RowOnBoard(p, r - 1, |b|);
    }
  }

  /** `make_explicit` raises exactly when some region row falls outside the board's rows. */
  lemma {:induction false} PasteAllSome(b: seq<seq<BoardCell>>, ps: seq<Placed>, i: nat)
    requires i <= |ps|
    ensures PasteAll(b, ps, i).Some? <==> RowsOnBoard(ps, i, |b|)
  {
    if i > 0 {
      PasteAllSome(b, ps, i - 1);
      match PasteAll(b, ps, i - 1)
      case None =>
      case Some(b') =>
        var q := ps[i - 1];
        PasteRowsSome(b', q, |q.rows|);
        assert RowsOnBoard(ps, i, |b|) <==>
                 (RowsOnBoard(ps, i - 1, |b|) && forall r' | 0 <= r' < |q.rows| :: RowOnBoard(q, r', |b|));
    }
  }

  /** Every row of the board has `width` cells. */
  predicate Shape(b: seq<seq<BoardCell>>, width: nat)
  {
    forall y | 0 <= y < |b| :: |b[y]| == width
  }

  /** A region inside a `height` x `width` board. */
  predicate Fits(p: Placed, height: nat, width: nat)
  {
    && 0 <= p.rowOff && p.rowOff + |p.rows| <= height
    && 0 <= p.colOff && p.colOff + p.width <= width
  }

  /** Every row of region `p` is `p.width` cells wide. */
  predicate Uniform(p: Placed)
  {
    forall r | 0 <= r < |p.rows| :: |p.rows[r]| == p.width
  }

  /** Region `p` covers board cell (`y`, `x`). */
  predicate Covers(p: Placed, y: int, x: int)
  {
    p.rowOff <= y < p.rowOff + |p.rows| && p.colOff <= x < p.colOff + p.width
  }

  /** The cell at (`y`, `x`) once the first `i` regions are pasted: the last one covering it, else the reserved patch. */
  function CellAt(ps: seq<Placed>, i: nat, y: int, x: int): BoardCell
    requires i <= |ps| && forall k | 0 <= k < i :: Uniform(ps[k])
  {
    if i == 0 then ReservedCell(y, x)
    else if Covers(ps[i - 1], y, x) then
      var q := ps[i - 1];
      assert Uniform(q) && |q.rows[y - q.rowOff]| == q.width;
      RegionCell(q.rows[y - q.rowOff][x - q.colOff])
    else CellAt(ps, i - 1, y, x)
  }

  /** Pasting the first `r` rows of a fitting region writes them at its offset and keeps everything else. */
  lemma {:induction false} PasteRowsFits(b: seq<seq<BoardCell>>, p: Placed, r: nat, width: nat)
    requires Shape(b, width) && Fits(p, |b|, width) && Uniform(p) && r <= |p.rows|
    ensures PasteRows(b, p, r).Some? && Shape(PasteRows(b, p, r).value, width)
    ensures forall y, x | 0 <= y < |b| && 0 <= x < width ::
              PasteRows(b, p, r).value[y][x] ==
                if p.rowOff <= y < p.rowOff + r && p.colOff <= x < p.colOff + p.width
                then RegionCell(p.rows[y - p.rowOff][x - p.colOff]) else b[y][x]
  {
    if r > 0 {
      PasteRowsFits(b, p, r - 1, width);
      var b' := PasteRows(b, p, r - 1).value;
      var y := p.rowOff + r - 1;
      assert PyIndex(y, |b'|) == Some(y);
      SpliceInPlace(b'[y], p.colOff, AsCells(p.rows[r - 1]));
    }
  }

  /** On a board the regions fit, `make_explicit` leaves each cell to the last region covering it, else reserved. */
  lemma {:induction false} ExplicitCells(ps: seq<Placed>, width: nat, height: nat, i: nat)
    requires i <= |ps| && forall k | 0 <= k < |ps| :: Fits(ps[k], height, width) && Uniform(ps[k])
    ensures PasteAll(ReservedBoard(width, height), ps, i).Some?
    ensures Shape(PasteAll(ReservedBoard(width, height), ps, i).value, width)
    ensures forall y, x | 0 <= y < height && 0 <= x < width ::
              PasteAll(ReservedBoard(width, height), ps, i).value[y][x] == CellAt(ps, i, y, x)
  {
    if i > 0 {
      ExplicitCells(ps, width, height, i - 1);
      var b' := PasteAll(ReservedBoard(width, height), ps, i - 1).value;
      PasteRowsFits(b', ps[i - 1], |ps[i - 1].rows|, width);
    }
  }
}
