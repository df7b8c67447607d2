/**
 * `path_reduce` of the tree buffer router: a path found in the tree is
 * shortened by cutting out three-cell detours (when the cell three steps
 * ahead touches the current one, the two cells in between are dropped) and
 * by stopping at the first kept cell on row 0.
 */
module TreePaths {
  import opened Grids

  /**
   * The cells one pass keeps from index `i` on: the cell at `i`, then
   * nothing more if it is on row 0, else the rest from `i + 3` when the cell
   * there is adjacent to it, or from `i + 1`.
   */
  function PassFrom(p: seq<Pos>, i: nat): (r: seq<Pos>)
    ensures i < |p| ==> |r| > 0 && r[0] == p[i]
    ensures i <= |p| ==> |r| <= |p| - i
    ensures i >= |p| ==> r == []
    decreases |p| - i
  {
    if i >= |p| then []
    else if p[i].row == 0 then [p[i]]
    else if i + 3 < |p| && Adjacent(p[i], p[i + 3]) then [p[i]] + PassFrom(p, i + 3)
    else [p[i]] + PassFrom(p, i + 1)
  }

  /** One pass of the inner loop: the first cell is always kept, the scan starts at index 1. */
  function Pass(p: seq<Pos>): (r: seq<Pos>)
    requires |p| > 0
    ensures |r| > 0 && r[0] == p[0] && |r| <= |p|
  {
    [p[0]] + PassFrom(p, 1)
  }

  /** Passes repeated for as long as each one makes the path shorter. */
  function Reduce(p: seq<Pos>): (r: seq<Pos>)
    requires |p| > 0
    ensures |r| > 0 && r[0] == p[0] && |r| <= |p|
    decreases |p|
  {
    var q := Pass(p);
    if |q| < |p| then Reduce(q) else q
  }

  /**
   * `r` is `p` with cells left out: `idx` gives the index in `p` of each cell
   * of `r`, starting at 0 and climbing by one, or by three where the cells
   * three apart are adjacent.
   */
  ghost predicate Picks(r: seq<Pos>, p: seq<Pos>, idx: seq<nat>)
  {
    |idx| == |r| && |r| > 0 && idx[0] == 0
    && (forall k | 0 <= k < |idx| :: idx[k] < |p| && r[k] == p[idx[k]])
    && (forall k | 0 <= k < |idx| - 1 ::
          idx[k + 1] == idx[k] + 1 || (idx[k + 1] == idx[k] + 3 && Adjacent(p[idx[k]], p[idx[k + 1]])))
  }

  /**
   * `r` ends where a pass stops: no cell strictly inside it is on row 0, and
   * its last cell is on row 0 or is the last cell of `p`.
   */
  ghost predicate StopsAtTop(r: seq<Pos>, p: seq<Pos>)
    requires |r| > 0 && |p| > 0
  {
    (forall k | 1 <= k < |r| - 1 :: r[k].row != 0)
    && (r[|r| - 1].row == 0 || r[|r| - 1] == p[|p| - 1])
  }

  /**
   * `r` is what a pass keeps of `p` from index `i` on: `idx` gives the index
   * in `p` of each kept cell, the indices climb by one or by an adjacent
   * three-step jump, no kept cell but the last is on row 0, and the last is
   * on row 0 or is the last cell of `p`.
   */
  ghost predicate KeptFrom(p: seq<Pos>, i: nat, r: seq<Pos>, idx: seq<nat>)
  {
    |idx| == |r|
    && (i < |p| ==> |idx| > 0 && idx[0] == i)
    && (forall k | 0 <= k < |idx| :: i <= idx[k] < |p| && r[k] == p[idx[k]])
    && (forall k | 0 <= k < |idx| - 1 ::
          idx[k + 1] == idx[k] + 1 || (idx[k + 1] == idx[k] + 3 && Adjacent(p[idx[k]], p[idx[k + 1]])))
    && (forall k | 0 <= k < |idx| - 1 :: p[idx[k]].row != 0)
    && (|idx| > 0 ==> p[idx[|idx| - 1]].row == 0 || idx[|idx| - 1] == |p| - 1)
  }

  /** Keeping the cell at `i`, not on row 0, in front of what is kept from the next index `j`. */
  lemma KeptCons(p: seq<Pos>, i: nat, j: nat, s: seq<Pos>, rest: seq<nat>)
    requires i < |p| && p[i].row != 0
    requires j == i + 1 || (j == i + 3 && j < |p| && Adjacent(p[i], p[j]))
    requires KeptFrom(p, j, s, rest)
    ensures KeptFrom(p, i, [p[i]] + s, [i] + rest)
  {
    var idx := [i] + rest;
    var r := [p[i]] + s;
    forall k | 0 <= k < |idx| ensures i <= idx[k] < |p| && r[k] == p[idx[k]] {
      if k > 0 {
        assert idx[k] == rest[k - 1] && r[k] == s[k - 1];
      }
    }
    forall k | 0 <= k < |idx| - 1
      ensures idx[k + 1] == idx[k] + 1 || (idx[k + 1] == idx[k] + 3 && Adjacent(p[idx[k]], p[idx[k + 1]]))
      ensures p[idx[k]].row != 0
    {
      if k > 0 {
        assert idx[k] == rest[k - 1] && idx[k + 1] == rest[k];
      } else {
        assert idx[1] == rest[0] == j;
      }
    }
    if |rest| > 0 {
      assert idx[|idx| - 1] == rest[|rest| - 1];
    }
  }

  /** The indices a pass keeps from `i` on. */
  lemma {:induction false} PassFromPicks(p: seq<Pos>, i: nat) returns (idx: seq<nat>)
    requires 1 <= i
    ensures KeptFrom(p, i, PassFrom(p, i), idx)
    decreases |p| - i
  {
    if i >= |p| {
      idx := [];
    } else if p[i].row == 0 {
      idx := [i];
    } else {
      var j := if i + 3 < |p| && Adjacent(p[i], p[i + 3]) then i + 3 else i + 1;
      assert PassFrom(p, i) == [p[i]] + PassFrom(p, j);
      var rest := PassFromPicks(p, j);
      KeptCons(p, i, j, PassFrom(p, j), rest);
      idx := [i] + rest;
    }
  }

  /** A pass keeps the first cell, leaves cells out only over adjacent three-step jumps, and stops at row 0. */
  lemma PassPicks(p: seq<Pos>) returns (idx: seq<nat>)
    requires |p| > 0
    ensures Picks(Pass(p), p, idx)
    ensures StopsAtTop(Pass(p), p)
  {
    var rest := PassFromPicks(p, 1);
    idx := [0] + rest;
    var r := Pass(p);
    assert |p| > 1 ==> rest[0] == 1;
    forall k | 1 <= k < |r| - 1 ensures r[k].row != 0 {
      assert r[k] == p[rest[k - 1]];
    }
    if |r| > 1 {
      assert r[|r| - 1] == p[rest[|rest| - 1]];
    }
  }

  /** A pass over a path gives a path: every jump lands on a cell adjacent to the one it leaves. */
  lemma PassContiguous(p: seq<Pos>)
    requires |p| > 0 && Contiguous(p)
    ensures Contiguous(Pass(p))
  {
    var idx := PassPicks(p);
    var r := Pass(p);
    forall k | 0 <= k < |r| - 1 ensures Adjacent(r[k], r[k + 1]) {
      assert r[k] == p[idx[k]] && r[k + 1] == p[idx[k + 1]];
    }
  }

  /** A pass that leaves nothing out returns its input unchanged. */
  lemma {:induction false} PassFromFull(p: seq<Pos>, i: nat)
    requires i <= |p| && |PassFrom(p, i)| == |p| - i
    ensures PassFrom(p, i) == p[i..]
    decreases |p| - i
  {
    if i < |p| && p[i].row != 0 && !(i + 3 < |p| && Adjacent(p[i], p[i + 3])) {
      PassFromFull(p, i + 1);
      assert p[i..] == [p[i]] + p[i + 1..];
    } else if i < |p| && p[i].row == 0 {
      assert p[i..] == [p[i]];
    }
  }

  /** The repeated passes end at a path that one more pass leaves as it is. */
  lemma {:induction false} ReduceFixpoint(p: seq<Pos>)
    requires |p| > 0
    ensures Pass(Reduce(p)) == Reduce(p)
    decreases |p|
  {
    var q := Pass(p);
    if |q| < |p| {
      ReduceFixpoint(q);
    } else {
      PassFromFull(p, 1);
      assert q == p;
    }
  }

  /** `r` is a subsequence of `p` that starts with its first cell; `idx` gives the indices kept. */
  ghost predicate Within(r: seq<Pos>, p: seq<Pos>, idx: seq<nat>)
  {
    |idx| == |r| && |r| > 0 && idx[0] == 0
    && (forall k | 0 <= k < |idx| :: idx[k] < |p| && r[k] == p[idx[k]])
    && (forall k | 0 <= k < |idx| - 1 :: idx[k] < idx[k + 1])
  }

  lemma PicksWithin(r: seq<Pos>, p: seq<Pos>, idx: seq<nat>)
    requires Picks(r, p, idx)
    ensures Within(r, p, idx)
  {
  }

  /** A subsequence of a subsequence of `p` is a subsequence of `p`. */
  lemma WithinCompose(r: seq<Pos>, q: seq<Pos>, p: seq<Pos>, i1: seq<nat>, i2: seq<nat>) returns (idx: seq<nat>)
    requires Within(r, q, i1) && Within(q, p, i2)
    ensures Within(r, p, idx)
  {
    idx := seq(|i1|, k requires 0 <= k < |i1| => i2[i1[k]]);
    forall k | 0 <= k < |idx| - 1 ensures idx[k] < idx[k + 1] {
      StrictlyIncreasing(i2, i1[k], i1[k + 1]);
    }
  }

  lemma {:induction false} StrictlyIncreasing(s: seq<nat>, a: nat, b: nat)
    requires forall k | 0 <= k < |s| - 1 :: s[k] < s[k + 1]
    requires a < b < |s|
    ensures s[a] < s[b]
    decreases b - a
  {
    if a + 1 < b {
      StrictlyIncreasing(s, a + 1, b);
    }
  }

  /**
   * What the reduced path is: it starts with the path's first cell, keeps
   * the others in order (a subsequence), is a path whenever the input is,
   * has no row-0 cell strictly inside it, and ends on row 0 or at the input's
   * last cell.
   */
  lemma {:induction false} ReduceShape(p: seq<Pos>) returns (idx: seq<nat>)
    requires |p| > 0
    ensures Within(Reduce(p), p, idx)
    ensures StopsAtTop(Reduce(p), p)
    ensures Contiguous(p) ==> Contiguous(Reduce(p))
    decreases |p|
  {
    var q := Pass(p);
    var i1 := PassPicks(p);
    if Contiguous(p) {
      PassContiguous(p);
    }
    if |q| < |p| {
      var i2 := ReduceShape(q);
      idx := WithinCompose(Reduce(q), q, p, i2, i1);
      var r := Reduce(q);
      if r[|r| - 1].row != 0 {
        assert r[|r| - 1] == q[|q| - 1];
      }
    } else {
      idx := i1;
    }
  }

  /** The inner loop of `path_reduce`: one pass over `p`. */
  method OnePass(p: seq<Pos>) returns (np: seq<Pos>)
    requires |p| > 0
    ensures np == Pass(p)
  {
    np := [p[0]];
    var i := 1;
    while i < |p|
      invariant 1 <= i <= |p|
      invariant np + PassFrom(p, i) == Pass(p)
      decreases |p| - i
    {
      np := np + [p[i]];
      if p[i].row == 0 {
        assert np == Pass(p);
        break;
      }
      if i + 3 < |p| && Adjacent(p[i], p[i + 3]) {
        i := i + 3;
      } else {
        i := i + 1;
      }
    }
  }

  /**
   * `path_reduce` as written: after each pass `new_path` is emptied before
   * `curr_len` is read from it, so `curr_len` is 0, the second pass always
   * runs, and no third one does.  `prevLen` starts above every length, in
   * place of the source's infinity.
   */
  method PathReduceAsWritten(path: seq<Pos>) returns (r: seq<Pos>)
    requires |path| > 0
    ensures r == Pass(Pass(path))
  {
    var prevLen := |path| + 1;
    var currLen := |path|;
    var p := path;
    ghost var passes := 0;
    while currLen < prevLen
      invariant 0 <= passes <= 2 && |p| > 0
      invariant passes == 0 ==> p == path && currLen == |path| && prevLen == |path| + 1
      invariant passes == 1 ==> p == Pass(path) && currLen == 0 && prevLen == |path|
      invariant passes == 2 ==> p == Pass(Pass(path)) && currLen == 0 && prevLen == 0
      decreases 2 - passes
    {
      prevLen := currLen;
      var newPath := OnePass(p);
      p := newPath;
      newPath := [];
      currLen := |newPath|;
      passes := passes + 1;
    }
    r := p;
  }

  /** A U-shaped detour two cells deep, entered from (8, 0) and left at (8, 1). */
  function Detour(): seq<Pos>
  {
    [Pos(8, 0), Pos(7, 0), Pos(6, 0), Pos(5, 0), Pos(4, 0), Pos(4, 1), Pos(5, 1), Pos(6, 1), Pos(7, 1), Pos(8, 1)]
  }

  /**
   * Two passes are not enough for the detour: they leave six cells, which a
   * third pass cuts to four, so the path `path_reduce` returns is not reduced
   * as far as its loop condition intends.
   */
  lemma TwoPassesStopEarly()
    ensures Pass(Pass(Detour())) == [Pos(8, 0), Pos(7, 0), Pos(6, 0), Pos(6, 1), Pos(7, 1), Pos(8, 1)]
    ensures Pass(Pass(Pass(Detour()))) == [Pos(8, 0), Pos(7, 0), Pos(7, 1), Pos(8, 1)]
    ensures |Pass(Pass(Pass(Detour())))| < |Pass(Pass(Detour()))|
    ensures Reduce(Detour()) == [Pos(8, 0), Pos(7, 0), Pos(7, 1), Pos(8, 1)]
  {
    FirstPass();
    SecondPass();
    ThirdPass();
    var p3 := [Pos(8, 0), Pos(7, 0), Pos(7, 1), Pos(8, 1)];
    assert Reduce(p3) == p3;
  }

  lemma FirstPass()
    ensures Pass(Detour()) == [Pos(8, 0), Pos(7, 0), Pos(6, 0), Pos(5, 0), Pos(5, 1), Pos(6, 1), Pos(7, 1), Pos(8, 1)]
  {
    var d := Detour();
    DetourTail();
    assert Adjacent(d[3], d[6]);
    assert PassFrom(d, 3) == [Pos(5, 0), Pos(5, 1), Pos(6, 1), Pos(7, 1), Pos(8, 1)];
    assert !Adjacent(d[2], d[5]);
    assert PassFrom(d, 2) == [Pos(6, 0)] + PassFrom(d, 3);
    assert !Adjacent(d[1], d[4]);
    assert PassFrom(d, 1) == [Pos(7, 0)] + PassFrom(d, 2);
  }

  lemma DetourTail()
    ensures PassFrom(Detour(), 6) == [Pos(5, 1), Pos(6, 1), Pos(7, 1), Pos(8, 1)]
  {
    var d := Detour();
    assert PassFrom(d, 9) == [Pos(8, 1)];
    assert PassFrom(d, 8) == [Pos(7, 1)] + PassFrom(d, 9);
    assert PassFrom(d, 7) == [Pos(6, 1)] + PassFrom(d, 8);
    assert !Adjacent(d[6], d[9]);
  }

  lemma SecondPass()
    ensures Pass([Pos(8, 0), Pos(7, 0), Pos(6, 0), Pos(5, 0), Pos(5, 1), Pos(6, 1), Pos(7, 1), Pos(8, 1)])
      == [Pos(8, 0), Pos(7, 0), Pos(6, 0), Pos(6, 1), Pos(7, 1), Pos(8, 1)]
  {
    var d := [Pos(8, 0), Pos(7, 0), Pos(6, 0), Pos(5, 0), Pos(5, 1), Pos(6, 1), Pos(7, 1), Pos(8, 1)];
    assert PassFrom(d, 7) == [Pos(8, 1)];
    assert PassFrom(d, 6) == [Pos(7, 1)] + PassFrom(d, 7);
    assert PassFrom(d, 5) == [Pos(6, 1)] + PassFrom(d, 6);
    assert Adjacent(d[2], d[5]);
    assert PassFrom(d, 2) == [Pos(6, 0)] + PassFrom(d, 5);
    assert !Adjacent(d[1], d[4]);
    assert PassFrom(d, 1) == [Pos(7, 0)] + PassFrom(d, 2);
  }

  lemma ThirdPass()
    ensures Pass([Pos(8, 0), Pos(7, 0), Pos(6, 0), Pos(6, 1), Pos(7, 1), Pos(8, 1)])
      == [Pos(8, 0), Pos(7, 0), Pos(7, 1), Pos(8, 1)]
    ensures Pass([Pos(8, 0), Pos(7, 0), Pos(7, 1), Pos(8, 1)]) == [Pos(8, 0), Pos(7, 0), Pos(7, 1), Pos(8, 1)]
  {
    var d := [Pos(8, 0), Pos(7, 0), Pos(6, 0), Pos(6, 1), Pos(7, 1), Pos(8, 1)];
    assert PassFrom(d, 5) == [Pos(8, 1)];
    assert PassFrom(d, 4) == [Pos(7, 1)] + PassFrom(d, 5);
    assert Adjacent(d[1], d[4]);
    assert PassFrom(d, 1) == [Pos(7, 0)] + PassFrom(d, 4);
    var e := [Pos(8, 0), Pos(7, 0), Pos(7, 1), Pos(8, 1)];
    assert PassFrom(e, 3) == [Pos(8, 1)];
    assert PassFrom(e, 2) == [Pos(7, 1)] + PassFrom(e, 3);
    assert PassFrom(e, 1) == [Pos(7, 0)] + PassFrom(e, 2);
  }

  /**
   * `path_reduce` with `curr_len` read from the path just computed: passes
   * repeat until one no longer shortens the path, so the result is a fixed
   * point of the pass (`ReduceFixpoint`).
   */
  method PathReduce(path: seq<Pos>) returns (r: seq<Pos>)
    requires |path| > 0
    ensures r == Reduce(path)
  {
    var prevLen := |path| + 1;
    var currLen := |path|;
    var p := path;
    while currLen < prevLen
      invariant |p| > 0 && currLen == |p|
      invariant currLen < prevLen ==> Reduce(p) == Reduce(path)
      invariant currLen >= prevLen ==> p == Reduce(path)
      decreases currLen + (if currLen < prevLen then 1 else 0)
    {
      prevLen := currLen;
      var newPath := OnePass(p);
      p := newPath;
      currLen := |p|;
    }
    r := p;
  }
}
