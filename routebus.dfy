/**
 * The routing bus region: one row of routing patches, and the order in which
 * its columns are offered around a source column.
 */
module RouteBuses {
  import opened Patches
  import opened Grids

  /** `RouteBus(width)`: a single row of `w` free routing patches. */
  function RouteBusLayout(w: nat): (rows: seq<seq<Patch>>)
    ensures |rows| == 1 && |rows[0]| == w
    ensures forall c | 0 <= c < w ::
      rows[0][c].patchType == Route && RouteAvailable(rows[0][c]) && rows[0][c].localY == 0 && rows[0][c].localX == c
  {
    [seq(w, c => NewPatch(PlainPatch, Route, 0, c, ZTop))]
  }

  /** The bus columns at distance exactly `k` from the source, right one first. */
  function Ring(source: int, w: nat, k: nat): (r: seq<int>)
    requires k >= 1
    ensures forall i | 0 <= i < |r| :: 0 <= r[i] < w && Abs(r[i] - source) == k
    ensures forall c | 0 <= c < w && Abs(c - source) == k :: c in r
    ensures forall i, j | 0 <= i < j < |r| :: r[i] != r[j]
  {
    (if 0 <= source + k < w then [source + k] else [])
    + (if 0 <= source - k < w then [source - k] else [])
  }

  /** The columns at distance `k` and beyond, `source + k` before `source - k`, skipping columns off the bus. */
  function PriorityFrom(source: int, w: nat, k: nat): seq<int>
    requires k >= 1
    decreases w - k
  {
    if k >= w then [] else Ring(source, w, k) + PriorityFrom(source, w, k + 1)
  }

  /** `route_priority(source)`: the source column, then the others nearest first. */
  function RoutePriority(source: int, w: nat): (r: seq<int>)
    ensures |r| > 0 && r[0] == source
  {
    [source] + PriorityFrom(source, w, 1)
  }

  /** Every column offered from distance `k` on is on the bus, at a distance in [k, w). */
  lemma {:induction false} PriorityFromRange(source: int, w: nat, k: nat)
    requires k >= 1
    ensures forall i | 0 <= i < |PriorityFrom(source, w, k)| ::
      0 <= PriorityFrom(source, w, k)[i] < w && k <= Abs(PriorityFrom(source, w, k)[i] - source) < w
    decreases w - k
  {
    if k < w {
      PriorityFromRange(source, w, k + 1);
      var head, rest := Ring(source, w, k), PriorityFrom(source, w, k + 1);
      var s := head + rest;
      forall i | 0 <= i < |s| ensures 0 <= s[i] < w && k <= Abs(s[i] - source) < w {
        if i < |head| {
          assert s[i] == head[i];
        } else {
          assert s[i] == rest[i - |head|];
        }
      }
    }
  }

  /** Every bus column at a distance in [k, w) is offered from distance `k` on. */
  lemma {:induction false} PriorityFromCovers(source: int, w: nat, k: nat)
    requires k >= 1
    ensures forall c | 0 <= c < w && k <= Abs(c - source) < w :: c in PriorityFrom(source, w, k)
    decreases w - k
  {
    if k < w {
      PriorityFromCovers(source, w, k + 1);
      var head, rest := Ring(source, w, k), PriorityFrom(source, w, k + 1);
      forall c | 0 <= c < w && k <= Abs(c - source) < w ensures c in head + rest {
        if Abs(c - source) == k {
          assert c in head;
        } else {
          assert c in rest;
        }
      }
    }
  }

  /** From distance `k` on, distances never decrease and no column is offered twice. */
  lemma {:induction false} PriorityFromOrdered(source: int, w: nat, k: nat)
    requires k >= 1
    ensures forall i, j | 0 <= i < j < |PriorityFrom(source, w, k)| ::
      Abs(PriorityFrom(source, w, k)[i] - source) <= Abs(PriorityFrom(source, w, k)[j] - source)
      && PriorityFrom(source, w, k)[i] != PriorityFrom(source, w, k)[j]
    decreases w - k
  {
    if k < w {
      PriorityFromOrdered(source, w, k + 1);
      PriorityFromRange(source, w, k + 1);
      var head, rest := Ring(source, w, k), PriorityFrom(source, w, k + 1);
      var s := head + rest;
      forall i, j | 0 <= i < j < |s|
        ensures Abs(s[i] - source) <= Abs(s[j] - source) && s[i] != s[j]
      {
        if j < |head| {
          assert s[i] == head[i] && s[j] == head[j];
        } else if i < |head| {
          assert s[i] == head[i] && s[j] == rest[j - |head|];
        } else {
          assert s[i] == rest[i - |head|] && s[j] == rest[j - |head|];
        }
      }
    }
  }

  /**
   * For a source on the bus every column is offered exactly once, nearest
   * first.
   */
  lemma RoutePriorityCovers(source: int, w: nat)
    requires 0 <= source < w
    ensures var r := RoutePriority(source, w);
      (forall c | 0 <= c < w :: c in r)
      && (forall i | 0 <= i < |r| :: 0 <= r[i] < w)
      && (forall i, j | 0 <= i < j < |r| :: r[i] != r[j] && Abs(r[i] - source) <= Abs(r[j] - source))
  {
    PriorityFromRange(source, w, 1);
    PriorityFromCovers(source, w, 1);
    PriorityFromOrdered(source, w, 1);
    var r := RoutePriority(source, w);
    var t := PriorityFrom(source, w, 1);
    forall c | 0 <= c < w ensures c in r {
      if c != source {
        assert 1 <= Abs(c - source) < w;
        assert c in t;
      }
    }
    forall i, j | 0 <= i < j < |r| ensures r[i] != r[j] && Abs(r[i] - source) <= Abs(r[j] - source) {
      if i == 0 {
        assert r[j] == t[j - 1];
      } else {
        assert r[i] == t[i - 1] && r[j] == t[j - 1];
      }
    }
  }

  /** Distance 1 comes first: the column to the right of the source, then the one to its left. */
  lemma RightBeforeLeft(source: int, w: nat)
    requires 1 <= source && source + 1 < w
    ensures RoutePriority(source, w)[1] == source + 1 && RoutePriority(source, w)[2] == source - 1
  {
  }
}
