/**
 * What every router shares: the directed column range, clamping, the
 * translation between a router's columns and its downstream routers'
 * columns, the default `generic_transaction`, and the class-level flags.
 */
module Routing {
  import opened Wrappers
  import opened Transactions
  import opened Responses

  /** The routers of the model; each is a class of the source. */
  datatype RouterKind =
    | RegisterRouter
    | BusRouter
    | FactoryRouter
    | RechargeableRouter
    | VerticalBufferRouter
    | TreeRouter
    | CultivatorRouter
    | GenericVertical
    | BellRouter

  /**
   * `upkeep_accept`: only the rechargeable buffer router sets it; every other
   * router keeps the class default, false.
   */
  predicate UpkeepAccept(k: RouterKind)
  {
    k.RechargeableRouter?
  }

  /** `magic_source`: only the factory router sets it; every other router keeps the default, false. */
  predicate MagicSource(k: RouterKind)
  {
    k.FactoryRouter?
  }

  /** `range_directed(a, b)`: the integers from `a` to `b` inclusive, stepping towards `b`. */
  function RangeDirected(a: int, b: int): (r: seq<int>)
    ensures |r| == (if a <= b then b - a else a - b) + 1
    ensures r[0] == a && r[|r| - 1] == b
    ensures forall i | 0 <= i < |r| - 1 :: r[i + 1] == (if a <= b then r[i] + 1 else r[i] - 1)
  {
    if a <= b then seq(b - a + 1, i => a + i)
    else seq(a - b + 1, i => a - i)
  }

  /** Walking the range backwards is walking the reverse range. */
  lemma RangeDirectedReverse(a: int, b: int)
    ensures var r := RangeDirected(a, b);
      var s := RangeDirected(b, a);
      |r| == |s| && forall i | 0 <= i < |r| :: s[i] == r[|r| - 1 - i]
  {
    var r := RangeDirected(a, b);
    var s := RangeDirected(b, a);
    forall i | 0 <= i < |r| ensures s[i] == r[|r| - 1 - i] {
      if a <= b {
        assert r[|r| - 1 - i] == a + (|r| - 1 - i);
      } else {
        assert r[|r| - 1 - i] == a - (|r| - 1 - i);
      }
    }
  }

  /** `clamp(val, low, high)` = max(low, min(val, high)). */
  function Clamp(v: int, lo: int, hi: int): (r: int)
    ensures lo <= hi ==> lo <= r <= hi
    ensures lo <= v <= hi ==> r == v
    ensures v < lo ==> r == lo
    ensures lo <= hi < v ==> r == hi
    ensures hi < lo ==> r == lo
  {
    var m := if v < hi then v else hi;
    if lo < m then m else lo
  }

  lemma ClampIdempotent(v: int, lo: int, hi: int)
    ensures Clamp(Clamp(v, lo, hi), lo, hi) == Clamp(v, lo, hi)
  {
  }

  /** The combined width of the first `i` downstream regions. */
  function PrefixWidth(widths: seq<nat>, i: nat): nat
    requires i <= |widths|
  {
    if i == 0 then 0 else PrefixWidth(widths, i - 1) + widths[i - 1]
  }

  /** `to_local_col(i, c)`: a column of downstream router `i` as a column of this router. */
  method ToLocalCol(widths: seq<nat>, idx: nat, col: int) returns (r: int)
    requires idx <= |widths|
    ensures r == PrefixWidth(widths, idx) + col
  {
    var offset := 0;
    for i := 0 to idx
      invariant offset == PrefixWidth(widths, i)
    {
      offset := offset + widths[i];
    }
    r := offset + col;
  }

  /** The column of downstream router `idx` that faces local column `col`, clamped into that router. */
  function DownstreamCol(widths: seq<nat>, idx: nat, col: int): int
    requires idx < |widths|
  {
    Clamp(col - PrefixWidth(widths, idx), 0, widths[idx] as int - 1)
  }

  /** `to_downstream_col(i, c)`. */
  method ToDownstreamCol(widths: seq<nat>, idx: nat, col: int) returns (r: int)
    requires idx < |widths|
    ensures r == DownstreamCol(widths, idx, col)
    ensures widths[idx] > 0 ==> 0 <= r < widths[idx]
  {
    var offset := 0;
    for i := 0 to idx
      invariant offset == PrefixWidth(widths, i)
    {
      offset := offset + widths[i];
    }
    r := Clamp(col - offset, 0, widths[idx] as int - 1);
  }

  /** Translating a downstream column up and back down gives it back. */
  lemma DownstreamColRoundTrip(widths: seq<nat>, idx: nat, c: int)
    requires idx < |widths| && 0 <= c < widths[idx]
    ensures DownstreamCol(widths, idx, PrefixWidth(widths, idx) + c) == c
  {
  }

  lemma {:induction false} PrefixWidthMonotone(widths: seq<nat>, i: nat, j: nat)
    requires i <= j <= |widths|
    ensures PrefixWidth(widths, i) <= PrefixWidth(widths, j)
    decreases j - i
  {
    if i < j {
      PrefixWidthMonotone(widths, i, j - 1);
    }
  }

  /** Some downstream region among the first `n` owns a local column below their combined width. */
  lemma {:induction false} OwnerBelow(widths: seq<nat>, n: nat, c: int) returns (i: nat)
    requires n <= |widths| && 0 <= c < PrefixWidth(widths, n)
    ensures i < n && PrefixWidth(widths, i) <= c < PrefixWidth(widths, i) + widths[i]
  {
    if c >= PrefixWidth(widths, n - 1) {
      i := n - 1;
    } else {
      i := OwnerBelow(widths, n - 1, c);
    }
  }

  /**
   * The downstream regions tile the local columns: each local column inside
   * their combined width lies in exactly one of them, and translating it down
   * into that one and back up gives it back.
   */
  lemma LocalColOwner(widths: seq<nat>, c: int) returns (i: nat)
    requires 0 <= c < PrefixWidth(widths, |widths|)
    ensures i < |widths| && PrefixWidth(widths, i) <= c < PrefixWidth(widths, i) + widths[i]
    ensures PrefixWidth(widths, i) + DownstreamCol(widths, i, c) == c
    ensures forall j: nat | j < |widths| && PrefixWidth(widths, j) <= c < PrefixWidth(widths, j) + widths[j] :: j == i
  {
    i := OwnerBelow(widths, |widths|, c);
    forall j: nat | j < |widths| && PrefixWidth(widths, j) <= c < PrefixWidth(widths, j) + widths[j]
      ensures j == i
    {
      if j < i {
        PrefixWidthMonotone(widths, j + 1, i);
      } else if i < j {
        PrefixWidthMonotone(widths, i + 1, j);
      }
    }
  }

  /**
   * The default `generic_transaction`: whatever `_request_transaction`
   * proposes for the requested column (the source patch's column minus the
   * region's column offset) is passed on with CHECK_DOWNSTREAM; no proposal
   * gives the default response.
   */
  function DefaultGeneric(trans: Option<Proposal>): (r: Response)
    requires trans.Some? ==> |trans.value.move| > 0
    ensures r.transaction == trans
    ensures trans.Some? ==> r.status == CheckDownstream
    ensures trans.None? ==> r == FailedResponse()
  {
    if trans.Some? then MakeResponse(CheckDownstream, trans) else FailedResponse()
  }

  /** The default `generic_transaction` never reports SUCCESS. */
  lemma DefaultNeverSucceeds(trans: Option<Proposal>)
    requires trans.Some? ==> |trans.value.move| > 0
    ensures !DefaultGeneric(trans).status.Success?
    ensures DefaultGeneric(trans).status.Truthy() <==> trans.Some?
  {
  }
}
