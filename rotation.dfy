/**
 * The rotation test of the generic strategy and its mismatch policies, on
 * values: which of the strategy's answers a route gets, before anything is
 * activated.  A route is the list of the move-patch lists of its
 * transactions; the first is the buffer's, whose first patch holds the T
 * state and whose second is the patch that attacks it.
 */
module Rotations {
  import opened Wrappers
  import opened Patches
  import opened Util

  /** `RotationStrategyOption`. */
  datatype RotationOption = BackpropInit | Lookback | Inject | Reject | AddDelay

  /** What `validate_rotation` does with a route whose transactions it could read. */
  datatype Act =
      /** The orientations match: activate the gate as it is. */
    | Proceed
      /** The T patch was rotated before: forget the rotation and activate. */
    | Unrotate
      /** ADD_DELAY: lengthen the gate by a rotation and activate. */
    | Delay
      /** BACKPROP_INIT: flip the T patch's orientation and activate. */
    | Flip
      /** INJECT: activate a rotation gate in front of the gate. */
    | InjectRotation
      /** REJECT: allocate nothing. */
    | Refuse
      /** LOOKBACK, which raises `NotImplementedError`. */
    | Unsupported

  predicate MovesIn(moves: seq<seq<PatchId>>, n: nat)
  {
    forall k | 0 <= k < |moves| :: InRange(moves[k], n)
  }

  /**
   * Does the T state face the attacking patch the right way?  One patch
   * alone always does; otherwise the answer is "T and attacker share a row"
   * exclusive-or "T is Z_TOP".  An empty list raises (`None`).
   */
  function Matching(cells: seq<Patch>, move: seq<PatchId>): (r: Option<bool>)
    requires InRange(move, |cells|)
    ensures r.None? <==> move == []
    ensures |move| == 1 ==> r == Some(true)
  {
    if move == [] then None
    else if |move| == 1 then Some(true)
    else Some((cells[move[0]].localY == cells[move[1]].localY) != (cells[move[0]].orientation == ZTop))
  }

  /** Whether any patch named in `ids` is a cultivator patch. */
  predicate HasCultivator(cells: seq<Patch>, ids: seq<PatchId>)
    requires InRange(ids, |cells|)
  {
    exists i | 0 <= i < |ids| :: cells[ids[i]].cls.CultPatch?
  }

  /**
   * A cultivator patch on the route, other than the T patch itself, has to be
   * reset, which costs `RESET_PLUS_DELAY`.
   */
  predicate NeedsReset(cells: seq<Patch>, moves: seq<seq<PatchId>>)
    requires MovesIn(moves, |cells|) && |moves| >= 1
  {
    (exists k | 1 <= k < |moves| :: HasCultivator(cells, moves[k]))
    || (|moves[0]| >= 1 && HasCultivator(cells, moves[0][1..]))
  }

  /**
   * The decision of `validate_rotation`.  It raises (`None`) when the list
   * has fewer than two transactions or the buffer's move list is empty;
   * a matching route proceeds; otherwise a recorded rotation is undone, and
   * only then does the policy decide.
   */
  function Decide(opt: RotationOption, cells: seq<Patch>, moves: seq<seq<PatchId>>): (r: Option<Act>)
    requires MovesIn(moves, |cells|)
    ensures r.None? <==> |moves| < 2 || moves[0] == []
    ensures r == Some(Proceed) <==> |moves| >= 2 && Matching(cells, moves[0]) == Some(true)
    ensures r.Some? && r != Some(Proceed) ==> |moves[0]| >= 2 && Matching(cells, moves[0]) == Some(false)
    ensures r == Some(Unrotate) <==> r.Some? && r != Some(Proceed) && cells[moves[0][0]].rotation != null
    ensures r.Some? && r != Some(Proceed) && r != Some(Unrotate) ==> cells[moves[0][0]].rotation == null && r == Some(Policy(opt))
  {
    if |moves| < 2 || moves[0] == [] then None
    else if Matching(cells, moves[0]).value then Some(Proceed)
    else if cells[moves[0][0]].rotation != null then Some(Unrotate)
    else Some(Policy(opt))
  }

  /** What each option does about a mismatch. */
  function Policy(opt: RotationOption): (a: Act)
    ensures a != Proceed && a != Unrotate
    ensures a == Refuse <==> opt == Reject
    ensures a == Unsupported <==> opt == Lookback
  {
    match opt
    case AddDelay => Delay
    case BackpropInit => Flip
    case Inject => InjectRotation
    case Reject => Refuse
    case Lookback => Unsupported
  }

  /** The passes the decision adds to the gate's duration. */
  function Extra(cells: seq<Patch>, moves: seq<seq<PatchId>>, a: Act): (k: int)
    requires MovesIn(moves, |cells|) && |moves| >= 1
    ensures k >= 0
    ensures k == 0 <==> !NeedsReset(cells, moves) && a != Delay
  {
    (if NeedsReset(cells, moves) then RESET_PLUS_DELAY else 0) + (if a == Delay then ROTATE_DELAY else 0)
  }

  /** `cells` with the T patch turned the other way. */
  function Flipped(cells: seq<Patch>, t: PatchId): (r: seq<Patch>)
    requires t < |cells|
    ensures |r| == |cells| && r[t].orientation == cells[t].orientation.Inverse()
    ensures forall p | 0 <= p < |cells| && p != t :: r[p] == cells[p]
  {
    cells[t := cells[t].(orientation := cells[t].orientation.Inverse())]
  }

  /**
   * BACKPROP_INIT repairs the route: once the T patch is flipped the same
   * route matches, so deciding again would proceed without a mismatch.
   */
  lemma FlipRepairs(opt: RotationOption, cells: seq<Patch>, moves: seq<seq<PatchId>>)
    requires MovesIn(moves, |cells|)
    requires Decide(opt, cells, moves) == Some(Flip)
    ensures MovesIn(moves, |Flipped(cells, moves[0][0])|)
    ensures Decide(opt, Flipped(cells, moves[0][0]), moves) == Some(Proceed)
  {
    var t := moves[0][0];
    var c := Flipped(cells, t);
    InverseIsInvolution(cells[t].orientation);
    assert c[moves[0][1]].localY == cells[moves[0][1]].localY;
    assert (c[t].orientation == ZTop) != (cells[t].orientation == ZTop);
  }

  /**
   * A rotation gate flips the T patch too, so after it the attacker is
   * faced the right way; the same holds of every mismatch, whatever the
   * option.
   */
  lemma MismatchIsOrientation(cells: seq<Patch>, move: seq<PatchId>)
    requires InRange(move, |cells|) && |move| >= 2
    ensures Matching(Flipped(cells, move[0]), move) == Some(!Matching(cells, move).value)
  {
    var c := Flipped(cells, move[0]);
    InverseIsInvolution(cells[move[0]].orientation);
    assert c[move[1]].localY == cells[move[1]].localY;
  }

  /**
   * The cultivator reset is charged whatever the decision: it depends only
   * on the patches of the route, not on the option or on the orientations.
   */
  lemma ResetIgnoresOrientation(cells: seq<Patch>, moves: seq<seq<PatchId>>)
    requires MovesIn(moves, |cells|) && |moves| >= 1 && |moves[0]| >= 1
    ensures MovesIn(moves, |Flipped(cells, moves[0][0])|)
    ensures NeedsReset(Flipped(cells, moves[0][0]), moves) == NeedsReset(cells, moves)
  {
    var c := Flipped(cells, moves[0][0]);
    forall k, i | 0 <= k < |moves| && 0 <= i < |moves[k]|
      ensures c[moves[k][i]].cls == cells[moves[k][i]].cls
    {
    }
    forall i | 0 <= i < |moves[0][1..]|
      ensures c[moves[0][1..][i]].cls == cells[moves[0][1..][i]].cls
    {
    }
  }
}
