/**
 * A router's answer to a request: a status and, on success, the proposed
 * transaction together with its two end patches.
 */
module Responses {
  import opened Wrappers
  import opened Patches
  import opened Transactions

  /**
   * `ResponseStatus`, an integer enumeration: FAILED = 0, CHECK_DOWNSTREAM = 1,
   * SUCCESS = 2.  Only FAILED is false in a Boolean context.
   */
  datatype ResponseStatus = Failed | CheckDownstream | Success
  {
    function Value(): (v: nat)
      ensures v <= 2
    {
      match this
      case Failed => 0
      case CheckDownstream => 1
      case Success => 2
    }

    /** The truth value of the status. */
    predicate Truthy()
    {
      Value() != 0
    }
  }

  lemma StatusOrder(s: ResponseStatus, t: ResponseStatus)
    ensures Failed.Value() < CheckDownstream.Value() < Success.Value()
    ensures s.Value() == t.Value() <==> s == t
    ensures s.Truthy() <==> !s.Failed?
  {
  }

  /**
   * A response.  `downstream` is the first move patch of the transaction (the
   * end that faces the downstream region) and `upstream` its last move patch.
   */
  datatype Response = Response(
    status: ResponseStatus,
    transaction: Option<Proposal>,
    downstream: Option<PatchId>,
    upstream: Option<PatchId>)

  /**
   * The Response constructor.  A transaction object is always true, so with
   * one the end patches are read from its move patches; the source indexes
   * them without a check, so a transaction passed here has at least one.
   */
  function MakeResponse(status: ResponseStatus, t: Option<Proposal>): (r: Response)
    requires t.Some? ==> |t.value.move| > 0
    ensures r.status == status && r.transaction == t
    ensures t.None? ==> r.downstream.None? && r.upstream.None?
    ensures t.Some? ==> r.downstream == Some(t.value.move[0]) && r.upstream == Some(t.value.move[|t.value.move| - 1])
  {
    match t
    case None => Response(status, None, None, None)
    case Some(p) => Response(status, t, Some(p.move[0]), Some(p.move[|p.move| - 1]))
  }

  /** `Response()`: the default arguments. */
  function FailedResponse(): (r: Response)
    ensures r.status == Failed && r.transaction.None?
    ensures r.downstream.None? && r.upstream.None?
  {
    MakeResponse(Failed, None)
  }

  /** A one-patch transaction has the same patch at both ends. */
  lemma SinglePatchEnds(status: ResponseStatus, p: Proposal)
    requires |p.move| == 1
    ensures MakeResponse(status, Some(p)).downstream == MakeResponse(status, Some(p)).upstream
  {
  }
}
