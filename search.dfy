/**
 * The searches of the generic strategy, on values: the path-contiguity
 * check, the nearest free buffer slot, the topmost buffer router above a
 * factory, and the depth-first walk down the router tree with its return
 * pass back up.
 *
 * The strategy is generic over its routers: a router is an index into the
 * layout's list of routers, and what it answers to a request is given by a
 * `Respond` function of the arena.
 */
module StrategySearch {
  import opened Wrappers
  import opened Grids
  import opened Patches
  import opened Transactions
  import opened Responses
  import opened Rotations

  /* ------------------------------------------------------------------ */
  /* validate                                                            */
  /* ------------------------------------------------------------------ */

  /** The move-patch lists of a route's transactions, in order. */
  function Moves(route: seq<Proposal>): (r: seq<seq<PatchId>>)
    ensures |r| == |route| && forall k | 0 <= k < |route| :: r[k] == route[k].move
  {
    seq(|route|, k requires 0 <= k < |route| => route[k].move)
  }

  /** The concatenation of the lists. */
  function Joined(moves: seq<seq<PatchId>>): seq<PatchId>
  {
    if moves == [] then [] else Joined(moves[..|moves| - 1]) + moves[|moves| - 1]
  }

  lemma {:induction false} JoinedIn(moves: seq<seq<PatchId>>, n: nat)
    requires MovesIn(moves, n)
    ensures InRange(Joined(moves), n)
  {
    if moves != [] {
      var init := moves[..|moves| - 1];
      assert MovesIn(init, n) by {
        forall k | 0 <= k < |init| ensures InRange(init[k], n) { assert init[k] == moves[k]; }
      }
      JoinedIn(init, n);
      var a, b := Joined(init), moves[|moves| - 1];
      assert InRange(b, n);
      forall i | 0 <= i < |a + b| ensures (a + b)[i] < n {
        if i < |a| { assert (a + b)[i] == a[i]; } else { assert (a + b)[i] == b[i - |a|]; }
      }
    }
  }

  /** The two patches are at most one step apart. */
  predicate Touching(a: Patch, b: Patch)
  {
    Abs(a.x - b.x) + Abs(a.y - b.y) <= 1
  }

  /** Every patch of the path touches the next one. */
  predicate Contiguous(cells: seq<Patch>, path: seq<PatchId>)
    requires InRange(path, |cells|)
  {
    forall i | 0 <= i < |path| - 1 :: Touching(cells[path[i]], cells[path[i + 1]])
  }

  /**
   * `validate`: concatenate the move patches of the list and look for two
   * consecutive patches more than one step apart.  The source asserts there
   * are none; `ok` is false where it fails that assertion.
   */
  method Validate(cells: seq<Patch>, moves: seq<seq<PatchId>>) returns (ok: bool)
    requires MovesIn(moves, |cells|)
    ensures InRange(Joined(moves), |cells|)
    ensures ok <==> Contiguous(cells, Joined(moves))
  {
    JoinedIn(moves, |cells|);
    var path := Joined(moves);
    var last := if |path| == 0 then 0 else |path| - 1;
    for i := 0 to last
      invariant forall j | 0 <= j < i :: Touching(cells[path[j]], cells[path[j + 1]])
    {
      var p, q := cells[path[i]], cells[path[i + 1]];
      if Abs(p.x - q.x) + Abs(p.y - q.y) > 1 {
        return false;
      }
    }
    return true;
  }

  /**
   * A route is contiguous exactly when both parts are and, when both are
   * non-empty, the last patch of the first touches the first of the second.
   */
  lemma ContiguousAppend(cells: seq<Patch>, a: seq<PatchId>, b: seq<PatchId>)
    requires InRange(a, |cells|) && InRange(b, |cells|)
    ensures InRange(a + b, |cells|)
    ensures Contiguous(cells, a + b) <==>
      Contiguous(cells, a) && Contiguous(cells, b) && (a != [] && b != [] ==> Touching(cells[a[|a| - 1]], cells[b[0]]))
  {
    var ab := a + b;
    assert InRange(ab, |cells|) by {
      forall i | 0 <= i < |ab| ensures ab[i] < |cells| {
        if i < |a| { assert ab[i] == a[i]; } else { assert ab[i] == b[i - |a|]; }
      }
    }
    if Contiguous(cells, ab) {
      forall i | 0 <= i < |a| - 1 ensures Touching(cells[a[i]], cells[a[i + 1]]) {
        assert ab[i] == a[i] && ab[i + 1] == a[i + 1];
      }
      forall i | 0 <= i < |b| - 1 ensures Touching(cells[b[i]], cells[b[i + 1]]) {
        assert ab[|a| + i] == b[i] && ab[|a| + i + 1] == b[i + 1];
      }
      if a != [] && b != [] {
        assert ab[|a| - 1] == a[|a| - 1] && ab[|a|] == b[0];
      }
    }
    if Contiguous(cells, a) && Contiguous(cells, b) && (a != [] && b != [] ==> Touching(cells[a[|a| - 1]], cells[b[0]])) {
      forall i | 0 <= i < |ab| - 1 ensures Touching(cells[ab[i]], cells[ab[i + 1]]) {
        if i + 1 < |a| {
          assert ab[i] == a[i] && ab[i + 1] == a[i + 1];
        } else if i + 1 == |a| {
          assert ab[i] == a[|a| - 1] && ab[i + 1] == b[0];
        } else {
          assert ab[i] == b[i - |a|] && ab[i + 1] == b[i - |a| + 1];
        }
      }
    }
  }

  /* ------------------------------------------------------------------ */
  /* _get_closest                                                        */
  /* ------------------------------------------------------------------ */

  /** Which slot `_get_closest` returns: its index, none, or an index error. */
  datatype Pick = Picked(index: nat) | NoSlot | BadColumn

  function Dist(a: int, b: int): nat { Abs(a - b) }

  /** Python's reading of an index: a negative one counts from the end. */
  function Wrapped(n: nat, col: int): int { if col < 0 then col + n else col }

  /** The slot `col` names is empty, and so is every slot closer than `d` to `col`. */
  predicate Passed<T>(slots: seq<Option<T>>, col: int, d: nat)
  {
    0 <= Wrapped(|slots|, col) < |slots| && slots[Wrapped(|slots|, col)].None?
    && forall j | 0 <= j < |slots| && Dist(j, col) < d :: slots[j].None?
  }

  predicate Filled<T>(slots: seq<Option<T>>, j: int)
  {
    0 <= j < |slots| && slots[j].Some?
  }

  /**
   * `_get_closest`: the slot at `col` if it is filled, else the nearest
   * filled slot, the one to the right first on a tie; none if no slot within
   * reach is filled.
   */
  method GetClosest<T>(slots: seq<Option<T>>, col: int) returns (r: Pick)
    ensures r.BadColumn? <==> !(-|slots| <= col < |slots|)
    ensures r.Picked? ==> Filled(slots, r.index)
    ensures r.Picked? && r.index != Wrapped(|slots|, col) ==>
      Passed(slots, col, Dist(r.index, col)) && (r.index < col ==> !Filled(slots, col + Dist(r.index, col)))
    ensures r.NoSlot? ==> Passed(slots, col, |slots|)
  {
    var n := |slots|;
    if !(-n <= col < n) {
      return BadColumn;
    }
    if slots[Wrapped(n, col)].Some? {
      return Picked(Wrapped(n, col));
    }
    for offset := 1 to n
      invariant Passed(slots, col, offset)
    {
      if 0 <= col + offset < n && slots[col + offset].Some? {
        return Picked(col + offset);
      }
      if 0 <= col - offset < n && slots[col - offset].Some? {
        return Picked(col - offset);
      }
    }
    return NoSlot;
  }

  /** With `col` in range, a slot that is passed over is never closer than the one picked. */
  lemma ClosestIsNearest<T>(slots: seq<Option<T>>, col: int, r: Pick, j: nat)
    requires 0 <= col < |slots| && r.Picked? && Filled(slots, r.index)
    requires r.index != col ==> Passed(slots, col, Dist(r.index, col))
    requires r.index == col || Wrapped(|slots|, col) != r.index
    requires Filled(slots, j)
    ensures Dist(r.index, col) <= Dist(j, col)
  {
  }

  /* ------------------------------------------------------------------ */
  /* the topmost buffer above a factory                                  */
  /* ------------------------------------------------------------------ */

  /** Every router's upstream router comes before it in the layout's list. */
  predicate Upward(up: seq<Option<nat>>)
  {
    forall r | 0 <= r < |up| && up[r].Some? :: up[r].value < r
  }

  /** `a` is `c` or one of the routers above it. */
  predicate AtOrAbove(up: seq<Option<nat>>, a: nat, c: nat)
    requires Upward(up) && c < |up|
    decreases c
  {
    a == c || (up[c].Some? && AtOrAbove(up, a, up[c].value))
  }

  /** The accepting router highest up among `c` and the routers above it. */
  function TopFrom(up: seq<Option<nat>>, accept: seq<bool>, c: nat): Option<nat>
    requires Upward(up) && |accept| == |up| && c < |up|
    decreases c
  {
    var above := if up[c].Some? then TopFrom(up, accept, up[c].value) else None;
    if above.Some? then above else if accept[c] then Some(c) else None
  }

  /** What TopFrom finds: an accepting router at or above `c` with no accepting router above it; none only if there is none at all. */
  lemma {:induction false} TopFromFacts(up: seq<Option<nat>>, accept: seq<bool>, c: nat)
    requires Upward(up) && |accept| == |up| && c < |up|
    ensures TopFrom(up, accept, c).Some? ==>
      var t := TopFrom(up, accept, c).value;
      t < |up| && AtOrAbove(up, t, c) && accept[t] && forall a: nat | a < |up| && a != t && AtOrAbove(up, a, t) :: !accept[a]
    ensures TopFrom(up, accept, c).None? ==> forall a: nat | a < |up| && AtOrAbove(up, a, c) :: !accept[a]
    decreases c
  {
    if up[c].Some? {
      TopFromFacts(up, accept, up[c].value);
    }
    if TopFrom(up, accept, c).Some? {
      var t := TopFrom(up, accept, c).value;
      if up[c].Some? && TopFrom(up, accept, up[c].value).Some? {
      } else {
        assert t == c;
        forall a: nat | a < |up| && a != t && AtOrAbove(up, a, t) ensures !accept[a] {
          assert up[c].Some? && AtOrAbove(up, a, up[c].value);
        }
      }
    }
  }

  /**
   * The walk of `upkeep` that finds the buffer a factory feeds: climb from
   * the factory's upstream router to the top, remembering the last router
   * that accepts upkeep.
   */
  method Topmost(up: seq<Option<nat>>, accept: seq<bool>, f: nat) returns (buf: Option<nat>)
    requires Upward(up) && |accept| == |up| && f < |up|
    ensures buf == if up[f].Some? then TopFrom(up, accept, up[f].value) else None
  {
    buf := None;
    var curr := up[f];
    assert up[f].Some? ==> up[f].value < |up|;
    while curr.Some?
      invariant curr.Some? ==> curr.value < |up|
      invariant (if up[f].Some? then TopFrom(up, accept, up[f].value) else None)
        == if curr.Some? && TopFrom(up, accept, curr.value).Some? then TopFrom(up, accept, curr.value) else buf
      decreases if curr.Some? then curr.value + 1 else 0
    {
      var c := curr.value;
      if accept[c] {
        buf := Some(c);
      }
      curr := up[c];
    }
  }

  /* ------------------------------------------------------------------ */
  /* the depth-first search and the return pass                          */
  /* ------------------------------------------------------------------ */

  /** The calls the strategy makes of a router's `generic_transaction`. */
  datatype Request =
      /** The register router, asked for the position of the target qubit. */
    | RegisterAt(pos: Pos)
      /** On the way down: the column of the patch the router is entered from. */
    | Probe(router: nat, col: int)
      /** On the way back: the column facing the router below, and the column to leave by. */
    | Hop(router: nat, down: int, up: int)
      /** The same, with the target position instead of the column below. */
    | HopAt(router: nat, pos: Pos, up: int)

  /** What the routers answer, given the state of the arena. */
  type Respond = (seq<Patch>, Request) -> Response

  predicate ProposalIn(p: Proposal, n: nat)
  {
    InRange(p.move, n) && InRange(p.measure, n) && (p.magic.Some? ==> p.magic.value < n)
  }

  /** A response as the Response constructor builds it, naming patches of the arena; a true status carries a transaction. */
  predicate WellFormed(r: Response, n: nat)
  {
    (r.status.Truthy() ==> r.transaction.Some?)
    && (r.transaction.Some? ==>
          |r.transaction.value.move| > 0 && ProposalIn(r.transaction.value, n) && r == MakeResponse(r.status, r.transaction))
    && (r.transaction.None? ==> r.downstream.None? && r.upstream.None?)
  }

  ghost predicate Answers(respond: Respond, cells: seq<Patch>)
  {
    forall q: Request :: WellFormed(respond(cells, q), |cells|)
  }

  /**
   * The router tree: `down[r]` lists router `r`'s downstream routers, and
   * `offset[r]` is the column of its region's top-left corner.  The layout
   * lists a router before the routers below it.
   */
  datatype Net = Net(down: seq<seq<nat>>, offset: seq<int>)

  predicate Forward(net: Net)
  {
    |net.offset| == |net.down|
    && forall r, k | 0 <= r < |net.down| && 0 <= k < |net.down[r]| :: r < net.down[r][k] < |net.down|
  }

  /** A frame of the search stack: the router, its next downstream index, the patch it was entered by, and the target position (first frame only). */
  datatype Frame = Frame(router: nat, idx: nat, patch: PatchId, abs: Option<Pos>)

  /** An entry of `upstream_connect`: how the search reached a router. */
  datatype Link = Link(up: nat, idx: nat, patch: PatchId, abs: Option<Pos>)

  predicate LinksDown(net: Net, connect: map<nat, Link>, n: nat)
  {
    forall c | c in connect :: connect[c].up < c && connect[c].up < |net.down| && connect[c].patch < n
  }

  predicate FramesOk(net: Net, stack: seq<Frame>, n: nat)
  {
    forall i | 0 <= i < |stack| :: stack[i].router < |net.down| && stack[i].patch < n
  }

  /**
   * The requests of the return pass from `router`, entered from below by
   * patch `down`: each hop asks the router above for a path from the column
   * facing the one below to the column it was left by; `None` as soon as one
   * refuses.
   */
  function Climb(net: Net, cells: seq<Patch>, respond: Respond, connect: map<nat, Link>, router: nat, down: PatchId)
    : (r: Option<seq<Proposal>>)
    requires Forward(net) && Answers(respond, cells) && LinksDown(net, connect, |cells|) && down < |cells|
    ensures r.Some? ==> forall k | 0 <= k < |r.value| :: ProposalIn(r.value[k], |cells|)
    ensures router !in connect ==> r == Some([])
    decreases router
  {
    if router !in connect then Some([])
    else
      var l := connect[router];
      var ucol := cells[l.patch].x - net.offset[l.up];
      var req := if l.abs.Some? then HopAt(l.up, l.abs.value, ucol) else Hop(l.up, cells[down].x - net.offset[l.up], ucol);
      var resp := respond(cells, req);
      if !resp.status.Truthy() then None
      else
        match Climb(net, cells, respond, connect, l.up, l.patch)
        case None => None
        case Some(rest) => Some([resp.transaction.value] + rest)
  }

  function Glue(acc: seq<Proposal>, r: Option<seq<Proposal>>): Option<seq<Proposal>>
  {
    if r.None? then None else Some(acc + r.value)
  }

  /**
   * `return_pass` up to the validation: starting from the transaction found
   * below, follow `upstream_connect` to the top, one hop per router.
   */
  method ReturnPass(net: Net, cells: seq<Patch>, respond: Respond, connect: map<nat, Link>, first: Proposal, router: nat, down: PatchId)
    returns (r: Option<seq<Proposal>>)
    requires Forward(net) && Answers(respond, cells) && LinksDown(net, connect, |cells|) && down < |cells|
    ensures r == Glue([first], Climb(net, cells, respond, connect, router, down))
  {
    var acc := [first];
    var curr: nat, dp: PatchId := router, down;
    while curr in connect
      invariant dp < |cells|
      invariant Glue(acc, Climb(net, cells, respond, connect, curr, dp)) == Glue([first], Climb(net, cells, respond, connect, router, down))
      decreases curr
    {
      var l := connect[curr];
      var downCol := cells[dp].x - net.offset[l.up];
      var upCol := cells[l.patch].x - net.offset[l.up];
      var resp;
      if l.abs.Some? {
        resp := respond(cells, HopAt(l.up, l.abs.value, upCol));
      } else {
        resp := respond(cells, Hop(l.up, downCol, upCol));
      }
      if !resp.status.Truthy() {
        return None;
      }
      assert WellFormed(resp, |cells|);
      ghost var rest := Climb(net, cells, respond, connect, l.up, l.patch);
      assert rest.Some? ==> acc + ([resp.transaction.value] + rest.value) == (acc + [resp.transaction.value]) + rest.value;
      acc := acc + [resp.transaction.value];
      curr, dp := l.up, l.patch;
    }
    assert acc + [] == acc;
    return Some(acc);
  }

  lemma RouteIn(route: seq<Proposal>, n: nat)
    requires forall k | 0 <= k < |route| :: ProposalIn(route[k], n)
    ensures MovesIn(Moves(route), n)
  {
  }

  /** What the strategy makes of one transaction found below: a route to hand on, another try, or an exception. */
  datatype Verdict = Accept(route: seq<Proposal>) | Retry(resets: nat) | Abort

  predicate ProposalsIn(route: seq<Proposal>, n: nat)
  {
    forall k | 0 <= k < |route| :: ProposalIn(route[k], n)
  }

  /** A route the strategy accepts: its patches in the arena, contiguous, and one `validate_rotation` allocates. */
  predicate Acceptable(opt: RotationOption, cells: seq<Patch>, route: seq<Proposal>)
  {
    ProposalsIn(route, |cells|)
    && MovesIn(Moves(route), |cells|)
    && InRange(Joined(Moves(route)), |cells|)
    && Contiguous(cells, Joined(Moves(route)))
    && Decide(opt, cells, Moves(route)).Some?
    && Decide(opt, cells, Moves(route)).value != Refuse
    && Decide(opt, cells, Moves(route)).value != Unsupported
  }

  /**
   * A SUCCESS response from router `c`: the return pass, then `validate`,
   * then the rotation decision.  A refused hop or a REJECT lets the search
   * go on; REJECT still charges the cultivator reset, which `Retry` counts.
   */
  function Attempt(opt: RotationOption, net: Net, cells: seq<Patch>, respond: Respond, connect: map<nat, Link>, c: nat, resp: Response)
    : (v: Verdict)
    requires Forward(net) && Answers(respond, cells) && LinksDown(net, connect, |cells|)
    requires WellFormed(resp, |cells|) && resp.transaction.Some?
    ensures v.Accept? ==> Acceptable(opt, cells, v.route) && |v.route| >= 1 && v.route[0] == resp.transaction.value
    ensures v.Retry? ==> v.resets <= 1
  {
    match Climb(net, cells, respond, connect, c, resp.upstream.value)
    case None => Retry(0)
    case Some(hops) =>
      var route := [resp.transaction.value] + hops;
      assert forall k | 0 <= k < |route| :: ProposalIn(route[k], |cells|) by {
        forall k | 0 <= k < |route| ensures ProposalIn(route[k], |cells|) {
          if k > 0 { assert route[k] == hops[k - 1]; }
        }
      }
      RouteIn(route, |cells|);
      JoinedIn(Moves(route), |cells|);
      if !Contiguous(cells, Joined(Moves(route))) then Abort
      else
        match Decide(opt, cells, Moves(route))
        case None => Abort
        case Some(a) =>
          if a == Refuse then Retry(if NeedsReset(cells, Moves(route)) then 1 else 0)
          else if a == Unsupported then Abort
          else Accept(route)
  }

  /** How a search ends: a route, no route (with the links made and the resets charged), or an exception. */
  datatype Outcome = Found(route: seq<Proposal>, resets: nat) | Exhausted(connect: map<nat, Link>, resets: nat) | Crash

  /**
   * What probing a frame gives: the frame has no downstream router left; the
   * next one refused; or it answered, with what became of its transaction
   * and the patch its own search starts from.
   */
  datatype Step = Spent | Declined | Answered(c: nat, v: Verdict, entry: PatchId)

  /** A probe of each frame, given the links made so far. */
  type Prober = (Frame, map<nat, Link>) -> Step

  /** `upstream_connect[c] = (router, idx, patch, abs)` for a frame. */
  function Linked(net: Net, connect: map<nat, Link>, f: Frame, c: nat, n: nat): (m: map<nat, Link>)
    requires LinksDown(net, connect, n) && f.router < c && f.router < |net.down| && f.patch < n
    ensures LinksDown(net, m, n) && c in m && m[c].up == f.router
  {
    connect[c := Link(f.router, f.idx, f.patch, f.abs)]
  }

  /** A frame the search can probe: its router is in the net and its patch in the arena. */
  predicate Probeable(net: Net, n: nat, f: Frame, connect: map<nat, Link>)
  {
    f.router < |net.down| && f.patch < n && LinksDown(net, connect, n)
  }

  /** A probe that answers for the frame's next downstream router, and is spent exactly when none is left. */
  ghost predicate Probing(net: Net, n: nat, step: Prober)
  {
    forall f: Frame, connect: map<nat, Link> | Probeable(net, n, f, connect) ::
      (step(f, connect).Spent? <==> f.idx >= |net.down[f.router]|)
      && (step(f, connect).Answered? ==>
            f.idx < |net.down[f.router]| && step(f, connect).c == net.down[f.router][f.idx] && step(f, connect).entry < n)
  }

  /**
   * One step of the search from frame `f`: probe the router at its next
   * downstream index with the column of the patch it was entered by; a true
   * answer links that router to `f`'s, and a SUCCESS is tried at once.
   */
  function StepAt(opt: RotationOption, net: Net, cells: seq<Patch>, respond: Respond, f: Frame, connect: map<nat, Link>)
    : (s: Step)
    requires Forward(net) && Answers(respond, cells) && Probeable(net, |cells|, f, connect)
    ensures s.Spent? <==> f.idx >= |net.down[f.router]|
    ensures s.Answered? ==> f.idx < |net.down[f.router]| && s.c == net.down[f.router][f.idx] && s.entry < |cells|
    ensures s.Answered? && s.v.Accept? ==> Acceptable(opt, cells, s.v.route)
  {
    if f.idx >= |net.down[f.router]| then Spent
    else
      var c := net.down[f.router][f.idx];
      var resp := respond(cells, Probe(c, cells[f.patch].x - net.offset[c]));
      if !resp.status.Truthy() then Declined
      else
        var v := if resp.status.Success? then Attempt(opt, net, cells, respond, Linked(net, connect, f, c, |cells|), c, resp) else Retry(0);
        Answered(c, v, resp.downstream.value)
  }

  /** The strategy's probe, on the arena `cells` as the routers see it. */
  ghost function Strategy(opt: RotationOption, net: Net, cells: seq<Patch>, respond: Respond): (step: Prober)
    requires Forward(net) && Answers(respond, cells)
    ensures Probing(net, |cells|, step)
  {
    (f: Frame, connect: map<nat, Link>) =>
      if Probeable(net, |cells|, f, connect) then StepAt(opt, net, cells, respond, f, connect) else Spent
  }

  /**
   * The search below router `r` from its downstream index `k` on, as a
   * recursion: each downstream router in index order is probed; one that
   * answers is linked to `r`, and unless its answer ends the search the
   * search goes down into it before it moves to the next.
   */
  ghost function Search(net: Net, n: nat, step: Prober,
                        r: nat, k: nat, patch: PatchId, abs: Option<Pos>, connect: map<nat, Link>, resets: nat): (o: Outcome)
    requires Forward(net) && Probing(net, n, step) && Probeable(net, n, Frame(r, k, patch, abs), connect)
    ensures o.Exhausted? ==> LinksDown(net, o.connect, n)
    decreases |net.down| - r, if k < |net.down[r]| then |net.down[r]| - k else 0
  {
    var f := Frame(r, k, patch, abs);
    match step(f, connect)
    case Spent => Exhausted(connect, resets)
    case Declined => Search(net, n, step, r, k + 1, patch, None, connect, resets)
    case Answered(c, v, entry) =>
      match v
      case Accept(route) => Found(route, resets)
      case Abort => Crash
      case Retry(m) =>
        var below := Search(net, n, step, c, 0, entry, None, Linked(net, connect, f, c, n), resets + m);
        if below.Exhausted? then Search(net, n, step, r, k + 1, patch, None, below.connect, below.resets) else below
  }

  /** Every route the probe accepts passes `good`. */
  ghost predicate Vetted(net: Net, n: nat, step: Prober, good: seq<Proposal> -> bool)
  {
    forall f: Frame, connect: map<nat, Link> | Probeable(net, n, f, connect) && step(f, connect).Answered? && step(f, connect).v.Accept? ::
      good(step(f, connect).v.route)
  }

  /** Every route the search finds is one the probe accepted. */
  lemma {:induction false} FoundIsVetted(net: Net, n: nat, step: Prober, good: seq<Proposal> -> bool,
                                         r: nat, k: nat, patch: PatchId, abs: Option<Pos>, connect: map<nat, Link>, resets: nat)
    requires Forward(net) && Probing(net, n, step) && Vetted(net, n, step, good) && Probeable(net, n, Frame(r, k, patch, abs), connect)
    ensures
      var o := Search(net, n, step, r, k, patch, abs, connect, resets);
      o.Found? ==> good(o.route)
    decreases |net.down| - r, if k < |net.down[r]| then |net.down[r]| - k else 0
  {
    var f := Frame(r, k, patch, abs);
    var s := step(f, connect);
    if s.Declined? {
      FoundIsVetted(net, n, step, good, r, k + 1, patch, None, connect, resets);
    } else if s.Answered? && s.v.Retry? {
      var linked := Linked(net, connect, f, s.c, n);
      FoundIsVetted(net, n, step, good, s.c, 0, s.entry, None, linked, resets + s.v.resets);
      var below := Search(net, n, step, s.c, 0, s.entry, None, linked, resets + s.v.resets);
      if below.Exhausted? {
        FoundIsVetted(net, n, step, good, r, k + 1, patch, None, below.connect, below.resets);
      }
    }
  }

  /** The strategy's search finds only routes that are contiguous and that `validate_rotation` allocates. */
  lemma FoundIsAccepted(opt: RotationOption, net: Net, cells: seq<Patch>, respond: Respond, start: Frame)
    requires Forward(net) && Answers(respond, cells) && start.router < |net.down| && start.patch < |cells|
    ensures
      var o := Search(net, |cells|, Strategy(opt, net, cells, respond), start.router, start.idx, start.patch, start.abs, map[], 0);
      o.Found? ==> Acceptable(opt, cells, o.route)
  {
    var step := Strategy(opt, net, cells, respond);
    var good := (route: seq<Proposal>) => Acceptable(opt, cells, route);
    forall f: Frame, connect: map<nat, Link> | Probeable(net, |cells|, f, connect) && step(f, connect).Answered? && step(f, connect).v.Accept?
      ensures good(step(f, connect).v.route)
    {
      assert step(f, connect) == StepAt(opt, net, cells, respond, f, connect);
    }
    FoundIsVetted(net, |cells|, step, good, start.router, start.idx, start.patch, start.abs, map[], 0);
  }

  /** The resets charged by the end of a search are at least those charged at its start. */
  lemma {:induction false} WithoutFindsResetsGrow(net: Net, n: nat, step: Prober,
                                                  r: nat, k: nat, patch: PatchId, abs: Option<Pos>, connect: map<nat, Link>, resets: nat)
    requires Forward(net) && Probing(net, n, step) && Probeable(net, n, Frame(r, k, patch, abs), connect)
    ensures
      var o := Search(net, n, step, r, k, patch, abs, connect, resets);
      !o.Crash? ==> o.resets >= resets
    decreases |net.down| - r, if k < |net.down[r]| then |net.down[r]| - k else 0
  {
    var f := Frame(r, k, patch, abs);
    var s := step(f, connect);
    if s.Declined? {
      WithoutFindsResetsGrow(net, n, step, r, k + 1, patch, None, connect, resets);
    } else if s.Answered? && s.v.Retry? {
      var linked := Linked(net, connect, f, s.c, n);
      WithoutFindsResetsGrow(net, n, step, s.c, 0, s.entry, None, linked, resets + s.v.resets);
      var below := Search(net, n, step, s.c, 0, s.entry, None, linked, resets + s.v.resets);
      if below.Exhausted? {
        WithoutFindsResetsGrow(net, n, step, r, k + 1, patch, None, below.connect, below.resets);
      }
    }
  }

  /** The number of steps a frame can still take. */
  function Budget(net: Net, r: nat, k: nat): nat
    requires Forward(net) && r < |net.down|
    decreases |net.down| - r, if k < |net.down[r]| then |net.down[r]| - k else 0
  {
    if k >= |net.down[r]| then 1 else 1 + Budget(net, net.down[r][k], 0) + Budget(net, r, k + 1)
  }

  function Weight(net: Net, stack: seq<Frame>): nat
    requires Forward(net) && forall i | 0 <= i < |stack| :: stack[i].router < |net.down|
  {
    if stack == [] then 0 else Weight(net, stack[..|stack| - 1]) + Budget(net, stack[|stack| - 1].router, stack[|stack| - 1].idx)
  }

  lemma WeightSnoc(net: Net, stack: seq<Frame>, f: Frame)
    requires Forward(net) && (forall i | 0 <= i < |stack| :: stack[i].router < |net.down|) && f.router < |net.down|
    ensures forall i | 0 <= i < |stack + [f]| :: (stack + [f])[i].router < |net.down|
    ensures Weight(net, stack + [f]) == Weight(net, stack) + Budget(net, f.router, f.idx)
  {
    assert (stack + [f])[..|stack|] == stack;
  }

  /**
   * What is left to do with a stack of frames: the search from the top
   * frame, and, if that finds nothing, what is left of the frames below it,
   * with the links the first search made.
   */
  ghost function Pending(net: Net, n: nat, step: Prober, stack: seq<Frame>, connect: map<nat, Link>, resets: nat): Outcome
    requires Forward(net) && Probing(net, n, step) && FramesOk(net, stack, n) && LinksDown(net, connect, n)
    decreases |stack|, 1
  {
    if stack == [] then Exhausted(connect, resets)
    else
      var f := stack[|stack| - 1];
      Resume(net, n, step, stack[..|stack| - 1], Search(net, n, step, f.router, f.idx, f.patch, f.abs, connect, resets))
  }

  /** What is left of `rest` after a search that ended with `o`. */
  ghost function Resume(net: Net, n: nat, step: Prober, rest: seq<Frame>, o: Outcome): Outcome
    requires Forward(net) && Probing(net, n, step) && FramesOk(net, rest, n)
    requires o.Exhausted? ==> LinksDown(net, o.connect, n)
    decreases |rest|, 2
  {
    if o.Exhausted? then Pending(net, n, step, rest, o.connect, o.resets) else o
  }

  lemma PendingTop(net: Net, n: nat, step: Prober, rest: seq<Frame>, f: Frame, connect: map<nat, Link>, resets: nat)
    requires Forward(net) && Probing(net, n, step) && FramesOk(net, rest, n) && Probeable(net, n, f, connect)
    ensures FramesOk(net, rest + [f], n)
    ensures Pending(net, n, step, rest + [f], connect, resets)
      == Resume(net, n, step, rest, Search(net, n, step, f.router, f.idx, f.patch, f.abs, connect, resets))
  {
    var stack := rest + [f];
    assert stack[..|stack| - 1] == rest && stack[|stack| - 1] == f;
  }

  /**
   * One turn of the search loop on the frame `f` on top of `rest`: what is
   * left afterwards is what was left before.
   */
  lemma PendingStep(net: Net, n: nat, step: Prober, rest: seq<Frame>, f: Frame, connect: map<nat, Link>, resets: nat)
    requires Forward(net) && Probing(net, n, step) && FramesOk(net, rest, n) && Probeable(net, n, f, connect)
    ensures FramesOk(net, rest + [f], n)
    ensures FramesOk(net, rest + [Frame(f.router, f.idx + 1, f.patch, None)], n)
    ensures step(f, connect).Spent? ==>
      Pending(net, n, step, rest + [f], connect, resets) == Pending(net, n, step, rest, connect, resets)
    ensures step(f, connect).Declined? ==>
      Pending(net, n, step, rest + [f], connect, resets)
        == Pending(net, n, step, rest + [Frame(f.router, f.idx + 1, f.patch, None)], connect, resets)
    ensures step(f, connect).Answered? && !step(f, connect).v.Retry? ==>
      Pending(net, n, step, rest + [f], connect, resets)
        == if step(f, connect).v.Accept? then Found(step(f, connect).v.route, resets) else Crash
    ensures step(f, connect).Answered? && step(f, connect).v.Retry? ==>
      var s := step(f, connect);
      var next := rest + [Frame(f.router, f.idx + 1, f.patch, None)] + [Frame(s.c, 0, s.entry, None)];
      f.router < s.c && FramesOk(net, next, n)
      && Pending(net, n, step, rest + [f], connect, resets)
         == Pending(net, n, step, next, Linked(net, connect, f, s.c, n), resets + s.v.resets)
  {
    var s := step(f, connect);
    var saved := rest + [Frame(f.router, f.idx + 1, f.patch, None)];
    assert FramesOk(net, saved, n);
    PendingTop(net, n, step, rest, f, connect, resets);
    if s.Declined? {
      PendingTop(net, n, step, rest, Frame(f.router, f.idx + 1, f.patch, None), connect, resets);
    }
    if s.Answered? && s.v.Retry? {
      var linked := Linked(net, connect, f, s.c, n);
      var next := saved + [Frame(s.c, 0, s.entry, None)];
      PendingTop(net, n, step, saved, Frame(s.c, 0, s.entry, None), linked, resets + s.v.resets);
      var below := Search(net, n, step, s.c, 0, s.entry, None, linked, resets + s.v.resets);
      if below.Exhausted? {
        PendingTop(net, n, step, rest, Frame(f.router, f.idx + 1, f.patch, None), below.connect, below.resets);
      }
    }
  }

  /** One SUCCESS response handled as the source handles it, on values. */
  method Try(opt: RotationOption, net: Net, cells: seq<Patch>, respond: Respond, connect: map<nat, Link>, c: nat, resp: Response)
    returns (v: Verdict)
    requires Forward(net) && Answers(respond, cells) && LinksDown(net, connect, |cells|)
    requires WellFormed(resp, |cells|) && resp.transaction.Some?
    ensures v == Attempt(opt, net, cells, respond, connect, c, resp)
  {
    var hops := ReturnPass(net, cells, respond, connect, resp.transaction.value, c, resp.upstream.value);
    if hops.None? {
      return Retry(0);
    }
    var route := hops.value;
    ghost var climbed := Climb(net, cells, respond, connect, c, resp.upstream.value);
    assert route == [resp.transaction.value] + climbed.value;
    assert forall k | 0 <= k < |route| :: ProposalIn(route[k], |cells|) by {
      forall k | 0 <= k < |route| ensures ProposalIn(route[k], |cells|) {
        if k > 0 { assert route[k] == climbed.value[k - 1]; }
      }
    }
    RouteIn(route, |cells|);
    var ok := Validate(cells, Moves(route));
    if !ok {
      return Abort;
    }
    var a := Decide(opt, cells, Moves(route));
    if a.None? || a.value == Unsupported {
      return Abort;
    }
    if a.value == Refuse {
      return Retry(if NeedsReset(cells, Moves(route)) then 1 else 0);
    }
    return Accept(route);
  }

  /** One turn of the search loop on frame `f`, as the source takes it. */
  method ProbeFrame(opt: RotationOption, net: Net, cells: seq<Patch>, respond: Respond, f: Frame, connect: map<nat, Link>)
    returns (s: Step)
    requires Forward(net) && Answers(respond, cells) && Probeable(net, |cells|, f, connect)
    ensures s == StepAt(opt, net, cells, respond, f, connect)
  {
    if f.idx >= |net.down[f.router]| {
      return Spent;
    }
    var c := net.down[f.router][f.idx];
    var resp := respond(cells, Probe(c, cells[f.patch].x - net.offset[c]));
    if !resp.status.Truthy() {
      return Declined;
    }
    assert WellFormed(resp, |cells|);
    var v := Retry(0);
    if resp.status.Success? {
      v := Try(opt, net, cells, respond, Linked(net, connect, f, c, |cells|), c, resp);
    }
    return Answered(c, v, resp.downstream.value);
  }

  /**
   * One turn of the search loop: pop the top frame and probe it.  Either the
   * search ends here, with what was left to do, or the new stack, links and
   * resets leave the same to do, with fewer steps to go.
   */
  method Turn(opt: RotationOption, net: Net, cells: seq<Patch>, respond: Respond, ghost step: Prober,
              stack: seq<Frame>, connect: map<nat, Link>, resets: nat)
    returns (stack': seq<Frame>, connect': map<nat, Link>, resets': nat, stop: Option<Outcome>)
    requires Forward(net) && Answers(respond, cells) && step == Strategy(opt, net, cells, respond)
    requires stack != [] && FramesOk(net, stack, |cells|) && LinksDown(net, connect, |cells|)
    ensures stop.Some? ==> stop.value == Pending(net, |cells|, step, stack, connect, resets)
    ensures stop.None? ==>
      FramesOk(net, stack', |cells|) && LinksDown(net, connect', |cells|) && Weight(net, stack') < Weight(net, stack)
      && Pending(net, |cells|, step, stack', connect', resets') == Pending(net, |cells|, step, stack, connect, resets)
  {
    var f := stack[|stack| - 1];
    var rest := stack[..|stack| - 1];
    assert stack == rest + [f] && FramesOk(net, rest, |cells|);
    var s := ProbeFrame(opt, net, cells, respond, f, connect);
    assert step(f, connect) == s;
    stack', connect', resets', stop := Advance(net, |cells|, step, rest, f, connect, resets, s);
  }

  /** The rest of a turn, once the top frame `f` is probed and gave `s`. */
  method Advance(net: Net, n: nat, ghost step: Prober, rest: seq<Frame>, f: Frame, connect: map<nat, Link>, resets: nat, s: Step)
    returns (stack': seq<Frame>, connect': map<nat, Link>, resets': nat, stop: Option<Outcome>)
    requires Forward(net) && Probing(net, n, step) && FramesOk(net, rest, n) && Probeable(net, n, f, connect)
    requires s == step(f, connect)
    ensures FramesOk(net, rest + [f], n)
    ensures stop.Some? ==> stop.value == Pending(net, n, step, rest + [f], connect, resets)
    ensures stop.None? ==>
      FramesOk(net, stack', n) && LinksDown(net, connect', n) && Weight(net, stack') < Weight(net, rest + [f])
      && Pending(net, n, step, stack', connect', resets') == Pending(net, n, step, rest + [f], connect, resets)
  {
    PendingStep(net, n, step, rest, f, connect, resets);
    WeightPop(net, n, rest, f);
    connect', resets', stop := connect, resets, None;
    if s.Spent? {
      stack' := rest;
    } else if s.Declined? {
      if f.idx < |net.down[f.router]| {
        WeightNext(net, n, rest, f);
      }
      stack' := rest + [Frame(f.router, f.idx + 1, f.patch, None)];
    } else if !s.v.Retry? {
      stack' := rest + [f];
      stop := Some(if s.v.Accept? then Found(s.v.route, resets) else Crash);
    } else {
      stack', connect', resets' := Descend(net, n, step, rest, f, connect, resets, s);
    }
  }

  /** A retry from the router's child: the frame for its next child is kept and the child's frame goes on top. */
  method Descend(net: Net, n: nat, ghost step: Prober, rest: seq<Frame>, f: Frame, connect: map<nat, Link>, resets: nat, s: Step)
    returns (stack': seq<Frame>, connect': map<nat, Link>, resets': nat)
    requires Forward(net) && Probing(net, n, step) && FramesOk(net, rest, n) && Probeable(net, n, f, connect)
    requires s == step(f, connect) && s.Answered? && s.v.Retry?
    ensures stack' == rest + [Frame(f.router, f.idx + 1, f.patch, None), Frame(s.c, 0, s.entry, None)]
    ensures resets' == resets + s.v.resets
    ensures FramesOk(net, stack', n) && LinksDown(net, connect', n) && Weight(net, stack') < Weight(net, rest + [f])
    ensures Pending(net, n, step, stack', connect', resets') == Pending(net, n, step, rest + [f], connect, resets)
  {
    PendingStep(net, n, step, rest, f, connect, resets);
    WeightChild(net, n, rest, f, s.entry);
    stack' := rest + [Frame(f.router, f.idx + 1, f.patch, None)] + [Frame(s.c, 0, s.entry, None)];
    connect' := Linked(net, connect, f, s.c, n);
    resets' := resets + s.v.resets;
  }

  /** Popping the top frame leaves fewer steps to go. */
  lemma WeightPop(net: Net, n: nat, rest: seq<Frame>, f: Frame)
    requires Forward(net) && FramesOk(net, rest, n) && f.router < |net.down| && f.patch < n
    ensures FramesOk(net, rest + [f], n)
    ensures Weight(net, rest) < Weight(net, rest + [f])
  {
    WeightSnoc(net, rest, f);
    FramesSnoc(net, rest, f, n);
  }

  /** Replacing the top frame by the one that takes the router's next child leaves fewer steps to go. */
  lemma WeightNext(net: Net, n: nat, rest: seq<Frame>, f: Frame)
    requires Forward(net) && FramesOk(net, rest, n) && f.router < |net.down| && f.patch < n
    requires f.idx < |net.down[f.router]|
    ensures var saved := rest + [Frame(f.router, f.idx + 1, f.patch, None)];
      FramesOk(net, saved, n) && Weight(net, saved) < Weight(net, rest + [f])
  {
    var g := Frame(f.router, f.idx + 1, f.patch, None);
    WeightSnoc(net, rest, f);
    WeightSnoc(net, rest, g);
    FramesSnoc(net, rest, g, n);
    BudgetStep(net, f.router, f.idx);
  }

  /** Pushing the child's frame above that one still leaves fewer steps to go. */
  lemma WeightChild(net: Net, n: nat, rest: seq<Frame>, f: Frame, entry: PatchId)
    requires Forward(net) && FramesOk(net, rest, n) && f.router < |net.down| && f.patch < n
    requires f.idx < |net.down[f.router]| && entry < n
    ensures var saved := rest + [Frame(f.router, f.idx + 1, f.patch, None)];
      var child := Frame(net.down[f.router][f.idx], 0, entry, None);
      FramesOk(net, saved + [child], n) && Weight(net, saved + [child]) < Weight(net, rest + [f])
  {
    var g := Frame(f.router, f.idx + 1, f.patch, None);
    var saved := rest + [g];
    var child := Frame(net.down[f.router][f.idx], 0, entry, None);
    WeightSnoc(net, rest, f);
    WeightSnoc(net, rest, g);
    FramesSnoc(net, rest, g, n);
    WeightSnoc(net, saved, child);
    FramesSnoc(net, saved, child, n);
    BudgetStep(net, f.router, f.idx);
  }

  lemma BudgetStep(net: Net, r: nat, k: nat)
    requires Forward(net) && r < |net.down| && k < |net.down[r]|
    ensures net.down[r][k] < |net.down|
    ensures Budget(net, r, k) == 1 + Budget(net, net.down[r][k], 0) + Budget(net, r, k + 1)
  {
  }

  lemma FramesSnoc(net: Net, stack: seq<Frame>, f: Frame, n: nat)
    requires FramesOk(net, stack, n) && f.router < |net.down| && f.patch < n
    ensures FramesOk(net, stack + [f], n)
  {
    forall i | 0 <= i < |stack + [f]| ensures (stack + [f])[i].router < |net.down| && (stack + [f])[i].patch < n {
      if i < |stack| {
        assert (stack + [f])[i] == stack[i];
      }
    }
  }

  /**
   * The search loop of `alloc_nonlocal`, from the register router's frame:
   * the explicit stack and the `upstream_connect` map, as the source keeps
   * them.  It does what the recursive search does.
   */
  method Explore(opt: RotationOption, net: Net, cells: seq<Patch>, respond: Respond, start: Frame) returns (o: Outcome)
    requires Forward(net) && Answers(respond, cells) && start.router < |net.down| && start.patch < |cells|
    ensures o == Search(net, |cells|, Strategy(opt, net, cells, respond), start.router, start.idx, start.patch, start.abs, map[], 0)
  {
    ghost var step := Strategy(opt, net, cells, respond);
    PendingTop(net, |cells|, step, [], start, map[], 0);
    assert [] + [start] == [start];
    var stack := [start];
    var connect: map<nat, Link> := map[];
    var resets: nat := 0;
    while stack != []
      invariant FramesOk(net, stack, |cells|) && LinksDown(net, connect, |cells|)
      invariant Pending(net, |cells|, step, stack, connect, resets)
        == Search(net, |cells|, step, start.router, start.idx, start.patch, start.abs, map[], 0)
      decreases Weight(net, stack)
    {
      var stop;
      stack, connect, resets, stop := Turn(opt, net, cells, respond, step, stack, connect, resets);
      if stop.Some? {
        return stop.value;
      }
    }
    return Exhausted(connect, resets);
  }
}
