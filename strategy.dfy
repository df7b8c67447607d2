/**
 * The generic strategy: its configuration from the layout's routers, the
 * allocation of a gate (dispatch by gate type, the non-local search, the
 * rotation decision applied to the arena) and the buffer upkeep.
 *
 * The routers are given by what they answer; `StrategySearch` holds the
 * search on values, and this module applies its result to the arena and to
 * the gates.
 */
module Strategies {
  import opened Wrappers
  import opened Grids
  import opened Patches
  import opened Transactions
  import opened Responses
  import opened Gates
  import opened Util
  import opened Rotations
  import opened StrategySearch
  import Buffers
  import RechargeableRouters
  import Routing

  /* ------------------------------------------------------------------ */
  /* construction                                                        */
  /* ------------------------------------------------------------------ */

  /** The two flags of a router the strategy reads. */
  datatype RouterFlags = RouterFlags(magicSource: bool, upkeepAccept: bool)

  /**
   * A configured strategy: the register router, the factory routers and the
   * buffer routers (indices into the layout's router list), whether upkeep
   * is needed, the mismatch policy and the mapper's register width.
   */
  datatype Config = Config(
    register: nat,
    factories: seq<nat>,
    buffers: seq<nat>,
    needsUpkeep: bool,
    option: RotationOption,
    regWidth: int)

  predicate Has(f: RouterFlags, factory: bool)
  {
    if factory then f.magicSource else f.upkeepAccept
  }

  predicate Increasing(ids: seq<nat>)
  {
    forall i, j | 0 <= i < j < |ids| :: ids[i] < ids[j]
  }

  /** The indices of the routers with the flag, in layout order. */
  function Indices(flags: seq<RouterFlags>, factory: bool): (r: seq<nat>)
    ensures forall k: nat :: k in r <==> k < |flags| && Has(flags[k], factory)
    ensures Increasing(r)
  {
    if flags == [] then []
    else
      var init := Indices(flags[..|flags| - 1], factory);
      assert forall k: nat | k < |flags| - 1 :: flags[..|flags| - 1][k] == flags[k];
      assert forall i | 0 <= i < |init| :: init[i] < |flags| - 1 by {
        forall i | 0 <= i < |init| ensures init[i] < |flags| - 1 { assert init[i] in init; }
      }
      init + if Has(flags[|flags| - 1], factory) then [|flags| - 1] else []
  }

  /**
   * The constructor: the register router is the first router (an empty list
   * raises), the factory routers are those with `magic_source`, the buffer
   * routers those with `upkeep_accept`, and upkeep is needed exactly when
   * there is a buffer router.
   */
  function Configure(flags: seq<RouterFlags>, option: RotationOption, regWidth: int): (c: Option<Config>)
    ensures c.None? <==> flags == []
    ensures c.Some? ==>
      c.value.register == 0 && c.value.option == option && c.value.regWidth == regWidth
      && (forall k: nat :: k in c.value.factories <==> k < |flags| && flags[k].magicSource)
      && (forall k: nat :: k in c.value.buffers <==> k < |flags| && flags[k].upkeepAccept)
      && Increasing(c.value.factories) && Increasing(c.value.buffers)
      && (c.value.needsUpkeep <==> exists k | 0 <= k < |flags| :: flags[k].upkeepAccept)
  {
    if flags == [] then None
    else
      IndicesEmpty(flags, false);
      var buffers := Indices(flags, false);
      Some(Config(0, Indices(flags, true), buffers, buffers != [], option, regWidth))
  }

  /** The flags of a router of kind `k`: its class's `magic_source` and `upkeep_accept`. */
  function KindFlags(k: Routing.RouterKind): RouterFlags
  {
    RouterFlags(Routing.MagicSource(k), Routing.UpkeepAccept(k))
  }

  /**
   * Configured from routers of known kinds, the strategy's factory routers
   * are exactly the factory routers and its buffer routers exactly the
   * rechargeable buffer routers, and it needs upkeep exactly when it has one
   * of the latter.
   */
  lemma ConfigureKinds(kinds: seq<Routing.RouterKind>, option: RotationOption, regWidth: int)
    ensures var c := Configure(seq(|kinds|, i requires 0 <= i < |kinds| => KindFlags(kinds[i])), option, regWidth);
      (c.Some? <==> kinds != [])
      && (c.Some? ==>
            (forall k: nat :: k in c.value.factories <==> k < |kinds| && kinds[k].FactoryRouter?)
            && (forall k: nat :: k in c.value.buffers <==> k < |kinds| && kinds[k].RechargeableRouter?)
            && (c.value.needsUpkeep <==> exists k | 0 <= k < |kinds| :: kinds[k].RechargeableRouter?))
  {
    var flags := seq(|kinds|, i requires 0 <= i < |kinds| => KindFlags(kinds[i]));
    assert forall k | 0 <= k < |kinds| :: flags[k].upkeepAccept == kinds[k].RechargeableRouter?;
  }

  /** No index is kept exactly when no router has the flag. */
  lemma IndicesEmpty(flags: seq<RouterFlags>, factory: bool)
    ensures Indices(flags, factory) != [] <==> exists k | 0 <= k < |flags| :: Has(flags[k], factory)
  {
    var r := Indices(flags, factory);
    if k :| 0 <= k < |flags| && Has(flags[k], factory) {
      assert k in r;
    }
    if r != [] {
      assert r[0] in r;
    }
  }

  /** `DummyMapper.position_xy(idx)[::-1]`: the register of qubit `q` as (row, column). */
  function TargetPos(regWidth: int, q: int): Pos
  {
    Pos(0, q * regWidth)
  }

  /**
   * Every qubit's register lies on row 0, and with a positive width (the
   * default is 1) the registers run left to right in qubit order, so no two
   * qubits share one.
   */
  lemma TargetPosIncreasing(regWidth: int, q: int, q': int)
    requires regWidth >= 1 && q < q'
    ensures TargetPos(regWidth, q).row == 0 == TargetPos(regWidth, q').row
    ensures TargetPos(regWidth, q').col - TargetPos(regWidth, q).col >= regWidth
  {
    MulGrows(q' - q, regWidth);
    assert q' * regWidth - q * regWidth == (q' - q) * regWidth;
  }

  lemma {:induction false} MulGrows(k: nat, w: nat)
    requires k >= 1
    ensures k * w >= w
  {
    if k > 1 {
      MulGrows(k - 1, w);
      assert k * w == (k - 1) * w + w;
    }
  }

  /* ------------------------------------------------------------------ */
  /* transaction lists                                                   */
  /* ------------------------------------------------------------------ */

  /** The move-patch lists of a transaction list's members. */
  function Route(ms: seq<Transaction>): (r: seq<seq<PatchId>>)
    ensures |r| == |ms| && forall k | 0 <= k < |ms| :: r[k] == ms[k].movePatches
  {
    seq(|ms|, k requires 0 <= k < |ms| => ms[k].movePatches)
  }

  /** Each member was made from the proposal at its place, and holds no lock yet. */
  ghost predicate MadeFrom(ms: seq<Transaction>, route: seq<Proposal>)
    reads set k | 0 <= k < |ms| :: ms[k]
  {
    |ms| == |route|
    && forall k | 0 <= k < |ms| ::
         ms[k].movePatches == route[k].move && ms[k].measurePatches == route[k].measure
         && ms[k].connectCol == route[k].connectCol && ms[k].magicState == route[k].magic
         && ms[k].onUnlock == route[k].onUnlock && ms[k].onActivate == Some(route[k].onActivate)
         && ms[k].lock == null
  }

  /**
   * `TransactionList([...])` over fresh transactions, one per proposal of
   * the route, in order.
   */
  method BuildList(route: seq<Proposal>, ghost n: nat) returns (tl: TransactionList)
    requires forall k | 0 <= k < |route| :: ProposalIn(route[k], n)
    ensures fresh(tl) && fresh(tl.Objects()) && tl.activeCells == []
    ensures MadeFrom(tl.members, route) && tl.Distinct() && tl.FitsNow(n)
    ensures Route(tl.members) == Moves(route)
  {
    var ms: seq<Transaction> := [];
    for k := 0 to |route|
      invariant |ms| == k && MadeFrom(ms, route[..k])
      invariant forall i | 0 <= i < k :: fresh(ms[i])
      invariant forall i, j | 0 <= i < j < k :: ms[i] != ms[j]
    {
      var t := new Transaction(route[k]);
      ms := ms + [t];
    }
    assert route[..|route|] == route;
    tl := new TransactionList(ms);
  }

  /* ------------------------------------------------------------------ */
  /* validate_rotation                                                   */
  /* ------------------------------------------------------------------ */

  /** The arena once the decision has done its part: a flipped or un-rotated T patch, or as it was. */
  function Prepared(cells: seq<Patch>, t: PatchId, a: Act): (r: seq<Patch>)
    requires t < |cells|
    ensures |r| == |cells| && forall p | 0 <= p < |cells| && p != t :: r[p] == cells[p]
  {
    match a
    case Flip => Flipped(cells, t)
    case Unrotate => cells[t := cells[t].(rotation := null)]
    case _ => cells
  }

  /** What becomes of an allocation request: the gate to run, nothing (the source's `None`), or an exception. */
  datatype Allocation = Granted(gate: Gate) | Refused | Raised

  /** Charge the decision's delays to the gate, and flip or un-rotate the T patch. */
  method Prepare(gate: Gate, a: Act, t: PatchId, extra: int, d: Device)
    requires d.Valid() && t < |d.cells|
    modifies gate`duration, d`cells
    ensures d.Valid() && gate.duration == old(gate.duration) + extra
    ensures d.cells == Prepared(old(d.cells), t, a)
  {
    gate.duration := gate.duration + extra;
    if a == Flip {
      d.SetOrientation(t, d.cells[t].orientation.Inverse());
    } else if a == Unrotate {
      d.RegisterRotation(t, null);
    }
  }

  /**
   * `validate_rotation`: decide on the route, charge the reset and the
   * rotation delay, and activate the gate, or, with INJECT, a new rotation
   * gate in front of it.  REJECT gives nothing; LOOKBACK raises.
   */
  method ValidateRotation(gate: Gate, tl: TransactionList, option: RotationOption, d: Device) returns (r: Allocation)
    requires d.Valid() && gate.Valid(|d.cells|) && tl.Distinct() && tl.FitsNow(|d.cells|)
    modifies gate`duration, gate`transaction, gate`moveTarget, d, tl, tl.Objects()
    ensures MovesIn(Route(tl.members), |old(d.cells)|) && |d.cells| == |old(d.cells)|
    ensures var a := Decide(option, old(d.cells), Route(tl.members));
      (a.None? ==> r.Raised? && gate.duration == old(gate.duration))
      && (a.Some? ==> gate.duration == old(gate.duration) + Extra(old(d.cells), Route(tl.members), a.value))
      && (r.Refused? <==> a == Some(Refuse))
      && (a == Some(Unsupported) ==> r.Raised?)
      && (r.Granted? && a.value != InjectRotation ==>
            r.gate == gate && gate.transaction == tl
            && forall i | 0 <= i < |tl.members| :: tl.members[i].lock != null && tl.members[i].lock.owner == gate)
      && (r.Granted? && a.value == InjectRotation ==>
            fresh(r.gate) && r.gate.kind.RotateGate? && r.gate.post == [gate]
            && r.gate.tPatch == Some(tl.members[0].movePatches[0]) && r.gate.Timing() == Start(ROTATE_DELAY, 0))
    ensures var a := Decide(option, old(d.cells), Route(tl.members));
      a.Some? ==>
        var t := Route(tl.members)[0][0];
        (r.Refused? ==> d.cells == old(d.cells) && d.states == old(d.states)
                        && gate.transaction == old(gate.transaction)
                        && forall i | 0 <= i < |tl.members| :: tl.members[i].lock == old(tl.members[i].lock))
        && (a.value == InjectRotation ==> gate.transaction == old(gate.transaction) && gate.moveTarget == old(gate.moveTarget))
        && (r.Granted? && a.value != InjectRotation ==> SameTurns(Prepared(old(d.cells), t, a.value), d.cells))
        && (r.Granted? && a.value == Flip ==> d.cells[t].orientation == old(d.cells[t].orientation).Inverse())
        && (r.Granted? && a.value == Unrotate ==> d.cells[t].rotation == null)
        && (r.Granted? && a.value == InjectRotation ==>
              d.cells[t].rotation == r.gate
              && forall p | 0 <= p < |d.cells| :: d.cells[p].orientation == old(d.cells[p].orientation)
                                                && (p != t ==> d.cells[p].rotation == old(d.cells[p].rotation)))
  {
    var moves := Route(tl.members);
    assert MovesIn(moves, |d.cells|) by {
      forall k | 0 <= k < |moves| ensures InRange(moves[k], |d.cells|) {
        assert tl.members[k].FitsNow(|d.cells|);
      }
    }
    var a := Decide(option, d.cells, moves);
    if a.None? {
      return Raised;
    }
    var t := moves[0][0];
    Prepare(gate, a.value, t, Extra(d.cells, moves, a.value), d);
    r := Carry(gate, tl, a.value, d);
  }

  /**
   * The decision carried out on the prepared arena: REJECT gives nothing and
   * touches nothing, LOOKBACK raises, INJECT activates a new rotation gate
   * registered on the T patch, and every other decision activates the gate.
   */
  method Carry(gate: Gate, tl: TransactionList, a: Act, d: Device) returns (r: Allocation)
    requires d.Valid() && gate.Valid(|d.cells|) && tl.Distinct() && tl.FitsNow(|d.cells|)
    requires a == InjectRotation ==> |tl.members| >= 1 && |tl.members[0].movePatches| >= 2
    modifies gate`transaction, gate`moveTarget, d, tl, tl.Objects()
    ensures |d.cells| == |old(d.cells)|
    ensures (r.Refused? <==> a == Refuse) && (a == Unsupported ==> r.Raised?)
    ensures r.Refused? ==> d.cells == old(d.cells) && d.states == old(d.states) && gate.transaction == old(gate.transaction)
                           && forall i | 0 <= i < |tl.members| :: tl.members[i].lock == old(tl.members[i].lock)
    ensures a == InjectRotation ==> gate.transaction == old(gate.transaction) && gate.moveTarget == old(gate.moveTarget)
    ensures r.Granted? && a != InjectRotation ==>
      r.gate == gate && gate.transaction == tl && SameTurns(old(d.cells), d.cells)
      && forall i | 0 <= i < |tl.members| :: tl.members[i].lock != null && tl.members[i].lock.owner == gate
    ensures r.Granted? && a == InjectRotation ==>
      fresh(r.gate) && r.gate.kind.RotateGate? && r.gate.post == [gate]
      && r.gate.tPatch == Some(tl.members[0].movePatches[0]) && r.gate.Timing() == Start(ROTATE_DELAY, 0)
      && SameTurns(old(d.cells)[tl.members[0].movePatches[0] := old(d.cells[tl.members[0].movePatches[0]]).(rotation := r.gate)], d.cells)
  {
    match a {
      case Refuse =>
        return Refused;
      case Unsupported =>
        return Raised;
      case InjectRotation =>
        r := Inject(gate, tl, d);
      case _ =>
        var ok := gate.Activate(tl, None, d);
        r := if ok then Granted(gate) else Raised;
    }
  }

  /**
   * The INJECT branch: a rotation gate over the T patch, the patch attacking
   * it and the first measure patch of the list's last transaction, activated
   * in place of the gate.
   */
  method Inject(gate: Gate, tl: TransactionList, d: Device) returns (r: Allocation)
    requires d.Valid() && tl.FitsNow(|d.cells|) && |tl.members| >= 1 && |tl.members[0].movePatches| >= 2
    modifies d
    ensures !r.Refused? && |d.cells| == |old(d.cells)|
    ensures r.Granted? ==>
      fresh(r.gate) && r.gate.kind.RotateGate? && r.gate.post == [gate]
      && r.gate.tPatch == Some(tl.members[0].movePatches[0]) && r.gate.Timing() == Start(ROTATE_DELAY, 0)
    ensures r.Granted? ==>
      SameTurns(old(d.cells)[tl.members[0].movePatches[0] := old(d.cells[tl.members[0].movePatches[0]]).(rotation := r.gate)], d.cells)
  {
    var first, last := tl.members[0], tl.members[|tl.members| - 1];
    assert first.FitsNow(|d.cells|) && last.FitsNow(|d.cells|);
    if last.measurePatches == [] {
      return Raised;
    }
    var rot := new Gate.NewRotate(first.movePatches[0], first.movePatches[1], last.measurePatches[0], gate, ROTATE_DELAY, d);
    var ok := rot.ActivateRotation(d);
    r := if ok then Granted(rot) else Raised;
  }

  /* ------------------------------------------------------------------ */
  /* alloc_nonlocal and alloc_gate                                       */
  /* ------------------------------------------------------------------ */

  /**
   * The search of `alloc_nonlocal` from the register router (router 0) for a
   * target at `pos`: `None` when the register router refuses, otherwise how
   * the search from the register's upstream patch ends.
   */
  ghost function Nonlocal(opt: RotationOption, net: Net, cells: seq<Patch>, respond: Respond, pos: Pos): Option<Outcome>
    requires Forward(net) && Answers(respond, cells) && |net.down| >= 1
  {
    var resp := respond(cells, RegisterAt(pos));
    if !resp.status.Truthy() then None
    else
      assert WellFormed(resp, |cells|);
      Some(Search(net, |cells|, Strategy(opt, net, cells, respond), 0, 0, resp.upstream.value, Some(pos), map[], 0))
  }

  /** A route the search finds is one the strategy accepts: contiguous, and allocated by `validate_rotation`. */
  lemma NonlocalFindsAcceptable(opt: RotationOption, net: Net, cells: seq<Patch>, respond: Respond, pos: Pos)
    requires Forward(net) && Answers(respond, cells) && |net.down| >= 1
    ensures var o := Nonlocal(opt, net, cells, respond, pos);
      o.Some? && o.value.Found? ==>
        Acceptable(opt, cells, o.value.route) && Decide(opt, cells, Moves(o.value.route)).value !in {Refuse, Unsupported}
  {
    var resp := respond(cells, RegisterAt(pos));
    if resp.status.Truthy() {
      assert WellFormed(resp, |cells|);
      FoundIsAccepted(opt, net, cells, respond, Frame(0, 0, resp.upstream.value, Some(pos)));
    }
  }

  /**
   * What `alloc_nonlocal` has done once it returns `r`: a gate without a
   * target raises; a refusal by the register router or a search that finds
   * nothing gives nothing; a search that raises raises; and the gate is
   * charged one reset per cultivator crossing of every route REJECT turned
   * down, and then what `validate_rotation` charges for the route found.
   */
  twostate predicate NonlocalDone(gate: Gate, c: Config, net: Net, respond: Respond, d: Device, new r: Allocation)
    requires Forward(net) && old(Answers(respond, d.cells)) && |net.down| >= 1
    reads gate, gate.transaction, if gate.transaction != null then gate.transaction.Objects() else {}
    reads set i | 0 <= i < (if gate.transaction != null then |gate.transaction.members| else 0) :: gate.transaction.members[i].lock
  {
    (gate.targ.None? ==> r.Raised? && gate.duration == old(gate.duration))
    && (gate.targ.Some? ==>
      var o := Nonlocal(c.option, net, old(d.cells), respond, TargetPos(c.regWidth, gate.targ.value));
      (r.Refused? <==> o.None? || o.value.Exhausted?)
      && (o == Some(Crash) ==> r.Raised?)
      && (o.None? ==> gate.duration == old(gate.duration))
      && (o.Some? && o.value.Exhausted? ==> gate.duration == old(gate.duration) + RESET_PLUS_DELAY * o.value.resets)
      && (o.Some? && o.value.Found? ==>
            var moves := Moves(o.value.route);
            MovesIn(moves, |old(d.cells)|)
            && Decide(c.option, old(d.cells), moves).Some?
            && gate.duration == old(gate.duration) + RESET_PLUS_DELAY * o.value.resets
                                + Extra(old(d.cells), moves, Decide(c.option, old(d.cells), moves).value))
      && (r.Granted? ==> o.Some? && o.value.Found? && Acceptable(c.option, old(d.cells), o.value.route))
      && (r.Granted? && r.gate == gate ==>
            gate.transaction != null && Route(gate.transaction.members) == Moves(o.value.route)
            && forall i | 0 <= i < |gate.transaction.members| ::
                 gate.transaction.members[i].lock != null && gate.transaction.members[i].lock.owner == gate))
  }

  /**
   * `alloc_nonlocal`: ask the register router for the target, search the
   * router tree for a magic state, and give the route found to
   * `validate_rotation`.
   */
  method AllocNonlocal(gate: Gate, c: Config, net: Net, respond: Respond, d: Device) returns (r: Allocation)
    requires d.Valid() && gate.Valid(|d.cells|) && Forward(net) && Answers(respond, d.cells) && |net.down| >= 1
    modifies gate`duration, gate`transaction, gate`moveTarget, d
    ensures NonlocalDone(gate, c, net, respond, d, r)
  {
    if gate.targ.None? {
      return Raised;
    }
    var pos := TargetPos(c.regWidth, gate.targ.value);
    var resp := respond(d.cells, RegisterAt(pos));
    if !resp.status.Truthy() {
      return Refused;
    }
    assert WellFormed(resp, |d.cells|);
    var o := Explore(c.option, net, d.cells, respond, Frame(0, 0, resp.upstream.value, Some(pos)));
    NonlocalFindsAcceptable(c.option, net, d.cells, respond, pos);
    match o {
      case Exhausted(_, m) =>
        gate.duration := gate.duration + RESET_PLUS_DELAY * m;
        return Refused;
      case Crash =>
        return Raised;
      case Found(route, m) =>
        gate.duration := gate.duration + RESET_PLUS_DELAY * m;
        r := Grant(gate, route, c.option, d);
    }
  }

  /**
   * The end of a successful search (`return_pass`'s last step): a
   * transaction list over fresh transactions built from the route, given to
   * `validate_rotation`.
   */
  method Grant(gate: Gate, route: seq<Proposal>, option: RotationOption, d: Device) returns (r: Allocation)
    requires d.Valid() && gate.Valid(|d.cells|) && Acceptable(option, d.cells, route)
    modifies gate`duration, gate`transaction, gate`moveTarget, d
    ensures var moves := Moves(route);
      MovesIn(moves, |old(d.cells)|) && Decide(option, old(d.cells), moves).Some?
      && gate.duration == old(gate.duration) + Extra(old(d.cells), moves, Decide(option, old(d.cells), moves).value)
      && !r.Refused?
      && (r.Granted? && r.gate == gate ==>
            gate.transaction != null && Route(gate.transaction.members) == moves
            && forall i | 0 <= i < |gate.transaction.members| ::
                 gate.transaction.members[i].lock != null && gate.transaction.members[i].lock.owner == gate)
  {
    var tl := BuildList(route, |d.cells|);
    r := ValidateRotation(gate, tl, option, d);
  }

  /**
   * `alloc_gate`: a T gate goes to `alloc_nonlocal`.  For every other gate
   * the next test reads `GateType.GRAPH_STATE_PREP`, a member the enumeration
   * does not have, so it raises before the gate is looked at.
   */
  method AllocGate(gate: Gate, c: Config, net: Net, respond: Respond, d: Device) returns (r: Allocation)
    requires d.Valid() && gate.Valid(|d.cells|) && Forward(net) && Answers(respond, d.cells) && |net.down| >= 1
    modifies gate`duration, gate`transaction, gate`moveTarget, d
    ensures gate.gateType == Some(TState) ==> NonlocalDone(gate, c, net, respond, d, r)
    ensures gate.gateType != Some(TState) ==>
      unchanged(d) && gate.duration == old(gate.duration) && gate.transaction == old(gate.transaction) && r.Raised?
  {
    if gate.gateType == Some(TState) {
      r := AllocNonlocal(gate, c, net, respond, d);
    } else {
      r := Raised;
    }
  }

  /* ------------------------------------------------------------------ */
  /* upkeep                                                              */
  /* ------------------------------------------------------------------ */

  /** The view grid of a buffer router's region: `g` has `h` rows of `w` patches. */
  datatype Geom = Geom(g: Grid, h: nat, w: nat)

  predicate GeomOk(geo: Geom, n: nat)
  {
    Rect(geo.g, geo.h, geo.w) && Holds(geo.g, n) && Injective(geo.g)
  }

  /**
   * The layout's routers as upkeep sees them, by index: their flags, their
   * upstream router, the column offset of their region, the pool of their
   * region's available states, and a buffer router's view grid.
   */
  datatype Tree = Tree(flags: seq<RouterFlags>, up: seq<Option<nat>>, offset: seq<int>, pool: seq<nat>, geom: seq<Geom>)

  /** `c` was configured from the tree's routers, which list every router after its upstream router. */
  predicate Fitted(c: Config, t: Tree, n: nat)
  {
    Shaped(t, n) && Configure(t.flags, c.option, c.regWidth) == Some(c)
  }

  /** The tables of `t` agree in length, parents are above children, and every upkeep buffer lies on an arena of `n` patches. */
  predicate Shaped(t: Tree, n: nat)
  {
    |t.up| == |t.flags| && |t.offset| == |t.flags| && |t.pool| == |t.flags| && |t.geom| == |t.flags|
    && Upward(t.up)
    && forall b | 0 <= b < |t.flags| && t.flags[b].upkeepAccept :: GeomOk(t.geom[b], n)
  }

  function Accepting(t: Tree): (a: seq<bool>)
    ensures |a| == |t.flags| && forall k | 0 <= k < |t.flags| :: a[k] == t.flags[k].upkeepAccept
  {
    seq(|t.flags|, k requires 0 <= k < |t.flags| => t.flags[k].upkeepAccept)
  }

  /** Every pooled state names a patch of an arena of `n` patches. */
  predicate StatesIn(states: map<nat, set<PatchId>>, n: nat)
  {
    forall k, p | k in states && p in states[k] :: p < n
  }

  lemma EffectKeepsStatesIn(magic: Option<PatchId>, slot: Option<Callback>, holds: Option<seq<PatchId>>,
                            cells: seq<Patch>, states: map<nat, set<PatchId>>)
    requires magic.Some? ==> magic.value < |cells|
    requires holds.Some? ==> InRange(holds.value, |cells|)
    requires StatesIn(states, |cells|)
    ensures var r := ActivateEffect(magic, slot, holds, cells, states);
      r.Some? ==> |r.value.0| == |cells| && StatesIn(r.value.1, |cells|)
  {
    var used := if magic.Some? then UseAt(cells, magic.value) else Some(cells);
    if used.Some? && slot.Some? && !slot.value.NoCallback? {
      var r := RunCallback(slot.value, magic, holds, used.value, states);
      if r.Some? {
        assert StatesIn(r.value.1, |cells|);
      }
    }
  }

  /** Activating a list only ever takes states out of a pool or puts a member's magic state back. */
  lemma {:induction false} ActivateKeepsStatesIn(ms: seq<Transaction>, snaps: seq<TxState>, cells: seq<Patch>, states: map<nat, set<PatchId>>)
    requires |snaps| == |ms|
    requires forall i | 0 <= i < |ms| :: ms[i].Fits(|cells|) && (snaps[i].lock != null ==> InRange(snaps[i].lock.holds, |cells|))
    requires StatesIn(states, |cells|)
    ensures var r := ActivateAll(ms, snaps, cells, states); r.Some? ==> StatesIn(r.value.1, |cells|)
    decreases |ms|
  {
    if ms != [] {
      assert ms[0].Fits(|cells|);
      var holds := if snaps[0].lock != null then Some(snaps[0].lock.holds) else None;
      EffectKeepsStatesIn(ms[0].magicState, snaps[0].onActivate, holds, cells, states);
      match ActivateEffect(ms[0].magicState, snaps[0].onActivate, holds, cells, states)
      case None =>
      case Some(e) =>
        assert forall i | 0 <= i < |ms| - 1 :: ms[1..][i] == ms[i + 1] && snaps[1..][i] == snaps[i + 1];
        ActivateKeepsStatesIn(ms[1..], snaps[1..], e.0, e.1);
    }
  }

  /**
   * An upkeep gate: a move gate of `dur` passes that holds its transaction
   * list, with every member locked for it, and moves its state to the first
   * measure patch of the list's last member.
   */
  ghost predicate Moving(g: Gate, dur: int)
    reads g, g.Footprint()
  {
    Started(g, dur)
    && (forall i | 0 <= i < |g.transaction.members| ::
          g.transaction.members[i].lock != null && g.transaction.members[i].lock.owner == g)
  }

  /**
   * The part of `Moving` that lives in the gate itself: a move gate of `dur`
   * passes holding a list whose last member's first measure patch is its target.
   */
  predicate Started(g: Gate, dur: int)
    reads g
  {
    g.kind.MoveGate? && g.Timing() == Start(dur, 0) && g.transaction != null
    && |g.transaction.members| >= 1
    && |g.transaction.members[|g.transaction.members| - 1].measurePatches| >= 1
    && g.moveTarget == Some(g.transaction.members[|g.transaction.members| - 1].measurePatches[0])
  }

  /** How the climb from a factory to the router below its buffer ends. */
  datatype Ascent =
      /** At `router`, whose upstream router is the buffer, entered from `patch`, with the hops made. */
    | Reached(router: nat, patch: PatchId, hops: seq<Proposal>)
      /** A router on the way refused. */
    | Blocked
      /** The climb passed the top router, or a router gave what no response can be; both raise. */
    | Fell

  /**
   * The climb of `upkeep` from router `cur`, entered from `patch`, up to the
   * router just below the buffer `buf`: each router on the way is asked for a
   * straight path up its column.
   */
  function Ascend(t: Tree, respond: Respond, cells: seq<Patch>, cur: nat, buf: nat, patch: PatchId): (a: Ascent)
    requires |t.offset| == |t.up| && Upward(t.up) && cur < |t.up| && patch < |cells|
    ensures a.Reached? ==>
      a.router < |t.up| && t.up[a.router] == Some(buf) && a.patch < |cells|
      && forall k | 0 <= k < |a.hops| :: ProposalIn(a.hops[k], |cells|)
    ensures t.up[cur] == Some(buf) ==> a == Reached(cur, patch, [])
    decreases cur
  {
    if t.up[cur] == Some(buf) then Reached(cur, patch, [])
    else
      var col := cells[patch].x - t.offset[cur];
      var resp := respond(cells, Hop(cur, col, col));
      if !resp.status.Truthy() then Blocked
      else if !WellFormed(resp, |cells|) || t.up[cur].None? then Fell
      else
        Prefixed([resp.transaction.value], Ascend(t, respond, cells, t.up[cur].value, buf, resp.upstream.value))
  }

  function Prefixed(hs: seq<Proposal>, a: Ascent): (r: Ascent)
    ensures r.Reached? <==> a.Reached?
    ensures a.Reached? ==> r.router == a.router && r.patch == a.patch && r.hops == hs + a.hops
    ensures !a.Reached? ==> r == a
  {
    if a.Reached? then Reached(a.router, a.patch, hs + a.hops) else a
  }

  /** The climb loop of `upkeep`. */
  method Climb(t: Tree, respond: Respond, cells: seq<Patch>, start: nat, buf: nat, patch0: PatchId) returns (a: Ascent)
    requires |t.offset| == |t.up| && Upward(t.up) && start < |t.up| && patch0 < |cells|
    ensures a == Ascend(t, respond, cells, start, buf, patch0)
  {
    var cur: nat, patch: PatchId, hops: seq<Proposal> := start, patch0, [];
    while t.up[cur] != Some(buf)
      invariant cur < |t.up| && patch < |cells|
      invariant Ascend(t, respond, cells, start, buf, patch0) == Prefixed(hops, Ascend(t, respond, cells, cur, buf, patch))
      decreases cur
    {
      var col := cells[patch].x - t.offset[cur];
      var resp := respond(cells, Hop(cur, col, col));
      if !resp.status.Truthy() {
        return Blocked;
      }
      if !WellFormed(resp, |cells|) || t.up[cur].None? {
        return Fell;
      }
      hops := hops + [resp.transaction.value];
      patch := resp.upstream.value;
      cur := t.up[cur].value;
    }
    return Reached(cur, patch, hops);
  }

  /** The slots of a buffer's view, as `get_buffer_slots` lists them: slot `c` lies in column `c`. */
  predicate SlotsFit(slots: seq<Option<Pos>>, geo: Geom)
  {
    |slots| == geo.w && forall c | 0 <= c < |slots| && slots[c].Some? :: slots[c].value.col == c && 0 <= slots[c].value.row < geo.h
  }

  /** The plan for one state: nothing to do, a route into the slot of column `col`, or an exception. */
  datatype Plan = Skip | Go(route: seq<Proposal>, col: nat) | Break

  /** The move `upkeep_transaction` proposes into a slot of the buffer. */
  function FillMove(geo: Geom, slot: Pos): (p: Proposal)
    requires Rect(geo.g, geo.h, geo.w) && 0 <= slot.row < geo.h && 0 <= slot.col < geo.w
    ensures p.measure == [At(geo.g, slot)] && p.connectCol == Some(slot.col) && p.magic.None?
    ensures |p.move| == geo.h - slot.row && p.move[|p.move| - 1] == At(geo.g, slot)
  {
    RechargeableRouters.UpkeepMove(geo.g, geo.h, slot)
  }

  /**
   * One state of a factory, on values: the factory's path out from it, the
   * free slot nearest the column it arrives at, the climb, the bus path to
   * the slot's column and the move into the slot, checked for contiguity.
   */
  method PlanFeed(t: Tree, respond: Respond, cells: seq<Patch>, f: nat, buf: nat, p: PatchId, slots: seq<Option<Pos>>)
    returns (plan: Plan)
    requires |t.offset| == |t.up| && |t.geom| == |t.up| && Upward(t.up)
    requires f < |t.up| && t.up[f].Some? && buf < |t.up| && p < |cells|
    requires GeomOk(t.geom[buf], |cells|) && SlotsFit(slots, t.geom[buf])
    ensures !TAvailable(cells[p]) || !respond(cells, Probe(f, cells[p].localX)).status.Truthy() ==> plan == Skip
    ensures plan.Go? ==>
      var fresp := respond(cells, Probe(f, cells[p].localX));
      TAvailable(cells[p]) && fresp.status.Truthy() && WellFormed(fresp, |cells|)
      && plan.col < |slots| && slots[plan.col].Some?
      && |plan.route| >= 3 && plan.route[0] == fresp.transaction.value
      && plan.route[|plan.route| - 1] == FillMove(t.geom[buf], slots[plan.col].value)
      && ProposalsIn(plan.route, |cells|)
      && MovesIn(Moves(plan.route), |cells|) && InRange(Joined(Moves(plan.route)), |cells|)
      && StrategySearch.Contiguous(cells, Joined(Moves(plan.route)))
  {
    var geo := t.geom[buf];
    if !TAvailable(cells[p]) {
      return Skip;
    }
    var fresp := respond(cells, Probe(f, cells[p].localX));
    if !fresp.status.Truthy() {
      return Skip;
    }
    if !WellFormed(fresp, |cells|) {
      return Break;
    }
    var pick := GetClosest(slots, cells[fresp.upstream.value].x - t.offset[buf]);
    if pick.BadColumn? {
      return Break;
    }
    if pick.NoSlot? {
      return Skip;
    }
    var slot := slots[pick.index].value;
    var fill := FillMove(geo, slot);
    var target := At(geo.g, slot);
    var a := Climb(t, respond, cells, t.up[f].value, buf, fresp.upstream.value);
    if !a.Reached? {
      return if a.Blocked? then Skip else Break;
    }
    var bresp := respond(cells, Hop(a.router, cells[a.patch].x - t.offset[a.router], cells[target].x - t.offset[a.router]));
    if !bresp.status.Truthy() {
      return Skip;
    }
    if !WellFormed(bresp, |cells|) {
      return Break;
    }
    var route := [fresp.transaction.value] + a.hops + [bresp.transaction.value, fill];
    FillIn(geo, slot, |cells|);
    JoinIn(fresp.transaction.value, a.hops, bresp.transaction.value, fill, |cells|);
    RouteIn(route, |cells|);
    var ok := Validate(cells, Moves(route));
    if !ok {
      return Break;
    }
    return Go(route, pick.index);
  }

  /** The move into a slot names patches of the arena. */
  lemma FillIn(geo: Geom, slot: Pos, n: nat)
    requires GeomOk(geo, n) && 0 <= slot.row < geo.h && 0 <= slot.col < geo.w
    ensures ProposalIn(FillMove(geo, slot), n)
  {
    var path := ColumnUp(slot.col, geo.h - 1, slot.row);
    assert AllIn(geo.g, path);
    IdsAtInRange(geo.g, path, n);
  }

  /** A route of proposals in range, joined from the factory's, the climb's, the bus's and the fill. */
  lemma JoinIn(first: Proposal, hops: seq<Proposal>, bus: Proposal, fill: Proposal, n: nat)
    requires ProposalIn(first, n) && ProposalIn(bus, n) && ProposalIn(fill, n)
    requires forall k | 0 <= k < |hops| :: ProposalIn(hops[k], n)
    ensures ProposalsIn([first] + hops + [bus, fill], n)
  {
    var route := [first] + hops + [bus, fill];
    forall k | 0 <= k < |route| ensures ProposalIn(route[k], n) {
      if 0 < k < |route| - 2 { assert route[k] == hops[k - 1]; }
    }
  }

  /** What one state of a factory gives: nothing, a gate filling the slot of column `col`, or an exception. */
  datatype Feed = Skipped | Fed(gate: Gate, col: nat) | Broke

  /**
   * One state of `upkeep`'s loop over a factory's states: plan the route on
   * the arena as it is, then lock it for a new move gate whose target is the
   * slot.  A failed activation raises.
   */
  method FeedState(t: Tree, respond: Respond, f: nat, buf: nat, p: PatchId, slots: seq<Option<Pos>>, d: Device)
    returns (r: Feed, ghost route: seq<Proposal>)
    requires d.Valid() && Shaped(t, |d.cells|) && StatesIn(d.states, |d.cells|)
    requires f < |t.up| && t.up[f].Some? && buf < |t.up| && t.flags[buf].upkeepAccept && p < |d.cells|
    requires SlotsFit(slots, t.geom[buf])
    modifies d
    ensures d.Valid() && |d.cells| == |old(d.cells)|
    ensures !r.Broke? ==> StatesIn(d.states, |d.cells|)
    ensures r.Skipped? ==> unchanged(d)
    ensures !TAvailable(old(d.cells)[p]) ==> r.Skipped?
    ensures r.Fed? ==>
      fresh(r.gate) && Moving(r.gate, 2) && r.col < |slots| && slots[r.col].Some?
      && r.gate.moveTarget == Some(At(t.geom[buf].g, slots[r.col].value))
      && TAvailable(old(d.cells)[p])
      && |route| >= 3 && respond(old(d.cells), Probe(f, old(d.cells)[p].localX)).transaction == Some(route[0])
      && route[|route| - 1] == FillMove(t.geom[buf], slots[r.col].value)
      && Route(r.gate.transaction.members) == Moves(route)
      && MovesIn(Moves(route), |old(d.cells)|) && InRange(Joined(Moves(route)), |old(d.cells)|)
      && StrategySearch.Contiguous(old(d.cells), Joined(Moves(route)))
  {
    var plan := PlanFeed(t, respond, d.cells, f, buf, p, slots);
    route := [];
    if plan.Skip? {
      return Skipped, route;
    } else if plan.Break? {
      return Broke, route;
    }
    route := plan.route;
    var g := Launch(plan.route, 2, d);
    if g.None? {
      return Broke, route;
    }
    return Fed(g.value, plan.col), route;
  }

  /**
   * A new move gate of `dur` passes, activated on a list of fresh
   * transactions made from `route`, with the first measure patch of the last
   * as target (`None` where the activation raises).
   */
  method Launch(route: seq<Proposal>, dur: int, d: Device) returns (g: Option<Gate>)
    requires d.Valid() && StatesIn(d.states, |d.cells|) && ProposalsIn(route, |d.cells|)
    requires |route| >= 1 && |route[|route| - 1].measure| >= 1
    modifies d
    ensures d.Valid() && |d.cells| == |old(d.cells)|
    ensures g.Some? ==> StatesIn(d.states, |d.cells|)
    ensures g.Some? ==>
      fresh(g.value) && Moving(g.value, dur) && Route(g.value.transaction.members) == Moves(route)
      && g.value.moveTarget == Some(route[|route| - 1].measure[0])
  {
    var tl := BuildList(route, |d.cells|);
    g := StartMove(tl, dur, d);
  }

  /**
   * A new move gate of `dur` passes activated on the fresh list `tl`, with
   * the first measure patch of its last member as target.
   */
  method StartMove(tl: TransactionList, dur: int, d: Device) returns (g: Option<Gate>)
    requires d.Valid() && StatesIn(d.states, |d.cells|)
    requires tl.Distinct() && tl.FitsNow(|d.cells|) && tl.activeCells == []
    requires |tl.members| >= 1 && |tl.members[|tl.members| - 1].measurePatches| >= 1
    requires forall k | 0 <= k < |tl.members| :: tl.members[k].lock == null
    modifies d, tl, tl.Objects()
    ensures d.Valid() && |d.cells| == |old(d.cells)|
    ensures g.Some? ==> StatesIn(d.states, |d.cells|)
    ensures g.Some? ==>
      fresh(g.value) && Moving(g.value, dur) && g.value.transaction == tl
      && g.value.moveTarget == Some(tl.members[|tl.members| - 1].measurePatches[0])
  {
    ghost var cells0, states0 := d.cells, d.states;
    var gate := new Gate.NewMove(dur);
    var last := tl.members[|tl.members| - 1];
    ghost var snaps := tl.Snapshots();
    var ok := gate.Activate(tl, Some(last.measurePatches[0]), d);
    if !ok {
      return None;
    }
    ActivateKeepsStatesIn(tl.members, snaps, cells0, states0);
    assert Started(gate, dur);
    assert forall i | 0 <= i < |tl.members| :: tl.members[i].lock != null && tl.members[i].lock.owner == gate;
    return Some(gate);
  }

  /** `list(s)`: the members of a set, each once, in an order the set does not fix. */
  method Listed(s: set<PatchId>) returns (xs: seq<PatchId>)
    ensures forall p :: p in xs <==> p in s
    ensures forall i, j | 0 <= i < j < |xs| :: xs[i] != xs[j]
  {
    xs := [];
    var rest := s;
    while rest != {}
      invariant forall p :: p in s <==> p in xs || p in rest
      invariant forall p | p in xs :: p !in rest
      invariant forall i, j | 0 <= i < j < |xs| :: xs[i] != xs[j]
      decreases |rest|
    {
      var x :| x in rest;
      xs := xs + [x];
      rest := rest - {x};
    }
  }

  /** Slots in different columns are different patches. */
  lemma DistinctSlots(geo: Geom, slots: seq<Option<Pos>>, a: nat, b: nat)
    requires GeomOk(geo, 0) || (Rect(geo.g, geo.h, geo.w) && Injective(geo.g))
    requires SlotsFit(slots, geo) && a < |slots| && b < |slots| && slots[a].Some? && slots[b].Some? && a != b
    ensures At(geo.g, slots[a].value) != At(geo.g, slots[b].value)
  {
    var pa, pb := slots[a].value, slots[b].value;
    assert InGrid(geo.g, pa) && InGrid(geo.g, pb) && pa.col != pb.col;
  }

  /**
   * The gates of one factory: gate `k` fills the slot of column `cols[k]`
   * of the buffer, as the slots stood before any was filled.
   */
  ghost predicate FilledSlots(gs: seq<Gate>, cols: seq<nat>, geo: Geom, slots0: seq<Option<Pos>>)
    reads set k | 0 <= k < |gs| :: gs[k]
  {
    |cols| == |gs|
    && forall k | 0 <= k < |gs| ::
         cols[k] < |slots0| && slots0[cols[k]].Some? && InGrid(geo.g, slots0[cols[k]].value)
         && gs[k].moveTarget == Some(At(geo.g, slots0[cols[k]].value))
  }

  /**
   * The state of the loop over one factory's states: the slots still free
   * are those of `slots0` not yet filled, each gate has filled a slot of its
   * own, and each is a started move gate of two passes.
   */
  ghost predicate Filling(gs: seq<Gate>, cols: seq<nat>, slots: seq<Option<Pos>>, slots0: seq<Option<Pos>>, geo: Geom)
    reads set k | 0 <= k < |gs| :: gs[k]
  {
    SlotsFit(slots, geo) && |slots| == |slots0|
    && (forall k | 0 <= k < |slots| && slots[k].Some? :: slots[k] == slots0[k])
    && FilledSlots(gs, cols, geo, slots0)
    && (forall k | 0 <= k < |gs| :: slots[cols[k]].None?)
    && (forall k, l | 0 <= k < l < |gs| :: cols[k] != cols[l])
    && (forall k | 0 <= k < |gs| :: Started(gs[k], 2))
  }

  /** Filling the free slot of column `col` with gate `g` and striking it off keeps the loop's state. */
  lemma Record(gs: seq<Gate>, cols: seq<nat>, slots: seq<Option<Pos>>, slots0: seq<Option<Pos>>, geo: Geom, g: Gate, col: nat)
    requires Filling(gs, cols, slots, slots0, geo) && Rect(geo.g, geo.h, geo.w)
    requires col < |slots| && slots[col].Some? && Started(g, 2)
    requires g.moveTarget == Some(At(geo.g, slots[col].value))
    ensures Filling(gs + [g], cols + [col], slots[col := None], slots0, geo)
  {
    var gs', cols', slots' := gs + [g], cols + [col], slots[col := None];
    forall k | 0 <= k < |gs'|
      ensures cols'[k] < |slots0| && slots0[cols'[k]].Some? && InGrid(geo.g, slots0[cols'[k]].value)
      ensures gs'[k].moveTarget == Some(At(geo.g, slots0[cols'[k]].value))
      ensures slots'[cols'[k]].None? && Started(gs'[k], 2)
    {
      if k < |gs| {
        assert gs'[k] == gs[k] && cols'[k] == cols[k];
      }
    }
    forall k, l | 0 <= k < l < |gs'| ensures cols'[k] != cols'[l] {
      if l < |gs| {
        assert cols'[k] == cols[k] && cols'[l] == cols[l];
      } else {
        assert slots[cols[k]].None?;
      }
    }
  }

  /**
   * The part of `upkeep` for one factory: the topmost buffer above it, and,
   * if there is one and the factory has states, one attempt per state to move
   * it into the nearest free slot of that buffer.
   */
  method UpkeepFactory(t: Tree, respond: Respond, f: nat, d: Device) returns (r: Option<seq<Gate>>)
    requires d.Valid() && Shaped(t, |d.cells|) && StatesIn(d.states, |d.cells|) && f < |t.up|
    modifies d
    ensures d.Valid() && |d.cells| == |old(d.cells)|
    ensures r.Some? ==> StatesIn(d.states, |d.cells|)
    ensures (t.up[f].None? || TopFrom(t.up, Accepting(t), t.up[f].value).None? || Pool(old(d.states), t.pool[f]) == {}) ==>
      r == Some([]) && unchanged(d)
    ensures r.Some? ==> forall i | 0 <= i < |r.value| :: fresh(r.value[i]) && Started(r.value[i], 2)
    ensures r.Some? ==> forall i, j | 0 <= i < j < |r.value| :: r.value[i].moveTarget != r.value[j].moveTarget
  {
    var accept := Accepting(t);
    var top := Topmost(t.up, accept, f);
    if top.None? {
      return Some([]);
    }
    var buf := top.value;
    TopFromFacts(t.up, accept, t.up[f].value);
    var pool := Pool(d.states, t.pool[f]);
    if pool == {} {
      return Some([]);
    }
    var geo := t.geom[buf];
    var slots := Buffers.BufferSlots(d.cells, geo.g, geo.h, geo.w);
    var states := Listed(pool);
    forall i | 0 <= i < |states| ensures states[i] < |d.cells| {
      assert states[i] in pool;
    }
    r := FeedAll(t, respond, f, buf, states, slots, d);
  }

  /**
   * The loop of `upkeep` over the states of one factory: each is moved into
   * the nearest free slot of the buffer `buf`, and a slot that is filled is
   * struck off, so the moves fill different slots.
   */
  method FeedAll(t: Tree, respond: Respond, f: nat, buf: nat, states: seq<PatchId>, slots0: seq<Option<Pos>>, d: Device)
    returns (r: Option<seq<Gate>>)
    requires d.Valid() && Shaped(t, |d.cells|) && StatesIn(d.states, |d.cells|)
    requires f < |t.up| && t.up[f].Some? && buf < |t.up| && t.flags[buf].upkeepAccept
    requires InRange(states, |d.cells|) && SlotsFit(slots0, t.geom[buf])
    modifies d
    ensures d.Valid() && |d.cells| == |old(d.cells)|
    ensures r.Some? ==> StatesIn(d.states, |d.cells|)
    ensures r.Some? ==> forall i | 0 <= i < |r.value| :: fresh(r.value[i]) && Started(r.value[i], 2)
    ensures r.Some? ==> forall i, j | 0 <= i < j < |r.value| :: r.value[i].moveTarget != r.value[j].moveTarget
  {
    var geo := t.geom[buf];
    var slots := slots0;
    var gates: seq<Gate> := [];
    ghost var cols: seq<nat> := [];
    for i := 0 to |states|
      invariant d.Valid() && |d.cells| == |old(d.cells)| && StatesIn(d.states, |d.cells|)
      invariant Filling(gates, cols, slots, slots0, geo)
      invariant forall k | 0 <= k < |gates| :: fresh(gates[k])
    {
      var broke;
      ghost var before := gates;
      gates, cols, slots, broke := FeedNext(t, respond, f, buf, states[i], gates, cols, slots, slots0, d);
      if broke {
        return None;
      }
      assert forall k | 0 <= k < |before| :: gates[k] == before[k];
    }
    forall k, l | 0 <= k < l < |gates| ensures gates[k].moveTarget != gates[l].moveTarget {
      DistinctSlots(geo, slots0, cols[k], cols[l]);
    }
    return Some(gates);
  }

  /**
   * One pass of the loop over a factory's states: feed the state `p` and,
   * when a gate fills a slot, record it and strike the slot off.
   */
  method FeedNext(t: Tree, respond: Respond, f: nat, buf: nat, p: PatchId, gates: seq<Gate>, ghost cols: seq<nat>,
                  slots: seq<Option<Pos>>, ghost slots0: seq<Option<Pos>>, d: Device)
    returns (gates': seq<Gate>, ghost cols': seq<nat>, slots': seq<Option<Pos>>, broke: bool)
    requires d.Valid() && Shaped(t, |d.cells|) && StatesIn(d.states, |d.cells|)
    requires f < |t.up| && t.up[f].Some? && buf < |t.up| && t.flags[buf].upkeepAccept && p < |d.cells|
    requires Filling(gates, cols, slots, slots0, t.geom[buf])
    modifies d
    ensures d.Valid() && |d.cells| == |old(d.cells)|
    ensures !broke ==> StatesIn(d.states, |d.cells|) && Filling(gates', cols', slots', slots0, t.geom[buf])
    ensures !broke ==> |gates| <= |gates'| && (forall k | 0 <= k < |gates| :: gates'[k] == gates[k])
    ensures !broke ==> forall k | |gates| <= k < |gates'| :: fresh(gates'[k])
  {
    var fed, _ := FeedState(t, respond, f, buf, p, slots, d);
    assert Filling(gates, cols, slots, slots0, t.geom[buf]);
    gates', cols', slots', broke := gates, cols, slots, false;
    match fed {
      case Skipped =>
      case Broke =>
        broke := true;
      case Fed(g, col) =>
        Record(gates, cols, slots, slots0, t.geom[buf], g, col);
        gates', cols', slots' := gates + [g], cols + [col], slots[col := None];
    }
  }

  /**
   * The local part of `upkeep` for one buffer: the local moves of
   * `all_local_upkeep_transactions`, listed on the arena before any of them
   * is activated, each locked for a move gate of one pass with the cell
   * above its state as target.
   */
  method LocalUpkeep(geo: Geom, d: Device) returns (r: Option<seq<Gate>>, ghost sites: seq<Pos>)
    requires d.Valid() && GeomOk(geo, |d.cells|) && StatesIn(d.states, |d.cells|)
    modifies d
    ensures d.Valid() && |d.cells| == |old(d.cells)|
    ensures r.Some? ==> StatesIn(d.states, |d.cells|)
    ensures sites == RechargeableRouters.Shifts(old(d.cells), geo.g, geo.w, geo.h)
    ensures r.Some? ==> |r.value| == |sites|
    ensures r.Some? ==> (forall i | 0 <= i < |r.value| :: fresh(r.value[i])) && Shifted(r.value, old(d.cells), geo.g, sites)
  {
    var moves;
    moves, sites := RechargeableRouters.AllLocalUpkeep(d.cells, geo.g, geo.h, geo.w);
    r := LaunchShifts(d.cells, geo, sites, moves, d);
  }

  /** The loop of `upkeep` over the local moves of one buffer, planned on `cells0`. */
  method LaunchShifts(ghost cells0: seq<Patch>, geo: Geom, ghost sites: seq<Pos>, moves: seq<Proposal>, d: Device)
    returns (r: Option<seq<Gate>>)
    requires d.Valid() && GeomOk(geo, |d.cells|) && StatesIn(d.states, |d.cells|) && |cells0| == |d.cells|
    requires |moves| == |sites|
    requires forall i | 0 <= i < |sites| ::
      RechargeableRouters.CanShift(cells0, geo.g, sites[i]) && moves[i] == RechargeableRouters.ShiftMove(cells0, geo.g, sites[i])
    modifies d
    ensures d.Valid() && |d.cells| == |old(d.cells)|
    ensures r.Some? ==> StatesIn(d.states, |d.cells|)
    ensures r.Some? ==> |r.value| == |sites|
    ensures r.Some? ==> (forall i | 0 <= i < |r.value| :: fresh(r.value[i])) && Shifted(r.value, cells0, geo.g, sites)
  {
    var gates: seq<Gate> := [];
    for i := 0 to |moves|
      invariant d.Valid() && |d.cells| == |old(d.cells)| && StatesIn(d.states, |d.cells|)
      invariant |gates| == i
      invariant forall k | 0 <= k < i :: fresh(gates[k])
      invariant Shifted(gates, cells0, geo.g, sites)
    {
      var g := ShiftGate(gates, cells0, geo, sites, moves[i], d);
      if g.None? {
        return None;
      }
      gates := gates + [g.value];
    }
    return Some(gates);
  }

  /**
   * One local move: a move gate of one pass for the state at the next of
   * the `sites`, added to the gates made so far for the ones before it.
   */
  method ShiftGate(gates: seq<Gate>, ghost cells0: seq<Patch>, geo: Geom, ghost sites: seq<Pos>, m: Proposal, d: Device)
    returns (g: Option<Gate>)
    requires d.Valid() && StatesIn(d.states, |d.cells|) && GeomOk(geo, |d.cells|) && |cells0| == |d.cells|
    requires |gates| < |sites| && Shifted(gates, cells0, geo.g, sites)
    requires RechargeableRouters.CanShift(cells0, geo.g, sites[|gates|])
    requires m == RechargeableRouters.ShiftMove(cells0, geo.g, sites[|gates|])
    modifies d
    ensures d.Valid() && |d.cells| == |old(d.cells)|
    ensures g.Some? ==> StatesIn(d.states, |d.cells|)
    ensures g.Some? ==> fresh(g.value) && Shifted(gates + [g.value], cells0, geo.g, sites)
  {
    assert ProposalsIn([m], |d.cells|);
    g := Launch([m], 1, d);
    if g.Some? {
      ShiftedSnoc(gates, cells0, geo.g, sites, g.value);
    }
  }

  /** Gate `k` of `gs` is a started move gate of one pass making the local shift at `sites[k]`. */
  predicate Shifted(gs: seq<Gate>, cells: seq<Patch>, g: Grid, sites: seq<Pos>)
    reads set k | 0 <= k < |gs| :: gs[k]
  {
    |gs| <= |sites| && Holds(g, |cells|)
    && forall k | 0 <= k < |gs| ::
         Started(gs[k], 1) && RechargeableRouters.CanShift(cells, g, sites[k])
         && Route(gs[k].transaction.members) == [RechargeableRouters.ShiftMove(cells, g, sites[k]).move]
  }

  lemma ShiftedSnoc(gs: seq<Gate>, cells: seq<Patch>, g: Grid, sites: seq<Pos>, x: Gate)
    requires Shifted(gs, cells, g, sites) && |gs| < |sites| && RechargeableRouters.CanShift(cells, g, sites[|gs|])
    requires Started(x, 1) && Route(x.transaction.members) == [RechargeableRouters.ShiftMove(cells, g, sites[|gs|]).move]
    ensures Shifted(gs + [x], cells, g, sites)
  {
    forall k | 0 <= k < |gs| + 1
      ensures Started((gs + [x])[k], 1) && RechargeableRouters.CanShift(cells, g, sites[k])
      ensures Route((gs + [x])[k].transaction.members) == [RechargeableRouters.ShiftMove(cells, g, sites[k]).move]
    {
      if k < |gs| {
        assert (gs + [x])[k] == gs[k];
      }
    }
  }

  /**
   * `upkeep`: nothing when no router accepts upkeep; otherwise the moves of
   * every factory into its topmost buffer, in factory order, then the local
   * moves of every buffer, in buffer order.  The first `nonlocal` gates are
   * the factories' moves.
   */
  method Upkeep(c: Config, t: Tree, respond: Respond, d: Device) returns (r: Option<seq<Gate>>, ghost nonlocal: nat)
    requires d.Valid() && Fitted(c, t, |d.cells|) && StatesIn(d.states, |d.cells|)
    modifies d
    ensures d.Valid() && |d.cells| == |old(d.cells)|
    ensures !c.needsUpkeep ==> r == Some([]) && unchanged(d)
    ensures r.Some? ==> nonlocal <= |r.value|
    ensures r.Some? ==> forall i | 0 <= i < |r.value| :: fresh(r.value[i]) && Started(r.value[i], if i < nonlocal then 2 else 1)
  {
    nonlocal := 0;
    if !c.needsUpkeep {
      return Some([]), nonlocal;
    }
    var gates := FactoryMoves(c, t, respond, d);
    if gates.None? {
      return None, nonlocal;
    }
    nonlocal := |gates.value|;
    var geos := BufferGeoms(c, t, |d.cells|);
    var local := BufferMoves(geos, d);
    if local.None? {
      return None, nonlocal;
    }
    r := Some(gates.value + local.value);
  }

  /** The geometries of the upkeep buffers, in buffer order. */
  function BufferGeoms(c: Config, t: Tree, n: nat): (geos: seq<Geom>)
    requires Fitted(c, t, n)
    ensures |geos| == |c.buffers|
    ensures forall i | 0 <= i < |geos| :: c.buffers[i] < |t.geom| && geos[i] == t.geom[c.buffers[i]] && GeomOk(geos[i], n)
  {
    assert forall i | 0 <= i < |c.buffers| :: c.buffers[i] in c.buffers;
    seq(|c.buffers|, i requires 0 <= i < |c.buffers| => t.geom[c.buffers[i]])
  }

  /** The moves of every factory into its topmost buffer, in factory order. */
  method FactoryMoves(c: Config, t: Tree, respond: Respond, d: Device) returns (r: Option<seq<Gate>>)
    requires d.Valid() && Fitted(c, t, |d.cells|) && StatesIn(d.states, |d.cells|)
    modifies d
    ensures d.Valid() && |d.cells| == |old(d.cells)|
    ensures r.Some? ==> StatesIn(d.states, |d.cells|)
    ensures r.Some? ==> forall i | 0 <= i < |r.value| :: fresh(r.value[i]) && Started(r.value[i], 2)
  {
    var gates: seq<Gate> := [];
    for i := 0 to |c.factories|
      invariant d.Valid() && |d.cells| == |old(d.cells)| && StatesIn(d.states, |d.cells|)
      invariant forall k | 0 <= k < |gates| :: fresh(gates[k]) && Started(gates[k], 2)
    {
      assert c.factories[i] in c.factories;
      var more := UpkeepFactory(t, respond, c.factories[i], d);
      if more.None? {
        return None;
      }
      gates := gates + more.value;
    }
    return Some(gates);
  }

  /** The local moves of every buffer, in buffer order. */
  method BufferMoves(geos: seq<Geom>, d: Device) returns (r: Option<seq<Gate>>)
    requires d.Valid() && StatesIn(d.states, |d.cells|) && forall i | 0 <= i < |geos| :: GeomOk(geos[i], |d.cells|)
    modifies d
    ensures d.Valid() && |d.cells| == |old(d.cells)|
    ensures r.Some? ==> forall i | 0 <= i < |r.value| :: fresh(r.value[i]) && Started(r.value[i], 1)
  {
    var gates: seq<Gate> := [];
    for i := 0 to |geos|
      invariant d.Valid() && |d.cells| == |old(d.cells)| && StatesIn(d.states, |d.cells|)
      invariant forall k | 0 <= k < |gates| :: fresh(gates[k]) && Started(gates[k], 1)
    {
      var more, _ := LocalUpkeep(geos[i], d);
      if more.None? {
        return None;
      }
      assert forall k | 0 <= k < |more.value| :: Started(more.value[k], 1);
      gates := gates + more.value;
    }
    return Some(gates);
  }
}
