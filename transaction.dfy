/**
 * Transactions: the patches one gate operation must reserve, in two phases
 * (the move patches while the operation runs, the measure patches while its
 * correction runs), plus the bookkeeping the router that proposed it asks for
 * when it is activated and when it is unlocked.  A transaction list (the
 * route of one gate across several regions) fans every operation out to its
 * members, in order.
 */
module Transactions {
  import opened Wrappers
  import opened Patches

  /**
   * The closures routers attach to a transaction, as data.  `pool` names the
   * region whose `available_states` set is touched.
   */
  datatype Callback =
    | NoCallback
      /** Remove the magic-state patch from the pool; fails if it is not there. */
    | RemoveMagicState(pool: nat)
      /** Put the magic-state patch (a factory output) back into the pool if it still holds a T. */
    | RestoreMagicState(pool: nat)
      /** Release every patch held by the current lock (a cultivator buffer's `release_cells`). */
    | ReleaseHeldCells

  /** What a router hands back: the arguments of the Transaction constructor. */
  datatype Proposal = Proposal(
    move: seq<PatchId>,
    measure: seq<PatchId>,
    connectCol: Option<int>,
    magic: Option<PatchId>,
    onActivate: Callback,
    onUnlock: Callback)

  /** A pool missing from the map is an empty pool. */
  function Pool(states: map<nat, set<PatchId>>, pool: nat): set<PatchId>
  {
    if pool in states then states[pool] else {}
  }

  /** The effect of running one callback; `None` where the source raises. */
  function RunCallback(cb: Callback, magic: Option<PatchId>, holds: Option<seq<PatchId>>,
                       cells: seq<Patch>, states: map<nat, set<PatchId>>): (r: Option<(seq<Patch>, map<nat, set<PatchId>>)>)
    requires magic.Some? ==> magic.value < |cells|
    requires holds.Some? ==> InRange(holds.value, |cells|)
    ensures r.Some? ==> SameLocks(cells, r.value.0)
    ensures cb.RemoveMagicState? ==>
      (r.Some? <==> magic.Some? && magic.value in Pool(states, cb.pool))
      && (r.Some? ==> Pool(r.value.1, cb.pool) == Pool(states, cb.pool) - {magic.value})
    ensures cb.RestoreMagicState? && r.Some? ==>
      magic.Some? && (magic.value in Pool(r.value.1, cb.pool) <==> magic.value in Pool(states, cb.pool) || cells[magic.value].tCount > 0)
    ensures !cb.ReleaseHeldCells? && r.Some? ==> r.value.0 == cells
  {
    match cb
    case NoCallback => Some((cells, states))
    case RemoveMagicState(pool) =>
      if magic.Some? && magic.value in Pool(states, pool)
      then Some((cells, states[pool := Pool(states, pool) - {magic.value}]))
      else None
    case RestoreMagicState(pool) =>
      if magic.None? || !cells[magic.value].cls.FactoryOutputPatch? then None
      else if cells[magic.value].tCount > 0 then Some((cells, states[pool := Pool(states, pool) + {magic.value}]))
      else Some((cells, states))
    case ReleaseHeldCells =>
      if holds.None? then None
      else
        match ReleaseAll(cells, holds.value, None)
        case None => None
        case Some(c) => Some((c, states))
  }

  /** The part of a transaction's state that its operations change. */
  datatype TxState = TxState(onActivate: Option<Callback>, lock: PatchLock?)

  /**
   * `Transaction.activate`: use the magic state, then fire the activation
   * callback once; an activation callback that has fired is deleted, so a
   * second activation with one fails.  The third component is the new
   * callback slot.
   */
  function ActivateEffect(magic: Option<PatchId>, slot: Option<Callback>, holds: Option<seq<PatchId>>,
                          cells: seq<Patch>, states: map<nat, set<PatchId>>)
    : (r: Option<(seq<Patch>, map<nat, set<PatchId>>, Option<Callback>)>)
    requires magic.Some? ==> magic.value < |cells|
    requires holds.Some? ==> InRange(holds.value, |cells|)
    ensures r.Some? ==> SameLocks(cells, r.value.0)
    ensures r.Some? ==> slot.Some? && (magic.Some? ==> UsePatch(cells[magic.value]).Some?)
    ensures r.Some? ==> r.value.2 == if slot == Some(NoCallback) then slot else None
  {
    var used := if magic.Some? then UseAt(cells, magic.value) else Some(cells);
    if used.None? || slot.None? then None
    else if slot.value.NoCallback? then Some((used.value, states, slot))
    else
      match RunCallback(slot.value, magic, holds, used.value, states)
      case None => None
      case Some(after) => Some((after.0, after.1, None))
  }

  /** `Transaction.unlock`: fire the unlock callback, then free the patches of the lock. */
  function UnlockEffect(cb: Callback, magic: Option<PatchId>, lock: PatchLock,
                        cells: seq<Patch>, states: map<nat, set<PatchId>>)
    : (r: Option<(seq<Patch>, map<nat, set<PatchId>>)>)
    requires magic.Some? ==> magic.value < |cells|
    requires InRange(lock.holds, |cells|)
    ensures r.Some? ==> |r.value.0| == |cells|
    ensures r.Some? ==> forall p | 0 <= p < |cells| ::
      r.value.0[p].lock == if p in lock.holds && cells[p].lock == lock then null else cells[p].lock
  {
    match RunCallback(cb, magic, Some(lock.holds), cells, states)
    case None => None
    case Some(after) => Some((ClearLock(after.0, lock.holds, lock), after.1))
  }

  /** `Transaction.release`: release the magic-state patch, if there is one. */
  function ReleaseEffect(magic: Option<PatchId>, cells: seq<Patch>, time: int): (r: Option<seq<Patch>>)
    requires magic.Some? ==> magic.value < |cells|
    ensures r.Some? ==> SameLocks(cells, r.value)
    ensures magic.None? ==> r == Some(cells)
  {
    if magic.None? then Some(cells)
    else
      match ReleasePatch(cells[magic.value], Some(time))
      case None => None
      case Some(q) => Some(cells[magic.value := q])
  }

  class Transaction {
    const movePatches: seq<PatchId>
    const measurePatches: seq<PatchId>
    const connectCol: Option<int>
    const magicState: Option<PatchId>
    const onUnlock: Callback
    /** The activation callback; `None` once it has fired and been deleted. */
    var onActivate: Option<Callback>
    var lock: PatchLock?
    var activeCells: seq<PatchId>

    constructor (p: Proposal)
      ensures movePatches == p.move && measurePatches == p.measure && connectCol == p.connectCol
      ensures magicState == p.magic && onUnlock == p.onUnlock && onActivate == Some(p.onActivate)
      ensures lock == null && activeCells == []
    {
      movePatches := p.move;
      measurePatches := p.measure;
      connectCol := p.connectCol;
      magicState := p.magic;
      onUnlock := p.onUnlock;
      onActivate := Some(p.onActivate);
      lock := null;
      activeCells := [];
    }

    ghost function Snapshot(): TxState
      reads this
    {
      TxState(onActivate, lock)
    }

    /** Every id this transaction mentions names a patch of the arena. */
    predicate Fits(n: nat)
    {
      InRange(movePatches, n) && InRange(measurePatches, n) && (magicState.Some? ==> magicState.value < n)
    }

    /** Fits, and so does the lock currently held. */
    ghost predicate FitsNow(n: nat)
      reads this
    {
      Fits(n) && (lock != null ==> InRange(lock.holds, n))
    }

    method Activate(d: Device) returns (ok: bool)
      requires FitsNow(|d.cells|) && d.Valid()
      modifies d, this`onActivate
      ensures d.Valid() && FitsNow(|d.cells|) && SameLocks(old(d.cells), d.cells)
      ensures var r := ActivateEffect(magicState, old(onActivate), if old(lock) != null then Some(old(lock).holds) else None, old(d.cells), old(d.states));
        ok == r.Some? && (ok ==> d.cells == r.value.0 && d.states == r.value.1 && onActivate == r.value.2)
    {
      ok := true;
      if magicState.Some? {
        ok := d.Use(magicState.value);
        if !ok {
          return;
        }
      }
      if onActivate.None? {
        return false;
      }
      var cb := onActivate.value;
      if !cb.NoCallback? {
        ok := Fire(cb, d);
        if ok {
          onActivate := None;
        }
      }
    }

    /** Run one callback against the device. */
    method Fire(cb: Callback, d: Device) returns (ok: bool)
      requires FitsNow(|d.cells|) && d.Valid()
      modifies d
      ensures d.Valid() && FitsNow(|d.cells|) && SameLocks(old(d.cells), d.cells)
      ensures var r := RunCallback(cb, magicState, if lock != null then Some(lock.holds) else None, old(d.cells), old(d.states));
        ok == r.Some? && (ok ==> d.cells == r.value.0 && d.states == r.value.1)
    {
      match cb
      case NoCallback =>
        ok := true;
      case RemoveMagicState(pool) =>
        ok := magicState.Some? && magicState.value in Pool(d.states, pool);
        if ok {
          d.states := d.states[pool := Pool(d.states, pool) - {magicState.value}];
        }
      case RestoreMagicState(pool) =>
        ok := magicState.Some? && d.cells[magicState.value].cls.FactoryOutputPatch?;
        if ok && d.cells[magicState.value].tCount > 0 {
          d.states := d.states[pool := Pool(d.states, pool) + {magicState.value}];
        }
      case ReleaseHeldCells =>
        ok := lock != null;
        if ok {
          ok := d.ReleaseCells(lock.holds);
        }
    }

    method Release(time: int, d: Device) returns (ok: bool)
      requires FitsNow(|d.cells|) && d.Valid()
      modifies d`cells
      ensures d.Valid() && FitsNow(|d.cells|) && SameLocks(old(d.cells), d.cells)
      ensures var r := ReleaseEffect(magicState, old(d.cells), time);
        ok == r.Some? && (ok ==> d.cells == r.value)
    {
      ok := true;
      if magicState.Some? {
        ok := d.Release(magicState.value, Some(time));
      }
    }

    /** Lock `ids` on behalf of `owner`; shared by the two locking phases. */
    method LockOn(owner: object?, ids: seq<PatchId>, d: Device) returns (ok: bool)
      requires InRange(ids, |d.cells|) && d.Valid()
      modifies this`lock, this`activeCells, d`cells
      ensures d.Valid()
      ensures ok == (old(lock) == null && AllUnlocked(old(d.cells), ids))
      ensures ok ==> lock != null && fresh(lock) && lock.owner == owner && lock.holds == ids
      ensures ok ==> activeCells == ids && d.cells == WithLock(old(d.cells), ids, lock)
      ensures !ok ==> d.cells == old(d.cells)
      ensures !ok ==> activeCells == old(activeCells)
      ensures !ok && old(lock) != null ==> lock == old(lock)
      ensures !ok && old(lock) == null ==> lock != null && fresh(lock) && lock.owner == owner && lock.holds == ids
    {
      if lock != null {
        return false;
      }
      lock := new PatchLock(owner, ids);
      ok := lock.Lock(d);
      if ok {
        activeCells := ids;
      }
    }

    method LockMove(owner: object?, d: Device) returns (ok: bool)
      requires Fits(|d.cells|) && d.Valid()
      modifies this`lock, this`activeCells, d`cells
      ensures d.Valid()
      ensures ok == (old(lock) == null && AllUnlocked(old(d.cells), movePatches))
      ensures ok ==> lock != null && fresh(lock) && lock.owner == owner && lock.holds == movePatches
      ensures ok ==> activeCells == movePatches && d.cells == WithLock(old(d.cells), movePatches, lock)
      ensures !ok ==> d.cells == old(d.cells)
      ensures !ok ==> activeCells == old(activeCells)
      ensures !ok && old(lock) != null ==> lock == old(lock)
      ensures !ok && old(lock) == null ==> lock != null && fresh(lock) && lock.owner == owner && lock.holds == movePatches
    {
      ok := LockOn(owner, movePatches, d);
    }

    method LockMeasure(owner: object?, d: Device) returns (ok: bool)
      requires Fits(|d.cells|) && d.Valid()
      modifies this`lock, this`activeCells, d`cells
      ensures d.Valid()
      ensures ok == (old(lock) == null && AllUnlocked(old(d.cells), measurePatches))
      ensures ok ==> lock != null && fresh(lock) && lock.owner == owner && lock.holds == measurePatches
      ensures ok ==> activeCells == measurePatches && d.cells == WithLock(old(d.cells), measurePatches, lock)
      ensures !ok ==> d.cells == old(d.cells)
      ensures !ok ==> activeCells == old(activeCells)
      ensures !ok && old(lock) != null ==> lock == old(lock)
      ensures !ok && old(lock) == null ==> lock != null && fresh(lock) && lock.owner == owner && lock.holds == measurePatches
    {
      ok := LockOn(owner, measurePatches, d);
    }

    method Unlock(d: Device) returns (ok: bool)
      requires FitsNow(|d.cells|) && d.Valid()
      modifies this`lock, d, if lock != null then {lock} else {}
      ensures d.Valid() && FitsNow(|d.cells|) && |d.cells| == |old(d.cells)|
      ensures ok == (old(lock) != null && UnlockEffect(onUnlock, magicState, old(lock), old(d.cells), old(d.states)).Some?)
      ensures ok ==> lock == null && old(lock).owner == null
      ensures ok ==> var r := UnlockEffect(onUnlock, magicState, old(lock), old(d.cells), old(d.states)).value;
        d.cells == r.0 && d.states == r.1
      ensures ok ==> forall p | 0 <= p < |d.cells| :: d.cells[p].lock != old(lock)
    {
      if lock == null {
        return false;
      }
      ok := Fire(onUnlock, d);
      if !ok {
        return;
      }
      lock.Unlock(d);
      lock := null;
    }

    /** Are all the measure patches free? */
    predicate CheckUnlocked(cells: seq<Patch>)
      requires Fits(|cells|)
    {
      AllUnlocked(cells, measurePatches)
    }

    /** The patches of one locking phase: the measure patches or the move patches. */
    function Ids(measure: bool): seq<PatchId>
    {
      if measure then measurePatches else movePatches
    }

    /** Patches used only for routing: the move patches that are not measured. */
    function RouteCount(): int
    {
      |movePatches| - |measurePatches|
    }
  }

  /** The concatenation of the members' patches of one phase, in list order. */
  function Phase(ms: seq<Transaction>, measure: bool): (r: seq<PatchId>)
    ensures forall i, p | 0 <= i < |ms| && p in ms[i].Ids(measure) :: p in r
    ensures forall p | p in r :: exists i | 0 <= i < |ms| :: p in ms[i].Ids(measure)
  {
    if ms == [] then []
    else Phase(ms[..|ms| - 1], measure) + ms[|ms| - 1].Ids(measure)
  }

  /** No two members share a patch in the given phase. */
  predicate PhaseDisjoint(ms: seq<Transaction>, measure: bool)
  {
    forall i, j, p | 0 <= i < j < |ms| && p in ms[i].Ids(measure) :: p !in ms[j].Ids(measure)
  }

  /** Appending a member sharing nothing with the earlier ones keeps the phase disjoint. */
  lemma PhaseDisjointSnoc(ms: seq<Transaction>, m: Transaction, measure: bool)
    requires PhaseDisjoint(ms, measure)
    requires forall p | p in m.Ids(measure) :: p !in Phase(ms, measure)
    ensures PhaseDisjoint(ms + [m], measure)
  {
    var ms' := ms + [m];
    forall i, j, p | 0 <= i < j < |ms'| && p in ms'[i].Ids(measure) ensures p !in ms'[j].Ids(measure) {
      assert ms'[i] == ms[i];
      if j < |ms| {
        assert ms'[j] == ms[j];
      }
    }
  }

  /** A patch in two members' phase breaks disjointness. */
  lemma SharedPatch(ms: seq<Transaction>, i: nat, j: nat, p: PatchId, measure: bool)
    requires i < j < |ms| && p in ms[i].Ids(measure) && p in ms[j].Ids(measure)
    ensures !PhaseDisjoint(ms, measure)
  {
  }

  lemma PhaseDisjointPrefix(ms: seq<Transaction>, k: nat, measure: bool)
    requires k <= |ms| && PhaseDisjoint(ms, measure)
    ensures PhaseDisjoint(ms[..k], measure)
  {
    forall i, j, p | 0 <= i < j < k && p in ms[..k][i].Ids(measure) ensures p !in ms[..k][j].Ids(measure) {
      assert ms[..k][i] == ms[i] && ms[..k][j] == ms[j];
    }
  }

  /** The sequential effect of activating the members in order. */
  function ActivateAll(ms: seq<Transaction>, snaps: seq<TxState>, cells: seq<Patch>, states: map<nat, set<PatchId>>)
    : (r: Option<(seq<Patch>, map<nat, set<PatchId>>)>)
    requires |snaps| == |ms|
    requires forall i | 0 <= i < |ms| :: ms[i].Fits(|cells|) && (snaps[i].lock != null ==> InRange(snaps[i].lock.holds, |cells|))
    ensures r.Some? ==> SameLocks(cells, r.value.0)
    decreases |ms|
  {
    if ms == [] then Some((cells, states))
    else
      assert ms[0].Fits(|cells|) && (snaps[0].lock != null ==> InRange(snaps[0].lock.holds, |cells|));
      match ActivateEffect(ms[0].magicState, snaps[0].onActivate, if snaps[0].lock != null then Some(snaps[0].lock.holds) else None, cells, states)
      case None => None
      case Some(step) =>
        assert forall i | 0 <= i < |ms| - 1 :: ms[1..][i] == ms[i + 1] && snaps[1..][i] == snaps[i + 1];
        ActivateAll(ms[1..], snaps[1..], step.0, step.1)
  }

  /** Activating one transaction turns no patch and registers no rotation. */
  lemma ActivateEffectTurns(magic: Option<PatchId>, slot: Option<Callback>, holds: Option<seq<PatchId>>,
                            cells: seq<Patch>, states: map<nat, set<PatchId>>)
    requires magic.Some? ==> magic.value < |cells|
    requires holds.Some? ==> InRange(holds.value, |cells|)
    requires ActivateEffect(magic, slot, holds, cells, states).Some?
    ensures SameTurns(cells, ActivateEffect(magic, slot, holds, cells, states).value.0)
  {
    var used := if magic.Some? then UseAt(cells, magic.value) else Some(cells);
    assert SameTurns(cells, used.value) by {
      if magic.Some? {
        assert SamePlace(cells[magic.value], used.value[magic.value]);
      }
    }
    if slot.value.ReleaseHeldCells? {
      var after := ReleaseAll(used.value, holds.value, None).value;
      forall p | 0 <= p < |cells|
        ensures after[p].orientation == used.value[p].orientation && after[p].rotation == used.value[p].rotation
      {
        if p in holds.value {
          var i :| 0 <= i < |holds.value| && holds.value[i] == p;
          assert SamePlace(used.value[holds.value[i]], after[holds.value[i]]);
        }
      }
    }
  }

  /** Activating the members in order turns no patch and registers no rotation. */
  lemma {:induction false} ActivateAllTurns(ms: seq<Transaction>, snaps: seq<TxState>, cells: seq<Patch>, states: map<nat, set<PatchId>>)
    requires |snaps| == |ms|
    requires forall i | 0 <= i < |ms| :: ms[i].Fits(|cells|) && (snaps[i].lock != null ==> InRange(snaps[i].lock.holds, |cells|))
    requires ActivateAll(ms, snaps, cells, states).Some?
    ensures SameTurns(cells, ActivateAll(ms, snaps, cells, states).value.0)
    decreases |ms|
  {
    if ms != [] {
      var holds := if snaps[0].lock != null then Some(snaps[0].lock.holds) else None;
      var step := ActivateEffect(ms[0].magicState, snaps[0].onActivate, holds, cells, states).value;
      ActivateEffectTurns(ms[0].magicState, snaps[0].onActivate, holds, cells, states);
      assert forall i | 0 <= i < |ms| - 1 :: ms[1..][i] == ms[i + 1] && snaps[1..][i] == snaps[i + 1];
      ActivateAllTurns(ms[1..], snaps[1..], step.0, step.1);
    }
  }

  /** Locking the members' move patches turns no patch and registers no rotation. */
  lemma HeldTurns(ms: seq<Transaction>, now: seq<Patch>, start: seq<Patch>)
    requires |now| == |start|
    requires forall i | 0 <= i < |ms| :: TransactionList.HeldBy(now, start, ms[i].movePatches, ms[i].lock)
    requires forall p | 0 <= p < |now| && p !in Phase(ms, false) :: now[p] == start[p]
    ensures SameTurns(start, now)
  {
    forall p | 0 <= p < |now| && p in Phase(ms, false)
      ensures now[p].orientation == start[p].orientation && now[p].rotation == start[p].rotation
    {
      var i :| 0 <= i < |ms| && p in ms[i].Ids(false);
      var k :| 0 <= k < |ms[i].movePatches| && ms[i].movePatches[k] == p;
      assert TransactionList.HeldBy(now, start, ms[i].movePatches, ms[i].lock);
    }
  }

  /** The sequential effect of unlocking the members in order, each through the lock it held at the start. */
  function UnlockAll(ms: seq<Transaction>, locks: seq<PatchLock?>, cells: seq<Patch>, states: map<nat, set<PatchId>>)
    : (r: Option<(seq<Patch>, map<nat, set<PatchId>>)>)
    requires |locks| == |ms|
    requires forall i | 0 <= i < |ms| :: ms[i].Fits(|cells|) && (locks[i] != null ==> InRange(locks[i].holds, |cells|))
    ensures r.Some? ==> |r.value.0| == |cells|
    decreases |ms|
  {
    if ms == [] then Some((cells, states))
    else if locks[0] == null then None
    else
      assert ms[0].Fits(|cells|) && InRange(locks[0].holds, |cells|);
      match UnlockEffect(ms[0].onUnlock, ms[0].magicState, locks[0], cells, states)
      case None => None
      case Some(step) =>
        assert forall i | 0 <= i < |ms| - 1 :: ms[1..][i] == ms[i + 1] && locks[1..][i] == locks[i + 1];
        UnlockAll(ms[1..], locks[1..], step.0, step.1)
  }

  /** The sequential effect of releasing the members' magic states in order. */
  function ReleaseList(ms: seq<Transaction>, cells: seq<Patch>, time: int): (r: Option<seq<Patch>>)
    requires forall i | 0 <= i < |ms| :: ms[i].Fits(|cells|)
    ensures r.Some? ==> SameLocks(cells, r.value)
    decreases |ms|
  {
    if ms == [] then Some(cells)
    else
      assert ms[0].Fits(|cells|);
      match ReleaseEffect(ms[0].magicState, cells, time)
      case None => None
      case Some(c) =>
        assert forall i | 0 <= i < |ms| - 1 :: ms[1..][i] == ms[i + 1];
        ReleaseList(ms[1..], c, time)
  }

  function RouteSum(ms: seq<Transaction>): int
  {
    if ms == [] then 0 else RouteSum(ms[..|ms| - 1]) + ms[|ms| - 1].RouteCount()
  }

  /** The routing-only count of a list is its move phase's length less its measure phase's. */
  lemma {:induction false} RouteSumPhases(ms: seq<Transaction>)
    ensures RouteSum(ms) == |Phase(ms, false)| - |Phase(ms, true)|
  {
    if ms != [] {
      RouteSumPhases(ms[..|ms| - 1]);
    }
  }

  /** Every patch of a phase is in range when every member fits. */
  lemma {:induction false} PhaseInRange(ms: seq<Transaction>, n: nat, measure: bool)
    requires forall i | 0 <= i < |ms| :: ms[i].Fits(n)
    ensures InRange(Phase(ms, measure), n)
  {
    if ms != [] {
      PhaseInRange(ms[..|ms| - 1], n, measure);
    }
  }

  /**
   * Every member's measure patches are free exactly when every patch of
   * the list's measure phase is.
   */
  lemma {:induction false} CheckUnlockedPhase(ms: seq<Transaction>, cells: seq<Patch>)
    requires forall i | 0 <= i < |ms| :: ms[i].Fits(|cells|)
    ensures InRange(Phase(ms, true), |cells|)
    ensures (forall i | 0 <= i < |ms| :: ms[i].CheckUnlocked(cells)) <==> AllUnlocked(cells, Phase(ms, true))
  {
    PhaseInRange(ms, |cells|, true);
    if ms != [] {
      var init, last := ms[..|ms| - 1], ms[|ms| - 1];
      CheckUnlockedPhase(init, cells);
      var a, b := Phase(init, true), last.measurePatches;
      assert Phase(ms, true) == a + b;
      assert AllUnlocked(cells, a + b) <==> AllUnlocked(cells, a) && AllUnlocked(cells, b) by {
        assert forall k | 0 <= k < |a| :: (a + b)[k] == a[k];
        assert forall k | 0 <= k < |b| :: (a + b)[|a| + k] == b[k];
      }
      assert (forall i | 0 <= i < |ms| :: ms[i].CheckUnlocked(cells))
        <==> (forall i | 0 <= i < |init| :: init[i].CheckUnlocked(cells)) && last.CheckUnlocked(cells) by {
        assert forall i | 0 <= i < |init| :: init[i] == ms[i];
      }
    }
  }

  /** A route built from several transactions; every operation is applied to each member in list order. */
  class TransactionList {
    const members: seq<Transaction>
    var activeCells: seq<PatchId>

    constructor (members: seq<Transaction>)
      ensures this.members == members && activeCells == []
    {
      this.members := members;
      activeCells := [];
    }

    /** The same transaction is never listed twice. */
    predicate Distinct()
    {
      forall i, j | 0 <= i < j < |members| :: members[i] != members[j]
    }

    ghost function Objects(): set<object>
    {
      set i | 0 <= i < |members| :: members[i]
    }

    /** The locks the members hold now. */
    ghost function LockObjects(): set<object>
      reads Objects()
    {
      set i | 0 <= i < |members| && members[i].lock != null :: members[i].lock
    }

    predicate Fits(n: nat)
    {
      forall i | 0 <= i < |members| :: members[i].Fits(n)
    }

    ghost predicate FitsNow(n: nat)
      reads Objects()
    {
      forall i | 0 <= i < |members| :: members[i].FitsNow(n)
    }

    ghost function Snapshots(): (r: seq<TxState>)
      reads Objects()
      ensures |r| == |members| && forall i | 0 <= i < |members| :: r[i] == members[i].Snapshot()
    {
      seq(|members|, i reads Objects() requires 0 <= i < |members| => members[i].Snapshot())
    }

    ghost function Locks(): (r: seq<PatchLock?>)
      reads Objects()
      ensures |r| == |members| && forall i | 0 <= i < |members| :: r[i] == members[i].lock
    {
      seq(|members|, i reads Objects() requires 0 <= i < |members| => members[i].lock)
    }

    /**
     * Lock the chosen phase of every member.  It succeeds exactly when no
     * member holds a lock yet, every patch involved is free, and no two
     * members share a patch; then each patch is held by its own member's
     * lock and every other patch is as it was.
     */
    method LockPhase(owner: object?, measure: bool, d: Device) returns (ok: bool)
      requires Distinct() && Fits(|d.cells|) && d.Valid()
      modifies this`activeCells, Objects(), d`cells
      ensures d.Valid() && |d.cells| == |old(d.cells)|
      ensures ok == ((forall i | 0 <= i < |members| :: old(members[i].lock) == null && AllUnlocked(old(d.cells), members[i].Ids(measure)))
                     && PhaseDisjoint(members, measure))
      ensures ok ==> activeCells == Phase(members, measure)
      ensures ok ==> forall i | 0 <= i < |members| ::
        members[i].lock != null && fresh(members[i].lock) && members[i].lock.owner == owner && members[i].lock.holds == members[i].Ids(measure)
      ensures ok ==> LockedUpTo(members, Locks(), measure, old(d.cells), d.cells)
    {
      activeCells := [];
      ghost var locks0 := Locks();
      ghost var ls: seq<PatchLock?> := [];
      for i := 0 to |members|
        invariant d.Valid() && |ls| == i
        invariant forall j | i <= j < |members| :: members[j].lock == locks0[j]
        invariant forall j | 0 <= j < i :: members[j].lock == ls[j]
        invariant forall j | 0 <= j < i :: ls[j] != null && fresh(ls[j]) && ls[j].owner == owner && ls[j].holds == members[j].Ids(measure)
        invariant LockRun(members[..i], locks0[..i], ls, measure, old(d.cells)) == Some(d.cells)
        invariant activeCells == Phase(members[..i], measure)
      {
        ok, ls := LockNext(i, owner, measure, d, locks0, old(d.cells), ls);
        if !ok {
          return;
        }
      }
      assert members[..|members|] == members && locks0[..|members|] == locks0;
      assert Locks() == ls;
      LockRunMeaning(members, locks0, ls, measure, old(d.cells));
      ok := true;
    }

    /** Locking the members' phase in order, member `j` taking lock `ls[j]`; `None` once a member finds a patch taken. */
    static function LockRun(ms: seq<Transaction>, locks0: seq<PatchLock?>, ls: seq<PatchLock?>, measure: bool, start: seq<Patch>)
      : (r: Option<seq<Patch>>)
      requires |locks0| == |ms| && |ls| >= |ms|
      requires forall j | 0 <= j < |ms| :: ms[j].Fits(|start|)
      ensures r.Some? ==> |r.value| == |start|
      decreases |ms|
    {
      if ms == [] then Some(start)
      else
        var n := |ms| - 1;
        assert forall j | 0 <= j < n :: ms[..n][j] == ms[j];
        match LockRun(ms[..n], locks0[..n], ls, measure, start)
        case None => None
        case Some(c) =>
          assert ms[n].Fits(|start|);
          if locks0[n] == null && AllUnlocked(c, ms[n].Ids(measure))
          then Some(WithLock(c, ms[n].Ids(measure), ls[n])) else None
    }

    /** The success condition of locking a phase: every member unlocked, every patch free, no patch shared. */
    static predicate AllFree(ms: seq<Transaction>, locks0: seq<PatchLock?>, measure: bool, start: seq<Patch>)
      requires |locks0| == |ms| && forall j | 0 <= j < |ms| :: ms[j].Fits(|start|)
    {
      (forall j | 0 <= j < |ms| :: locks0[j] == null && ms[j].Fits(|start|) && AllUnlocked(start, ms[j].Ids(measure))) && PhaseDisjoint(ms, measure)
    }

    static lemma AllFreePrefix(ms: seq<Transaction>, locks0: seq<PatchLock?>, k: nat, measure: bool, start: seq<Patch>)
      requires |locks0| == |ms| && k <= |ms| && forall j | 0 <= j < |ms| :: ms[j].Fits(|start|)
      ensures AllFree(ms, locks0, measure, start) ==> AllFree(ms[..k], locks0[..k], measure, start)
    {
      if AllFree(ms, locks0, measure, start) {
        PhaseDisjointPrefix(ms, k, measure);
        forall j | 0 <= j < k ensures locks0[..k][j] == null && AllUnlocked(start, ms[..k][j].Ids(measure)) {
          assert ms[..k][j] == ms[j] && locks0[..k][j] == locks0[j];
        }
      }
    }

    /**
     * With non-null locks, locking in order succeeds exactly under `AllFree`,
     * and then member `j`'s patches are held by `ls[j]` and nothing else changed.
     */
    static lemma {:induction false} LockRunMeaning(ms: seq<Transaction>, locks0: seq<PatchLock?>, ls: seq<PatchLock?>, measure: bool, start: seq<Patch>)
      requires |locks0| == |ms| && |ls| == |ms| && forall j | 0 <= j < |ms| :: ms[j].Fits(|start|) && ls[j] != null
      ensures LockRun(ms, locks0, ls, measure, start).Some? <==> AllFree(ms, locks0, measure, start)
      ensures LockRun(ms, locks0, ls, measure, start).Some? ==> LockedUpTo(ms, ls, measure, start, LockRun(ms, locks0, ls, measure, start).value)
      decreases |ms|
    {
      if ms != [] {
        var n := |ms| - 1;
        var prefix := ms[..n];
        assert forall j | 0 <= j < n :: prefix[j] == ms[j];
        LockRunMeaning(prefix, locks0[..n], ls[..n], measure, start);
        LockRunExtra(prefix, locks0[..n], ls[..n], ls, measure, start);
        match LockRun(prefix, locks0[..n], ls, measure, start)
        case None =>
          AllFreePrefix(ms, locks0, n, measure, start);
        case Some(c) =>
          if locks0[n] == null && AllUnlocked(c, ms[n].Ids(measure)) {
            assert LockRun(ms, locks0, ls, measure, start) == Some(WithLock(c, ms[n].Ids(measure), ls[n]));
            LockRunTakes(ms, locks0, ls, measure, start, c);
          } else {
            LockRunBlocked(ms, locks0, ls, measure, start, c);
          }
      }
    }

    /** The last member locks after a successful prefix: the success condition holds and each member holds its patches. */
    static lemma LockRunTakes(ms: seq<Transaction>, locks0: seq<PatchLock?>, ls: seq<PatchLock?>, measure: bool, start: seq<Patch>, c: seq<Patch>)
      requires ms != [] && |locks0| == |ms| && |ls| == |ms| && forall j | 0 <= j < |ms| :: ms[j].Fits(|start|) && ls[j] != null
      requires |c| == |start|
      requires AllFree(ms[..|ms| - 1], locks0[..|ms| - 1], measure, start)
      requires LockedUpTo(ms[..|ms| - 1], ls[..|ms| - 1], measure, start, c)
      requires ms[|ms| - 1].Fits(|c|) && locks0[|ms| - 1] == null && AllUnlocked(c, ms[|ms| - 1].Ids(measure))
      ensures AllFree(ms, locks0, measure, start)
      ensures LockedUpTo(ms, ls, measure, start, WithLock(c, ms[|ms| - 1].Ids(measure), ls[|ms| - 1]))
    {
      var n := |ms| - 1;
      var prefix, m := ms[..n], ms[n];
      assert ms == prefix + [m] && ls == ls[..n] + [ls[n]];
      assert locks0[..n] == locks0[..|prefix|];
      FreeMemberIsDisjoint(prefix, ls[..n], m, measure, start, c);
      AllFreeSnoc(prefix, locks0, m, measure, start);
      LockedStep(prefix, ls[..n], m, ls[n], measure, start, c, WithLock(c, m.Ids(measure), ls[n]));
    }

    /** Appending a free member that shares no patch with the earlier ones keeps the success condition. */
    static lemma AllFreeSnoc(prefix: seq<Transaction>, locks0: seq<PatchLock?>, m: Transaction, measure: bool, start: seq<Patch>)
      requires |locks0| == |prefix| + 1 && forall j | 0 <= j < |prefix| :: prefix[j].Fits(|start|)
      requires AllFree(prefix, locks0[..|prefix|], measure, start)
      requires m.Fits(|start|) && locks0[|prefix|] == null && AllUnlocked(start, m.Ids(measure))
      requires forall p | p in m.Ids(measure) :: p !in Phase(prefix, measure)
      ensures AllFree(prefix + [m], locks0, measure, start)
    {
      var ms := prefix + [m];
      PhaseDisjointSnoc(prefix, m, measure);
      forall j | 0 <= j < |ms| ensures locks0[j] == null && ms[j].Fits(|start|) && AllUnlocked(start, ms[j].Ids(measure)) {
        if j < |prefix| {
          assert locks0[..|prefix|][j] == locks0[j] && ms[j] == prefix[j];
        }
      }
    }

    /** The last member cannot lock after a successful prefix: the run fails and so does the success condition. */
    static lemma LockRunBlocked(ms: seq<Transaction>, locks0: seq<PatchLock?>, ls: seq<PatchLock?>, measure: bool, start: seq<Patch>, c: seq<Patch>)
      requires ms != [] && |locks0| == |ms| && |ls| == |ms| && forall j | 0 <= j < |ms| :: ms[j].Fits(|start|) && ls[j] != null
      requires LockRun(ms[..|ms| - 1], locks0[..|ms| - 1], ls, measure, start) == Some(c) && |c| == |start|
      requires LockedUpTo(ms[..|ms| - 1], ls[..|ms| - 1], measure, start, c)
      requires ms[|ms| - 1].Fits(|c|) && !(locks0[|ms| - 1] == null && AllUnlocked(c, ms[|ms| - 1].Ids(measure)))
      ensures LockRun(ms, locks0, ls, measure, start).None?
      ensures !AllFree(ms, locks0, measure, start)
    {
      var n := |ms| - 1;
      var prefix, m := ms[..n], ms[n];
      assert forall j | 0 <= j < n :: prefix[j] == ms[j];
      assert ms == prefix + [m];
      if locks0[n] == null {
        LockFailure(prefix, ls[..n], m, measure, start, c);
      }
    }

    /** LockRun reads only the first |ms| locks. */
    static lemma {:induction false} LockRunExtra(ms: seq<Transaction>, locks0: seq<PatchLock?>, ls: seq<PatchLock?>, ls': seq<PatchLock?>,
                                                 measure: bool, start: seq<Patch>)
      requires |locks0| == |ms| && |ls| == |ms| && |ls'| >= |ms| && ls'[..|ms|] == ls
      requires forall j | 0 <= j < |ms| :: ms[j].Fits(|start|)
      ensures LockRun(ms, locks0, ls, measure, start) == LockRun(ms, locks0, ls', measure, start)
      decreases |ms|
    {
      if ms != [] {
        var n := |ms| - 1;
        assert forall j | 0 <= j < n :: ms[..n][j] == ms[j];
        assert ls[..n] == ls'[..n];
        LockRunExtra(ms[..n], locks0[..n], ls[..n], ls, measure, start);
        LockRunExtra(ms[..n], locks0[..n], ls[..n], ls', measure, start);
      }
    }

    /** The member after a successful prefix could not lock: the success condition fails for the whole list. */
    static lemma LockRunStops(ms: seq<Transaction>, locks0: seq<PatchLock?>, ls: seq<PatchLock?>, i: nat, measure: bool, start: seq<Patch>, c: seq<Patch>)
      requires i < |ms| && |locks0| == |ms| && |ls| == i
      requires forall j | 0 <= j < |ms| :: ms[j].Fits(|start|)
      requires forall j | 0 <= j < i :: ls[j] != null
      requires LockRun(ms[..i], locks0[..i], ls, measure, start) == Some(c) && |c| == |start|
      requires ms[i].Fits(|c|) && !(locks0[i] == null && AllUnlocked(c, ms[i].Ids(measure)))
      ensures !AllFree(ms, locks0, measure, start)
    {
      var prefix := ms[..i];
      assert forall j | 0 <= j < i :: prefix[j] == ms[j];
      LockRunMeaning(prefix, locks0[..i], ls, measure, start);
      AllFreePrefix(ms, locks0, i + 1, measure, start);
      assert ms[..i + 1] == prefix + [ms[i]] && locks0[..i + 1][i] == locks0[i];
      if locks0[i] == null {
        LockFailure(prefix, ls, ms[i], measure, start, c);
      }
    }

    /** Every patch named in `ids` is as it was in `start` except that lock `l` holds it now. */
    static ghost predicate HeldBy(now: seq<Patch>, start: seq<Patch>, ids: seq<PatchId>, l: PatchLock?)
    {
      |now| == |start| && forall k | 0 <= k < |ids| :: ids[k] < |now| && now[ids[k]] == start[ids[k]].(lock := l)
    }

    /**
     * After locking the members of `ms` in order, the patches of member `j` are
     * held by `ls[j]` and every patch outside the phase is as it was.
     */
    static ghost predicate LockedUpTo(ms: seq<Transaction>, ls: seq<PatchLock?>, measure: bool, start: seq<Patch>, now: seq<Patch>)
    {
      |ls| == |ms| && |now| == |start|
      && (forall j | 0 <= j < |ms| :: HeldBy(now, start, ms[j].Ids(measure), ls[j]))
      && (forall p | 0 <= p < |now| && p !in Phase(ms, measure) :: now[p] == start[p])
    }

    static lemma LockedStep(prefix: seq<Transaction>, ls: seq<PatchLock?>, m: Transaction, l: PatchLock?, measure: bool,
                            start: seq<Patch>, before: seq<Patch>, after: seq<Patch>)
      requires LockedUpTo(prefix, ls, measure, start, before)
      requires forall p | p in m.Ids(measure) :: p !in Phase(prefix, measure)
      requires InRange(m.Ids(measure), |before|)
      requires after == WithLock(before, m.Ids(measure), l)
      ensures LockedUpTo(prefix + [m], ls + [l], measure, start, after)
    {
      var ms, ls' := prefix + [m], ls + [l];
      var ids := m.Ids(measure);
      assert ms[..|ms| - 1] == prefix;
      assert Phase(ms, measure) == Phase(prefix, measure) + ids;
      forall j | 0 <= j < |ms| ensures HeldBy(after, start, ms[j].Ids(measure), ls'[j]) {
        if j < |prefix| {
          assert ms[j] == prefix[j] && ls'[j] == ls[j];
          var js := prefix[j].Ids(measure);
          assert HeldBy(before, start, js, ls[j]);
          forall k | 0 <= k < |js| ensures after[js[k]] == start[js[k]].(lock := ls[j]) {
            assert js[k] in prefix[j].Ids(measure);
            assert js[k] in Phase(prefix, measure);
            assert js[k] !in ids;
          }
        } else {
          assert ms[j] == m && ls'[j] == l;
          forall k | 0 <= k < |ids| ensures after[ids[k]] == start[ids[k]].(lock := l) {
            assert ids[k] in ids;
            assert ids[k] !in Phase(prefix, measure);
          }
        }
      }
      forall p | 0 <= p < |after| && p !in Phase(ms, measure) ensures after[p] == start[p] {
        assert p !in Phase(prefix, measure) && p !in ids;
      }
    }

    /** One step of LockPhase: lock member `i` after members `0..i-1` took the locks `ls`. */
    method LockNext(i: nat, owner: object?, measure: bool, d: Device, ghost locks0: seq<PatchLock?>, ghost start: seq<Patch>, ghost ls: seq<PatchLock?>)
      returns (ok: bool, ghost ls': seq<PatchLock?>)
      requires Distinct() && Fits(|start|) && d.Valid() && |d.cells| == |start|
      requires i < |members| && |locks0| == |members| && |ls| == i
      requires forall j | 0 <= j < i :: ls[j] != null
      requires members[i].lock == locks0[i]
      requires LockRun(members[..i], locks0[..i], ls, measure, start) == Some(d.cells)
      requires activeCells == Phase(members[..i], measure)
      modifies this`activeCells, members[i], d`cells
      ensures d.Valid() && |d.cells| == |start|
      ensures forall j | 0 <= j < |members| && j != i :: members[j].lock == old(members[j].lock)
      ensures !ok ==> !AllFree(members, locks0, measure, start)
      ensures ok ==> ls' == ls + [members[i].lock]
      ensures ok ==> members[i].lock != null && fresh(members[i].lock) && members[i].lock.owner == owner
      ensures ok ==> members[i].lock.holds == members[i].Ids(measure)
      ensures ok ==> LockRun(members[..i + 1], locks0[..i + 1], ls', measure, start) == Some(d.cells)
      ensures ok ==> activeCells == Phase(members[..i + 1], measure)
    {
      ls' := ls;
      ghost var before := d.cells;
      assert members[..i + 1][..i] == members[..i] && locks0[..i + 1][..i] == locks0[..i];
      assert Phase(members[..i + 1], measure) == Phase(members[..i], measure) + members[i].Ids(measure);
      ok := LockAt(i, owner, measure, d);
      if !ok {
        LockRunStops(members, locks0, ls, i, measure, start, before);
        return;
      }
      assert (ls + [members[i].lock])[..i] == ls;
      LockRunExtra(members[..i], locks0[..i], ls, ls + [members[i].lock], measure, start);
      ls' := ls + [members[i].lock];
      activeCells := activeCells + members[i].Ids(measure);
    }

    /** Lock member `i`'s phase; no other member's lock changes. */
    method LockAt(i: nat, owner: object?, measure: bool, d: Device) returns (ok: bool)
      requires Distinct() && i < |members| && members[i].Fits(|d.cells|) && d.Valid()
      modifies members[i], d`cells
      ensures d.Valid() && forall j | 0 <= j < |members| && j != i :: members[j].lock == old(members[j].lock)
      ensures ok == (old(members[i].lock) == null && AllUnlocked(old(d.cells), members[i].Ids(measure)))
      ensures ok ==> members[i].lock != null && fresh(members[i].lock) && members[i].lock.owner == owner
      ensures ok ==> members[i].lock.holds == members[i].Ids(measure)
      ensures ok ==> d.cells == WithLock(old(d.cells), members[i].Ids(measure), members[i].lock)
      ensures !ok ==> d.cells == old(d.cells)
    {
      var m := members[i];
      if measure {
        ok := m.LockMeasure(owner, d);
      } else {
        ok := m.LockMove(owner, d);
      }
      forall j | 0 <= j < |members| && j != i ensures members[j].lock == old(members[j].lock) {
        assert members[j] != m;
      }
    }

    /** A member whose patches are free now shares none of them with the members locked before it, and they were free at the start. */
    static lemma FreeMemberIsDisjoint(prefix: seq<Transaction>, ls: seq<PatchLock?>, m: Transaction, measure: bool, start: seq<Patch>, now: seq<Patch>)
      requires InRange(m.Ids(measure), |now|) && AllUnlocked(now, m.Ids(measure))
      requires LockedUpTo(prefix, ls, measure, start, now)
      requires forall j | 0 <= j < |prefix| :: ls[j] != null
      ensures AllUnlocked(start, m.Ids(measure))
      ensures forall p | p in m.Ids(measure) :: p !in Phase(prefix, measure)
    {
      var ids := m.Ids(measure);
      forall j, k | 0 <= j < |prefix| && 0 <= k < |prefix[j].Ids(measure)| ensures prefix[j].Ids(measure)[k] !in ids {
        var js := prefix[j].Ids(measure);
        assert HeldBy(now, start, js, ls[j]);
        assert Locked(now[js[k]]);
      }
      forall k | 0 <= k < |ids| ensures !Locked(start[ids[k]]) {
        assert !Locked(now[ids[k]]);
      }
    }

    /** A member whose patches are not all free makes the success condition false. */
    static lemma LockFailure(prefix: seq<Transaction>, ls: seq<PatchLock?>, m: Transaction, measure: bool, start: seq<Patch>, now: seq<Patch>)
      requires InRange(m.Ids(measure), |now|) && !AllUnlocked(now, m.Ids(measure))
      requires LockedUpTo(prefix, ls, measure, start, now)
      ensures !AllUnlocked(start, m.Ids(measure)) || !PhaseDisjoint(prefix + [m], measure)
    {
      var ids := m.Ids(measure);
      var k :| 0 <= k < |ids| && Locked(now[ids[k]]);
      if ids[k] in Phase(prefix, measure) {
        var j :| 0 <= j < |prefix| && ids[k] in prefix[j].Ids(measure);
        assert (prefix + [m])[j] == prefix[j] && (prefix + [m])[|prefix|] == m;
        SharedPatch(prefix + [m], j, |prefix|, ids[k], measure);
      } else {
        assert Locked(start[ids[k]]);
        assert !AllUnlocked(start, ids);
      }
    }

    method LockMove(owner: object?, d: Device) returns (ok: bool)
      requires Distinct() && Fits(|d.cells|) && d.Valid()
      modifies this`activeCells, Objects(), d`cells
      ensures d.Valid() && |d.cells| == |old(d.cells)|
      ensures ok == ((forall i | 0 <= i < |members| :: old(members[i].lock) == null && AllUnlocked(old(d.cells), members[i].movePatches))
                     && PhaseDisjoint(members, false))
      ensures ok ==> activeCells == Phase(members, false)
      ensures ok ==> forall i | 0 <= i < |members| ::
        members[i].lock != null && fresh(members[i].lock) && members[i].lock.owner == owner && members[i].lock.holds == members[i].movePatches
      ensures ok ==> forall i | 0 <= i < |members| :: HeldBy(d.cells, old(d.cells), members[i].movePatches, members[i].lock)
      ensures ok ==> forall p | 0 <= p < |d.cells| && p !in Phase(members, false) :: d.cells[p] == old(d.cells[p])
    {
      ok := LockPhase(owner, false, d);
    }

    method LockMeasure(owner: object?, d: Device) returns (ok: bool)
      requires Distinct() && Fits(|d.cells|) && d.Valid()
      modifies this`activeCells, Objects(), d`cells
      ensures d.Valid() && |d.cells| == |old(d.cells)|
      ensures ok == ((forall i | 0 <= i < |members| :: old(members[i].lock) == null && AllUnlocked(old(d.cells), members[i].measurePatches))
                     && PhaseDisjoint(members, true))
      ensures ok ==> activeCells == Phase(members, true)
      ensures ok ==> forall i | 0 <= i < |members| ::
        members[i].lock != null && fresh(members[i].lock) && members[i].lock.owner == owner && members[i].lock.holds == members[i].measurePatches
      ensures ok ==> forall i | 0 <= i < |members| :: HeldBy(d.cells, old(d.cells), members[i].measurePatches, members[i].lock)
      ensures ok ==> forall p | 0 <= p < |d.cells| && p !in Phase(members, true) :: d.cells[p] == old(d.cells[p])
    {
      ok := LockPhase(owner, true, d);
    }

    method Activate(d: Device) returns (ok: bool)
      requires Distinct() && FitsNow(|d.cells|) && d.Valid()
      modifies d, Objects()
      ensures d.Valid() && FitsNow(|d.cells|) && SameLocks(old(d.cells), d.cells)
      ensures var r := ActivateAll(members, old(Snapshots()), old(d.cells), old(d.states));
        ok == r.Some? && (ok ==> d.cells == r.value.0 && d.states == r.value.1)
      ensures forall i | 0 <= i < |members| :: members[i].lock == old(members[i].lock)
    {
      ghost var snaps := Snapshots();
      for i := 0 to |members|
        invariant d.Valid() && SameLocks(old(d.cells), d.cells)
        invariant forall j | 0 <= j < |members| :: members[j].lock == old(members[j].lock)
        invariant forall j | i <= j < |members| :: members[j].onActivate == old(members[j].onActivate)
        invariant FitsNow(|d.cells|)
        invariant ActivateAll(members, snaps, old(d.cells), old(d.states)) == ActivateAll(members[i..], snaps[i..], d.cells, d.states)
      {
        assert members[i..][0] == members[i] && members[i..][1..] == members[i + 1..];
        assert snaps[i..][0] == snaps[i] && snaps[i..][1..] == snaps[i + 1..];
        ok := members[i].Activate(d);
        if !ok {
          return;
        }
      }
      ok := true;
    }

    method Unlock(d: Device) returns (ok: bool)
      requires Distinct() && FitsNow(|d.cells|) && d.Valid()
      modifies d, Objects(), set i | 0 <= i < |members| && members[i].lock != null :: members[i].lock
      ensures d.Valid() && FitsNow(|d.cells|) && |d.cells| == |old(d.cells)|
      ensures var r := UnlockAll(members, old(Locks()), old(d.cells), old(d.states));
        ok == r.Some? && (ok ==> d.cells == r.value.0 && d.states == r.value.1)
      ensures ok ==> forall i | 0 <= i < |members| :: members[i].lock == null
    {
      ghost var locks := Locks();
      for i := 0 to |members|
        invariant d.Valid() && |d.cells| == |old(d.cells)|
        invariant forall j | i <= j < |members| :: members[j].lock == locks[j]
        invariant forall j | 0 <= j < i :: members[j].lock == null
        invariant FitsNow(|d.cells|)
        invariant UnlockAll(members, locks, old(d.cells), old(d.states)) == UnlockAll(members[i..], locks[i..], d.cells, d.states)
      {
        ok := UnlockNext(d, i, locks);
        if !ok {
          return;
        }
      }
      ok := true;
    }

    /** One step of `Unlock`: member `i` unlocks, and the rest of the list is left to unlock from the new state. */
    method UnlockNext(d: Device, i: nat, ghost locks: seq<PatchLock?>) returns (ok: bool)
      requires Distinct() && FitsNow(|d.cells|) && d.Valid() && i < |members| && |locks| == |members|
      requires forall j | i <= j < |members| :: members[j].lock == locks[j]
      requires forall j | 0 <= j < i :: members[j].lock == null
      modifies d, members[i], if members[i].lock != null then {members[i].lock} else {}
      ensures d.Valid() && FitsNow(|d.cells|) && |d.cells| == |old(d.cells)|
      ensures forall j | i < j < |members| :: members[j].lock == locks[j]
      ensures forall j | 0 <= j <= i && ok :: members[j].lock == null
      ensures UnlockAll(members[i..], locks[i..], old(d.cells), old(d.states))
        == if ok then UnlockAll(members[i + 1..], locks[i + 1..], d.cells, d.states) else None
    {
      assert members[i..][0] == members[i] && members[i..][1..] == members[i + 1..];
      assert locks[i..][0] == locks[i] && locks[i..][1..] == locks[i + 1..];
      ok := members[i].Unlock(d);
    }

    method Release(time: int, d: Device) returns (ok: bool)
      requires FitsNow(|d.cells|) && d.Valid()
      modifies d`cells
      ensures d.Valid() && FitsNow(|d.cells|) && SameLocks(old(d.cells), d.cells)
      ensures var r := ReleaseList(members, old(d.cells), time);
        ok == r.Some? && (ok ==> d.cells == r.value)
    {
      for i := 0 to |members|
        invariant d.Valid() && SameLocks(old(d.cells), d.cells)
        invariant FitsNow(|d.cells|)
        invariant ReleaseList(members, old(d.cells), time) == ReleaseList(members[i..], d.cells, time)
      {
        assert members[i..][0] == members[i] && members[i..][1..] == members[i + 1..];
        ok := members[i].Release(time, d);
        if !ok {
          return;
        }
      }
      ok := true;
    }

    /** Are the measure patches of every member free?  Exactly when no patch of the measure phase is locked. */
    function CheckUnlocked(cells: seq<Patch>): (r: bool)
      requires Fits(|cells|)
      ensures InRange(Phase(members, true), |cells|)
      ensures r <==> AllUnlocked(cells, Phase(members, true))
    {
      CheckUnlockedPhase(members, cells);
      forall i | 0 <= i < |members| :: members[i].CheckUnlocked(cells)
    }

    /** The sum of the members' routing-only counts: the move phase's length less the measure phase's. */
    function RouteCount(): (r: int)
      ensures r == |Phase(members, false)| - |Phase(members, true)|
    {
      RouteSumPhases(members);
      RouteSum(members)
    }
  }
}
