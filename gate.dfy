/**
 * Gates: the units of work the orchestrator schedules.  Every gate counts
 * passes on a timer and is completed once the timer reaches its duration.
 * T gates and graph-state preparation gates run in two stages, a joint
 * measurement holding their move patches and a correction holding their
 * measure patches; move gates and rotation gates run in one.
 */
module Gates {
  import opened Wrappers
  import opened Patches
  import opened Transactions

  /**
   * The kinds of gate the strategy dispatches on.  `GraphStatePrep` is not a
   * member of the source's enumeration; the preparation gate names it all the
   * same, so it is added here.
   */
  datatype GateType = LocalGate | Ancilla | TState | ImplementationDefined | GraphStatePrep

  /** The gate class an object was created as. */
  datatype GateKind = PlainGate | TGate | GSPrepGate | MoveGate | RotateGate
  {
    /** The classes whose cleanup moves from the joint stage to the correction stage. */
    predicate TwoPhase() { TGate? || GSPrepGate? }

    /** The classes whose `activate` takes a transaction list. */
    predicate TakesTransaction() { TGate? || GSPrepGate? || MoveGate? }
  }

  datatype Stage = Joint | Correction

  /** The part of a gate's state that its tick and its cleanup count with. */
  datatype Clock = Clock(timer: int, duration: int, correction: int, stage: Stage)

  /** `tick`: one more pass. */
  function TickClock(c: Clock): (r: Clock)
    ensures r.timer == c.timer + 1
    ensures r.duration == c.duration && r.correction == c.correction && r.stage == c.stage
  {
    c.(timer := c.timer + 1)
  }

  /** `completed`: the timer has reached the duration of the current stage. */
  predicate Done(c: Clock)
  {
    c.timer >= c.duration
  }

  /**
   * The clock part of `cleanup`: a completed two-stage gate in its joint stage
   * restarts its timer for the correction stage; every other clock is kept.
   */
  function CleanupClock(kind: GateKind, c: Clock): (r: Clock)
    ensures r.correction == c.correction
    ensures r != c <==> kind.TwoPhase() && Done(c) && c.stage == Joint
    ensures r != c ==> r.timer == 0 && r.duration == c.correction && r.stage == Correction
  {
    if kind.TwoPhase() && Done(c) && c.stage == Joint then Clock(0, c.correction, c.correction, Correction) else c
  }

  /** One scheduling pass of an active gate: tick, then cleanup. */
  function PassClock(kind: GateKind, c: Clock): Clock
  {
    CleanupClock(kind, TickClock(c))
  }

  /** The clock after `k` passes. */
  function Run(kind: GateKind, c: Clock, k: nat): Clock
  {
    if k == 0 then c else PassClock(kind, Run(kind, c, k - 1))
  }

  /** The clock of a gate fresh from its constructor. */
  function Start(duration: int, correction: int): (r: Clock)
    ensures r.timer == 0 && r.stage == Joint
  {
    Clock(0, duration, correction, Joint)
  }

  /** The shape of a two-stage clock after `k` passes: `k` into the joint stage, then `k - m` into the correction. */
  lemma {:induction false} TwoPhaseRun(kind: GateKind, m: int, c: int, k: nat)
    requires kind.TwoPhase() && m >= 1
    ensures k < m ==> Run(kind, Start(m, c), k) == Clock(k, m, c, Joint)
    ensures k >= m ==> Run(kind, Start(m, c), k) == Clock(k - m, c, c, Correction)
  {
    if k > 0 {
      TwoPhaseRun(kind, m, c, k - 1);
    }
  }

  /**
   * A two-stage gate with positive durations `m` and `c` is completed, and so
   * retired by the orchestrator, after exactly `m + c` passes: `m` for the
   * joint measurement and `c` for the correction.
   */
  lemma TwoPhaseLifetime(kind: GateKind, m: int, c: int, k: nat)
    requires kind.TwoPhase() && m >= 1 && c >= 1
    ensures Done(Run(kind, Start(m, c), k)) <==> k >= m + c
    ensures Done(Run(kind, Start(m, c), k)) ==> Run(kind, Start(m, c), k).stage == Correction
  {
    TwoPhaseRun(kind, m, c, k);
  }

  /**
   * With no correction time a two-stage gate is completed on the very pass
   * that ends its joint stage, after its cleanup has locked the measure
   * patches: it is retired while still holding them.
   */
  lemma ZeroCorrectionRetiresLocked(kind: GateKind, m: int, k: nat)
    requires kind.TwoPhase() && m >= 1
    ensures Done(Run(kind, Start(m, 0), k)) <==> k >= m
    ensures Run(kind, Start(m, 0), m).stage == Correction
  {
    TwoPhaseRun(kind, m, 0, k);
    TwoPhaseRun(kind, m, 0, m);
  }

  /** The shape of a one-stage clock after `k` passes. */
  lemma {:induction false} OnePhaseRun(kind: GateKind, c0: Clock, k: nat)
    requires !kind.TwoPhase()
    ensures Run(kind, c0, k) == c0.(timer := c0.timer + k)
  {
    if k > 0 {
      OnePhaseRun(kind, c0, k - 1);
    }
  }

  /** A one-stage gate of duration `m` is completed exactly from pass `m` on (at once when `m <= 0`). */
  lemma OnePhaseLifetime(kind: GateKind, m: int, k: nat)
    requires !kind.TwoPhase()
    ensures Done(Run(kind, Start(m, 0), k)) <==> k >= m
  {
    OnePhaseRun(kind, Start(m, 0), k);
  }

  /** A completed clock in its last stage stays completed: cleanup never reopens it. */
  lemma DoneIsFinal(kind: GateKind, c: Clock)
    requires Done(c) && (kind.TwoPhase() ==> c.stage == Correction)
    ensures Done(PassClock(kind, c)) && PassClock(kind, c).stage == c.stage
  {
  }

  /** An unlocking of the whole list, as `UnlockAll` computes it: the new cells and magic states, or None. */
  type Unlocked = Option<(seq<Patch>, map<nat, set<PatchId>>)>

  /**
   * The joint stage of a two-stage gate ends, after unlocking gave `u`: it
   * succeeds exactly when `u` exists, every measure patch is free in it and no
   * two members share one; then each measure patch is held by its member's
   * lock, owned by `owner`, and every other patch is as in `u`.
   */
  ghost predicate MeasureLocked(tl: TransactionList, owner: object, u: Unlocked, ok: bool, cells: seq<Patch>, states: map<nat, set<PatchId>>)
    reads tl.Objects(), tl.LockObjects()
    requires u.Some? ==> tl.Fits(|u.value.0|) && |u.value.0| == |cells|
  {
    (ok == (u.Some? && (forall i | 0 <= i < |tl.members| :: AllUnlocked(u.value.0, tl.members[i].measurePatches))
            && PhaseDisjoint(tl.members, true)))
    && (ok ==> (states == u.value.1
                && (forall i | 0 <= i < |tl.members| :: TransactionList.HeldBy(cells, u.value.0, tl.members[i].measurePatches, tl.members[i].lock))
                && (forall p | 0 <= p < |cells| && p !in Phase(tl.members, true) :: cells[p] == u.value.0[p])
                && (forall i | 0 <= i < |tl.members| :: tl.members[i].lock != null && tl.members[i].lock.owner == owner)))
  }

  /** The correction stage ends, after unlocking gave `u`: it succeeds exactly when `u` exists and every member releases in it, giving `cells`. */
  ghost predicate Released(tl: TransactionList, u: Unlocked, ok: bool, time: int, cells: seq<Patch>, states: map<nat, set<PatchId>>)
    requires u.Some? ==> tl.Fits(|u.value.0|)
  {
    (ok == (u.Some? && ReleaseList(tl.members, u.value.0, time).Some?))
    && (ok ==> cells == ReleaseList(tl.members, u.value.0, time).value && states == u.value.1)
  }

  /** A move gate ends, after unlocking gave `u`: it succeeds exactly when the members release in `u` and there is a target, which becomes a T patch. */
  ghost predicate MoveFinished(tl: TransactionList, target: Option<PatchId>, u: Unlocked, ok: bool, time: int,
                               cells: seq<Patch>, states: map<nat, set<PatchId>>)
    requires u.Some? ==> tl.Fits(|u.value.0|) && (target.Some? ==> target.value < |u.value.0|)
  {
    (ok == (u.Some? && ReleaseList(tl.members, u.value.0, time).Some? && target.Some?))
    && (ok ==> var r := ReleaseList(tl.members, u.value.0, time).value;
               cells == r[target.value := r[target.value].(patchType := T)] && states == u.value.1)
  }

  class Gate {
    const kind: GateKind
    /** `gate_type`; the rotation gate sets none. */
    const gateType: Option<GateType>
    /** The target qubit; a move gate's target is the string "%" and a preparation gate has `targs` instead. */
    const targ: Option<int>
    const targOrig: Option<int>
    const targs: seq<int>
    /** The patch whose orientation a rotation gate flips. */
    const tPatch: Option<PatchId>
    var timer: int
    var duration: int
    const correctionDuration: int
    var stage: Stage
    var transaction: TransactionList?
    var pre: seq<Gate>
    var post: seq<Gate>
    var weight: int
    var scheduleWeight: int
    var moveTarget: Option<PatchId>
    var completedAt: Option<int>

    /** `T_Gate(targ, move_duration, corr_duration, targ_orig)`; the original target defaults to the target. */
    constructor NewT(targ: int, moveDuration: int := 4, corrDuration: int := 3, targOrig: Option<int> := None)
      ensures kind == TGate && gateType == Some(TState) && this.targ == Some(targ)
      ensures this.targOrig == Some(if targOrig.Some? then targOrig.value else targ)
      ensures Timing() == Start(moveDuration, corrDuration)
      ensures transaction == null && pre == [] && post == [] && weight == 1 && scheduleWeight == 0
      ensures tPatch == None && moveTarget == None && completedAt == None
    {
      kind := TGate;
      gateType := Some(TState);
      this.targ := Some(targ);
      this.targOrig := Some(if targOrig.Some? then targOrig.value else targ);
      targs := [];
      tPatch := None;
      timer := 0;
      duration := moveDuration;
      correctionDuration := corrDuration;
      stage := Joint;
      transaction := null;
      pre := [];
      post := [];
      weight := 1;
      scheduleWeight := 0;
      moveTarget := None;
      completedAt := None;
    }

    /** `GSPrepGate(targs, move_duration, corr_duration)`. */
    constructor NewGSPrep(targs: seq<int>, moveDuration: int := 2, corrDuration: int := 2)
      ensures kind == GSPrepGate && gateType == Some(GraphStatePrep) && this.targs == targs && targ == None
      ensures Timing() == Start(moveDuration, corrDuration)
      ensures transaction == null && pre == [] && post == [] && weight == 1 && scheduleWeight == 0
      ensures tPatch == None && moveTarget == None && completedAt == None
    {
      kind := GSPrepGate;
      gateType := Some(GraphStatePrep);
      targ := None;
      targOrig := None;
      this.targs := targs;
      tPatch := None;
      timer := 0;
      duration := moveDuration;
      correctionDuration := corrDuration;
      stage := Joint;
      transaction := null;
      pre := [];
      post := [];
      weight := 1;
      scheduleWeight := 0;
      moveTarget := None;
      completedAt := None;
    }

    /** `MoveGate(move_duration)`: carries a T state to `move_target`. */
    constructor NewMove(moveDuration: int := 2)
      ensures kind == MoveGate && gateType == Some(ImplementationDefined) && targ == None
      ensures Timing() == Start(moveDuration, 0)
      ensures transaction == null && pre == [] && post == [] && weight == 1 && scheduleWeight == 0
      ensures tPatch == None && moveTarget == None && completedAt == None
    {
      kind := MoveGate;
      gateType := Some(ImplementationDefined);
      targ := None;
      targOrig := None;
      targs := [];
      tPatch := None;
      timer := 0;
      duration := moveDuration;
      correctionDuration := 0;
      stage := Joint;
      transaction := null;
      pre := [];
      post := [];
      weight := 1;
      scheduleWeight := 0;
      moveTarget := None;
      completedAt := None;
    }

    /** A basic `Gate`, whose `gate_type` is whatever its creator assigns. */
    constructor NewPlain(gateType: Option<GateType>, targ: Option<int>)
      ensures kind == PlainGate && this.gateType == gateType && this.targ == targ
      ensures Timing() == Start(0, 0)
      ensures transaction == null && pre == [] && post == [] && weight == 1 && scheduleWeight == 0
      ensures tPatch == None && moveTarget == None && completedAt == None
    {
      kind := PlainGate;
      this.gateType := gateType;
      this.targ := targ;
      targOrig := None;
      targs := [];
      tPatch := None;
      timer := 0;
      duration := 0;
      correctionDuration := 0;
      stage := Joint;
      transaction := null;
      pre := [];
      post := [];
      weight := 1;
      scheduleWeight := 0;
      moveTarget := None;
      completedAt := None;
    }

    /**
     * `RotateGate(t_patch, rotate_ancilla, reg_patch, rotate_for, duration)`:
     * registers itself on the T patch, precedes `rotate_for`, inherits its
     * target and weights, and reserves the three patches as move patches.
     */
    constructor NewRotate(tPatch: PatchId, ancilla: PatchId, reg: PatchId, rotateFor: Gate, duration: int, d: Device)
      requires d.Valid() && tPatch < |d.cells| && ancilla < |d.cells| && reg < |d.cells|
      modifies d`cells
      ensures d.Valid()
      ensures d.cells == old(d.cells)[tPatch := old(d.cells[tPatch]).(rotation := this)]
      ensures kind == RotateGate && gateType == None && this.tPatch == Some(tPatch) && targ == rotateFor.targ
      ensures Timing() == Start(duration, 0)
      ensures pre == [] && post == [rotateFor] && weight == rotateFor.weight && scheduleWeight == rotateFor.scheduleWeight
      ensures moveTarget == None && completedAt == None
      ensures transaction != null && fresh(transaction) && |transaction.members| == 1 && fresh(transaction.members[0])
      ensures transaction.members[0].movePatches == [tPatch, ancilla, reg] && transaction.members[0].measurePatches == []
      ensures transaction.members[0].lock == null && transaction.members[0].onActivate == Some(NoCallback)
      ensures transaction.members[0].magicState == None && transaction.members[0].onUnlock == NoCallback
      ensures Valid(|d.cells|)
    {
      kind := RotateGate;
      gateType := None;
      targ := rotateFor.targ;
      targOrig := None;
      targs := [];
      this.tPatch := Some(tPatch);
      timer := 0;
      this.duration := duration;
      correctionDuration := 0;
      stage := Joint;
      var t := new Transaction(Proposal([tPatch, ancilla, reg], [], None, None, NoCallback, NoCallback));
      transaction := new TransactionList([t]);
      pre := [];
      post := [rotateFor];
      weight := rotateFor.weight;
      scheduleWeight := rotateFor.scheduleWeight;
      moveTarget := None;
      completedAt := None;
      new;
      d.RegisterRotation(tPatch, this);
    }

    function Timing(): Clock
      reads this
    {
      Clock(timer, duration, correctionDuration, stage)
    }

    /** The objects the gate's transaction list may change: the list, its members and their locks. */
    ghost function Footprint(): set<object>
      reads this, if transaction != null then {transaction} + transaction.Objects() else {}
    {
      if transaction == null then {}
      else {transaction} + transaction.Objects()
           + set i | 0 <= i < |transaction.members| && transaction.members[i].lock != null :: transaction.members[i].lock
    }

    /** The ids the gate holds name patches of an arena of `n` patches, and its transaction list is well formed. */
    ghost predicate Valid(n: nat)
      reads this, if transaction != null then {transaction} + transaction.Objects() else {}
    {
      (transaction != null ==> transaction.Distinct() && transaction.FitsNow(n))
      && (kind.RotateGate? ==> tPatch.Some? && tPatch.value < n)
      && (moveTarget.Some? ==> moveTarget.value < n)
    }

    /** `tick`: every gate class counts one pass. */
    method Tick()
      modifies this`timer
      ensures Timing() == TickClock(old(Timing()))
    {
      timer := timer + 1;
    }

    /** `completed`. */
    predicate Completed()
      reads this
    {
      Done(Timing())
    }

    /**
     * `available`: two-stage gates wait for all their predecessors to be
     * completed; plain and move gates are always available; the rotation
     * gate does not override the base method, which raises (`None`).
     */
    function Available(): (r: Option<bool>)
      reads this, pre
      ensures r.None? <==> kind.RotateGate?
      ensures kind.TwoPhase() ==> r == Some(forall i | 0 <= i < |pre| :: pre[i].Completed())
      ensures kind.PlainGate? || kind.MoveGate? ==> r == Some(true)
    {
      match kind
      case RotateGate => None
      case PlainGate => Some(true)
      case MoveGate => Some(true)
      case _ => Some(forall i | 0 <= i < |pre| :: pre[i].Completed())
    }

    /**
     * `activate(transaction[, move_target])` of the two-stage and move gates:
     * fire the list's activation callbacks, then lock its move patches for
     * this gate.  A plain gate raises, and a rotation gate takes no list.
     */
    method Activate(tl: TransactionList, target: Option<PatchId>, d: Device) returns (ok: bool)
      requires d.Valid() && tl.Distinct() && tl.FitsNow(|d.cells|) && Valid(|d.cells|)
      requires target.Some? ==> target.value < |d.cells|
      modifies this`transaction, this`moveTarget, d, tl, tl.Objects()
      ensures d.Valid() && |d.cells| == |old(d.cells)|
      ensures var mid := ActivateAll(tl.members, old(tl.Snapshots()), old(d.cells), old(d.states));
        ok == (kind.TakesTransaction() && mid.Some?
               && (forall i | 0 <= i < |tl.members| :: old(tl.members[i].lock) == null && AllUnlocked(mid.value.0, tl.members[i].movePatches))
               && PhaseDisjoint(tl.members, false))
      ensures var mid := ActivateAll(tl.members, old(tl.Snapshots()), old(d.cells), old(d.states));
        ok ==> (d.states == mid.value.1
               && (forall i | 0 <= i < |tl.members| :: TransactionList.HeldBy(d.cells, mid.value.0, tl.members[i].movePatches, tl.members[i].lock))
               && (forall p | 0 <= p < |d.cells| && p !in Phase(tl.members, false) :: d.cells[p] == mid.value.0[p]))
      ensures ok ==> forall i | 0 <= i < |tl.members| ::
        tl.members[i].lock != null && fresh(tl.members[i].lock) && tl.members[i].lock.owner == this && tl.members[i].lock.holds == tl.members[i].movePatches
      ensures ok ==> transaction == tl && moveTarget == (if kind.MoveGate? then target else old(moveTarget)) && Valid(|d.cells|)
      ensures ok ==> SameTurns(old(d.cells), d.cells)
      ensures !ok ==> transaction == old(transaction) && moveTarget == old(moveTarget)
      ensures Timing() == old(Timing())
    {
      if !kind.TakesTransaction() {
        return false;
      }
      ok := Reserve(tl, d);
      if !ok {
        return;
      }
      transaction := tl;
      if kind.MoveGate? {
        moveTarget := target;
      }
    }

    /** The two steps every `activate` takes on a list: fire the activation callbacks, then lock the move patches for this gate. */
    method Reserve(tl: TransactionList, d: Device) returns (ok: bool)
      requires d.Valid() && tl.Distinct() && tl.FitsNow(|d.cells|)
      modifies d, tl, tl.Objects()
      ensures d.Valid() && |d.cells| == |old(d.cells)|
      ensures ok ==> tl.FitsNow(|d.cells|)
      ensures var mid := ActivateAll(tl.members, old(tl.Snapshots()), old(d.cells), old(d.states));
        ok == (mid.Some?
               && (forall i | 0 <= i < |tl.members| :: old(tl.members[i].lock) == null && AllUnlocked(mid.value.0, tl.members[i].movePatches))
               && PhaseDisjoint(tl.members, false))
      ensures var mid := ActivateAll(tl.members, old(tl.Snapshots()), old(d.cells), old(d.states));
        ok ==> (d.states == mid.value.1
               && (forall i | 0 <= i < |tl.members| :: TransactionList.HeldBy(d.cells, mid.value.0, tl.members[i].movePatches, tl.members[i].lock))
               && (forall p | 0 <= p < |d.cells| && p !in Phase(tl.members, false) :: d.cells[p] == mid.value.0[p]))
      ensures ok ==> forall i | 0 <= i < |tl.members| ::
        tl.members[i].lock != null && fresh(tl.members[i].lock) && tl.members[i].lock.owner == this && tl.members[i].lock.holds == tl.members[i].movePatches
      ensures ok ==> SameTurns(old(d.cells), d.cells)
    {
      ghost var snaps, cells0, states0 := tl.Snapshots(), d.cells, d.states;
      ok := tl.Activate(d);
      if !ok {
        return;
      }
      ghost var mid := d.cells;
      ActivateAllTurns(tl.members, snaps, cells0, states0);
      ok := tl.LockMove(this, d);
      if ok {
        HeldTurns(tl.members, d.cells, mid);
      }
    }

    /** The rotation gate's `activate()`: the same two steps on its own transaction. */
    method ActivateRotation(d: Device) returns (ok: bool)
      requires d.Valid() && Valid(|d.cells|)
      modifies d, Footprint()
      ensures d.Valid() && |d.cells| == |old(d.cells)|
      ensures ok ==> kind.RotateGate? && transaction != null && Valid(|d.cells|)
      ensures kind.RotateGate? && transaction != null ==>
        var tl := transaction;
        var mid := ActivateAll(tl.members, old(tl.Snapshots()), old(d.cells), old(d.states));
        (ok == (mid.Some?
               && (forall i | 0 <= i < |tl.members| :: old(tl.members[i].lock) == null && AllUnlocked(mid.value.0, tl.members[i].movePatches))
               && PhaseDisjoint(tl.members, false)))
        && (ok ==> (d.states == mid.value.1
               && (forall i | 0 <= i < |tl.members| :: TransactionList.HeldBy(d.cells, mid.value.0, tl.members[i].movePatches, tl.members[i].lock))
               && (forall p | 0 <= p < |d.cells| && p !in Phase(tl.members, false) :: d.cells[p] == mid.value.0[p])))
      ensures ok ==> forall i | 0 <= i < |transaction.members| ::
        transaction.members[i].lock != null && fresh(transaction.members[i].lock) && transaction.members[i].lock.owner == this
      ensures ok ==> SameTurns(old(d.cells), d.cells)
    {
      if !kind.RotateGate? || transaction == null {
        return false;
      }
      ok := Reserve(transaction, d);
    }

    /**
     * `cleanup(scheduler)` at pass `time`; nothing happens until the gate is
     * completed.  Then a two-stage gate unlocks its list and either enters the
     * correction stage, locking the measure patches, or releases its patches;
     * a move gate unlocks, releases and turns its target into a T patch; a
     * rotation gate unlocks and records the time.  `ok` is false where the
     * source raises.
     */
    method Cleanup(time: int, d: Device) returns (ok: bool)
      requires d.Valid() && Valid(|d.cells|)
      modifies this`timer, this`stage, this`duration, this`completedAt, d, Footprint()
      ensures d.Valid() && |d.cells| == |old(d.cells)|
      ensures ok ==> Timing() == CleanupClock(kind, old(Timing())) && Valid(|d.cells|)
      ensures ok ==> completedAt == (if kind.RotateGate? && old(Completed()) then Some(time) else old(completedAt))
      ensures !old(Completed()) || kind.PlainGate? ==> ok && d.cells == old(d.cells) && d.states == old(d.states)
      ensures old(Completed()) && !kind.PlainGate? && ok ==> transaction != null
      ensures old(Completed()) && !kind.PlainGate? && transaction != null ==>
        var tl := transaction;
        var u := UnlockAll(tl.members, old(tl.Locks()), old(d.cells), old(d.states));
        (ok ==> u.Some?)
        && (kind.TwoPhase() && old(stage) == Joint ==> MeasureLocked(tl, this, u, ok, d.cells, d.states))
        && (kind.TwoPhase() && old(stage) == Correction ==> Released(tl, u, ok, time, d.cells, d.states))
        && (kind.MoveGate? ==> MoveFinished(tl, moveTarget, u, ok, time, d.cells, d.states))
        && (kind.RotateGate? ==> ok == u.Some? && (ok ==> d.cells == u.value.0 && d.states == u.value.1))
    {
      if !Completed() || kind.PlainGate? {
        return true;
      }
      var tl := transaction;
      if tl == null {
        return false;
      }
      ok := tl.Unlock(d);
      if !ok {
        return;
      }
      if kind.RotateGate? {
        completedAt := Some(time);
      } else if kind.MoveGate? {
        ok := FinishMove(time, d);
      } else if stage == Joint {
        ok := EnterCorrection(d);
      } else {
        ok := tl.Release(time, d);
      }
    }

    /** The joint stage of a completed two-stage gate is over: restart the clock for the correction and lock the measure patches. */
    method EnterCorrection(d: Device) returns (ok: bool)
      requires d.Valid() && Valid(|d.cells|) && transaction != null
      requires kind.TwoPhase() && stage == Joint && Completed()
      modifies this`timer, this`stage, this`duration, transaction`activeCells, transaction.Objects(), d`cells
      ensures d.Valid() && |d.cells| == |old(d.cells)| && transaction == old(transaction)
      ensures Timing() == CleanupClock(kind, old(Timing()))
      ensures ok == ((forall i | 0 <= i < |transaction.members| ::
                        old(transaction.members[i].lock) == null && AllUnlocked(old(d.cells), transaction.members[i].measurePatches))
                     && PhaseDisjoint(transaction.members, true))
      ensures ok ==> Valid(|d.cells|)
      ensures ok ==> forall i | 0 <= i < |transaction.members| ::
        TransactionList.HeldBy(d.cells, old(d.cells), transaction.members[i].measurePatches, transaction.members[i].lock)
      ensures ok ==> forall p | 0 <= p < |d.cells| && p !in Phase(transaction.members, true) :: d.cells[p] == old(d.cells[p])
      ensures ok ==> forall i | 0 <= i < |transaction.members| ::
        transaction.members[i].lock != null && transaction.members[i].lock.owner == this
        && transaction.members[i].lock.holds == transaction.members[i].measurePatches
    {
      timer := 0;
      stage := Correction;
      duration := correctionDuration;
      ok := transaction.LockMeasure(this, d);
    }

    /** A completed move gate, already unlocked, releases its patches and turns its target into a T patch. */
    method FinishMove(time: int, d: Device) returns (ok: bool)
      requires d.Valid() && Valid(|d.cells|) && transaction != null
      modifies d`cells
      ensures d.Valid() && |d.cells| == |old(d.cells)| && Valid(|d.cells|)
      ensures var r := ReleaseList(transaction.members, old(d.cells), time);
        ok == (r.Some? && moveTarget.Some?)
        && (ok ==> d.cells == r.value[moveTarget.value := r.value[moveTarget.value].(patchType := T)])
    {
      ok := transaction.Release(time, d);
      if !ok {
        return;
      }
      if moveTarget.None? {
        return false;
      }
      d.SetType(moveTarget.value, T);
    }

    /** `next(scheduler)`: a completed rotation gate flips its T patch's orientation; the other classes do nothing. */
    method Next(d: Device)
      requires d.Valid() && Valid(|d.cells|)
      modifies d`cells
      ensures d.Valid()
      ensures kind.RotateGate? && Completed() ==>
        var p := tPatch.value;
        d.cells == old(d.cells)[p := old(d.cells[p]).(orientation := old(d.cells[p]).orientation.Inverse())]
      ensures !(kind.RotateGate? && Completed()) ==> d.cells == old(d.cells)
    {
      if kind.RotateGate? && Completed() {
        var p := tPatch.value;
        d.SetOrientation(p, d.cells[p].orientation.Inverse());
      }
    }
  }
}
