/**
 * Surface-code patches and the locks that reserve them.
 *
 * Every patch of the device lives in one arena, `Device.cells`, and is named by
 * its index (`PatchId`).  Regions, transactions and locks hold ids, so two
 * containers that refer to "the same patch object" refer to the same index.
 * A patch is a value record; the Python subclass it was made from
 * (Patch, BufferPatch, TFactoryOutputPatch, TCultPatch) is its `cls` tag, and
 * the behaviour each subclass overrides is a case split on that tag.
 */
module Patches {
  import opened Wrappers

  type PatchId = nat

  datatype PatchType = Unused | Reg | Route | RouteBuffer | T | Bell | Cultivator | FactoryOutput | Reserved

  datatype PatchOrientation = XTop | ZTop
  {
    /** The integer value of the enumeration member. */
    function Value(): nat { if XTop? then 0 else 1 }

    /** The other orientation: the member whose value is one minus ours. */
    function Inverse(): (r: PatchOrientation)
      ensures r.Value() == 1 - Value()
    {
      if XTop? then ZTop else XTop
    }
  }

  lemma InverseIsInvolution(o: PatchOrientation)
    ensures o.Inverse().Inverse() == o
    ensures o.Inverse() != o
  {
  }

  /** The subclass of Patch a cell was created as. */
  datatype PatchClass = PlainPatch | BufferPatch | FactoryOutputPatch(factory: nat) | CultPatch

  /**
   * One patch.  `lock` is the lock currently holding the patch (null when it
   * is free).  `tCount` is meaningful for factory outputs, `hasT` for
   * cultivator patches; `x`, `y` are global coordinates, `localY`, `localX` the
   * coordinates inside the patch's widget region.
   */
  datatype Patch = Patch(
    cls: PatchClass,
    patchType: PatchType,
    localY: int,
    localX: int,
    x: int,
    y: int,
    orientation: PatchOrientation,
    lock: PatchLock?,
    used: bool,
    releaseTime: Option<int>,
    rotation: object?,
    tCount: nat,
    hasT: bool)

  /** A freshly constructed patch of the given class; its type follows from the class except for plain patches. */
  function NewPatch(cls: PatchClass, patchType: PatchType, localY: int, localX: int, orientation: PatchOrientation): (p: Patch)
    ensures p.lock == null && !p.used && p.releaseTime == None && p.rotation == null && p.tCount == 0 && !p.hasT
    ensures p.cls == cls && p.localY == localY && p.localX == localX && p.orientation == orientation
    ensures cls.BufferPatch? ==> p.patchType == RouteBuffer
    ensures cls.FactoryOutputPatch? ==> p.patchType == FactoryOutput
    ensures cls.CultPatch? ==> p.patchType == Cultivator
    ensures cls.PlainPatch? ==> p.patchType == patchType
  {
    var t := match cls
      case PlainPatch => patchType
      case BufferPatch => RouteBuffer
      case FactoryOutputPatch(_) => FactoryOutput
      case CultPatch => Cultivator;
    Patch(cls, t, localY, localX, 0, 0, orientation, null, false, None, null, 0, false)
  }

  predicate Locked(p: Patch) { p.lock != null }

  /** May the patch be consumed as a magic state right now? */
  predicate TAvailable(p: Patch)
  {
    match p.cls
    case FactoryOutputPatch(_) => p.tCount > 0 && !Locked(p)
    case CultPatch => p.hasT && !Locked(p)
    case _ => p.patchType == T && !p.used && !Locked(p)
  }

  /** May the patch carry a route right now? */
  predicate RouteAvailable(p: Patch)
  {
    match p.cls
    case FactoryOutputPatch(_) => false
    case CultPatch => !p.hasT && !Locked(p)
    case _ => (p.patchType == Route || p.patchType == RouteBuffer) && !Locked(p)
  }

  /** No patch is offered both as a magic state and as routing space. */
  lemma AvailabilityExclusive(p: Patch)
    ensures !(TAvailable(p) && RouteAvailable(p))
    ensures Locked(p) ==> !TAvailable(p) && !RouteAvailable(p)
  {
  }

  /** The fields a patch keeps whatever happens to its magic state. */
  predicate SamePlace(p: Patch, q: Patch)
  {
    q.cls == p.cls && q.localY == p.localY && q.localX == p.localX && q.x == p.x && q.y == p.y
    && q.orientation == p.orientation && q.lock == p.lock && q.rotation == p.rotation
  }

  /** Consume the magic state held by the patch; `None` where the source raises. */
  function UsePatch(p: Patch): (r: Option<Patch>)
    ensures TAvailable(p) ==> r.Some?
    ensures r.Some? ==> SamePlace(p, r.value)
    ensures r.Some? && p.cls.FactoryOutputPatch? ==> r.value.tCount + 1 == p.tCount
    ensures r.Some? && !p.cls.FactoryOutputPatch? ==> !TAvailable(r.value)
    ensures p.cls.CultPatch? ==> (r.Some? <==> p.hasT)
    ensures p.cls.FactoryOutputPatch? ==> (r.Some? <==> p.tCount > 0)
    ensures (p.cls.PlainPatch? || p.cls.BufferPatch?) ==> (r.Some? <==> p.patchType == T)
  {
    match p.cls
    case FactoryOutputPatch(_) => if p.tCount > 0 then Some(p.(tCount := p.tCount - 1)) else None
    case CultPatch => if p.hasT then Some(p.(hasT := false)) else None
    case _ => if p.patchType == T then Some(p.(used := true)) else None
  }

  /**
   * Return a consumed magic-state patch to service.  A plain T patch becomes
   * routing space, a buffer patch becomes an empty buffer again; factory
   * outputs and cultivators are left as they are (the cultivator's
   * generator reset is not part of the patch state).
   */
  function ReleasePatch(p: Patch, time: Option<int>): (r: Option<Patch>)
    ensures r.Some? ==> SamePlace(p, r.value)
    ensures (p.cls.PlainPatch? || p.cls.BufferPatch?) ==> (r.Some? <==> p.patchType == T && p.used)
    ensures r.Some? && (p.cls.PlainPatch? || p.cls.BufferPatch?) ==>
      !r.value.used && r.value.releaseTime == time && RouteAvailable(r.value) == !Locked(p)
    ensures r.Some? && p.cls.BufferPatch? ==> r.value.patchType == RouteBuffer
    ensures (p.cls.FactoryOutputPatch? || p.cls.CultPatch?) ==> r == Some(p)
  {
    match p.cls
    case FactoryOutputPatch(_) => Some(p)
    case CultPatch => Some(p)
    case _ =>
      if p.patchType != T || !p.used then None
      else Some(p.(used := false, releaseTime := time, patchType := if p.cls.BufferPatch? then RouteBuffer else Route))
  }

  /** A buffer patch that is not locked takes a T; a locked one is left alone. */
  function StorePatch(p: Patch): (r: Patch)
    requires p.cls.BufferPatch?
    ensures SamePlace(p, r) && r.used == p.used
    ensures !Locked(p) && !p.used ==> TAvailable(r)
    ensures Locked(p) ==> r == p
  {
    if !Locked(p) then p.(patchType := T) else p
  }

  /**
   * A cultivator patch polls its generator (`produced` is the generator's
   * answer); only an empty, unlocked cultivator polls.  The second component
   * says whether a new T appeared.
   */
  function CultUpdatePatch(p: Patch, produced: bool): (r: (Patch, bool))
    requires p.cls.CultPatch?
    ensures SamePlace(p, r.0)
    ensures r.1 <==> !TAvailable(p) && TAvailable(r.0)
    ensures !r.1 ==> r.0.hasT == p.hasT
  {
    if !p.hasT && !Locked(p) then (p.(hasT := produced), produced) else (p, false)
  }

  /** A plain T patch or a filled buffer goes back to routing after one use and one release. */
  lemma UseThenReleaseFreesRoute(p: Patch, time: Option<int>)
    requires p.cls.PlainPatch? || p.cls.BufferPatch?
    requires TAvailable(p)
    ensures UsePatch(p).Some? && ReleasePatch(UsePatch(p).value, time).Some?
    ensures var q := ReleasePatch(UsePatch(p).value, time).value;
      RouteAvailable(q) && !TAvailable(q) && q.releaseTime == time
  {
  }

  /** A buffer patch cycles: filled, consumed, released, filled again. */
  lemma BufferCycle(p: Patch, time: Option<int>)
    requires p.cls.BufferPatch? && TAvailable(p)
    ensures var q := ReleasePatch(UsePatch(p).value, time).value;
      q.patchType == RouteBuffer && TAvailable(StorePatch(q))
  {
  }

  /** Two arenas of the same size whose patches face the same way and carry the same registered rotation. */
  predicate SameTurns(a: seq<Patch>, b: seq<Patch>)
  {
    |a| == |b| && forall p | 0 <= p < |a| :: a[p].orientation == b[p].orientation && a[p].rotation == b[p].rotation
  }

  /** Two arenas of the same size whose patches carry the same locks. */
  predicate SameLocks(a: seq<Patch>, b: seq<Patch>)
  {
    |a| == |b| && forall p | 0 <= p < |a| :: a[p].lock == b[p].lock
  }

  /** `Patch.use` on cell `p` of an arena. */
  function UseAt(cells: seq<Patch>, p: PatchId): (r: Option<seq<Patch>>)
    requires p < |cells|
    ensures r.Some? ==> SameLocks(cells, r.value)
    ensures r.Some? <==> UsePatch(cells[p]).Some?
    ensures r.Some? ==> r.value == cells[p := UsePatch(cells[p]).value]
  {
    match UsePatch(cells[p])
    case None => None
    case Some(q) => Some(cells[p := q])
  }

  /**
   * `release(time)` on each listed cell in turn (a region's `release_cells`);
   * `None` as soon as one release raises.
   */
  function ReleaseAll(cells: seq<Patch>, ids: seq<PatchId>, time: Option<int>): (r: Option<seq<Patch>>)
    requires InRange(ids, |cells|)
    ensures r.Some? ==> SameLocks(cells, r.value)
    ensures r.Some? ==> forall p | 0 <= p < |cells| && p !in ids :: r.value[p] == cells[p]
    ensures r.Some? ==> forall i | 0 <= i < |ids| :: SamePlace(cells[ids[i]], r.value[ids[i]])
    decreases |ids|
  {
    if ids == [] then Some(cells)
    else
      match ReleasePatch(cells[ids[0]], time)
      case None => None
      case Some(q) =>
        assert InRange(ids[1..], |cells[ids[0] := q]|) by {
          forall i | 0 <= i < |ids[1..]| ensures ids[1..][i] < |cells| { assert ids[1..][i] == ids[i + 1]; }
        }
        ReleaseAll(cells[ids[0] := q], ids[1..], time)
  }

  /** The ids are all indices of `cells`. */
  predicate InRange(ids: seq<PatchId>, n: nat)
  {
    forall i | 0 <= i < |ids| :: ids[i] < n
  }

  /** No patch named in `ids` is locked. */
  predicate AllUnlocked(cells: seq<Patch>, ids: seq<PatchId>)
    requires InRange(ids, |cells|)
  {
    forall i | 0 <= i < |ids| :: !Locked(cells[ids[i]])
  }

  /** `cells` with every patch named in `ids` pointing at lock `l`. */
  function WithLock(cells: seq<Patch>, ids: seq<PatchId>, l: PatchLock?): (r: seq<Patch>)
    ensures |r| == |cells|
  {
    seq(|cells|, p requires 0 <= p < |cells| => if p in ids then cells[p].(lock := l) else cells[p])
  }

  /** `cells` with every patch named in `ids` that is held by `l` set free. */
  function ClearLock(cells: seq<Patch>, ids: seq<PatchId>, l: PatchLock): (r: seq<Patch>)
    ensures |r| == |cells|
  {
    seq(|cells|, p requires 0 <= p < |cells| => if p in ids && cells[p].lock == l then cells[p].(lock := null) else cells[p])
  }

  /** Locking writes nothing but the `lock` field of the named patches. */
  lemma WithLockEffect(cells: seq<Patch>, ids: seq<PatchId>, l: PatchLock?, p: nat)
    requires p < |cells|
    ensures WithLock(cells, ids, l)[p].lock == (if p in ids then l else cells[p].lock)
    ensures WithLock(cells, ids, l)[p] == cells[p].(lock := WithLock(cells, ids, l)[p].lock)
  {
  }

  /**
   * Releasing a lock frees exactly the patches it holds: after `ClearLock` no
   * patch points at `l` any more (provided every patch pointing at `l` is one
   * of its holds), and every patch held by another lock keeps that lock.
   */
  lemma ClearLockFrees(cells: seq<Patch>, l: PatchLock)
    requires forall p | 0 <= p < |cells| :: cells[p].lock == l ==> p in l.holds
    ensures forall p | 0 <= p < |cells| :: ClearLock(cells, l.holds, l)[p].lock != l
    ensures forall p | 0 <= p < |cells| :: cells[p].lock != l ==> ClearLock(cells, l.holds, l)[p] == cells[p]
  {
  }

  /**
   * A lock: the owner (a gate) and the patches it reserves.  Locking checks
   * that every held patch is free before writing anything; unlocking frees
   * only the held patches that still point at this lock.
   */
  class PatchLock {
    var owner: object?
    const holds: seq<PatchId>

    constructor (owner: object?, holds: seq<PatchId>)
      ensures this.owner == owner && this.holds == holds
    {
      this.owner := owner;
      this.holds := holds;
    }

    method Lock(d: Device) returns (ok: bool)
      requires InRange(holds, |d.cells|)
      requires d.Valid()
      modifies d`cells
      ensures d.Valid()
      ensures ok == AllUnlocked(old(d.cells), holds)
      ensures d.cells == if ok then WithLock(old(d.cells), holds, this) else old(d.cells)
    {
      for i := 0 to |holds|
        invariant AllUnlocked(d.cells, holds[..i])
      {
        if Locked(d.cells[holds[i]]) {
          return false;
        }
      }
      ghost var before := d.cells;
      for i := 0 to |holds|
        invariant |d.cells| == |before|
        invariant d.cells == WithLock(before, holds[..i], this)
      {
        assert forall p :: p in holds[..i + 1] <==> p in holds[..i] || p == holds[i];
        d.cells := d.cells[holds[i] := d.cells[holds[i]].(lock := this)];
      }
      assert holds[..|holds|] == holds;
      ok := true;
    }

    method Unlock(d: Device)
      requires InRange(holds, |d.cells|)
      requires d.Valid()
      modifies this`owner, d`cells
      ensures d.Valid()
      ensures owner == null
      ensures d.cells == ClearLock(old(d.cells), holds, this)
      ensures forall p | 0 <= p < |d.cells| :: d.cells[p].lock != this
    {
      ghost var before := d.cells;
      for i := 0 to |holds|
        invariant |d.cells| == |before|
        invariant d.cells == ClearLock(before, holds[..i], this)
        invariant d.Valid()
      {
        assert forall p :: p in holds[..i + 1] <==> p in holds[..i] || p == holds[i];
        if d.cells[holds[i]].lock == this {
          d.cells := d.cells[holds[i] := d.cells[holds[i]].(lock := null)];
        }
      }
      assert holds[..|holds|] == holds;
      owner := null;
    }
  }

  /** The arena of all patches, and the magic-state pools (`available_states`) of the regions, keyed by region tag. */
  class Device {
    var cells: seq<Patch>
    var states: map<nat, set<PatchId>>

    /** Every locked patch is one of the holds of the lock it points at. */
    ghost predicate Valid()
      reads this
    {
      forall p | 0 <= p < |cells| :: cells[p].lock != null ==> p in cells[p].lock.holds
    }

    constructor (cells: seq<Patch>)
      requires forall p | 0 <= p < |cells| :: cells[p].lock == null
      ensures Valid() && this.cells == cells && states == map[]
    {
      this.cells := cells;
      states := map[];
    }

    /** `Patch.use` on one cell; `ok` is false where the source raises, and then nothing changes. */
    method Use(p: PatchId) returns (ok: bool)
      requires p < |cells| && Valid()
      modifies this`cells
      ensures Valid()
      ensures ok == UsePatch(old(cells[p])).Some?
      ensures cells == if ok then old(cells)[p := UsePatch(old(cells[p])).value] else old(cells)
    {
      var r := UsePatch(cells[p]);
      ok := r.Some?;
      if ok {
        cells := cells[p := r.value];
      }
    }

    /** `Patch.release` on one cell. */
    method Release(p: PatchId, time: Option<int>) returns (ok: bool)
      requires p < |cells| && Valid()
      modifies this`cells
      ensures Valid()
      ensures ok == ReleasePatch(old(cells[p]), time).Some?
      ensures cells == if ok then old(cells)[p := ReleasePatch(old(cells[p]), time).value] else old(cells)
    {
      var r := ReleasePatch(cells[p], time);
      ok := r.Some?;
      if ok {
        cells := cells[p := r.value];
      }
    }

    /** A region's `release_cells`: release every listed cell with no release time. */
    method ReleaseCells(ids: seq<PatchId>) returns (ok: bool)
      requires InRange(ids, |cells|) && Valid()
      modifies this`cells
      ensures Valid() && SameLocks(old(cells), cells)
      ensures ok == ReleaseAll(old(cells), ids, None).Some?
      ensures ok ==> cells == ReleaseAll(old(cells), ids, None).value
    {
      for i := 0 to |ids|
        invariant SameLocks(old(cells), cells)
        invariant InRange(ids[i..], |cells|)
        invariant ReleaseAll(old(cells), ids, None) == ReleaseAll(cells, ids[i..], None)
      {
        assert ids[i..][0] == ids[i] && ids[i..][1..] == ids[i + 1..];
        var done := Release(ids[i], None);
        if !done {
          return false;
        }
      }
      ok := true;
    }

    /** `Patch.register_rotation`: remember the rotation gate last applied to the patch. */
    method RegisterRotation(p: PatchId, gate: object?)
      requires p < |cells| && Valid()
      modifies this`cells
      ensures Valid()
      ensures cells == old(cells)[p := old(cells[p]).(rotation := gate)]
    {
      cells := cells[p := cells[p].(rotation := gate)];
    }

    /** Assign a field of one patch directly, as the gates and the strategy do. */
    method SetType(p: PatchId, t: PatchType)
      requires p < |cells| && Valid()
      modifies this`cells
      ensures Valid()
      ensures cells == old(cells)[p := old(cells[p]).(patchType := t)]
    {
      cells := cells[p := cells[p].(patchType := t)];
    }

    method SetOrientation(p: PatchId, o: PatchOrientation)
      requires p < |cells| && Valid()
      modifies this`cells
      ensures Valid()
      ensures cells == old(cells)[p := old(cells[p]).(orientation := o)]
    {
      cells := cells[p := cells[p].(orientation := o)];
    }

    /** `TCultPatch.update` on one cultivator cell, `produced` being its generator's answer. */
    method CultUpdate(p: PatchId, produced: bool) returns (fired: bool)
      requires p < |cells| && Valid() && cells[p].cls.CultPatch?
      modifies this`cells
      ensures Valid()
      ensures fired == CultUpdatePatch(old(cells[p]), produced).1
      ensures cells == old(cells)[p := CultUpdatePatch(old(cells[p]), produced).0]
    {
      var r := CultUpdatePatch(cells[p], produced);
      cells := cells[p := r.0];
      fired := r.1;
    }
  }
}
