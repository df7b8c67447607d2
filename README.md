# t_scheduler core, modelled in Dafny

This project models the resource-locking and scheduling engine of
`t_scheduler`, a cycle-stepped scheduler for lattice-surgery surface-code
layouts. It covers these parts, with the properties the code promises proved about them:

- **Patches and locks.** A patch is a grid cell: a register, a routing cell, a magic-state (T) buffer, a factory output or a cultivator. A lock owns a set of patches exclusively.
- **Transactions.** The move phase locks the whole path, the measure phase locks only the narrower set, and release frees the magic state. A `TransactionList` fans each phase out to its members.
- **Gates.** T gates (joint measurement, then correction), graph-state preparation, move and rotation gates, each with a timer and dependency edges.
- **The gate graph.** `dag_create`, pruning and topological order.
- **Regions.** Register rows and combs, the route bus, prefilled and rechargeable buffers, factory and cultivator regions, and the rotated local view of a widget region.
- **Routers.** Bus, register, factory (a breadth-first search), cultivator, the generic vertical router, the rechargeable buffer router, the vertical buffer router (column probes), and the tree buffer router (a cached search tree per lane, breadth-first expansion and path reduction).
- **The generic strategy.** A depth-first search down the router tree with its return pass, the rotation-mismatch policies of `validate_rotation`, and the buffer upkeep.
- **The schedule orchestrator's pass.** Admit, tick, clean up, retire, advance the clock.
- **Layout and board construction,** and the volume tracker.

State the source changes in place is modelled with classes:

- patches sit in an arena of cells, with `Device` owning it;
- locks, transactions, gates, trackers and the tree router are objects;
- the orchestrator's sets are `seq` fields.

Pure computations are functions with lemmas. Loops are methods proved against those functions.

Each Dafny module follows one or more source files:

| module | models |
|---|---|
| `Patches`, `Grids`, `Responses` | the `base` package |
| `Transactions` | `base/transaction.py` |
| `Gates`, `GateLayers` | `base/gate.py`, `base/gate_additional.py` and the gate factories |
| `Dags`, `DagBuild` | the DAG utilities |
| `Regions`, `RegisterRegions`, `RouteBuses`, `Buffers`, `FactoryRegions`, `CultivatorRegions` | the region and widget files |
| `Routing`, `Adapters`, `SimpleRouters`, `FactoryRouters`, `CultivatorRouters`, `GenericVerticalRouters`, `RechargeableRouters`, `VerticalBuffers`, `TreeBufferRouters`, `TreeBfs`, `TreePaths` | the router files |
| `Rotations`, `StrategySearch`, `Strategies` | `strategy/generic_strategy.py` and `strategy/base_strategy.py` |
| `Orchestration` | `schedule_orchestrator.py` |
| `Tracking` | `volume_tracker.py` |
| `Layouts`, `Boards`, `Templates` | `templates/generic_templates.py` |

External collaborators become parameters:

- a router's answer to a request is a `Respond` function of the arena;
- the magic-state generators are a sequence of production flags;
- the clock is a number.

## Model

| member | source | states |
|---|---|---|
| Patches.Inverse | src/t_scheduler/base/patch.py:23-28 | the inverse orientation's value is one minus the original's |
| Patches.InverseIsInvolution | src/t_scheduler/base/patch.py:27-28 | inverting twice gives the orientation back, and no orientation is its own inverse |
| Patches.NewPatch | src/t_scheduler/base/patch.py:77-230 | a new patch is unlocked, unused, has no release time, rotation or stored T; buffer, factory-output and cultivator patches get their fixed type, a plain patch the given one |
| Patches.AvailabilityExclusive | src/t_scheduler/base/patch.py:99-112 | no patch is offered both as a magic state and as routing space, and a locked patch offers neither |
| Patches.UsePatch | src/t_scheduler/base/patch.py:120-259 | an available patch can be used; a plain or buffer patch can be used iff its type is T, a factory output iff its count is positive (and the count drops by one), a cultivator iff it holds a T; position and lock are kept |
| Patches.ReleasePatch | src/t_scheduler/base/patch.py:131-265 | a plain or buffer patch releases iff it is a used T, ends unused with the given release time and route-available unless locked, a buffer patch as ROUTE_BUFFER; factory outputs and cultivators are left unchanged |
| Patches.StorePatch | src/t_scheduler/base/patch.py:150-155 | an unlocked, unused buffer patch becomes an available T; a locked one is unchanged |
| Patches.CultUpdatePatch | src/t_scheduler/base/patch.py:242-253 | the cultivator reports a new T exactly when it was not available before and is afterwards; otherwise its T flag is unchanged |
| Patches.UseThenReleaseFreesRoute | src/t_scheduler/base/patch.py:120-139 | an available plain or buffer T patch, used then released, is free routing space with the release time set |
| Patches.BufferCycle | src/t_scheduler/base/patch.py:150-164 | a filled buffer patch, used and released, is an empty ROUTE_BUFFER that can be filled again |
| Patches.UseAt | src/t_scheduler/base/patch.py:120-129 | using cell `p` of an arena succeeds iff the patch can be used, changes only that cell and no lock |
| Patches.ReleaseAll | src/t_scheduler/region/factory_region.py:95-98 | releasing a list of cells changes no lock, leaves unlisted cells alone and keeps each listed patch in place |
| Patches.WithLockEffect | src/t_scheduler/base/patch.py:46-47 | locking sets the lock field of exactly the held patches and writes nothing else |
| Patches.ClearLockFrees | src/t_scheduler/base/patch.py:55-58 | after unlocking no patch points at the lock, and patches held by other locks keep their lock |
| Patches.PatchLock.constructor | src/t_scheduler/base/patch.py:36-38 | the lock records its owner and held patches |
| Patches.PatchLock.Lock | src/t_scheduler/base/patch.py:40-50 | locking succeeds iff every held patch is unlocked, writes nothing on failure, and on success every held patch points at this lock |
| Patches.PatchLock.Unlock | src/t_scheduler/base/patch.py:52-59 | unlocking frees the held patches still pointing at this lock, leaves the others alone and clears the owner |
| Patches.Device.Use | src/t_scheduler/base/patch.py:120-129 | `use` on one cell: succeeds iff the patch can be used, and a failed use changes nothing |
| Patches.Device.Release | src/t_scheduler/base/patch.py:131-139 | `release` on one cell: succeeds iff the patch can be released, and a failed release changes nothing |
| Patches.Device.ReleaseCells | src/t_scheduler/region/factory_region.py:95-98 | a region's `release_cells` is the listed releases in turn, with no lock changed |
| Patches.Device.RegisterRotation | src/t_scheduler/base/patch.py:114-118 | the patch records the rotation gate and nothing else changes |
| Patches.Device.CultUpdate | src/t_scheduler/base/patch.py:242-253 | `TCultPatch.update` on one cell, reporting whether a new T appeared |
| Grids.Neighbours | src/t_scheduler/router/tree_buffer_router.py:214 | the four cells explored around a cell, down, left, right, up, are each adjacent to it |
| Grids.NeighbourIndex | src/t_scheduler/router/tree_buffer_router.py:92-93 | every cell `adjacent` to a cell is one of its four explored neighbours |
| Grids.ContiguousReversed | src/t_scheduler/router/tree_buffer_router.py:92-93 | a path of adjacent cells walked backwards is still one |
| Responses.ResponseStatus.Value | src/t_scheduler/base/response.py:4-7 | the status values are at most 2 |
| Responses.StatusOrder | src/t_scheduler/base/response.py:4-7 | FAILED < CHECK_DOWNSTREAM < SUCCESS, distinct statuses have distinct values, and only FAILED is falsy |
| Responses.MakeResponse | src/t_scheduler/base/response.py:13-18 | a response keeps status and transaction; with a transaction its downstream patch is the first move patch and its upstream patch the last |
| Responses.FailedResponse | src/t_scheduler/base/response.py:13 | the default response is FAILED with no transaction and no end patches |
| Responses.SinglePatchEnds | src/t_scheduler/base/response.py:17-18 | a one-patch move has the same downstream and upstream patch |
| Adapters.CoordinateAdapter.AboveToBelow | src/t_scheduler/router/generic/coordinate_adapter.py:23-27 | the result is always an index of the lower range (0 if it is empty), and it names the same global column whenever that column is in the lower range |
| Adapters.CoordinateAdapter.BelowToAbove | src/t_scheduler/router/generic/coordinate_adapter.py:29-33 | the result is always an index of the upper range (0 if it is empty), and it names the same global column whenever that column is in the upper range |
| Adapters.CoordinateAdapter.AboveToGlobal | src/t_scheduler/router/generic/coordinate_adapter.py:35-37 | the global column is the upper index past the upper range's start |
| Adapters.CoordinateAdapter.BelowToGlobal | src/t_scheduler/router/generic/coordinate_adapter.py:39-41 | the global column is the lower index past the lower range's start |
| Adapters.BelowRoundTrip | src/t_scheduler/router/generic/coordinate_adapter.py:23-33 | a lower index whose column is also in the upper range comes back unchanged from below-to-above then above-to-below |
| Adapters.AboveRoundTrip | src/t_scheduler/router/generic/coordinate_adapter.py:23-33 | an upper index whose column is also in the lower range comes back unchanged from above-to-below then below-to-above |
| Adapters.DocExample | src/t_scheduler/router/generic/coordinate_adapter.py:7-13 | with above [2, 8] and below [4, 7], upper index 2 maps to lower index 0 and back |
| Routing.RangeDirected | src/t_scheduler/router/abstract_router.py:58-63 | the range runs from `a` to `b` inclusive, one step at a time, upwards or downwards |
| Routing.RangeDirectedReverse | src/t_scheduler/router/abstract_router.py:58-63 | the range from `b` to `a` is the range from `a` to `b` backwards |
| Routing.Clamp | src/t_scheduler/router/abstract_router.py:77-79 | `max(lo, min(v, hi))`: inside a non-empty range the value stays, below it becomes `lo`, above it `hi`, and an empty range gives `lo` |
| Routing.ClampIdempotent | src/t_scheduler/router/abstract_router.py:77-79 | clamping twice is clamping once |
| Routing.ToLocalCol | src/t_scheduler/router/abstract_router.py:71-75 | the loop computes the widths of the earlier downstream regions plus the column |
| Routing.ToDownstreamCol | src/t_scheduler/router/abstract_router.py:65-69 | the loop computes the column less the earlier widths, clamped into the downstream region, a valid column of it when it has any |
| Routing.DownstreamColRoundTrip | src/t_scheduler/router/abstract_router.py:65-75 | a downstream column mapped to the local column and back is unchanged |
| Routing.LocalColOwner | src/t_scheduler/router/abstract_router.py:65-75 | every local column inside the downstream regions belongs to exactly one of them, and maps to it and back unchanged |
| Routing.PrefixWidthMonotone | src/t_scheduler/router/abstract_router.py:71-75 | the offsets of later downstream regions are never smaller |
| Routing.DefaultGeneric | src/t_scheduler/router/abstract_router.py:81-86 | the default `generic_transaction` answers CHECK_DOWNSTREAM with the transaction if there is one, else the FAILED response |
| Routing.DefaultNeverSucceeds | src/t_scheduler/router/abstract_router.py:81-86 | the default never answers SUCCESS, and its answer is truthy iff a transaction was found |
| Transactions.RunCallback | src/t_scheduler/router/factory_router.py:25-41 | the factory's activate callback succeeds iff the magic state is in the available pool and removes exactly it; the unlock callback puts a factory output back iff it still holds a T; no callback but the cultivator's touches the patches, and none changes a lock |
| Transactions.ActivateEffect | src/t_scheduler/base/transaction.py:84-90 | activation needs a callback slot that has not fired; it uses the magic-state patch, which must be usable, and leaves the slot spent (None) unless it was the no-op; locks are unchanged |
| Transactions.ActivateEffectTurns | src/t_scheduler/base/transaction.py:84-90 | activating one transaction changes no patch's orientation or registered rotation |
| Transactions.ActivateAllTurns | src/t_scheduler/base/transaction.py:171-173 | activating the members of a list in order changes no patch's orientation or registered rotation |
| Transactions.HeldTurns | src/t_scheduler/base/transaction.py:145-151 | locking the members' move patches changes no patch's orientation or registered rotation |
| Transactions.UnlockEffect | src/t_scheduler/base/transaction.py:115-122 | unlocking frees exactly the held patches still under this lock and leaves every other patch's lock as it was |
| Transactions.ReleaseEffect | src/t_scheduler/base/transaction.py:92-98 | releasing frees the magic-state patch at the given time and changes nothing when there is none; locks are unchanged |
| Transactions.Transaction.constructor | src/t_scheduler/base/transaction.py:61-82 | a new transaction keeps its move, measure patches, magic state, connect column and callbacks, holds no lock and no active cells |
| Transactions.Transaction.Activate | src/t_scheduler/base/transaction.py:84-90 | activation has exactly the effect ActivateEffect describes, and fails where that raises |
| Transactions.Transaction.Fire | src/t_scheduler/base/transaction.py:84-98 | running a callback has exactly the effect RunCallback describes |
| Transactions.Transaction.Release | src/t_scheduler/base/transaction.py:92-98 | release has exactly the effect ReleaseEffect describes |
| Transactions.Transaction.LockMove | src/t_scheduler/base/transaction.py:100-105 | locking the move patches succeeds iff the transaction holds no lock and every move patch is free; then a fresh lock owned by the gate holds exactly those patches and they are the active cells; on failure the arena and the active cells are unchanged, a lock already held stays, and otherwise the lock field is already overwritten by a fresh lock on the move patches |
| Transactions.Transaction.LockMeasure | src/t_scheduler/base/transaction.py:107-113 | the same for the measure patches, including the lock left behind by a failure |
| Transactions.Transaction.Unlock | src/t_scheduler/base/transaction.py:115-122 | unlocking succeeds iff a lock is held and the unlock callback succeeds; then no patch is under the old lock, the lock has no owner and the transaction holds none |
| Transactions.Phase | src/t_scheduler/base/transaction.py:145-161 | the active cells of a list phase are exactly the patches some member locks in that phase |
| Transactions.SharedPatch | src/t_scheduler/base/transaction.py:145-161 | two members that need the same patch in one phase make that phase non-disjoint, so it cannot be locked |
| Transactions.TransactionList.constructor | src/t_scheduler/base/transaction.py:130-143 | a new list keeps its members and has no active cells |
| Transactions.TransactionList.LockMove | src/t_scheduler/base/transaction.py:145-152 | locking the list's move phase succeeds iff every member is unlocked with free move patches and no patch is needed by two members; then each member holds a fresh lock on exactly its move patches and the active cells are their concatenation |
| Transactions.TransactionList.LockMeasure | src/t_scheduler/base/transaction.py:154-161 | the same for the measure phase |
| Transactions.TransactionList.Activate | src/t_scheduler/base/transaction.py:171-173 | activating the list activates every member in order, failing where one raises, and changes no lock |
| Transactions.TransactionList.Unlock | src/t_scheduler/base/transaction.py:163-165 | unlocking the list unlocks every member in order; on success no member holds a lock |
| Transactions.TransactionList.UnlockNext | src/t_scheduler/base/transaction.py:163-165 | one member unlocks: the whole list's unlocking from the old arena equals the rest's unlocking from the new arena, or fails with that member; earlier members stay unlocked |
| Transactions.TransactionList.Release | src/t_scheduler/base/transaction.py:167-169 | releasing the list releases every member's magic state in order, and changes no lock |
| Transactions.TransactionList.CheckUnlocked | src/t_scheduler/base/transaction.py:175-176 | the list's check holds exactly when no patch of its measure phase (all members' measure patches) is locked |
| Transactions.TransactionList.RouteCount | src/t_scheduler/base/transaction.py:178-179 | the sum of the members' routing-only counts is the length of the move phase less that of the measure phase |
| Transactions.RouteSumPhases | src/t_scheduler/base/transaction.py:127-128 | summing move minus measure counts over the members equals the difference of the list phases' lengths |
| Transactions.CheckUnlockedPhase | src/t_scheduler/base/transaction.py:124-125 | every member's measure patches are free iff every patch of the list's measure phase is free |
| Gates.TickClock | src/t_scheduler/base/gate.py:37-41 | a tick advances the timer by one and changes nothing else |
| Gates.CleanupClock | src/t_scheduler/base/gate.py:115-124 | cleanup changes the clock exactly when a two-phase gate finishes its joint phase, and then restarts it in correction with the correction duration |
| Gates.TwoPhaseRun | src/t_scheduler/base/gate.py:91-124 | a T or preparation gate is in its joint phase for the first move-duration passes and then counts through its correction phase |
| Gates.TwoPhaseLifetime | src/t_scheduler/base/gate.py:91-124 | with positive durations a two-phase gate is completed exactly after move plus correction duration passes, and only in correction |
| Gates.ZeroCorrectionRetiresLocked | src/t_scheduler/base/gate.py:115-124 | with a zero correction duration the gate completes as soon as it enters correction, so the measure lock taken there is never released by the joint branch |
| Gates.OnePhaseRun | src/t_scheduler/base/gate.py:37-47 | a one-phase gate's timer grows by one each pass and nothing else changes |
| Gates.OnePhaseLifetime | src/t_scheduler/base/gate.py:43-47 | a one-phase gate completes exactly after its duration |
| Gates.DoneIsFinal | src/t_scheduler/base/gate.py:43-47 | a completed gate stays completed, in the same stage |
| Gates.Gate.NewT | src/t_scheduler/base/gate.py:91-105 | a T gate starts in the joint stage with timer 0, the given move and correction durations (4 and 3 by default), original target defaulting to the target, no links, weight 1 |
| Gates.Gate.NewGSPrep | src/t_scheduler/base/gate_additional.py:13-29 | a preparation gate keeps its target tuple and starts like a T gate with durations 2 and 2 by default |
| Gates.Gate.NewMove | src/t_scheduler/base/gate.py:142-147 | a move gate has no target, the move duration (2 by default) and no move target |
| Gates.Gate.NewPlain | src/t_scheduler/base/gate.py:17-33 | a plain gate keeps its type and target, with zero durations and no links |
| Gates.Gate.NewRotate | src/t_scheduler/base/gate.py:180-205 | a rotation gate registers itself on the T patch and nothing else, targets what its T gate targets, copies its weights, links forward to it, and owns a transaction over T patch, ancilla and register patch |
| Gates.Gate.Tick | src/t_scheduler/base/gate.py:37-41 | the clock after a tick is TickClock of the clock before |
| Gates.Gate.Available | src/t_scheduler/base/gate.py:68-108 | T and preparation gates are available iff every predecessor is completed, plain and move gates always, and a rotation gate has no available method |
| Gates.Gate.Activate | src/t_scheduler/base/gate.py:110-113 | a T, preparation or move gate activates its list and then locks its move phase; it succeeds iff both do, keeps the list, turns no patch, and a move gate records its move target |
| Gates.Gate.ActivateRotation | src/t_scheduler/base/gate.py:207-209 | a rotation gate activates its own transaction and locks its move patches, succeeding iff both do, and turns no patch |
| Gates.Gate.Cleanup | src/t_scheduler/base/gate.py:115-124 | cleanup does nothing before completion; a completed gate unlocks, then a two-phase gate in joint enters correction and locks its measure phase, one in correction releases, a move gate releases and makes its target a T patch, and a rotation gate records the completion time |
| Gates.Gate.EnterCorrection | src/t_scheduler/base/gate.py:118-122 | entering correction sets the correction clock and locks the measure phase, succeeding iff that can be locked |
| Gates.Gate.FinishMove | src/t_scheduler/base/gate.py:158-162 | a completed move gate releases its list and its move target becomes a T patch |
| Gates.Gate.Next | src/t_scheduler/base/gate.py:217-219 | a completed rotation gate flips its T patch's orientation; any other gate changes nothing |
| GateLayers.MakeGates | src/t_scheduler/util.py:68-70 | one fresh, distinct T gate per qubit q, targeting func(q) with original target q, durations 2 and 3, unlinked; as written util.py:3 imports the legacy `T_Gate`, whose constructor takes no `targ_orig`, so the call raises TypeError for any qubit (see Left out) |
| GateLayers.MakeGsprepLayers | src/t_scheduler/base/util_additional.py:7-24 | one fresh, distinct preparation gate per target tuple in the shape of the layers, durations 2 and 2; every gate's predecessors are the whole previous layer and its successors the whole next one, none at the ends |
| GateLayers.LinkLayer | src/t_scheduler/base/util_additional.py:17-23 | linking one layer sets exactly its gates' pre and post lists and leaves their clocks alone |
| DagBuild.AddEntry | src/t_scheduler/util.py:77-82 | one schedule entry raises iff a predecessor index is out of range; otherwise each predecessor q gains the target as successor and the target gains q as predecessor |
| DagBuild.AddLayer | src/t_scheduler/util.py:75-83 | a layer raises iff some entry is out of range; otherwise the layer lists the entries' targets and the graph gains exactly their edges |
| DagBuild.ReadSchedule | src/t_scheduler/util.py:73-83 | reading the schedule raises iff some entry is out of range; otherwise there is one layer per schedule layer, listing its targets, and the graph gains the edges of all entries in order |
| DagBuild.MirrorCount | src/t_scheduler/util.py:80-82 | after reading, q occurs in t's predecessors exactly as often as t occurs in q's successors |
| DagBuild.BuiltRanked | src/t_scheduler/util.py:72-86 | a schedule whose edges respect a rank keeps the graph acyclic (ranked) and in range |
| DagBuild.DagCreate | src/t_scheduler/util.py:72-86 | dag_create raises iff an index is out of range or the schedule is empty; otherwise it returns the layers' targets and the read graph pruned from the first layer: each successor list loses exactly its discard set, each predecessor list only loses edges, and an edge is lost iff it was discarded, and only when a longer chain implies it |
| Dags.DagPrune | src/t_scheduler/util.py:88-113 | pruning keeps indices in range, filters each successor list by its discard set, removes from each predecessor list exactly the edges recorded in the discard sets, and discards an edge x to t only when another path from x reaches t |
| Dags.PruneKeepsMirror | src/t_scheduler/util.py:104-112 | when pre and post mirror each other and no predecessor list repeats a gate, they still mirror each other after the prune |
| Dags.TopologicalSort | src/t_scheduler/util.py:115-133 | the order lists each gate at most once, after all of its successors, and contains exactly the gates reachable from the roots |
| Dags.SortComplete | src/t_scheduler/util.py:119-133 | once every root is sorted, the order holds every gate reachable from the roots and nothing else |
| DagBuild.ScheduleWeightNonNegative | src/t_scheduler/util.py:139-144 | with non-negative weights every schedule weight is non-negative |
| DagBuild.ScheduleWeightDominates | src/t_scheduler/util.py:142-144 | a gate's schedule weight is at least each successor's schedule weight plus that successor's weight |
| DagBuild.ParseWeights | src/t_scheduler/util.py:136-144 | parse_weights raises on an empty layer list; otherwise every gate reachable from the first layer gets the sum over its successors of their schedule weight plus weight (0 without successors), and every other gate keeps its old value |
| Tracking.Tracked | src/t_scheduler/tracker/volume_tracker.py:133-134 | tracking adds the amount to exactly one bucket and leaves the others as they were |
| Tracking.TrackedTotal | src/t_scheduler/tracker/volume_tracker.py:133-134 | tracking an amount raises the total volume over all buckets by that amount |
| Tracking.ZeroBucketsStart | src/t_scheduler/tracker/volume_tracker.py:124-126 | the tracker starts with one zero bucket per volume type |
| Tracking.Used | src/t_scheduler/tracker/volume_tracker.py:20 | recording a use adds one to the source's count, starting from 0 for an unseen source, and changes no other source |
| Tracking.Tracker.constructor | src/t_scheduler/tracker/volume_tracker.py:121-128 | a new tracker has zero buckets, no T usage and zero total volume |
| Tracking.Tracker.Track | src/t_scheduler/tracker/volume_tracker.py:133-134 | track adds the amount to the one bucket and changes nothing else |
| Tracking.VolumeTag.constructor | src/t_scheduler/tracker/volume_tracker.py:76-82 | a tag (as make_tag builds it) keeps its tracker, type and multiplier, and has neither started nor ended, nor a `debug` attribute |
| Tracking.VolumeTag.Start | src/t_scheduler/tracker/volume_tracker.py:84-87 | start succeeds iff the tag has not started, and then records time plus offset and gives the tag its `debug` attribute |
| Tracking.VolumeTag.End | src/t_scheduler/tracker/volume_tracker.py:89-93 | end succeeds iff the tag has started, and then records (time - start + offset) times the multiplier as duration |
| Tracking.VolumeTag.Apply | src/t_scheduler/tracker/volume_tracker.py:95-99 | apply succeeds iff the tag has ended, and then tracks duration times space under the tag's type |
| Tracking.VolumeTag.Copy | src/t_scheduler/tracker/volume_tracker.py:102-106 | copying fails exactly when the tag never got its `debug` attribute (never started and not a copy); otherwise the copy is a fresh tag with the same tracker, type, multiplier and start, not yet ended |
| Tracking.SourceTag.constructor | src/t_scheduler/tracker/volume_tracker.py:11-13 | a source tag keeps its tracker and source |
| Tracking.SourceTag.Apply | src/t_scheduler/tracker/volume_tracker.py:15-21 | apply records one use of the source and then wipes it |
| Tracking.SourceTag.Copy | src/t_scheduler/tracker/volume_tracker.py:23-27 | a copy is a fresh tag with the same tracker and source |
| Tracking.FactoryTag.constructor | src/t_scheduler/tracker/volume_tracker.py:109-114 | a factory tag's volume is cycles times height times width, or 0 without a factory |
| Tracking.FactoryTag.Apply | src/t_scheduler/tracker/volume_tracker.py:116-118 | apply tracks the volume as factory volume and then zeroes it |
| Tracking.DrainTotal | src/t_scheduler/tracker/volume_tracker.py:56-58 | draining a list of ended tags raises the total volume by the sum of their durations |
| Tracking.Context.constructor | src/t_scheduler/tracker/volume_tracker.py:34-39 | a new context has no factory, source or active tag, is not applied and holds no tags |
| Tracking.Context.Transition | src/t_scheduler/tracker/volume_tracker.py:41-45 | a transition ends the active tag with offset 1 and appends it, failing iff that tag never started, and then makes the new tag active |
| Tracking.Context.Apply | src/t_scheduler/tracker/volume_tracker.py:47-58 | apply succeeds iff the context was not applied, has a source tag and every held tag has ended; then the factory volume and every tag's duration are tracked, and no tags remain |
| Tracking.Context.DrainTags | src/t_scheduler/tracker/volume_tracker.py:56-58 | popping and applying every held tag succeeds iff all have ended, and then tracks exactly their durations |
| Tracking.Context.ShallowCopy | src/t_scheduler/tracker/volume_tracker.py:60-65 | a shallow copy shares the tracker and factory tag, gets a fresh copy of the source tag, and starts unapplied with no tags |
| Layouts.FlatTree | src/t_scheduler/templates/generic_templates.py:27-47 | the regions create makes, in creation order, form a tree: the first is the root, each later one has an earlier parent, and parent and child lists agree |
| Layouts.FlatNodes | src/t_scheduler/templates/generic_templates.py:27-47 | the flattened layout has one entry per layout node, in depth-first creation order, with that node's region and router |
| Layouts.Piece.constructor | src/t_scheduler/templates/generic_templates.py:28-29 | a new region or router is unlinked: no upstream and no downstream |
| Layouts.Create | src/t_scheduler/templates/generic_templates.py:27-47 | create makes one fresh region and one fresh router per layout node, linked exactly as the flattened tree says, with the root attached below the given upstream region and router, whose downstream lists gain just the new roots |
| Layouts.CreateChildren | src/t_scheduler/templates/generic_templates.py:37-47 | creating a node's children links each child's region and router below the node's, in order |
| Layouts.CreateBelow | src/t_scheduler/templates/generic_templates.py:37-47 | creating one more child extends the made prefix by that child's subtree |
| Boards.Heads | src/t_scheduler/templates/generic_templates.py:98-100 | expanding a finished region activates each downstream region at row 1, in order |
| Boards.Expand | src/t_scheduler/templates/generic_templates.py:97-100 | expanding a finished region raises iff some downstream region has no row 0; otherwise the row gains every downstream region's row 0, and those cells plus the rows still pending below are exactly the cells below the region |
| Boards.StepEntry | src/t_scheduler/templates/generic_templates.py:93-100 | one active entry raises iff it is stuck; otherwise its row cells plus what stays pending are exactly what was pending for it |
| Boards.NextRow | src/t_scheduler/templates/generic_templates.py:91-103 | one board row raises iff an active entry is stuck; otherwise the row plus the next active list's pending cells are exactly the cells pending before, and the remaining row count drops by one per active entry |
| Boards.MakeBoard | src/t_scheduler/templates/generic_templates.py:89-106 | make_board raises iff there is no region or some region reachable from the first lacks a row it needs; otherwise the board holds every cell of every region reachable from the first exactly as often as the regions do, and ends with an empty row |
| Boards.ReservedBoard | src/t_scheduler/templates/generic_templates.py:111 | the initial explicit board is height rows of width reserved patches, each at its own position |
| Boards.PyIndex | src/t_scheduler/templates/generic_templates.py:116 | a row index is valid iff it lies in [-n, n), and a negative one counts from the end |
| Boards.SliceBound | src/t_scheduler/templates/generic_templates.py:116 | a slice bound is clipped to the row length and kept when it is within it |
| Boards.SpliceInPlace | src/t_scheduler/templates/generic_templates.py:116 | assigning a same-length slice keeps the row length and replaces exactly the sliced cells |
| Boards.MakeExplicit | src/t_scheduler/templates/generic_templates.py:108-117 | make_explicit's board is the reserved board with every region's rows pasted in, in creation order |
| Boards.PasteAllSome | src/t_scheduler/templates/generic_templates.py:112-117 | pasting raises iff some region row falls outside the board |
| Boards.ExplicitCells | src/t_scheduler/templates/generic_templates.py:108-117 | when every region fits the board and has rows of its width, the board is width by height and each cell is the last region covering it, or reserved if none does |
| Templates.WidgetRotation | src/t_scheduler/templates/generic_templates.py:132 | the strategy gets the caller's rotation policy, ADD_DELAY when none is named |
| Templates.LimitReject | src/t_scheduler/templates/generic_templates.py:395-398 | limit_reject raises iff the caller also names a policy; otherwise it passes REJECT |
| Templates.LimitRejectForces | src/t_scheduler/templates/generic_templates.py:395-398 | through limit_reject and make_widget the policy is always REJECT, and a caller naming none never raises |
| Templates.TreeTemplate | src/t_scheduler/templates/generic_templates.py:402-432 | the tree template raises iff the width is not a multiple of 4, and otherwise is rooted at a register row with the baseline router |
| Templates.TreeTemplateCreates | src/t_scheduler/templates/generic_templates.py:408-431 | creating the tree template makes five regions: the register row with the bus as its only child, and the bus with the Bell region, the chessboard buffer and the second Bell region as children; they form a tree |
| Templates.BusEntries | src/t_scheduler/templates/generic_templates.py:411-429 | the tree template's bus flattens, in creation order, to the bus with children 1, 2 and 3, then a Bell region, the chessboard buffer and a second Bell region, each with the bus as parent |
| Templates.TreeWidgetRejects | src/t_scheduler/templates/generic_templates.py:395-432 | the tree widget is built iff no policy is named and the width is a multiple of 4, and then it is the tree template with policy REJECT |
| Buffers.OrientationOf | src/t_scheduler/base/patch.py:23-25 | the orientation built from 0 or 1 has that value |
| Buffers.PrefilledDefault | src/t_scheduler/widget/buffer_region.py:18-21 | the default prefilled buffer is a width-by-height grid of available T patches, Z on top, each at its own position |
| Buffers.PrefilledChessboard | src/t_scheduler/widget/buffer_region.py:22-39 | the chessboard buffer is a grid of available T patches whose orientation is the chessboard orientation of its position (row 0 all Z on top); it has `height` rows, and one row when the height is 0 |
| Buffers.ChessboardAlternates | src/t_scheduler/widget/buffer_region.py:31-33 | below row 0, vertically adjacent patches have opposite orientations, and so do horizontally adjacent ones except across the middle column, where they agree |
| Buffers.BufferLayout | src/t_scheduler/widget/buffer_region.py:45-53 | the buffer region is a grid of free, route-available buffer patches that offer no magic state |
| Buffers.BufferStats | src/t_scheduler/widget/buffer_region.py:54 | the buffer region counts width times height T buffers and nothing else |
| Buffers.StateUnique | src/t_scheduler/widget/buffer_region.py:68-79 | a column has at most one buffer state: a T-available cell with only free cells above it |
| Buffers.StateMoveRoute | src/t_scheduler/widget/buffer_region.py:68-79 | from a column's buffer state the path straight up to row 0 is contiguous and routes that state through free cells |
| Buffers.BufferSlots | src/t_scheduler/widget/buffer_region.py:56-66 | there is one slot entry per column; a column has a slot iff its bottom cell is free, and the slot is the topmost cell of the free run rising from the bottom |
| Buffers.ColumnState | src/t_scheduler/widget/buffer_region.py:71-78 | scanning a column from the top finds its buffer state when it has one, and finds nothing exactly when it has none |
| Buffers.BufferStates | src/t_scheduler/widget/buffer_region.py:68-79 | there is one state entry per column; each found state is that column's buffer state, and a column without an entry has none |
| SimpleRouters.BusPath | src/t_scheduler/router/bus_router.py:19 | the bus path between two columns lists exactly the bus cells of that range, in order |
| SimpleRouters.BusRequest | src/t_scheduler/router/bus_router.py:14-23 | a bus request succeeds iff both columns are on the bus and no cell between them (inclusive) is locked; the transaction moves along exactly those cells in ascending order, measures nothing and has no magic state or callbacks |
| SimpleRouters.BusSymmetric | src/t_scheduler/router/bus_router.py:17-19 | the result does not depend on the order of the two columns |
| SimpleRouters.BusPathEnds | src/t_scheduler/router/bus_router.py:17-19 | a successful bus path has one cell per column of the range and runs from the lower to the higher column |
| SimpleRouters.RegisterRequest | src/t_scheduler/router/register_router.py:11-19 | a register request succeeds iff the register patch at the physical position is unlocked, and then moves and measures exactly that patch and connects at its column |
| CultivatorRouters.Horizontal | src/t_scheduler/router/cultivator_router.py:63-66 | the horizontal segment runs along the state's row from its column to the output column, contiguously |
| CultivatorRouters.FirstAccepted | src/t_scheduler/router/cultivator_router.py:49-75 | the router picks the first queued state it accepts, and finds none exactly when it accepts none |
| CultivatorRouters.CultProposal | src/t_scheduler/router/cultivator_router.py:5-22 | a cultivator transaction moves along the path, measures its first cell, which is the magic state, connects at the last cell's column, removes the state from the pool on activation and releases the held cells on unlock |
| CultivatorRouters.Request | src/t_scheduler/router/cultivator_router.py:35-76 | request fails exactly when no queued state is accepted; otherwise it proposes the route of the first accepted state |
| CultivatorRouters.CultPathShape | src/t_scheduler/router/cultivator_router.py:49-69 | with the corrected vertical segment the route is contiguous, has no repeated cell and ends on row 0 of the climbing column |
| CultivatorRouters.RequestRoute | src/t_scheduler/router/cultivator_router.py:49-75 | a corrected request's route lies in the region, is contiguous, is free after its first cell, and starts at a held magic state |
| CultivatorRouters.OwnColumnNeverServed | src/t_scheduler/router/cultivator_router.py:51-61 | as written, reading `.row`/`.col` as the local coordinates (the program raises AttributeError first), a state is never accepted when the climbing column is its own: the vertical segment starts on the state, which is not free routing space |
| CultivatorRouters.CornerListedTwice | src/t_scheduler/router/cultivator_router.py:63-67 | as written, a strict route that turns lists the corner cell twice |
| CultivatorRouters.OwnColumnExample | src/t_scheduler/router/cultivator_router.py:49-75 | on a one-column region the router as written, reading `.row`/`.col` as the local coordinates (the program raises AttributeError first), finds nothing while the corrected one serves the state straight up |
| CultivatorRegions.LayoutPatch | src/t_scheduler/region/factory_region.py:145-159 | every cell of a dense region is a cultivator; in a sparse region the rows with (height - row) mod 3 equal to 2 are plain route patches and the others cultivators; all start empty and unlocked |
| CultivatorRegions.CultivatorLayout | src/t_scheduler/region/factory_region.py:142-161 | the region's patches form a width-by-height grid of those patches |
| CultivatorRegions.SparseRowsTouchRoute | src/t_scheduler/region/factory_region.py:150-159 | in a sparse region every cultivator row is next to a route row, except row 0 when the height is 1 more than a multiple of 3 |
| CultivatorRegions.UpdateCellsDistinct | src/t_scheduler/region/factory_region.py:149-158 | the update list names no patch twice |
| CultivatorRegions.CultivatorBufferRegion.constructor | src/t_scheduler/region/factory_region.py:142-161 | a new region keeps its grid and size, lists its cultivators for updates and starts with an empty pool |
| CultivatorRegions.CultivatorBufferRegion.Listed | src/t_scheduler/region/factory_region.py:149-158 | a patch is listed for updates exactly when it sits in a cultivator row |
| CultivatorRegions.CultivatorBufferRegion.Update | src/t_scheduler/region/factory_region.py:163-166 | update polls every listed cultivator once, adds exactly those that came to hold a T to the pool, and changes no other patch |
| CultivatorRegions.NewCultivatorRegion | src/t_scheduler/region/factory_region.py:133-161 | building the region appends its layout to the device, keeps every existing patch, and starts an empty pool |
| FactoryRegions.FactoryLayout | src/t_scheduler/region/factory_region.py:23-27 | a new factory region is a width-by-height grid of free plain route patches, each at its own position |
| FactoryRegions.FactoryRegion.constructor | src/t_scheduler/region/factory_region.py:23-31 | a new region keeps its grid, size and rotation, has no factories, none active or waiting, and an empty pool |
| FactoryRegions.FactoryRegion.LayoutPositionIsCorner | src/t_scheduler/region/factory_region.py:60-65 | a factory's layout position is its top-left corner in the device's view: the given corner when the region is upright, the mirrored opposite corner when it is upside down |
| FactoryRegions.FactoryRegion.OutputPatch | src/t_scheduler/base/patch.py:167-198 | a new factory output patch belongs to its factory, holds no T, is unlocked, and offers neither a magic state nor routing space |
| FactoryRegions.FactoryRegion.Reserve | src/t_scheduler/region/factory_region.py:52-56 | reserving the footprint succeeds iff every footprint cell was a route patch; the cells reserved before a failing check stay reserved and nothing outside the footprint changes |
| FactoryRegions.FactoryRegion.PlaceOutputs | src/t_scheduler/region/factory_region.py:67-71 | each output offset that is still reserved becomes an output patch of the factory, and the outputs list the cells at those offsets in order |
| FactoryRegions.FactoryRegion.AddFactory | src/t_scheduler/region/factory_region.py:43-73 | add_factory raises when the footprint leaves the region or the region is rotated sideways, fails its assertion when a footprint cell is not a route patch, and otherwise reserves the footprint, places the outputs and records the factory as active; nothing outside the footprint changes |
| FactoryRegions.FactoryRegion.Tile | src/t_scheduler/region/factory_region.py:105-111 | on a region of route patches the factories are placed at the bottom row of origins and then at every upper row, all added and active |
| FactoryRegions.FactoryRegion.PlaceBottom | src/t_scheduler/region/factory_region.py:106-107 | the first loop places a factory at the bottom band for every column 0, fw, 2fw, ... that fits, and the rows above the band stay route patches |
| FactoryRegions.FactoryRegion.TileAbove | src/t_scheduler/region/factory_region.py:109-111 | after the bottom band, the upper loops place the remaining tiles, so the region holds exactly the factories at every tiled origin |
| FactoryRegions.FactoryRegion.Update | src/t_scheduler/region/factory_region.py:75-93 | waiting factories whose outputs are empty and unlocked are reset and become active; the active ones that finish move to waiting, and each of their outputs gains one T and joins the pool; nothing else changes |
| FactoryRegions.FactoryRegion.Reset | src/t_scheduler/region/factory_region.py:76-82 | phase one of update: exactly the waiting factories whose outputs are all empty and unlocked leave waiting and become active |
| FactoryRegions.FactoryRegion.Fire | src/t_scheduler/region/factory_region.py:84-93 | phase two of update: the active factories that finish move to waiting, and each listed output of theirs gains one T and joins the pool |
| FactoryRegions.FactoryRegion.CollectAll | src/t_scheduler/region/factory_region.py:90-93 | every listed output of every finished factory gains one T per listing and joins the pool; no other patch and no other pool changes |
| FactoryRegions.CollectedIffProduced | src/t_scheduler/region/factory_region.py:90-93 | an output joins the pool exactly when some finished factory lists it |
| FactoryRegions.FiredOutputStocked | src/t_scheduler/region/factory_region.py:90-93 | every output of a finished factory gains at least one T and is in the pool |
| FactoryRegions.UnlistedUnchanged | src/t_scheduler/region/factory_region.py:90-93 | a patch that no finished factory lists gains nothing |
| FactoryRegions.WithFactoryFactory | src/t_scheduler/region/factory_region.py:101-113 | with_factory_factory raises iff the region is lower than a factory or a sideways rotation meets a factory to place; otherwise the region holds exactly the factories at the tiled origins |
| FactoryRegions.RangeUpFacts | src/t_scheduler/region/factory_region.py:106 | an ascending range holds lo, lo + step, ... below hi |
| FactoryRegions.RangeDownFacts | src/t_scheduler/region/factory_region.py:109 | a descending range holds hi, hi - step, ... above lo |
| FactoryRouters.Bfs | src/t_scheduler/router/factory_router.py:68-100 | a found path is a walk from the output over free cells to a goal cell on row 0 (in the strict column when one is given), without repeats; no path is found only when no such walk exists |
| FactoryRouters.Rebuild | src/t_scheduler/router/factory_router.py:95-100 | following parents back from a reached cell gives a walk from the start to it, without repeats |
| FactoryRouters.FactoryProposal | src/t_scheduler/router/factory_router.py:25-41 | a factory transaction moves along the path, measures its first cell, which is the magic state, connects at the last column, removes the state from the pool on activation and puts it back on unlock |
| FactoryRouters.Request | src/t_scheduler/router/factory_router.py:43-66 | the request returns the route of the first queued output that offers a T and can reach a goal, with the column clamped first; every earlier available output reaches no goal, and so does every one when nothing is returned |
| FactoryRouters.Generic | src/t_scheduler/router/factory_router.py:103-109 | the generic request answers SUCCESS with a transaction whose magic state offers a T and is restored on unlock, moving along a walk over free cells from the first stocked queued output that reaches a goal (every earlier stocked output reaches none); otherwise it gives the default response, and then no stocked output reaches a goal |
| GenericVerticalRouters.Walk | src/t_scheduler/router/generic/vertical_router.py:22-55 | the walk fails when the bottom input cell is not free; straight down the output column it succeeds iff the whole column is free; a found route starts at the bottom input cell, climbs one row or steps one column towards the output at a time over free cells, stays between the two columns and ends on row 0 |
| GenericVerticalRouters.Generic | src/t_scheduler/router/abstract_router.py:81-86 | the vertical router never answers SUCCESS: a walk is passed on with CHECK_DOWNSTREAM, connecting at the source's column and measuring nothing, and a blocked bottom cell gives the default response |
| Orchestration.NodeAvailable | src/t_scheduler/schedule_orchestrator.py:53 | a queued gate's availability is its kind's: a T or preparation gate is available iff all predecessors are done, and a rotation gate has none |
| Orchestration.AdmitFacts | src/t_scheduler/schedule_orchestrator.py:49-59 | admission keeps processed gates processed and grows the processed set by exactly the activated gates, and leaves queued only unprocessed gates of the queue; with a strategy that activates the gate asked about, every activated gate came from the queue unprocessed and available, and none is activated twice |
| Orchestration.AdmitSelects | src/t_scheduler/schedule_orchestrator.py:49-59 | position by position: the new queue is, in queue order, exactly the gates unprocessed at their turn that are unavailable or refused by alloc_gate; the activated gates are, in queue order, alloc_gate's answers for exactly the gates unprocessed at their turn that are available and allocated |
| Orchestration.AdmitStuck | src/t_scheduler/schedule_orchestrator.py:50-57 | once an earlier queued gate's availability raises, the whole admission raises |
| Orchestration.PassAdvancesOnce | src/t_scheduler/schedule_orchestrator.py:67-71 | when no gate is active twice, ticking and then cleaning up the active gates advances each active gate's clock by exactly one pass and leaves the others alone |
| Orchestration.ReadyChildrenFacts | src/t_scheduler/schedule_orchestrator.py:78-80 | a finished gate queues exactly those of its children whose predecessors are all done |
| Orchestration.RetireFacts | src/t_scheduler/schedule_orchestrator.py:73-81 | after a pass the active gates are exactly the previously active gates that are not done, and every gate queued has all its predecessors done |
| Orchestration.Orchestrator.constructor | src/t_scheduler/schedule_orchestrator.py:9-39 | a new orchestrator waits on the roots, with nothing queued, active or processed, at time 0 |
| Orchestration.Orchestrator.AdmitQueued | src/t_scheduler/schedule_orchestrator.py:49-59 | the admission loop has exactly the effect Admit describes, failing where it raises |
| Orchestration.Orchestrator.TickActive | src/t_scheduler/schedule_orchestrator.py:67-68 | every active gate ticks, in order |
| Orchestration.Orchestrator.CleanupActive | src/t_scheduler/schedule_orchestrator.py:70-71 | every active gate cleans up, in order |
| Orchestration.Orchestrator.RetireActive | src/t_scheduler/schedule_orchestrator.py:73-82 | the gates still running stay active and the ready children of the finished ones are queued |
| Orchestration.Orchestrator.QueueReady | src/t_scheduler/schedule_orchestrator.py:78-80 | a finished gate's ready children are appended to the queue |
| Orchestration.Orchestrator.SchedulePass | src/t_scheduler/schedule_orchestrator.py:47-84 | on the gates' clocks and the orchestrator's lists, a pass admits, ticks, cleans up and retires as the functions above describe, and the time advances by one on success |
| Orchestration.Orchestrator.ExclusivePass | src/t_scheduler/schedule_orchestrator.py:47-84 | with a strategy that activates the gate asked about, a pass advances every previously active gate by exactly one pass, keeps no gate active twice, and leaves no finished gate active |
| Orchestration.Orchestrator.Schedule | src/t_scheduler/schedule_orchestrator.py:41-45 | schedule queues the waiting gates and runs passes; when it ends, nothing is queued or active |
| RechargeableRouters.AssignLocalCoords | src/t_scheduler/router/rechargable_buffer_router.py:16-21 | the constructor changes only the local coordinates of the region's patches, and with distinct grid cells every patch records its own view position |
| RechargeableRouters.Nearest | src/t_scheduler/router/rechargable_buffer_router.py:57 | the chosen column is a candidate nearest the output column, the leftmost on a tie, and there is none only when no column is a candidate |
| RechargeableRouters.StateMove | src/t_scheduler/router/rechargable_buffer_router.py:64-69 | the state's transaction moves from the state up its column to row 0 and measures the state |
| RechargeableRouters.Request | src/t_scheduler/router/rechargable_buffer_router.py:51-71 | the request succeeds iff some column holds a buffer state, and then uses the state of a column nearest the output column |
| RechargeableRouters.Passthrough | src/t_scheduler/router/rechargable_buffer_router.py:73-85 | a passthrough exists iff some column is entirely free; it is the free column nearest the output column, smallest on a tie, and spans the whole height measuring nothing |
| RechargeableRouters.Generic | src/t_scheduler/router/rechargable_buffer_router.py:87-97 | the generic request answers SUCCESS iff a state is stored, CHECK_DOWNSTREAM iff none is but a passthrough exists, and the default response otherwise |
| RechargeableRouters.UpkeepMove | src/t_scheduler/router/rechargable_buffer_router.py:99-108 | the upkeep transaction climbs the slot's column from the bottom row to the slot and measures the slot |
| RechargeableRouters.UpkeepRouteFree | src/t_scheduler/router/rechargable_buffer_router.py:99-108 | the route into a buffer slot is contiguous and free throughout |
| RechargeableRouters.AllLocalUpkeep | src/t_scheduler/router/rechargable_buffer_router.py:110-123 | one local move per cell below row 0 that holds a state under a free cell, in row-major order, each moving the state up one row and measuring the cell above |
| RechargeableRouters.ShiftsComplete | src/t_scheduler/router/rechargable_buffer_router.py:115-122 | every state that can move up one row gets a local move |
| RechargeableRouters.ShiftsDistinct | src/t_scheduler/router/rechargable_buffer_router.py:115-122 | no cell gets two local moves |
| RechargeableRouters.ShiftMovesDisjoint | src/t_scheduler/router/rechargable_buffer_router.py:117-122 | two different local moves share no patch |
| Regions.Tl | src/t_scheduler/region/widget_region.py:42-56 | the local-to-underlying map is defined exactly for the four bearings and is the identity for TOP, the half turn for BOTTOM and the two quarter turns for RIGHT and LEFT |
| Regions.BottomInvolution | src/t_scheduler/region/widget_region.py:48-49 | the half turn undoes itself and keeps a position inside the region |
| Regions.QuarterTurnsUndo | src/t_scheduler/region/widget_region.py:50-53 | the LEFT map after the RIGHT map moves a position down by width minus height, so the two quarter turns are inverse exactly on square regions |
| Regions.QuarterTurnInBox | src/t_scheduler/region/widget_region.py:50-53 | on a square region both quarter turns keep a position inside it |
| Regions.QuarterTurnLeavesWideRegion | src/t_scheduler/region/widget_region.py:50-53 | on a 1-by-2 region a quarter turn sends a cell inside the region to a cell outside it |
| Regions.ViewFitsExactly | src/t_scheduler/region/widget_region.py:42-59 | every cell of the rotated view lands inside the region exactly for TOP and BOTTOM, and for the quarter turns only on square regions |
| Regions.ViewGrid | src/t_scheduler/region/widget_region.py:58-59 | the local view has the region's shape and each of its cells is the region's cell at the rotated position |
| Regions.ViewOfUpright | src/t_scheduler/region/widget_region.py:46-47 | the view of an upright region is the region itself |
| Regions.InferRotation | src/t_scheduler/region/widget_region.py:97-116 | with both offsets known the bearing is TOP below the upstream, BOTTOM above it, LEFT to its right and RIGHT to its left, tested in that order, and otherwise stays TOP |
| Regions.BelowIsUpright | src/t_scheduler/region/widget_region.py:104-106 | a region placed directly under its upstream one is upright |
| Regions.GetItem | src/t_scheduler/region/widget_region.py:129-135 | a pair key gives that cell, an integer key gives that row, and any other key is a type error |
| Regions.AddStats | src/t_scheduler/region/widget_region.py:19-23 | adding statistics adds each of the three counters |
| Regions.StatsMonoid | src/t_scheduler/region/widget_region.py:12-23 | the empty statistics are a unit for addition, which is commutative and associative |
| Regions.SumStatsAppend | src/t_scheduler/region/widget_region.py:19-23 | the sum over two concatenated lists of statistics is the sum of the two sums |
| RegisterRegions.SingleRowLayout | src/t_scheduler/widget/register_region.py:29-31 | the single-row register region is one row of w free register patches, each at its own column |
| RegisterRegions.SingleRowStats | src/t_scheduler/widget/register_region.py:32 | the region counts w div 2 registers and no buffers |
| RegisterRegions.SingleRowPhysicalPos | src/t_scheduler/widget/register_region.py:34-40 | target t has a position exactly when column 2t lies in the row, and the position is row 0, column 2t; otherwise the request fails |
| RegisterRegions.SingleRowTargets | src/t_scheduler/widget/register_region.py:32-40 | distinct targets sit at least two columns apart; the addressable targets are those below the ceiling of w/2, which is the counted number only for an even width |
| RegisterRegions.RowRegsFacts | src/t_scheduler/widget/register_region.py:73-87 | the registers collected from one row lie in that row, in ascending column order, and include every register cell of it |
| RegisterRegions.RegsFacts | src/t_scheduler/widget/register_region.py:58-90 | the target map lists registers in row-major order, without repeats, and every register cell of the comb appears in it |
| RegisterRegions.CombTopRow | src/t_scheduler/widget/register_region.py:62-72 | the loop building the top row yields the reserved corner followed by the comb's top-row cells, and registers exactly that row's register cells |
| RegisterRegions.CombLowerRow | src/t_scheduler/widget/register_region.py:73-87 | the loop building a lower row yields the comb's cells for that row and registers exactly its register cells, in order |
| RegisterRegions.CombLayout | src/t_scheduler/widget/register_region.py:56-90 | the comb region has the comb's number of rows, each of the comb's cells and the row-major target map |
| RegisterRegions.CombStats | src/t_scheduler/widget/register_region.py:89 | the counted number of registers is the size of the target map |
| RegisterRegions.CombPhysicalPos | src/t_scheduler/widget/register_region.py:92-94 | a target has a position exactly when it is a key of the target map; otherwise the lookup fails |
| RegisterRegions.CombTargets | src/t_scheduler/widget/register_region.py:56-94 | every target's position is a register cell of the comb, distinct targets have distinct positions, and every register cell is the position of some target |
| RegisterRegions.CombRegistersReachable | src/t_scheduler/widget/register_region.py:47-54 | with a routing width of at least one, each register of a lower row has a non-register cell beside it and each top-row register has one below it |
| Rotations.Matching | src/t_scheduler/strategy/generic_strategy.py:49-60 | a single move patch always matches; an empty move list fails; otherwise the match is the row test exclusive-or the Z_TOP test |
| Rotations.Decide | src/t_scheduler/strategy/generic_strategy.py:45-141 | a route with fewer than two transactions or an empty buffer move fails; a matching route proceeds; a mismatched route whose T patch was rotated before undoes that rotation; any other mismatch goes to the policy |
| Rotations.Policy | src/t_scheduler/strategy/generic_strategy.py:90-141 | the policy never proceeds unchanged; it refuses exactly under REJECT and is unsupported exactly under LOOKBACK |
| Rotations.Extra | src/t_scheduler/strategy/generic_strategy.py:62-94 | the extra gate duration is never negative and is zero exactly when no cultivator patch needs a reset and the action is not ADD_DELAY |
| Rotations.Flipped | src/t_scheduler/strategy/generic_strategy.py:95-99 | flipping inverts the T patch's orientation and leaves every other patch as it was |
| Rotations.FlipRepairs | src/t_scheduler/strategy/generic_strategy.py:95-102 | after BACKPROP_INIT's flip the same route proceeds |
| Rotations.MismatchIsOrientation | src/t_scheduler/strategy/generic_strategy.py:58-60 | inverting the T patch's orientation negates the match of a two-or-more-patch move |
| Rotations.ResetIgnoresOrientation | src/t_scheduler/strategy/generic_strategy.py:62-65 | whether a reset is paid does not depend on the T patch's orientation |
| RouteBuses.RouteBusLayout | src/t_scheduler/widget/route_region.py:14-19 | the bus is one row of w free, route-available routing patches, each at its own column |
| RouteBuses.Ring | src/t_scheduler/widget/route_region.py:26-30 | the columns yielded at one offset are the in-range columns at that distance from the source, without repeats |
| RouteBuses.RoutePriority | src/t_scheduler/widget/route_region.py:25 | the priority order starts with the source column |
| RouteBuses.PriorityFromRange | src/t_scheduler/widget/route_region.py:26-30 | the columns yielded from offset k on lie in the bus at distance at least k |
| RouteBuses.PriorityFromCovers | src/t_scheduler/widget/route_region.py:26-30 | every in-bus column at distance at least k is yielded from offset k on |
| RouteBuses.PriorityFromOrdered | src/t_scheduler/widget/route_region.py:26-30 | the columns yielded from offset k on are distinct and in nondecreasing distance from the source |
| RouteBuses.RoutePriorityCovers | src/t_scheduler/widget/route_region.py:21-30 | for a source on the bus the order is a permutation of the bus's columns in nondecreasing distance from the source |
| RouteBuses.RightBeforeLeft | src/t_scheduler/widget/route_region.py:27-30 | at each distance the column to the right comes before the one to the left |
| StrategySearch.Moves | src/t_scheduler/strategy/generic_strategy.py:174-176 | the move lists of a route are its transactions' move patches, one list per transaction, in order |
| StrategySearch.Validate | src/t_scheduler/strategy/generic_strategy.py:172-180 | the check passes exactly when the concatenated move patches of the list form a path of unit steps |
| StrategySearch.ContiguousAppend | src/t_scheduler/strategy/generic_strategy.py:174-180 | a concatenation is a unit-step path exactly when both parts are and the seam between two non-empty parts is a unit step |
| StrategySearch.GetClosest | src/t_scheduler/strategy/generic_strategy.py:235-245 | an index outside the list is an index error; a picked slot is filled, and every slot nearer the column was passed over empty, the right one first on a tie; none only when no slot within reach is filled |
| StrategySearch.ClosestIsNearest | src/t_scheduler/strategy/generic_strategy.py:235-245 | for a column in range no filled slot is nearer than the slot picked |
| StrategySearch.TopFromFacts | src/t_scheduler/strategy/generic_strategy.py:256-263 | the buffer found is an accepting router at or above the start, with no accepting router above it; none only if no router at or above the start accepts |
| StrategySearch.Topmost | src/t_scheduler/strategy/generic_strategy.py:256-261 | the climb from the factory's upstream router remembers the accepting router highest up, and finds none for a factory without upstream router |
| StrategySearch.ReturnPass | src/t_scheduler/strategy/generic_strategy.py:144-161 | the return pass collects the found transaction followed by one transaction per hop up the recorded links, and fails as soon as a hop is refused |
| StrategySearch.Attempt | src/t_scheduler/strategy/generic_strategy.py:221-227 | an accepted SUCCESS gives a route that starts with the found transaction and that the strategy accepts; a retry charges at most one reset |
| StrategySearch.StepAt | src/t_scheduler/strategy/generic_strategy.py:202-231 | a frame with no downstream router left is spent; otherwise the next downstream router is asked for the column of the entry patch, and an accepted answer is a route the strategy accepts |
| StrategySearch.FoundIsVetted | src/t_scheduler/strategy/generic_strategy.py:201-233 | every route the depth-first search finds is one its probe accepted |
| StrategySearch.FoundIsAccepted | src/t_scheduler/strategy/generic_strategy.py:185-233 | every route the strategy's search finds is contiguous and allocated by the rotation check |
| StrategySearch.WithoutFindsResetsGrow | src/t_scheduler/strategy/generic_strategy.py:62-65 | the resets charged by a search that does not crash never fall below those charged at its start |
| StrategySearch.PendingStep | src/t_scheduler/strategy/generic_strategy.py:201-231 | one turn of the stack loop on the top frame leaves exactly the work that was left before it |
| StrategySearch.Descend | src/t_scheduler/strategy/generic_strategy.py:207-231 | a retry answer pushes the frame's next index and then the downstream router's first frame, and adds the answer's resets; the work left (Pending) is the same and the stack's weight drops |
| StrategySearch.Turn | src/t_scheduler/strategy/generic_strategy.py:201-231 | one pop of the stack either ends the search with what was left, or leaves the same work with strictly fewer steps to go |
| StrategySearch.Explore | src/t_scheduler/strategy/generic_strategy.py:199-233 | the stack loop with its connection map ends as the recursive depth-first search from the register router's frame does |
| Sorting.Insert | src/t_scheduler/router/tree_buffer_router.py:144-146 | inserting adds exactly the element to the list's multiset |
| Sorting.InsertSorted | src/t_scheduler/router/tree_buffer_router.py:144-146 | inserting into a list sorted by the key keeps it sorted |
| Sorting.SortBy | src/t_scheduler/router/tree_buffer_router.py:144-146 | the sorted list is a permutation of the input whose keys never decrease |
| Sorting.SortTwo | src/t_scheduler/router/tree_buffer_router.py:144-146 | two elements are swapped exactly when the second has the strictly smaller key, so ties keep their order |
| Strategies.Indices | src/t_scheduler/strategy/generic_strategy.py:38-39 | the kept indices are exactly those of the routers with the flag, in increasing order |
| Strategies.Configure | src/t_scheduler/strategy/generic_strategy.py:36-43 | construction fails exactly for an empty router list; otherwise router 0 is the register router, the factory and buffer routers are exactly those flagged, and upkeep is needed exactly when a buffer router exists |
| Strategies.ConfigureKinds | src/t_scheduler/strategy/generic_strategy.py:38-41 | with the class flags of the routers (only the factory router is a magic source, only the rechargeable buffer router accepts upkeep), the factory routers are exactly the factory routers, the buffer routers exactly the rechargeable ones, and upkeep is needed exactly when one of those exists |
| Strategies.IndicesEmpty | src/t_scheduler/strategy/generic_strategy.py:40 | no index is kept exactly when no router has the flag |
| Strategies.TargetPosIncreasing | src/t_scheduler/strategy/generic_strategy.py:29-30 | every qubit maps to row 0, and with a positive register width later qubits map at least that many columns further right |
| Strategies.Route | src/t_scheduler/strategy/generic_strategy.py:48-56 | the move lists of a transaction list are its members' move patches, in order |
| Strategies.BuildList | src/t_scheduler/strategy/generic_strategy.py:145-159 | the list is made of fresh, distinct, unlocked transactions, one per proposal in order, with the proposals' move lists |
| Strategies.Prepared | src/t_scheduler/strategy/generic_strategy.py:72-102 | preparing the arena touches no patch but the T patch |
| Strategies.Prepare | src/t_scheduler/strategy/generic_strategy.py:65-102 | the gate's duration grows by the decision's delay and the arena becomes the prepared one |
| Strategies.ValidateRotation | src/t_scheduler/strategy/generic_strategy.py:45-141 | the outcome follows the decision: a route it cannot read raises unchanged, REJECT refuses, LOOKBACK raises, INJECT grants a fresh rotation gate, and any other action charges the delays and activates the gate on the list; on the arena, REJECT changes nothing and activates no member, BACKPROP_INIT leaves the T patch's orientation inverted, undoing a rotation leaves it unregistered, INJECT registers the rotation gate on the T patch and leaves the gate's transaction alone, and no other orientation or registration changes |
| Strategies.Carry | src/t_scheduler/strategy/generic_strategy.py:65-137 | on the prepared arena: REJECT refuses and touches nothing, LOOKBACK raises, INJECT leaves the gate's transaction alone and grants a rotation gate registered on the T patch, any other decision activates the gate; activation turns no patch |
| Strategies.Inject | src/t_scheduler/strategy/generic_strategy.py:104-115 | INJECT never refuses; a granted rotation gate is fresh, feeds the gate, holds the T patch and runs for the rotation delay |
| Strategies.NonlocalFindsAcceptable | src/t_scheduler/strategy/generic_strategy.py:185-233 | a route found for a target is contiguous and its rotation decision neither refuses nor is unsupported |
| Strategies.AllocNonlocal | src/t_scheduler/strategy/generic_strategy.py:185-233 | a refused register request gives nothing; otherwise the result is the rotation check of the route the search finds, or nothing when the search finds none |
| Strategies.Grant | src/t_scheduler/strategy/generic_strategy.py:163-170 | a found route is built into a list and given to the rotation check, which charges its delay |
| Strategies.AllocGate | src/t_scheduler/strategy/base_strategy.py:25-37 | a T gate goes to the non-local allocation; every other gate raises, because the test at :36 reads `GateType.GRAPH_STATE_PREP`, which does not exist; such a gate leaves the arena and the gate unchanged |
| Strategies.ActivateKeepsStatesIn | src/t_scheduler/base/transaction.py:145-160 | activating a list only takes states out of pools or returns a member's state, so every pooled state stays on the arena |
| Strategies.Ascend | src/t_scheduler/strategy/generic_strategy.py:290-301 | the climb stops at the router just below the buffer, with proposals on the arena, and is empty when it starts there |
| Strategies.Climb | src/t_scheduler/strategy/generic_strategy.py:293-303 | the climb loop ends as the recursive climb does |
| Strategies.FillMove | src/t_scheduler/router/rechargable_buffer_router.py:99-108 | the move into a slot measures the slot's patch, connects at its column, carries no magic state, and runs up the slot's column from the bottom row to end at the slot |
| Strategies.PlanFeed | src/t_scheduler/strategy/generic_strategy.py:269-316 | a state that is not available, or that the factory refuses, is skipped; otherwise the plan is the factory's path, the climb, the bus path and the fill move into the nearest free slot |
| Strategies.FeedState | src/t_scheduler/strategy/generic_strategy.py:269-324 | one state's attempt keeps every pooled state on the arena and, when it succeeds, gives a started two-pass move gate whose target is the slot |
| Strategies.Launch | src/t_scheduler/strategy/generic_strategy.py:318-320 | a launched upkeep gate is a fresh move gate of the given passes, activated on the route, targeting the first measure patch of the route's last transaction |
| Strategies.StartMove | src/t_scheduler/strategy/generic_strategy.py:318-320 | a started move gate is fresh, holds the given list, has every member locked for it, targets the first measure patch of the last member and keeps the pools within the arena |
| Strategies.Listed | src/t_scheduler/strategy/generic_strategy.py:269 | the list of a set holds its members, each once |
| Strategies.DistinctSlots | src/t_scheduler/widget/buffer_region.py:56-66 | slots in different columns are different patches |
| Strategies.UpkeepFactory | src/t_scheduler/strategy/generic_strategy.py:253-324 | a factory with no accepting router above it, or with no states, adds nothing and leaves the arena unchanged; otherwise each gate fills a different slot of the topmost buffer |
| Strategies.FeedAll | src/t_scheduler/strategy/generic_strategy.py:268-324 | the loop over a factory's states fills each slot at most once, one two-pass move gate per filled slot |
| Strategies.LocalUpkeep | src/t_scheduler/strategy/generic_strategy.py:326-331 | the local moves of a buffer are the ones listed on the arena before any is activated, one started one-pass move gate each |
| Strategies.Upkeep | src/t_scheduler/strategy/generic_strategy.py:247-333 | without upkeep nothing happens; otherwise the factory moves come first, as two-pass gates, then the local moves of every buffer, as one-pass gates, all fresh |
| Strategies.FactoryMoves | src/t_scheduler/strategy/generic_strategy.py:253-324 | the factory loop gives fresh, started two-pass move gates and keeps every pooled state on the arena |
| Strategies.BufferMoves | src/t_scheduler/strategy/generic_strategy.py:326-331 | the buffer loop gives fresh, started one-pass move gates |
| TreePaths.PassFrom | src/t_scheduler/router/tree_buffer_router.py:103-113 | what a pass keeps from an index on starts with the cell there, is no longer than the rest of the path, and is empty past its end |
| TreePaths.Pass | src/t_scheduler/router/tree_buffer_router.py:101-113 | a pass keeps the first cell and never lengthens the path |
| TreePaths.Reduce | src/t_scheduler/router/tree_buffer_router.py:96-117 | the intended reduction keeps the first cell and never lengthens the path |
| TreePaths.PassPicks | src/t_scheduler/router/tree_buffer_router.py:103-113 | a pass leaves cells out only over three-step jumps between adjacent cells, and stops at the first row-0 cell after the first |
| TreePaths.PassContiguous | src/t_scheduler/router/tree_buffer_router.py:108-113 | a pass over a unit-step path gives a unit-step path |
| TreePaths.PassFromFull | src/t_scheduler/router/tree_buffer_router.py:99-114 | a pass that leaves nothing out gives back its input, so the loop condition sees no progress |
| TreePaths.ReduceFixpoint | src/t_scheduler/router/tree_buffer_router.py:99-100 | the intended reduction ends at a path that one more pass leaves unchanged |
| TreePaths.ReduceShape | src/t_scheduler/router/tree_buffer_router.py:96-117 | the reduced path is a subsequence of the input starting at its first cell, is a unit-step path whenever the input is, and stops at row 0 |
| TreePaths.OnePass | src/t_scheduler/router/tree_buffer_router.py:101-114 | the inner loop computes one pass |
| TreePaths.PathReduceAsWritten | src/t_scheduler/router/tree_buffer_router.py:96-117 | the loop as written runs exactly two passes, because the length it compares is read after the new path is emptied |
| TreePaths.TwoPassesStopEarly | src/t_scheduler/router/tree_buffer_router.py:114-116 | on a U-shaped detour, two passes leave six cells where a third leaves four, which the intended reduction reaches |
| TreePaths.PathReduce | src/t_scheduler/router/tree_buffer_router.py:96-117 | the corrected loop, which reads the length of the path just computed, returns the intended reduction |
| TreeBfs.VisitKeeps | src/t_scheduler/router/tree_buffer_router.py:239-256 | one guarded visit of a neighbour keeps the search's bookkeeping |
| TreeBfs.VisitFinds | src/t_scheduler/router/tree_buffer_router.py:250-252 | a T patch facing the current cell becomes a result whose parent is the current cell |
| TreeBfs.VisitQueues | src/t_scheduler/router/tree_buffer_router.py:253-256 | an unseen ROUTE patch joins the queue, is marked seen and gets the current cell as parent |
| TreeBfs.QueuedParents | src/t_scheduler/router/tree_buffer_router.py:253-256 | after a ROUTE patch joins the queue every parent is still seen and was found before its child |
| TreeBfs.Explore | src/t_scheduler/router/tree_buffer_router.py:230-256 | the guarded search loop ends with every seen cell a ROUTE patch reached through its parent, every result a T patch facing its parent, and the start without parent |
| TreeBfs.Rebuild | src/t_scheduler/router/tree_buffer_router.py:257-262 | following parents from a result back to the start, dropping the start and reversing, ends and gives a fragment that leaves the start by an adjacent cell, runs over ROUTE patches and ends at the result |
| TreeBfs.ChainFragment | src/t_scheduler/router/tree_buffer_router.py:257-265 | a parent chain from a result to the start, reversed without the start, is such a fragment |
| TreeBfs.BfsFragments | src/t_scheduler/router/tree_buffer_router.py:229-266 | every fragment the search gives is such a fragment |
| TreeBfs.FollowCycle | src/t_scheduler/router/tree_buffer_router.py:259-260 | two cells that are each other's parent trap the rebuilding loop |
| TreeBfs.StartRevisited | src/t_scheduler/router/tree_buffer_router.py:250-252 | as written, a T patch start below a ROUTE patch is met again from there, gets it as its parent and becomes a result, so the two parent links form a cycle |
| TreeBfs.CycleFacts | src/t_scheduler/router/tree_buffer_router.py:250-252 | a concrete two-patch region, a ROUTE patch above a used T patch, has that shape |
| TreeBfs.CycleSecondScan | src/t_scheduler/router/tree_buffer_router.py:239-256 | the scan from the ROUTE patch takes the start as a result as written and does not when guarded |
| TreeBufferRouters.ChildNode | src/t_scheduler/router/tree_buffer_router.py:25-45 | a child node has its parent's lane, no children, is not expanded, and its fragment is its path without the parent's path, empty when the parent's path is longer |
| TreeBufferRouters.PathOk | src/t_scheduler/router/tree_buffer_router.py:17-45 | every node's path but a root's is a non-empty unit-step path inside the buffer from the top row |
| TreeBufferRouters.Hits | src/t_scheduler/router/tree_buffer_router.py:214-226 | the direct children are available T patches adjacent to the node's last cell that face it |
| TreeBufferRouters.TreeRouter.constructor | src/t_scheduler/router/tree_buffer_router.py:62-72 | the router has w div 2 + 1 lanes and a dig depth of 2h div 3, and every lane's root gets its two initial children |
| TreeBufferRouters.TreeRouter.InitLane | src/t_scheduler/router/tree_buffer_router.py:121-149 | initialising a lane gives its root its two initial children and mines below the second of them for inner lanes, leaving the other roots as they were |
| TreeBufferRouters.TreeRouter.InitChildren | src/t_scheduler/router/tree_buffer_router.py:122-147 | the root's two children are the top-row cells of the lane's columns, stably sorted by distance from the middle column |
| TreeBufferRouters.InitReady | src/t_scheduler/router/tree_buffer_router.py:143-146 | sorting the two new top-row nodes by distance from the middle column puts the nearer one first (the left one on a tie), which is what a ready root has as its children |
| TreeBufferRouters.TreeRouter.InitPair | src/t_scheduler/router/tree_buffer_router.py:123-142 | the first child is the lane's left column (column 1 for lane 0) and the second its right column (2l - 2 for the last lane) |
| TreeBufferRouters.TreeRouter.AddChild | src/t_scheduler/router/tree_buffer_router.py:157-162 | adding a child appends a new node whose path continues the parent's and adds it to the parent's children, changing nothing else |
| TreeBufferRouters.TreeRouter.SetChildren | src/t_scheduler/router/tree_buffer_router.py:227 | replacing a node's children changes nothing else |
| TreeBufferRouters.TreeRouter.SetReparsed | src/t_scheduler/router/tree_buffer_router.py:194 | marking a node expanded changes nothing else |
| TreeBufferRouters.TreeRouter.GenerateMining | src/t_scheduler/router/tree_buffer_router.py:151-177 | mining hangs below the node a chain of single children, two per row from row 1 to the dig depth, one down the column and one across to the lane's other column, all but the last marked expanded |
| TreeBufferRouters.TreeRouter.MineStep | src/t_scheduler/router/tree_buffer_router.py:155-177 | one row of mining: two more single children below the current node, down the column and across to the lane's other column, the tree staying well formed and every other node unchanged |
| TreeBufferRouters.TreeRouter.MineRow | src/t_scheduler/router/tree_buffer_router.py:156-177 | one mined row adds two nodes, the cell below and then the cell across |
| TreeBufferRouters.TreeRouter.ReparseTree | src/t_scheduler/router/tree_buffer_router.py:208-266 | expanding a node replaces its children by new nodes: one per direct hit when there is any, otherwise one per fragment the breadth-first search finds |
| TreeBufferRouters.TreeRouter.NewChildren | src/t_scheduler/router/tree_buffer_router.py:208-266 | the new nodes below the expanded node are fresh, have it as parent, and add one direct hit each when there is any, otherwise one search fragment each |
| TreeBufferRouters.TreeRouter.DirectChildren | src/t_scheduler/router/tree_buffer_router.py:219-227 | one new child per direct hit, in neighbour order, each adding that cell |
| TreeBufferRouters.TreeRouter.HitChild | src/t_scheduler/router/tree_buffer_router.py:219-225 | one neighbour more: the children made so far still match the hits among the neighbours seen, one child per hit, with that cell as its fragment, and no earlier node changes |
| TreeBufferRouters.TreeRouter.SearchChildren | src/t_scheduler/router/tree_buffer_router.py:257-266 | one new child per fragment, in order, each adding that fragment |
| TreeBufferRouters.TreeRouter.TreeSearch | src/t_scheduler/router/tree_buffer_router.py:179-206 | a path found is a node of the lane read backwards: from an available magic state up to the top row through unlocked patches |
| TreeBufferRouters.TreeRouter.Visit | src/t_scheduler/router/tree_buffer_router.py:182-197 | one pop of the search queue keeps every queued node open and only grows the tree; a path it returns is a node of the lane read backwards, ending at an available magic state |
| TreeBufferRouters.TreeRouter.Retry | src/t_scheduler/router/tree_buffer_router.py:198-203 | the retry re-expands the lane's first child and sorts its new children by distance from the dig depth and the lane's column |
| TreeBufferRouters.TreeRouter.SortChildren | src/t_scheduler/router/tree_buffer_router.py:200-203 | sorting a node's children permutes them into key order and changes nothing else |
| TreeBufferRouters.TreeRouter.ChildOpen | src/t_scheduler/router/tree_buffer_router.py:186-188 | the search goes below a child only when its fragment is unlocked, so every node it goes below has an unlocked path |
| TreeBufferRouters.TreeRouter.RequestTransaction | src/t_scheduler/router/tree_buffer_router.py:80-89 | a transaction moves along a contiguous, unlocked path from an available magic state to the top row, measures the state and connects at the path's last column; the path is the reduced, reversed path of a tree node of the requested lane |
| TreeBufferRouters.TreeRouter.Generic | src/t_scheduler/router/tree_buffer_router.py:267-275 | a non-T gate is refused with the tree untouched; success carries such a transaction, whose path is a node of lane `clamp(x - offset, 0, width - 1) // 2`, and anything else is a refusal |
| TreeBufferRouters.FoundReversed | src/t_scheduler/router/tree_buffer_router.py:190-191 | an unlocked node path ending at an available magic state, read backwards, is what the search returns |
| TreeBufferRouters.MakeTransaction | src/t_scheduler/router/tree_buffer_router.py:74-78 | the transaction moves along the path, measures its first patch, which holds the magic state, and connects at the given column |
| TreeBufferRouters.ReducedFound | src/t_scheduler/router/tree_buffer_router.py:86 | the reduced path keeps the magic state first, stays contiguous and unlocked, and ends on the top row |
| VerticalBuffers.Run | src/t_scheduler/router/vertical_buffer_router.py:100-102 | a run of k cells of one row walks from the farthest toward the output column |
| VerticalBuffers.ProbePathRoute | src/t_scheduler/router/vertical_buffer_router.py:104-124 | a stocked patch, the free run beside it and the free column above form a T route that ends at the top of the output column |
| VerticalBuffers.ProbeDown | src/t_scheduler/router/vertical_buffer_router.py:65-77 | the prefix is the longest run of free patches down the output column from row 0 |
| VerticalBuffers.Probe | src/t_scheduler/router/vertical_buffer_router.py:80-128 | a route found is a T route to the top of the output column; a stocked patch right beside the prefix's last cell is taken at once when the first row scan runs |
| VerticalBuffers.ScanBottom | src/t_scheduler/router/vertical_buffer_router.py:99-106 | the scan of the prefix's last row takes the first stocked patch after a free run, and otherwise reports the free run it saw |
| VerticalBuffers.ScanRow | src/t_scheduler/router/vertical_buffer_router.py:111-128 | the scan of an upper row gives a route from a patch of that row, or reports the free run it saw |
| VerticalBuffers.ProbeLeft | src/t_scheduler/router/vertical_buffer_router.py:80-128 | the left probe gives T routes to the top of the output column, and takes a stocked patch beside the prefix's last cell when that is below row 0 |
| VerticalBuffers.ProbeRight | src/t_scheduler/router/vertical_buffer_router.py:131-169 | the corrected right probe, whose first scan runs whenever the prefix ends below row 0, mirrors the left probe |
| VerticalBuffers.ProbeRightAsWritten | src/t_scheduler/router/vertical_buffer_router.py:140 | as written, reading `.row`/`.col` as the local coordinates (the program raises AttributeError first, at :135), with a prefix of two cells the right probe can only find a patch on row 0 |
| VerticalBuffers.RightProbeCounterexample | src/t_scheduler/router/vertical_buffer_router.py:140 | a concrete 2-by-2 buffer where the stocked patch beside the prefix's last cell is missed by the right probe as written, reading `.row`/`.col` as the local coordinates (the program raises AttributeError first, at :135) |
| VerticalBuffers.SearchOwning | src/t_scheduler/router/vertical_buffer_router.py:51-57 | the owning search gives the available magic state nearest the top of the column, or none when the column has none |
| VerticalBuffers.OwningPathValid | src/t_scheduler/router/vertical_buffer_router.py:59-63 | the path up the column from a state lies in the buffer, and passes validate_T_path exactly when the patches above it are free |
| VerticalBuffers.MinOf | src/t_scheduler/router/vertical_buffer_router.py:38 | the minimum is a member no larger than any other |
| VerticalBuffers.MakeProposal | src/t_scheduler/router/vertical_buffer_router.py:20-24 | the transaction moves along the route, measures its first patch, which holds the magic state, and connects at the given column |
| VerticalBuffers.OwnedRoute | src/t_scheduler/router/vertical_buffer_router.py:32-36 | the loop over the output columns returns a transaction exactly when some column owns a state; then it serves the first such column, straight up from its state |
| VerticalBuffers.FallbackRoute | src/t_scheduler/router/vertical_buffer_router.py:38-49 | for the chosen column: a failed `probe_down` gives nothing; where the free run ends at row sr >= 1, a state left of row sr is taken first, and a state right of it gives some transaction; any transaction connects at that column and ends on row 0 |
| VerticalBuffers.ProbeSides | src/t_scheduler/router/vertical_buffer_router.py:43-49 | the left probe is tried before the right one: when the prefix ends below row 0, a state beside its end on the left is taken directly, and one on the right gives a transaction when the left finds none |
| VerticalBuffers.Request | src/t_scheduler/router/vertical_buffer_router.py:26-49 | no output columns give nothing; the first column that owns a valid state gets the path up that column; any transaction is a T route to the top of one of the output columns; when no column owns a state the smallest column is used: a failed `probe_down` gives nothing, a state left of the bottom of the free run is taken before anything on the right, and a state right of it gives a transaction when the left probe finds none |
| VerticalBuffers.BufferCols | src/t_scheduler/router/vertical_buffer_router.py:184-190 | the buffer columns are the one left of the register column when it is positive and the register column when it is below width - 2 |
| VerticalBuffers.Generic | src/t_scheduler/router/vertical_buffer_router.py:183-195 | the response is a success with a transaction on one of the buffer columns or a refusal, and is a success whenever one of those columns owns a valid state |

## Left out

- The magic-state generators (factories, cultivators) are stochastic. They are not modelled: their outcomes are given as production flags, and factories are labels.
- `print` calls and `__repr__` produce output only. The `debug` value a volume tag keeps only decides what is printed, so the model keeps just whether the tag has it (`Tracking.VolumeTag.Copy` reads it).
- The space-time-volume statistics are modelled as the tracker's counters. What is done with them afterwards is not.
- Floating point:
  - `dig_depth = int(height * 2/3)` is modelled as the integer 2h div 3;
  - the DAG weights of `dag_create` are integers.
- Python's negative indices are modelled only where the code relies on them (`_get_closest`, `make_explicit`). Elsewhere an index is required to lie in range.
- `estimate_generated_t_count` (`templates/generic_templates.py:49-85`) only estimates a count for reporting. It is not modelled.
- The template registries, the `buffer_type` strings other than dense and sparse, and `layout_override` are not modelled. Neither are the widget templates other than the tree template (`flat_naive_*`, buffered, vertical).
- `make_widget` and `make_explicit` do not build `Widget` and `GenericStrategy` objects here. The model stops at the layout, the regions and the rotation policy handed on.
- The `upstream` link of a `LayoutNode` is modelled as its parent in the layout tree.
- Strategies.AllocGate: the branches for graph-state, local and ancilla gates (base_strategy.py:36-82) are not modelled. As written, line 36 reads `GateType.GRAPH_STATE_PREP`, which `GateType` (gate.py:10-14) does not define. So every gate that is not a T gate raises AttributeError there, and the model raises for it too.
- Gates.Gate.NewGSPrep: as written, gate_additional.py:24 raises AttributeError, because `GateType` (gate.py:10-14) has no `GRAPH_STATE_PREP`. The model adds `GraphStatePrep` to `GateType` and builds the gate as evidently intended.
- GateLayers.MakeGates: as written, util.py:3 imports the legacy `T_Gate` from src/t_scheduler/gate.py, whose constructor (gate.py:81-82) takes no `targ_orig` keyword. So util.py:69 raises TypeError whenever `n_qubits >= 1`, and only `n_qubits == 0` returns (with `[]`). The model builds the T gates of base/gate.py, as evidently intended.
- GateLayers.MakeGsprepLayers: as written, every preparation gate it builds raises AttributeError at gate_additional.py:24. The model builds them with the added `GraphStatePrep`, as Gates.Gate.NewGSPrep does.
- The base `Patch` (base/patch.py:62-91) has only the local coordinates `local_y` and `local_x`; its docstring still speaks of `row` and `col`, and nothing sets such fields. Several routers still read `.row` and `.col`: vertical_buffer_router.py:63, 92-93, 116, 135-136 and 157, cultivator_router.py:46, 53, 57-58, 64-65 and 73, and register_region.py:94. As written, each of those reads raises AttributeError. The model reads them as `local_y` and `local_x`, which is what the docstring says they are. So the members below return a route or position where the program as written raises:
  - the vertical router as written raises whenever a column owns a state (find_path_owning, :63) and whenever `probe_down` leaves a non-empty prefix (:92, :135); it answers only when no column owns a state and the prefix is empty;
  - the cultivator router as written raises on every non-empty pool, in the sort key at :46;
  - the comb register region's `get_physical_pos` as written always raises at :94.
- VerticalBuffers.Probe: as written this raises AttributeError on `.row`/`.col`; the model reads `local_y`/`local_x`.
- VerticalBuffers.ScanBottom: as written this raises AttributeError on `.row`/`.col`; the model reads `local_y`/`local_x`.
- VerticalBuffers.ScanRow: as written this raises AttributeError on `.row`/`.col`; the model reads `local_y`/`local_x`.
- VerticalBuffers.ProbeLeft: as written this raises AttributeError on `.row`/`.col`; the model reads `local_y`/`local_x`.
- VerticalBuffers.ProbeRight: as written this raises AttributeError on `.row`/`.col`; the model reads `local_y`/`local_x`.
- VerticalBuffers.ProbeRightAsWritten: as written this raises AttributeError on `.row`/`.col`; the model reads `local_y`/`local_x`.
- VerticalBuffers.RightProbeCounterexample: as written this raises AttributeError on `.row`/`.col`; the model reads `local_y`/`local_x`.
- VerticalBuffers.OwningPathValid: as written this raises AttributeError on `.row`/`.col`; the model reads `local_y`/`local_x`.
- VerticalBuffers.OwnedRoute: as written this raises AttributeError on `.row`/`.col`; the model reads `local_y`/`local_x`.
- VerticalBuffers.FallbackRoute: as written this raises AttributeError on `.row`/`.col`; the model reads `local_y`/`local_x`.
- VerticalBuffers.ProbeSides: as written this raises AttributeError on `.row`/`.col`; the model reads `local_y`/`local_x`.
- VerticalBuffers.Request: as written this raises AttributeError on `.row`/`.col`; the model reads `local_y`/`local_x`.
- VerticalBuffers.Generic: as written this raises AttributeError on `.row`/`.col`; the model reads `local_y`/`local_x`.
- CultivatorRouters.Horizontal: as written this raises AttributeError on `.row`/`.col`; the model reads `local_y`/`local_x`.
- CultivatorRouters.FirstAccepted: as written this raises AttributeError on `.row`/`.col`; the model reads `local_y`/`local_x`.
- CultivatorRouters.Request: as written this raises AttributeError on `.row`/`.col`; the model reads `local_y`/`local_x`.
- CultivatorRouters.CultPathShape: as written this raises AttributeError on `.row`/`.col`; the model reads `local_y`/`local_x`.
- CultivatorRouters.RequestRoute: as written this raises AttributeError on `.row`/`.col`; the model reads `local_y`/`local_x`.
- CultivatorRouters.CornerListedTwice: as written this raises AttributeError on `.row`/`.col`; the model reads `local_y`/`local_x`.
- CultivatorRouters.OwnColumnNeverServed: as written this raises AttributeError on `.row`/`.col`; the model reads `local_y`/`local_x`.
- CultivatorRouters.OwnColumnExample: as written this raises AttributeError on `.row`/`.col`; the model reads `local_y`/`local_x`.
- RegisterRegions.CombPhysicalPos: as written this raises AttributeError on `.row`/`.col`; the model reads `local_y`/`local_x`.
- Routers are modelled by what they answer. The strategy's router network and upkeep tree are given as tables (`Net`, `Tree`). The model does not prove that the tables come from the same router objects.
- Every function, method or lemma that reads a region's cells through a grid requires its patches to match that grid one to one (`Holds`, `CoordsMatch`).
- A plain `Transaction` held by a gate is modelled as a `TransactionList` with one member, which follows the same four phases.
- `Transactions.Transaction.CheckUnlocked` and `Transactions.Transaction.RouteCount` carry no contract of their own. The list versions state what they compute.
- `DummyMapper` is the identity on qubits. Only its `position_xy` is modelled.
- LOOKBACK's branch in `validate_rotation` is commented out in the source, so the model raises for it.
- Durations after an exception are not modelled. A method that raises leaves the arena in a well-formed state but promises nothing else.
- A failed Python `assert` becomes an error result or `ok == false`. So do a malformed router response during upkeep and a failed activation.
- Strategies.Upkeep: does not state that the gates of different factories or buffers are pairwise distinct. Each gate is fresh, and within one factory the slots filled are distinct.
- Strategies.Upkeep: the lists carry `Started`, the part of an upkeep gate's state that lives in the gate. The lock facts are proved per gate by `Strategies.Launch` and `Strategies.StartMove`.
- Strategies.FeedState: keeps every pooled state on the arena only on paths that do not raise.
- Strategies.Listed: the order in which `list(set)` enumerates is not fixed, so the model promises only the members.
- `dag_create`'s graph is modelled on node indices. Gate objects appear only in `GateLayers`.
- Dags.DagPrune: proves only that every removed edge is implied by a longer path. It does not prove that every implied edge is removed.
- Dags.PruneKeepsMirror: requires the predecessor lists to have no duplicates.
- `make_gsprep_layers` shares one list object per layer among the gates of the next and previous layers. The model copies the values and does not track that aliasing.
- When `dag_create` meets an out-of-range index, some gates are already linked before the `IndexError`. The model only reports the error.
- An entry dictionary with several keys is flattened into key and value pairs, in order.
- Tracking.Context: requires every tag to report to the context's tracker.
- The clock of the orchestrator and of the tracker is a parameter.
- Tracking.Tracker.constructor: `make_tag` is modelled as the `VolumeTag` constructor.
- Layouts.Create: requires the upstream region and router of the root to be distinct objects.
- Boards.MakeBoard: requires regions to list their downstream regions after themselves (`Forward`), which is how `create` lists them.
- The rotated local view of a region is proved about region grids (`Regions.ViewGrid`). `make_board` does not apply it.
- Boards.ExplicitCells: states which region covers a cell only for regions that fit the board and have rows of equal length.
- TreeBufferRouters.TreeRouter.TreeSearch: has a fuel parameter bounding the number of queue pops. The tree can grow while it is searched, so termination is not proved. Running out of fuel returns no path.
- Orchestration.Orchestrator.Schedule: has a fuel bound on the number of passes. When it runs out, `done` is false.
- Orchestration.Orchestrator.SchedulePass: models only the gates' clocks and the orchestrator's own lists. The arena effects of a pass are not part of it: cleanup's unlocking, releasing and measure locking, and `gate.next`, which flips a completed rotation gate's T patch. Those effects are proved per gate by Gates.Gate.Cleanup and Gates.Gate.Next.
- TreeBfs.Explore: does not prove that every T patch reachable over ROUTE patches is found. Only what the search finds is specified.
- `reparse_tree`'s two direct-neighbour loops are merged into one list of direct hits. The result is the same because the source only overwrites `children`.
- The cultivator region's `__getitem__` and the order of the dense layout are not modelled.

## Findings

| source | as written | input that shows it | evidently intended | confidence | as-written member | corrected member |
|---|---|---|---|---|---|---|
| src/t_scheduler/router/tree_buffer_router.py:114-116 | `curr_len` is read from `new_path` right after it is emptied, so it is always 0, and the reduction runs exactly two passes | the U-shaped detour `Detour()` (8 cells): two passes leave 6 cells, a third leaves 4 | repeat passes until one no longer shortens the path | not executed | TreePaths.PathReduceAsWritten, TreePaths.TwoPassesStopEarly | TreePaths.PathReduce, TreePaths.ReduceFixpoint |
| src/t_scheduler/router/tree_buffer_router.py:250-252 | the T branch of the breadth-first search does not check `seen`, so a start cell that is a T patch is met again from its neighbour and given a parent | a used T patch at (1, 0) below a ROUTE patch at (0, 0) (`CycleCells`): the two cells become each other's parents, and rebuilding the fragment never ends | T patches already seen (the start) are not taken as results | not executed | TreeBfs.StartRevisited, TreeBfs.CycleFacts | TreeBfs.Explore, TreeBfs.Rebuild |
| src/t_scheduler/router/vertical_buffer_router.py:140 | the right probe scans the prefix's last row only when `start_row > 1`, where the left probe (line 99) uses `start_row > 0` (reading `.row`/`.col` as the local coordinates; the program as written raises AttributeError first, at :135) | a 2-by-2 buffer whose column 0 is free and holds a magic state at (1, 1): the patch beside the prefix's end is never offered | the first right scan runs whenever the prefix ends below row 0, as on the left | not executed | VerticalBuffers.ProbeRightAsWritten, VerticalBuffers.RightProbeCounterexample | VerticalBuffers.ProbeRight |
| src/t_scheduler/router/cultivator_router.py:51-61 | when the climb is up the state's own column, the vertical segment starts at the state's own cell, which must be free routing space, and a cell offering a magic state never is (reading `.row`/`.col` as the local coordinates; the program as written raises AttributeError first, in the sort key at :46) | a two-cell cultivator column with a state at (1, 0) and output column 0 (`OwnColumnExample`): strict mode finds nothing | the vertical segment starts in the row above the state | not executed | CultivatorRouters.OwnColumnNeverServed, CultivatorRouters.OwnColumnExample | CultivatorRouters.CultPathShape, CultivatorRouters.RequestRoute |
