/**
 * The widget decorators and the tree template.  `make_widget` builds a
 * layout, creates its regions and routers and hands the rotation policy to
 * the strategy, `ADD_DELAY` unless the caller names one; `limit_reject`
 * fixes the policy to `REJECT`.  The tree template is a register row over a
 * route bus with a Bell region, a chessboard-prefilled buffer and a second
 * Bell region below the bus.
 */
module Templates {
  import opened Wrappers
  import opened Layouts
  import opened Rotations

  /** The rotation policy `make_widget` passes on: the caller's, else `ADD_DELAY`. */
  function WidgetRotation(given: Option<RotationOption>): (r: RotationOption)
    ensures given.Some? ==> r == given.value
    ensures given.None? ==> r == AddDelay
  {
    match given
    case Some(o) => o
    case None => AddDelay
  }

  /**
   * The policy `limit_reject` passes on, as a keyword argument: `REJECT`.
   * A caller that names a policy as well passes the keyword twice, which
   * raises, so the result is None.
   */
  function LimitReject(given: Option<RotationOption>): (r: Option<Option<RotationOption>>)
    ensures r.None? <==> given.Some?
  {
    if given.Some? then None else Some(Some(Reject))
  }

  /** Below the limit, whatever else the caller does, the policy the strategy gets is `REJECT`. */
  lemma LimitRejectForces(given: Option<RotationOption>)
    ensures LimitReject(given).Some? ==> WidgetRotation(LimitReject(given).value) == Reject
    ensures given.None? ==> LimitReject(given).Some?
  {
  }

  /** The Bell regions of the tree template, one on each side of the buffer. */
  function TreeBell(height: int): Layout
  {
    Layout(BellSpec(height - 2), BellRouter, [])
  }

  /** `tree_strategy_with_prefilled_buffer_widget`'s layout; a width that is not a multiple of 4 raises. */
  function TreeTemplate(width: int, height: int): (r: Option<Layout>)
    ensures r.None? <==> width % 4 != 0
    ensures r.Some? ==> r.value.region == SingleRowRegisterSpec(width) && r.value.router == BaselineRegisterRouter
  {
    if width % 4 != 0 then None
    else
      Some(Layout(SingleRowRegisterSpec(width), BaselineRegisterRouter,
                  [Layout(RouteBusSpec(width), StandardBusRouter,
                          [TreeBell(height),
                           Layout(PrefilledBufferSpec(width - 2, height - 2, "chessboard"), TreeFilledBufferRouter, []),
                           TreeBell(height)])]))
  }

  /** The tree template's regions and routers as `make_widget` creates them, in order. */
  function TreeTemplateEntries(width: int, height: int): seq<Entry>
  {
    [Entry(SingleRowRegisterSpec(width), BaselineRegisterRouter, -1, [1]),
     Entry(RouteBusSpec(width), StandardBusRouter, 0, [2, 3, 4]),
     Entry(BellSpec(height - 2), BellRouter, 1, []),
     Entry(PrefilledBufferSpec(width - 2, height - 2, "chessboard"), TreeFilledBufferRouter, 1, []),
     Entry(BellSpec(height - 2), BellRouter, 1, [])]
  }

  /**
   * Creating the tree template gives five regions: the register row, whose
   * only child is the bus, and the bus, whose children are the two Bell
   * regions and the buffer between them.
   */
  lemma TreeTemplateCreates(width: int, height: int)
    requires width % 4 == 0
    ensures Flat(TreeTemplate(width, height).value) == TreeTemplateEntries(width, height)
    ensures Tree(TreeTemplateEntries(width, height))
  {
    var l := TreeTemplate(width, height).value;
    var p3 := BusEntries(width, height);
    assert Offset([1, 2, 3], 1) == [2, 3, 4] && Offset([], 1) == [] && [] + [1] == [1];
    var root := Entry(SingleRowRegisterSpec(width), BaselineRegisterRouter, -1, []);
    assert Prefix(l, 0) == [root];
    assert Shift(p3, 1) == TreeTemplateEntries(width, height)[1..];
    assert Flat(l) == Prefix(l, 1) == Extend([root], p3);
    assert [root][1..] == [];
    FlatTree(l);
  }

  /** The bus of the tree template flattens to itself and its three children, in order. */
  lemma BusEntries(width: int, height: int) returns (p3: seq<Entry>)
    requires width % 4 == 0
    ensures var bell0 := Entry(BellSpec(height - 2), BellRouter, 0, []);
      p3 == [Entry(RouteBusSpec(width), StandardBusRouter, -1, [1, 2, 3]), bell0,
             Entry(PrefilledBufferSpec(width - 2, height - 2, "chessboard"), TreeFilledBufferRouter, 0, []), bell0]
    ensures Flat(TreeTemplate(width, height).value.downstream[0]) == p3
  {
    var bus := TreeTemplate(width, height).value.downstream[0];
    var bell := Entry(BellSpec(height - 2), BellRouter, -1, []);
    var buf := Entry(PrefilledBufferSpec(width - 2, height - 2, "chessboard"), TreeFilledBufferRouter, -1, []);
    assert Flat(bus.downstream[0]) == [bell] && Flat(bus.downstream[2]) == [bell];
    assert Flat(bus.downstream[1]) == [buf];
    assert Offset([], 1) == [] && Offset([], 2) == [] && Offset([], 3) == [];
    var b0 := Entry(RouteBusSpec(width), StandardBusRouter, -1, []);
    var bell0 := Entry(BellSpec(height - 2), BellRouter, 0, []);
    var buf0 := Entry(PrefilledBufferSpec(width - 2, height - 2, "chessboard"), TreeFilledBufferRouter, 0, []);
    assert Shift([bell], 1) == [bell0] && Shift([buf], 2) == [buf0] && Shift([bell], 3) == [bell0];
    assert Prefix(bus, 0) == [b0];
    assert [b0][1..] == [] && [b0.(kids := [1]), bell0][1..] == [bell0] && [b0.(kids := [1, 2]), bell0, buf0][1..] == [bell0, buf0];
    assert [] + [1] == [1] && [1] + [2] == [1, 2] && [1, 2] + [3] == [1, 2, 3];
    assert Prefix(bus, 1) == Extend([b0], [bell]) == [b0.(kids := [1]), bell0];
    assert Prefix(bus, 2) == Extend([b0.(kids := [1]), bell0], [buf]) == [b0.(kids := [1, 2]), bell0, buf0];
    p3 := [b0.(kids := [1, 2, 3]), bell0, buf0, bell0];
    assert Prefix(bus, 3) == Extend([b0.(kids := [1, 2]), bell0, buf0], [bell]) == p3;
    assert Offset([1, 2, 3], 1) == [2, 3, 4];
    assert Flat(bus) == Prefix(bus, 3) == p3;
  }

  /**
   * The decorated tree template: the layout and the policy its strategy
   * gets.  Naming a policy raises before the layout is built; so does a
   * width that is not a multiple of 4.
   */
  function TreeWidget(width: int, height: int, given: Option<RotationOption>): (r: Option<(Layout, RotationOption)>)
  {
    match LimitReject(given)
    case None => None
    case Some(passed) =>
      match TreeTemplate(width, height)
      case None => None
      case Some(l) => Some((l, WidgetRotation(passed)))
  }

  /** The tree widget is built exactly when no policy is named and the width is a multiple of 4, and then it rejects. */
  lemma TreeWidgetRejects(width: int, height: int, given: Option<RotationOption>)
    ensures TreeWidget(width, height, given).Some? <==> given.None? && width % 4 == 0
    ensures TreeWidget(width, height, given).Some? ==>
              TreeWidget(width, height, given).value == (TreeTemplate(width, height).value, Reject)
  {
    LimitRejectForces(given);
  }
}
