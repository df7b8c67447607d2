/**
 * The tree buffer router over a chessboard-prefilled magic-state buffer.
 * Every lane (lane `l` lies between columns 2l - 1 and 2l) keeps a cached
 * search tree whose nodes are paths from the top row of the buffer down
 * into it.  A request searches its lane's tree breadth first for a node
 * ending at an available magic state, expanding nodes not explored yet,
 * and shortens the path it finds.
 *
 * Tree nodes live in one arena, `TreeRouter.nodes`, and are named by index;
 * a node's parent and children are indices into it.  Positions stand for
 * the buffer's patches; patch state is read from `cells` through the grid
 * and is never changed here.
 */
module TreeBufferRouters {
  import opened Wrappers
  import opened Patches
  import opened Grids
  import opened Transactions
  import opened Responses
  import opened Routing
  import opened Sorting
  import opened TreePaths
  import opened TreeBfs
  import Gates

  /** A `TreeNode`: parent, children, the path from the top row, its own last part of it, its lane, and whether it has been expanded. */
  datatype Node = Node(parent: Option<nat>, children: seq<nat>, path: seq<Pos>, fragment: seq<Pos>, lane: nat, reparsed: bool)

  /** The root of lane `lane`: no parent and an empty path. */
  function RootNode(lane: nat): Node
  {
    Node(None, [], [], [], lane, false)
  }

  /**
   * `TreeNode(parent, path)` for the parent at index `pi`: the lane is the
   * parent's, and the fragment is the path without the parent's path (empty
   * when the parent's path is the longer one, as a slice past the end is).
   */
  function ChildNode(pi: nat, p: Node, path: seq<Pos>): (n: Node)
    ensures n.parent == Some(pi) && n.children == [] && !n.reparsed && n.lane == p.lane && n.path == path
    ensures p.path <= path ==> p.path + n.fragment == path
    ensures |path| <= |p.path| ==> n.fragment == []
  {
    Node(Some(pi), [], path, if |p.path| <= |path| then path[|p.path|..] else [], p.lane, false)
  }

  /** Every position lies in the `h` by `w` buffer. */
  predicate InBox(ps: seq<Pos>, h: nat, w: nat)
  {
    forall k | 0 <= k < |ps| :: 0 <= ps[k].row < h && 0 <= ps[k].col < w
  }

  /**
   * `f` may follow `base` in a node's path: it is a non-empty path inside
   * the buffer that starts next to the end of `base`, or on the top row
   * when `base` is empty.
   */
  predicate Continues(base: seq<Pos>, f: seq<Pos>, h: nat, w: nat)
  {
    |f| > 0 && Contiguous(f) && InBox(f, h, w)
    && (if |base| == 0 then f[0].row == 0 else Adjacent(base[|base| - 1], f[0]))
  }

  /** Node `i`'s children are later nodes that name it as their parent. */
  ghost predicate ChildrenOk(nodes: seq<Node>, i: nat, lanes: nat)
    requires i < |nodes|
  {
    forall k | 0 <= k < |nodes[i].children| ::
      lanes <= nodes[i].children[k] < |nodes| && nodes[nodes[i].children[k]].parent == Some(i)
  }

  /**
   * The shape of node `i`: the first `lanes` nodes are the roots of their
   * own lanes; every other node has an earlier parent, shares its lane, and
   * its path is the parent's path followed by its fragment, which continues
   * the parent's path.
   */
  ghost predicate ShapeOk(nodes: seq<Node>, i: nat, h: nat, w: nat, lanes: nat)
    requires i < |nodes|
  {
    var n := nodes[i];
    n.lane < lanes
    && if i < lanes then n.parent.None? && n.lane == i && n.path == [] && n.fragment == []
       else (n.parent.Some? && n.parent.value < i
             && n.path == nodes[n.parent.value].path + n.fragment
             && n.lane == nodes[n.parent.value].lane
             && Continues(nodes[n.parent.value].path, n.fragment, h, w))
  }

  ghost predicate Tree(nodes: seq<Node>, h: nat, w: nat, lanes: nat)
  {
    lanes <= |nodes|
    && (forall i | 0 <= i < |nodes| :: ShapeOk(nodes, i, h, w, lanes))
    && (forall i | 0 <= i < |nodes| :: ChildrenOk(nodes, i, lanes))
  }

  /** Only a node's children and its expanded flag ever change. */
  predicate Same(x: Node, y: Node)
  {
    x.parent == y.parent && x.path == y.path && x.fragment == y.fragment && x.lane == y.lane
  }

  /** `b` is `a` with nodes possibly added at the end and children or flags possibly changed. */
  ghost predicate Grows(a: seq<Node>, b: seq<Node>)
  {
    |a| <= |b| && forall i | 0 <= i < |a| :: Same(a[i], b[i])
  }

  /** The shape of old nodes only depends on what `Same` keeps. */
  lemma ShapeKept(a: seq<Node>, b: seq<Node>, h: nat, w: nat, lanes: nat)
    requires Grows(a, b) && forall i | 0 <= i < |a| :: ShapeOk(a, i, h, w, lanes)
    ensures forall i | 0 <= i < |a| :: ShapeOk(b, i, h, w, lanes)
  {
    forall i | 0 <= i < |a| ensures ShapeOk(b, i, h, w, lanes) {
      assert ShapeOk(a, i, h, w, lanes);
      assert Same(a[i], b[i]);
      if i >= lanes {
        var p := a[i].parent.value;
        assert Same(a[p], b[p]);
      }
    }
  }

  /** The path of every node but a root is a non-empty path inside the buffer from the top row. */
  lemma {:induction false} PathOk(nodes: seq<Node>, i: nat, h: nat, w: nat, lanes: nat)
    requires Tree(nodes, h, w, lanes) && lanes <= i < |nodes|
    ensures var p := nodes[i].path; |p| > 0 && Contiguous(p) && InBox(p, h, w) && p[0].row == 0
    decreases i
  {
    assert ShapeOk(nodes, i, h, w, lanes);
    var n := nodes[i];
    var q := nodes[n.parent.value].path;
    if n.parent.value < lanes {
      assert ShapeOk(nodes, n.parent.value, h, w, lanes);
      assert n.path == n.fragment;
    } else {
      PathOk(nodes, n.parent.value, h, w, lanes);
      ContiguousJoin(q, n.fragment);
      assert (q + n.fragment)[0] == q[0];
      forall k | 0 <= k < |n.path| ensures 0 <= n.path[k].row < h && 0 <= n.path[k].col < w {
        if k >= |q| {
          assert n.path[k] == n.fragment[k - |q|];
        }
      }
    }
  }

  /** A grid of the buffer's shape holds exactly the positions inside the buffer. */
  lemma AllInBox(g: Grid, h: nat, w: nat, ps: seq<Pos>)
    requires Rect(g, h, w)
    ensures AllIn(g, ps) <==> InBox(ps, h, w)
  {
    if InBox(ps, h, w) {
      forall k | 0 <= k < |ps| ensures InGrid(g, ps[k]) {
        assert |g[ps[k].row]| == w;
      }
    }
  }

  /** The key `init_frontier` sorts a root's children by: distance of the node's last column from the middle column. */
  function MiddleKey(ns: seq<Node>, mid: int): nat -> int
  {
    (x: nat) => if x < |ns| && |ns[x].path| > 0 then Abs(ns[x].path[|ns[x].path| - 1].col - mid) else 0
  }

  /** The middle key of a node whose path is the single cell `p`. */
  lemma MiddleKeyAt(ns: seq<Node>, mid: int, x: nat, p: Pos)
    requires x < |ns| && ns[x].path == [p]
    ensures MiddleKey(ns, mid)(x) == Abs(p.col - mid)
  {
  }

  /** The key the retry sorts by: distance of the node's last cell from (`depth`, 2 * `lane`). */
  function DigKey(ns: seq<Node>, depth: int, lane: int): nat -> int
  {
    (x: nat) => if x < |ns| && |ns[x].path| > 0
      then Abs(ns[x].path[|ns[x].path| - 1].row - depth) + Abs(ns[x].path[|ns[x].path| - 1].col - 2 * lane)
      else 0
  }

  /** The column of lane `l`'s first initial child: its left column, or column 1 for lane 0. */
  function FirstCol(l: nat): int
  {
    if l != 0 then 2 * l - 1 else 1
  }

  /** The column of lane `l`'s second initial child: its right column, or 2l - 2 for the last lane. */
  function SecondCol(l: nat, lanes: nat): int
  {
    if l != lanes - 1 then 2 * l else 2 * l - 2
  }

  /** The column the mining steps to from `c`: the other column of lane `l`. */
  function Toggle(c: int, l: nat): int
  {
    2 * l - (if c == 2 * l then 1 else 0)
  }

  /**
   * Cell `j` of the mined chain that starts below the top-row cell in
   * column `c0` of lane `l`: two cells per row, one down the column the
   * chain is in and one across to the lane's other column.
   */
  function MineCell(c0: int, l: nat, j: nat): Pos
  {
    Pos(j / 2 + 1, if ((j + 1) / 2) % 2 == 0 then c0 else Toggle(c0, l))
  }

  /**
   * The chain `generate_mining` hangs below node `m`: `s` new nodes from
   * index `big` on, each the only child of the one before (the first the
   * last child of `m`), each adding the next mined cell to its parent's
   * path, and all but the last marked as expanded.
   */
  ghost predicate Mined(nodes: seq<Node>, m: nat, big: nat, c0: int, l: nat, s: nat)
  {
    |nodes| == big + s
    && forall i | big <= i < big + s ::
         nodes[i].parent == Some(if i == big then m else i - 1)
         && nodes[i].fragment == [MineCell(c0, l, i - big)]
         && nodes[i].children == (if i + 1 < big + s then [i + 1] else [])
         && nodes[i].reparsed == (i + 1 < big + s)
  }

  /** Two root children, in the order the stable sort by `MiddleKey` leaves them. */
  ghost predicate RootReady(nodes: seq<Node>, l: nat, w: nat, lanes: nat)
    requires l < |nodes|
  {
    var a := FirstCol(l);
    var b := SecondCol(l, lanes);
    var cs := nodes[l].children;
    |cs| == 2 && cs[0] < |nodes| && cs[1] < |nodes|
    && (if Abs(b - w / 2) < Abs(a - w / 2)
        then nodes[cs[0]].path == [Pos(0, b)] && nodes[cs[1]].path == [Pos(0, a)]
        else nodes[cs[0]].path == [Pos(0, a)] && nodes[cs[1]].path == [Pos(0, b)])
  }

  /** Sorting the two new top-row nodes of lane `l` by `MiddleKey` makes the root ready once they are its children. */
  lemma InitReady(ns: seq<Node>, l: nat, w: nat, lanes: nat, i1: nat, i2: nat, cs: seq<nat>)
    requires l < |ns| && i1 < |ns| && i2 < |ns| && l != i1 && l != i2
    requires ns[i1].path == [Pos(0, FirstCol(l))] && ns[i2].path == [Pos(0, SecondCol(l, lanes))]
    requires cs == SortBy([i1, i2], MiddleKey(ns, w / 2))
    ensures |cs| == 2 && forall k | 0 <= k < |cs| :: cs[k] == i1 || cs[k] == i2
    ensures RootReady(ns[l := ns[l].(children := cs)], l, w, lanes)
  {
    var key := MiddleKey(ns, w / 2);
    MiddleKeyAt(ns, w / 2, i1, Pos(0, FirstCol(l)));
    MiddleKeyAt(ns, w / 2, i2, Pos(0, SecondCol(l, lanes)));
    SortTwo(i1, i2, key);
    var ns' := ns[l := ns[l].(children := cs)];
    if key(i2) < key(i1) {
      assert cs == [i2, i1];
      assert ns'[cs[0]] == ns[i2] && ns'[cs[1]] == ns[i1];
    } else {
      assert cs == [i1, i2];
      assert ns'[cs[0]] == ns[i1] && ns'[cs[1]] == ns[i2];
    }
  }

  /** The initial children of a root keep their paths as the tree grows. */
  lemma RootReadyKept(a: seq<Node>, b: seq<Node>, i: nat, w: nat, lanes: nat)
    requires i < |a| && Grows(a, b) && b[i].children == a[i].children && RootReady(a, i, w, lanes)
    ensures RootReady(b, i, w, lanes)
  {
    assert Same(a[a[i].children[0]], b[a[i].children[0]]);
    assert Same(a[a[i].children[1]], b[a[i].children[1]]);
  }

  /** A neighbour `reparse_tree` takes directly: a T patch facing the node's last cell and available. */
  predicate DirectHit(cells: seq<Patch>, g: Grid, cur: Pos, p: Pos)
    requires Holds(g, |cells|)
  {
    Faces(cells, g, cur, p) && TAvailable(cells[At(g, p)])
  }

  /** The direct hits among the first `k` neighbours of `cur`, in the order down, left, right, up. */
  function Hits(cells: seq<Patch>, g: Grid, cur: Pos, k: nat): (r: seq<Pos>)
    requires Holds(g, |cells|) && k <= 4
    ensures forall j | 0 <= j < |r| :: DirectHit(cells, g, cur, r[j]) && Adjacent(cur, r[j])
  {
    if k == 0 then []
    else Hits(cells, g, cur, k - 1) + (if DirectHit(cells, g, cur, Neighbours(cur)[k - 1]) then [Neighbours(cur)[k - 1]] else [])
  }

  /** No patch of the path is locked. */
  predicate Free(cells: seq<Patch>, g: Grid, ps: seq<Pos>)
    requires Holds(g, |cells|)
  {
    AllIn(g, ps) && forall j | 0 <= j < |ps| :: !Locked(cells[At(g, ps[j])])
  }

  /**
   * What `tree_search` returns: a path from an available magic state (its
   * first cell) to the top row (its last cell) through unlocked patches.
   */
  predicate Found(cells: seq<Patch>, g: Grid, ps: seq<Pos>)
    requires Holds(g, |cells|)
  {
    |ps| > 0 && Free(cells, g, ps) && Contiguous(ps)
    && TAvailable(cells[At(g, ps[0])]) && ps[|ps| - 1].row == 0
  }

  /** A node the search may go below: the lane's root, or a node of the lane whose whole path is unlocked. */
  ghost predicate Open(cells: seq<Patch>, g: Grid, nodes: seq<Node>, x: nat, lane: nat)
    requires Holds(g, |cells|)
  {
    x < |nodes| && (x == lane || (nodes[x].lane == lane && Free(cells, g, nodes[x].path)))
  }

  class TreeRouter {
    const height: nat
    const width: nat
    /** `dig_depth`: how deep the mined chains of the middle lanes reach. */
    const digDepth: nat
    /** The number of lanes, `width // 2 + 1`; nodes 0 to `lanes - 1` are their roots. */
    const lanes: nat
    var nodes: seq<Node>

    ghost predicate Valid()
      reads this
    {
      width >= 2 && lanes == width / 2 + 1 && digDepth <= height
      && Tree(nodes, height, width, lanes)
      && forall l | 0 <= l < lanes :: |nodes[l].children| == 2
    }

    /**
     * The router over an `h` by `w` buffer: one root per lane, each given its
     * two initial children and, in the middle lanes, a mined chain below the
     * second of them.  `dig_depth` is `int(h * 2/3)`, here ⌊2h/3⌋.
     */
    constructor (h: nat, w: nat)
      requires h >= 1 && w >= 2
      ensures height == h && width == w && digDepth == (2 * h) / 3 && lanes == w / 2 + 1
      ensures Valid()
      ensures forall l | 0 <= l < lanes :: RootReady(nodes, l, w, lanes)
    {
      height := h;
      width := w;
      digDepth := (2 * h) / 3;
      lanes := w / 2 + 1;
      nodes := seq(w / 2 + 1, l requires 0 <= l => RootNode(l));
      new;
      var lane := 0;
      while lane < lanes
        invariant 0 <= lane <= lanes && Tree(nodes, height, width, lanes)
        invariant forall l | 0 <= l < lane :: RootReady(nodes, l, w, lanes)
        invariant forall l | lane <= l < lanes :: nodes[l].children == []
      {
        ghost var before := nodes;
        InitLane(lane);
        forall l | 0 <= l < lane ensures RootReady(nodes, l, w, lanes) {
          RootReadyKept(before, nodes, l, w, lanes);
        }
        lane := lane + 1;
      }
      forall l | 0 <= l < lanes ensures |nodes[l].children| == 2 {
        assert RootReady(nodes, l, w, lanes);
      }
    }

    /** `init_frontier` for one lane: two top-row children sorted by distance from the middle, and the mined chain. */
    method InitLane(l: nat)
      requires height >= 1 && width >= 2 && lanes == width / 2 + 1 && digDepth <= height
      requires Tree(nodes, height, width, lanes) && l < lanes && nodes[l].children == []
      modifies this
      ensures Tree(nodes, height, width, lanes) && Grows(old(nodes), nodes)
      ensures forall i | 0 <= i < lanes && i != l :: nodes[i] == old(nodes[i])
      ensures RootReady(nodes, l, width, lanes)
    {
      var cs := InitChildren(l);
      if l != 0 && l != lanes - 1 {
        ghost var before := nodes;
        GenerateMining(cs[1]);
        RootReadyKept(before, nodes, l, width, lanes);
      }
    }

    /** The two top-row children of lane `l`'s root, in the order of `MiddleKey`. */
    method InitChildren(l: nat) returns (cs: seq<nat>)
      requires height >= 1 && width >= 2 && lanes == width / 2 + 1
      requires Tree(nodes, height, width, lanes) && l < lanes && nodes[l].children == []
      modifies this
      ensures Tree(nodes, height, width, lanes) && Grows(old(nodes), nodes)
      ensures forall i | 0 <= i < |old(nodes)| && i != l :: nodes[i] == old(nodes[i])
      ensures RootReady(nodes, l, width, lanes) && cs == nodes[l].children
      ensures lanes <= cs[1] < |nodes| && nodes[cs[1]].lane == l
      ensures nodes[cs[1]].path == [Pos(0, FirstCol(l))] || nodes[cs[1]].path == [Pos(0, SecondCol(l, lanes))]
    {
      var i1, i2 := InitPair(l);
      cs := SortBy([i1, i2], MiddleKey(nodes, width / 2));
      InitReady(nodes, l, width, lanes, i1, i2, cs);
      SetChildren(l, cs);
    }

    /** The two top-row nodes `init_frontier` creates below lane `l`'s root, not yet its children. */
    method InitPair(l: nat) returns (i1: nat, i2: nat)
      requires height >= 1 && width >= 2 && lanes == width / 2 + 1
      requires Tree(nodes, height, width, lanes) && l < lanes
      modifies this
      ensures Tree(nodes, height, width, lanes) && Grows(old(nodes), nodes)
      ensures forall i | 0 <= i < |old(nodes)| :: nodes[i] == old(nodes[i])
      ensures i1 == |old(nodes)| && i2 == i1 + 1 && |nodes| == i2 + 1
      ensures nodes[i1].path == [Pos(0, FirstCol(l))] && nodes[i1].parent == Some(l) && nodes[i1].lane == l
      ensures nodes[i2].path == [Pos(0, SecondCol(l, lanes))] && nodes[i2].parent == Some(l) && nodes[i2].lane == l
    {
      assert ShapeOk(nodes, l, height, width, lanes);
      i1 := NewNode(l, [Pos(0, FirstCol(l))]);
      i2 := NewNode(l, [Pos(0, SecondCol(l, lanes))]);
      assert nodes[i1] == old(nodes)[l].(children := [], path := [Pos(0, FirstCol(l))], fragment := [Pos(0, FirstCol(l))], parent := Some(l), reparsed := false);
    }

    /** A new node below node `p`, its path `p`'s path followed by `f`; `p`'s children are left as they are. */
    method NewNode(p: nat, f: seq<Pos>) returns (i: nat)
      requires Tree(nodes, height, width, lanes) && p < |nodes| && Continues(nodes[p].path, f, height, width)
      modifies this
      ensures i == old(|nodes|) && nodes == old(nodes) + [ChildNode(p, old(nodes)[p], old(nodes)[p].path + f)]
      ensures nodes[i].fragment == f
      ensures Tree(nodes, height, width, lanes) && Grows(old(nodes), nodes)
    {
      ghost var a := nodes;
      var path := nodes[p].path + f;
      assert path[|nodes[p].path|..] == f;
      i := |nodes|;
      nodes := nodes + [ChildNode(p, nodes[p], path)];
      ShapeKept(a, nodes, height, width, lanes);
      forall j | 0 <= j < |nodes| ensures ChildrenOk(nodes, j, lanes) {
        if j < |a| {
          assert ChildrenOk(a, j, lanes);
        }
      }
      assert ShapeOk(nodes, i, height, width, lanes) by {
        assert ShapeOk(a, p, height, width, lanes);
      }
    }

    /** `p.children.append(...)` of a new node below `p`. */
    method AddChild(p: nat, f: seq<Pos>) returns (i: nat)
      requires Tree(nodes, height, width, lanes) && p < |nodes| && Continues(nodes[p].path, f, height, width)
      modifies this
      ensures i == old(|nodes|) && |nodes| == i + 1
      ensures nodes[i] == ChildNode(p, old(nodes)[p], old(nodes)[p].path + f) && nodes[i].fragment == f
      ensures nodes[p] == old(nodes[p]).(children := old(nodes[p].children) + [i])
      ensures forall j | 0 <= j < i && j != p :: nodes[j] == old(nodes[j])
      ensures Tree(nodes, height, width, lanes) && Grows(old(nodes), nodes)
    {
      assert ChildrenOk(nodes, p, lanes);
      i := NewNode(p, f);
      SetChildren(p, nodes[p].children + [i]);
    }

    /** Node `p`'s children become `cs`. */
    method SetChildren(p: nat, cs: seq<nat>)
      requires Tree(nodes, height, width, lanes) && p < |nodes|
      requires forall k | 0 <= k < |cs| :: lanes <= cs[k] < |nodes| && nodes[cs[k]].parent == Some(p)
      modifies this
      ensures nodes == old(nodes)[p := old(nodes)[p].(children := cs)]
      ensures Tree(nodes, height, width, lanes) && Grows(old(nodes), nodes)
    {
      ghost var a := nodes;
      nodes := nodes[p := nodes[p].(children := cs)];
      ShapeKept(a, nodes, height, width, lanes);
      forall j | 0 <= j < |nodes| ensures ChildrenOk(nodes, j, lanes) {
        assert ChildrenOk(a, j, lanes);
      }
    }

    /** Node `p` is marked as expanded. */
    method SetReparsed(p: nat)
      requires Tree(nodes, height, width, lanes) && p < |nodes|
      modifies this
      ensures nodes == old(nodes)[p := old(nodes)[p].(reparsed := true)]
      ensures Tree(nodes, height, width, lanes) && Grows(old(nodes), nodes)
    {
      ghost var a := nodes;
      nodes := nodes[p := nodes[p].(reparsed := true)];
      ShapeKept(a, nodes, height, width, lanes);
      forall j | 0 <= j < |nodes| ensures ChildrenOk(nodes, j, lanes) {
        assert ChildrenOk(a, j, lanes);
      }
    }

    /**
     * `generate_mining` below node `m`, which ends on the top row in one of
     * the two columns of its middle lane: for every row 1 to `digDepth` - 1 a
     * node going down one row and a node stepping across to the other column
     * (`Mined`); `m` gets the first as its last child and, when there is one,
     * is marked as expanded.
     */
    method GenerateMining(m: nat)
      requires Tree(nodes, height, width, lanes) && digDepth <= height && lanes <= m < |nodes|
      requires |nodes[m].path| > 0
      requires var n := nodes[m]; var c := n.path[|n.path| - 1].col;
        n.path[|n.path| - 1].row == 0 && 1 <= n.lane && 2 * n.lane < width && (c == 2 * n.lane - 1 || c == 2 * n.lane)
      modifies this
      ensures Tree(nodes, height, width, lanes) && Grows(old(nodes), nodes)
      ensures forall i | 0 <= i < old(|nodes|) && i != m :: nodes[i] == old(nodes[i])
      ensures var n := old(nodes[m]);
        var s := if digDepth >= 1 then 2 * (digDepth - 1) else 0;
        Mined(nodes, m, old(|nodes|), n.path[|n.path| - 1].col, n.lane, s)
        && nodes[m] == (if s == 0 then n else n.(children := n.children + [old(|nodes|)], reparsed := true))
    {
      ghost var big := |nodes|;
      ghost var n0 := nodes[m];
      var l := nodes[m].lane;
      var c0 := nodes[m].path[|nodes[m].path| - 1].col;
      var curr := m;
      var r := 1;
      while r < digDepth
        invariant 1 <= r && (r == 1 || r <= digDepth)
        invariant Tree(nodes, height, width, lanes) && Grows(old(nodes), nodes)
        invariant forall i | 0 <= i < big && i != m :: nodes[i] == old(nodes[i])
        invariant Mined(nodes, m, big, c0, l, 2 * (r - 1))
        invariant nodes[m] == (if r == 1 then n0 else n0.(children := n0.children + [big], reparsed := true))
        invariant curr == (if r == 1 then m else big + 2 * (r - 1) - 1)
        invariant lanes <= curr < |nodes| && |nodes[curr].path| > 0 && nodes[curr].lane == l
        invariant var last := nodes[curr].path[|nodes[curr].path| - 1];
          last.row == r - 1 && last.col == (if r % 2 == 1 then c0 else Toggle(c0, l))
      {
        curr := MineStep(m, big, n0, c0, l, curr, r);
        r := r + 1;
      }
      assert 2 * (r - 1) == (if digDepth >= 1 then 2 * (digDepth - 1) else 0);
    }

    /** One pass of `generate_mining`'s loop: row `r` of the chain below node `m`, which starts at index `big`. */
    method MineStep(m: nat, ghost big: nat, ghost n0: Node, c0: int, l: nat, curr: nat, r: nat) returns (next: nat)
      requires Tree(nodes, height, width, lanes) && 1 <= r < digDepth <= height && m < big
      requires 1 <= l && 2 * l < width && (c0 == 2 * l - 1 || c0 == 2 * l)
      requires Mined(nodes, m, big, c0, l, 2 * (r - 1))
      requires nodes[m] == (if r == 1 then n0 else n0.(children := n0.children + [big], reparsed := true))
      requires curr == (if r == 1 then m else big + 2 * (r - 1) - 1)
      requires lanes <= curr < |nodes| && |nodes[curr].path| > 0 && nodes[curr].lane == l
      requires var last := nodes[curr].path[|nodes[curr].path| - 1];
        last.row == r - 1 && last.col == (if r % 2 == 1 then c0 else Toggle(c0, l))
      modifies this
      ensures Tree(nodes, height, width, lanes) && Grows(old(nodes), nodes)
      ensures forall i | 0 <= i < big && i != m :: nodes[i] == old(nodes[i])
      ensures Mined(nodes, m, big, c0, l, 2 * r)
      ensures nodes[m] == n0.(children := n0.children + [big], reparsed := true)
      ensures next == big + 2 * r - 1
      ensures lanes <= next < |nodes| && |nodes[next].path| > 0 && nodes[next].lane == l
      ensures var last := nodes[next].path[|nodes[next].path| - 1];
        last.row == r && last.col == (if (r + 1) % 2 == 1 then c0 else Toggle(c0, l))
    {
      ghost var before := nodes;
      next := MineRow(curr, r);
      MineCells(c0, l, r);
      MinedExtend(before, nodes, m, big, c0, l, 2 * (r - 1), curr);
    }

    /**
     * One row of the mining below node `curr`, whose path ends on row `r` - 1
     * in a column of its lane: the node is marked expanded and gets a child
     * one row down, which is marked expanded and gets a child across in the
     * lane's other column.
     */
    method MineRow(curr: nat, r: nat) returns (next: nat)
      requires Tree(nodes, height, width, lanes) && lanes <= curr < |nodes| && 1 <= r < height
      requires |nodes[curr].path| > 0
      requires var n := nodes[curr]; var last := n.path[|n.path| - 1];
        last.row == r - 1 && 1 <= n.lane && 2 * n.lane < width && (last.col == 2 * n.lane - 1 || last.col == 2 * n.lane)
      modifies this
      ensures Tree(nodes, height, width, lanes) && Grows(old(nodes), nodes)
      ensures forall i | 0 <= i < old(|nodes|) && i != curr :: nodes[i] == old(nodes[i])
      ensures var n := old(nodes[curr]);
        var big := old(|nodes|);
        var c := n.path[|n.path| - 1].col;
        |nodes| == big + 2 && next == big + 1
        && nodes[curr] == n.(children := n.children + [big], reparsed := true)
        && nodes[big].parent == Some(curr) && nodes[big].fragment == [Pos(r, c)]
        && nodes[big].children == [big + 1] && nodes[big].reparsed
        && nodes[big + 1].parent == Some(big) && nodes[big + 1].fragment == [Pos(r, Toggle(c, n.lane))]
        && nodes[big + 1].children == [] && !nodes[big + 1].reparsed
        && nodes[big + 1].lane == n.lane && nodes[big + 1].path == n.path + [Pos(r, c), Pos(r, Toggle(c, n.lane))]
    {
      var p := nodes[curr].path;
      var l := nodes[curr].lane;
      var c := p[|p| - 1].col;
      SetReparsed(curr);
      var child1 := AddChild(curr, [Pos(r, c)]);
      SetReparsed(child1);
      assert nodes[child1].path == p + [Pos(r, c)];
      var child2 := AddChild(child1, [Pos(r, Toggle(c, l))]);
      assert p + [Pos(r, c)] + [Pos(r, Toggle(c, l))] == p + [Pos(r, c), Pos(r, Toggle(c, l))];
      next := child2;
    }

    /**
     * `reparse_tree` of node `n`, a node below a root: its children are
     * replaced by new nodes, one per direct hit among the neighbours of its
     * last cell when there is one, and otherwise one per fragment the
     * breadth-first search finds.
     */
    method ReparseTree(cells: seq<Patch>, g: Grid, n: nat)
      requires Valid() && Rect(g, height, width) && Holds(g, |cells|) && lanes <= n < |nodes|
      requires |nodes[n].path| > 0
      modifies this
      ensures Valid() && Grows(old(nodes), nodes)
      ensures forall i | 0 <= i < old(|nodes|) && i != n :: nodes[i] == old(nodes[i])
      ensures nodes[n] == old(nodes[n]).(children := nodes[n].children)
      ensures var p := old(nodes[n].path);
        var cur := p[|p| - 1];
        var hits := Hits(cells, g, cur, 4);
        var cs := nodes[n].children;
        (forall k | 0 <= k < |cs| :: old(|nodes|) <= cs[k] < |nodes| && nodes[cs[k]].parent == Some(n))
        && (|hits| > 0 ==> |cs| == |hits| && forall k | 0 <= k < |cs| :: nodes[cs[k]].fragment == [hits[k]])
        && (|hits| == 0 ==> forall k | 0 <= k < |cs| :: FragmentOk(cells, g, cur, nodes[cs[k]].fragment))
    {
      var kids := NewChildren(cells, g, n);
      SetChildren(n, kids);
    }

    /** The new nodes `reparse_tree` makes below node `n`: one per direct hit, or else one per fragment of the search. */
    method NewChildren(cells: seq<Patch>, g: Grid, n: nat) returns (kids: seq<nat>)
      requires Valid() && Rect(g, height, width) && Holds(g, |cells|) && lanes <= n < |nodes|
      requires |nodes[n].path| > 0
      modifies this
      ensures Valid() && Grows(old(nodes), nodes)
      ensures forall i | 0 <= i < old(|nodes|) :: nodes[i] == old(nodes[i])
      ensures var p := old(nodes[n].path);
        var cur := p[|p| - 1];
        var hits := Hits(cells, g, cur, 4);
        (forall k | 0 <= k < |kids| :: old(|nodes|) <= kids[k] < |nodes| && nodes[kids[k]].parent == Some(n))
        && (|hits| > 0 ==> |kids| == |hits| && forall k | 0 <= k < |kids| :: nodes[kids[k]].fragment == [hits[k]])
        && (|hits| == 0 ==> forall k | 0 <= k < |kids| :: FragmentOk(cells, g, cur, nodes[kids[k]].fragment))
    {
      var p := nodes[n].path;
      var cur := p[|p| - 1];
      PathOk(nodes, n, height, width, lanes);
      kids := DirectChildren(cells, g, n);
      if |kids| == 0 {
        AllInBox(g, height, width, p);
        var frags := BfsFragments(cells, g, height, width, cur);
        kids := SearchChildren(cells, g, n, frags);
      }
    }

    /** The new nodes for the direct hits around node `n`'s last cell, which are not yet made its children. */
    method DirectChildren(cells: seq<Patch>, g: Grid, n: nat) returns (kids: seq<nat>)
      requires Valid() && Rect(g, height, width) && Holds(g, |cells|) && lanes <= n < |nodes|
      requires |nodes[n].path| > 0
      modifies this
      ensures Valid() && Grows(old(nodes), nodes)
      ensures forall i | 0 <= i < old(|nodes|) :: nodes[i] == old(nodes[i])
      ensures var p := old(nodes[n].path);
        var hits := Hits(cells, g, p[|p| - 1], 4);
        |kids| == |hits|
        && forall k | 0 <= k < |kids| ::
             old(|nodes|) <= kids[k] < |nodes| && nodes[kids[k]].parent == Some(n) && nodes[kids[k]].fragment == [hits[k]]
    {
      var p := nodes[n].path;
      var cur := p[|p| - 1];
      ghost var big := |nodes|;
      kids := [];
      for k := 0 to 4
        invariant Valid() && Grows(old(nodes), nodes)
        invariant forall i | 0 <= i < big :: nodes[i] == old(nodes[i])
        invariant |kids| == |Hits(cells, g, cur, k)|
        invariant forall j | 0 <= j < |kids| ::
          big <= kids[j] < |nodes| && nodes[kids[j]].parent == Some(n) && nodes[kids[j]].fragment == [Hits(cells, g, cur, k)[j]]
      {
        kids := HitChild(cells, g, n, cur, k, kids, big);
      }
    }

    /** One neighbour of `DirectChildren`'s loop: a direct hit there becomes a new node below node `n`. */
    method HitChild(cells: seq<Patch>, g: Grid, n: nat, cur: Pos, k: nat, kids: seq<nat>, ghost big: nat) returns (kids': seq<nat>)
      requires Valid() && Rect(g, height, width) && Holds(g, |cells|) && lanes <= n < |nodes| && k < 4 && big <= |nodes|
      requires |nodes[n].path| > 0 && cur == nodes[n].path[|nodes[n].path| - 1]
      requires |kids| == |Hits(cells, g, cur, k)|
      requires forall j | 0 <= j < |kids| ::
        big <= kids[j] < |nodes| && nodes[kids[j]].parent == Some(n) && nodes[kids[j]].fragment == [Hits(cells, g, cur, k)[j]]
      modifies this
      ensures Valid() && Grows(old(nodes), nodes)
      ensures forall i | 0 <= i < old(|nodes|) :: nodes[i] == old(nodes[i])
      ensures |kids'| == |Hits(cells, g, cur, k + 1)|
      ensures forall j | 0 <= j < |kids'| ::
        big <= kids'[j] < |nodes| && nodes[kids'[j]].parent == Some(n) && nodes[kids'[j]].fragment == [Hits(cells, g, cur, k + 1)[j]]
    {
      kids' := kids;
      var nb := Neighbours(cur)[k];
      if 0 <= nb.row < height && 0 <= nb.col < width {
        assert InGrid(g, nb) by {
          assert |g[nb.row]| == width;
        }
        if DirectHit(cells, g, cur, nb) {
          var i := NewNode(n, [nb]);
          kids' := kids + [i];
        }
      } else {
        assert !DirectHit(cells, g, cur, nb);
      }
    }

    /** The new nodes for the fragments the breadth-first search found from node `n`'s last cell. */
    method SearchChildren(cells: seq<Patch>, g: Grid, n: nat, frags: seq<seq<Pos>>) returns (kids: seq<nat>)
      requires Valid() && Rect(g, height, width) && Holds(g, |cells|) && lanes <= n < |nodes|
      requires |nodes[n].path| > 0
      requires forall k | 0 <= k < |frags| :: FragmentOk(cells, g, nodes[n].path[|nodes[n].path| - 1], frags[k])
      modifies this
      ensures Valid() && Grows(old(nodes), nodes)
      ensures forall i | 0 <= i < old(|nodes|) :: nodes[i] == old(nodes[i])
      ensures |kids| == |frags|
      ensures forall k | 0 <= k < |kids| ::
        old(|nodes|) <= kids[k] < |nodes| && nodes[kids[k]].parent == Some(n) && nodes[kids[k]].fragment == frags[k]
    {
      ghost var big := |nodes|;
      kids := [];
      for k := 0 to |frags|
        invariant Valid() && Grows(old(nodes), nodes)
        invariant forall i | 0 <= i < big :: nodes[i] == old(nodes[i])
        invariant |kids| == k
        invariant forall j | 0 <= j < k :: big <= kids[j] < |nodes| && nodes[kids[j]].parent == Some(n) && nodes[kids[j]].fragment == frags[j]
      {
        AllInBox(g, height, width, frags[k]);
        var i := NewNode(n, frags[k]);
        kids := kids + [i];
      }
    }

    /**
     * `tree_search` of lane `lane`: a breadth-first walk over the lane's tree
     * whose queue holds (node, next child index) pairs.  A child whose own
     * fragment has a locked patch is skipped; a child whose last cell is an
     * available magic state ends the search with its path reversed; any other
     * child is expanded if it was not before and queued.  When the walk finds
     * nothing and `retry` is set, the lane's first child is expanded again,
     * its children sorted by their distance from the mining depth, and the
     * walk repeated once.  `fuel` bounds the number of queue entries taken.
     */
    method TreeSearch(cells: seq<Patch>, g: Grid, lane: nat, retry: bool, fuel: nat) returns (r: Option<seq<Pos>>, ghost k: nat)
      requires Valid() && Rect(g, height, width) && Holds(g, |cells|) && lane < lanes
      modifies this
      ensures Valid() && Grows(old(nodes), nodes)
      ensures r.Some? ==> (lanes <= k < |nodes| && nodes[k].lane == lane
                           && r.value == Reversed(nodes[k].path) && Found(cells, g, r.value))
      decreases if retry then 1 else 0
    {
      var queue: seq<(nat, nat)> := [(lane, 0)];
      var qi := 0;
      var steps := fuel;
      assert ShapeOk(nodes, lane, height, width, lanes);
      while qi < |queue| && steps > 0
        invariant Valid() && Grows(old(nodes), nodes)
        invariant qi <= |queue|
        invariant forall j | 0 <= j < |queue| :: Open(cells, g, nodes, queue[j].0, lane)
        decreases steps
      {
        queue, r, k := Visit(cells, g, lane, queue, qi);
        if r.Some? {
          return;
        }
        qi := qi + 1;
        steps := steps - 1;
      }
      if retry {
        Retry(cells, g, lane);
        r, k := TreeSearch(cells, g, lane, false, fuel);
      } else {
        r := None;
        k := 0;
      }
    }

    /**
     * One pop of `tree_search`'s queue: the entry at `qi` names a node and
     * the index of its next child.  A free child whose last cell holds an
     * available state gives its path, read backwards; otherwise the child is
     * expanded and queued, and the node is queued again for its next child.
     */
    method Visit(cells: seq<Patch>, g: Grid, lane: nat, queue: seq<(nat, nat)>, qi: nat)
      returns (queue': seq<(nat, nat)>, r: Option<seq<Pos>>, ghost k: nat)
      requires Valid() && Rect(g, height, width) && Holds(g, |cells|) && lane < lanes && qi < |queue|
      requires forall j | 0 <= j < |queue| :: Open(cells, g, nodes, queue[j].0, lane)
      modifies this
      ensures Valid() && Grows(old(nodes), nodes) && |queue| <= |queue'|
      ensures forall j | 0 <= j < |queue'| :: Open(cells, g, nodes, queue'[j].0, lane)
      ensures r.Some? ==> (lanes <= k < |nodes| && nodes[k].lane == lane
                           && r.value == Reversed(nodes[k].path) && Found(cells, g, r.value))
    {
      var curr := queue[qi].0;
      var ci := queue[qi].1;
      assert Open(cells, g, nodes, curr, lane);
      queue' := queue;
      r, k := None, 0;
      if ci < |nodes[curr].children| {
        queue' := queue + [(curr, ci + 1)];
        var child := nodes[curr].children[ci];
        assert ChildrenOk(nodes, curr, lanes);
        AllInBox(g, height, width, nodes[child].fragment) by {
          assert ShapeOk(nodes, child, height, width, lanes);
        }
        if Free(cells, g, nodes[child].fragment) {
          ChildOpen(cells, g, curr, child, lane);
          var p := nodes[child].path;
          PathOk(nodes, child, height, width, lanes);
          if TAvailable(cells[At(g, p[|p| - 1])]) {
            r := Some(Reversed(p));
            k := child;
            FoundReversed(cells, g, p);
            return;
          }
          ghost var before := nodes;
          Expand(cells, g, child);
          queue' := queue' + [(child, 0)];
          OpenKept(cells, g, before, nodes, queue', lane);
        }
      }
    }

    /** A node not expanded yet is marked as expanded and reparsed. */
    method Expand(cells: seq<Patch>, g: Grid, child: nat)
      requires Valid() && Rect(g, height, width) && Holds(g, |cells|) && lanes <= child < |nodes|
      modifies this
      ensures Valid() && Grows(old(nodes), nodes)
    {
      if !nodes[child].reparsed {
        PathOk(nodes, child, height, width, lanes);
        SetReparsed(child);
        ReparseTree(cells, g, child);
      }
    }

    /**
     * The retry of `tree_search`: the lane's first child is reparsed and its
     * new children sorted by how far their last cell lies from row
     * `digDepth` and column 2 * `lane`.
     */
    method Retry(cells: seq<Patch>, g: Grid, lane: nat)
      requires Valid() && Rect(g, height, width) && Holds(g, |cells|) && lane < lanes
      modifies this
      ensures Valid() && Grows(old(nodes), nodes)
      ensures var first := old(nodes[lane].children[0]);
        lanes <= first < |nodes| && first == nodes[lane].children[0]
        && SortedBy(nodes[first].children, DigKey(nodes, digDepth, lane))
        && forall k | 0 <= k < |nodes[first].children| ::
             old(|nodes|) <= nodes[first].children[k] < |nodes| && nodes[nodes[first].children[k]].parent == Some(first)
    {
      var first := nodes[lane].children[0];
      assert ChildrenOk(nodes, lane, lanes);
      PathOk(nodes, first, height, width, lanes);
      ReparseTree(cells, g, first);
      ghost var mid := nodes;
      SortChildren(first, lane);
      forall k | 0 <= k < |nodes[first].children|
        ensures old(|nodes|) <= nodes[first].children[k] < |nodes| && nodes[nodes[first].children[k]].parent == Some(first)
      {
        assert nodes[first].children[k] in multiset(mid[first].children);
      }
    }

    /** `children.sort(key=...)` of node `first` by the retry's key. */
    method SortChildren(first: nat, lane: nat)
      requires Valid() && lanes <= first < |nodes|
      modifies this
      ensures Valid() && Grows(old(nodes), nodes) && |nodes| == old(|nodes|)
      ensures forall i | 0 <= i < |nodes| && i != first :: nodes[i] == old(nodes[i])
      ensures multiset(nodes[first].children) == multiset(old(nodes[first].children))
      ensures SortedBy(nodes[first].children, DigKey(nodes, digDepth, lane))
    {
      var cs := nodes[first].children;
      assert ChildrenOk(nodes, first, lanes);
      var sorted := SortBy(cs, DigKey(nodes, digDepth, lane));
      forall j | 0 <= j < |sorted| ensures lanes <= sorted[j] < |nodes| && nodes[sorted[j]].parent == Some(first) {
        assert sorted[j] in multiset(cs);
      }
      ghost var before := nodes;
      SetChildren(first, sorted);
      DigKeyKept(before, nodes, sorted, digDepth, lane);
    }

    /** A child of an open node whose own fragment is unlocked is open, and its path is unlocked. */
    lemma ChildOpen(cells: seq<Patch>, g: Grid, curr: nat, child: nat, lane: nat)
      requires Valid() && Rect(g, height, width) && Holds(g, |cells|) && lane < lanes
      requires Open(cells, g, nodes, curr, lane)
      requires lanes <= child < |nodes| && nodes[child].parent == Some(curr)
      requires Free(cells, g, nodes[child].fragment)
      ensures Open(cells, g, nodes, child, lane)
    {
      assert ShapeOk(nodes, child, height, width, lanes);
      assert ShapeOk(nodes, curr, height, width, lanes);
      var q := nodes[curr].path;
      var f := nodes[child].fragment;
      forall j | 0 <= j < |q + f| ensures InGrid(g, (q + f)[j]) && !Locked(cells[At(g, (q + f)[j])]) {
        if j >= |q| {
          assert (q + f)[j] == f[j - |q|];
        }
      }
    }

    /**
     * `_request_transaction`: the lane's tree search, the found path
     * shortened, and a transaction over it connecting at the column of its
     * top-row end.
     */
    method RequestTransaction(cells: seq<Patch>, g: Grid, lane: nat, fuel: nat) returns (t: Option<Proposal>, ghost path: seq<Pos>, ghost k: nat)
      requires Valid() && Rect(g, height, width) && Holds(g, |cells|) && lane < lanes
      modifies this
      ensures Valid() && Grows(old(nodes), nodes)
      ensures t.Some? ==> (|path| > 0 && Contiguous(path) && Free(cells, g, path)
                           && TAvailable(cells[At(g, path[0])]) && path[|path| - 1].row == 0
                           && t.value == MakeTransaction(g, path, path[|path| - 1].col))
      ensures t.Some? ==> lanes <= k < |nodes| && nodes[k].lane == lane && |nodes[k].path| > 0
                          && path == Reduce(Reversed(nodes[k].path))
    {
      var found;
      found, k := TreeSearch(cells, g, lane, true, fuel);
      if found.None? {
        t := None;
        path := [];
        return;
      }
      var reduced := PathReduce(found.value);
      ReducedFound(cells, g, found.value);
      path := reduced;
      t := Some(MakeTransaction(g, reduced, reduced[|reduced| - 1].col));
    }

    /**
     * `generic_transaction`: only T-state requests are served; the lane is
     * half the source patch's column in the buffer (its column minus the
     * buffer's column offset, clamped to the buffer), and a transaction found
     * there is a success.
     */
    method Generic(cells: seq<Patch>, g: Grid, gate: Gates.GateType, sourceX: int, offsetX: int, fuel: nat)
      returns (resp: Response, ghost path: seq<Pos>, ghost k: nat)
      requires Valid() && Rect(g, height, width) && Holds(g, |cells|)
      modifies this
      ensures Valid() && Grows(old(nodes), nodes)
      ensures gate != Gates.TState ==> resp == FailedResponse() && nodes == old(nodes)
      ensures resp.status == Success || resp == FailedResponse()
      ensures resp.status == Success ==> (|path| > 0 && Contiguous(path) && Free(cells, g, path)
                                          && TAvailable(cells[At(g, path[0])]) && path[|path| - 1].row == 0
                                          && resp.transaction == Some(MakeTransaction(g, path, path[|path| - 1].col))
                                          && resp.downstream == Some(At(g, path[0])))
      ensures resp.status == Success ==> lanes <= k < |nodes| && |nodes[k].path| > 0
                                          && nodes[k].lane == Clamp(sourceX - offsetX, 0, width - 1) / 2
                                          && path == Reduce(Reversed(nodes[k].path))
    {
      if gate != Gates.TState {
        resp := FailedResponse();
        path, k := [], 0;
        return;
      }
      var col := Clamp(sourceX - offsetX, 0, width - 1);
      var t;
      t, path, k := RequestTransaction(cells, g, col / 2, fuel);
      if t.Some? {
        resp := MakeResponse(Success, t);
      } else {
        resp := FailedResponse();
      }
    }
  }

  /** Open nodes stay open as the tree grows. */
  lemma OpenKept(cells: seq<Patch>, g: Grid, a: seq<Node>, b: seq<Node>, queue: seq<(nat, nat)>, lane: nat)
    requires Holds(g, |cells|) && Grows(a, b)
    requires forall j | 0 <= j < |queue| :: Open(cells, g, a, queue[j].0, lane)
    ensures forall j | 0 <= j < |queue| :: Open(cells, g, b, queue[j].0, lane)
  {
    forall j | 0 <= j < |queue| ensures Open(cells, g, b, queue[j].0, lane) {
      assert Open(cells, g, a, queue[j].0, lane);
      assert Same(a[queue[j].0], b[queue[j].0]);
    }
  }

  /** A node path that is unlocked and ends at an available magic state, read backwards, is what the search returns. */
  lemma FoundReversed(cells: seq<Patch>, g: Grid, p: seq<Pos>)
    requires Holds(g, |cells|) && |p| > 0 && Contiguous(p) && Free(cells, g, p) && p[0].row == 0
    requires TAvailable(cells[At(g, p[|p| - 1])])
    ensures Found(cells, g, Reversed(p))
  {
    ContiguousReversed(p);
    var r := Reversed(p);
    forall j | 0 <= j < |r| ensures InGrid(g, r[j]) && !Locked(cells[At(g, r[j])]) {
      assert r[j] == p[|p| - 1 - j];
    }
  }

  /**
   * `_make_transaction`: the path's patches are moved through, its first
   * patch is measured and is the magic state, and the connecting column is
   * given.
   */
  function MakeTransaction(g: Grid, path: seq<Pos>, connect: int): (t: Proposal)
    requires |path| > 0 && AllIn(g, path)
    ensures t.move == IdsAt(g, path) && t.measure == [t.move[0]] && t.magic == Some(t.move[0])
    ensures t.connectCol == Some(connect) && t.onActivate == NoCallback && t.onUnlock == NoCallback
  {
    Proposal(IdsAt(g, path), [At(g, path[0])], Some(connect), Some(At(g, path[0])), NoCallback, NoCallback)
  }

  /** The reduced path keeps the found path's first cell, stays contiguous, unlocked and ends on the top row. */
  lemma ReducedFound(cells: seq<Patch>, g: Grid, found: seq<Pos>)
    requires Holds(g, |cells|) && Found(cells, g, found)
    ensures var p := Reduce(found);
      Contiguous(p) && Free(cells, g, p) && p[0] == found[0] && p[|p| - 1].row == 0
  {
    var idx := ReduceShape(found);
    var p := Reduce(found);
    forall j | 0 <= j < |p| ensures InGrid(g, p[j]) && !Locked(cells[At(g, p[j])]) {
      assert p[j] == found[idx[j]];
    }
  }

  /** One mined row more: the chain's last node gets the first of two new nodes as its child. */
  lemma MinedExtend(before: seq<Node>, after: seq<Node>, m: nat, big: nat, c0: int, l: nat, t: nat, curr: nat)
    requires Mined(before, m, big, c0, l, t) && curr == (if t == 0 then m else big + t - 1)
    requires |after| == big + t + 2 && forall i | big <= i < big + t && i != curr :: after[i] == before[i]
    requires t > 0 ==> after[curr] == before[curr].(children := before[curr].children + [big + t], reparsed := true)
    requires after[big + t].parent == Some(curr) && after[big + t].fragment == [MineCell(c0, l, t)]
    requires after[big + t].children == [big + t + 1] && after[big + t].reparsed
    requires after[big + t + 1].parent == Some(big + t) && after[big + t + 1].fragment == [MineCell(c0, l, t + 1)]
    requires after[big + t + 1].children == [] && !after[big + t + 1].reparsed
    ensures Mined(after, m, big, c0, l, t + 2)
  {
    forall i | big <= i < big + t + 2
      ensures after[i].parent == Some(if i == big then m else i - 1)
      ensures after[i].fragment == [MineCell(c0, l, i - big)]
      ensures after[i].children == (if i + 1 < big + t + 2 then [i + 1] else [])
      ensures after[i].reparsed == (i + 1 < big + t + 2)
    {
      if i < big + t {
        assert before[i].parent == Some(if i == big then m else i - 1);
      }
    }
  }

  /** The retry's key only reads node paths, so a sort by it survives changes to children. */
  lemma DigKeyKept(a: seq<Node>, b: seq<Node>, s: seq<nat>, depth: int, lane: int)
    requires Grows(a, b) && |a| == |b| && SortedBy(s, DigKey(a, depth, lane))
    ensures SortedBy(s, DigKey(b, depth, lane))
  {
    forall x: nat | x < |a| ensures DigKey(a, depth, lane)(x) == DigKey(b, depth, lane)(x) {
      assert Same(a[x], b[x]);
    }
    forall i, j | 0 <= i < j < |s| ensures DigKey(b, depth, lane)(s[i]) <= DigKey(b, depth, lane)(s[j]) {
      assert DigKey(a, depth, lane)(s[i]) <= DigKey(a, depth, lane)(s[j]);
    }
  }

  /** The two cells mined on row `r`, and the column the next row starts in. */
  lemma MineCells(c0: int, l: nat, r: nat)
    requires r >= 1 && (c0 == 2 * l - 1 || c0 == 2 * l)
    ensures var col := if r % 2 == 1 then c0 else Toggle(c0, l);
      MineCell(c0, l, 2 * (r - 1)) == Pos(r, col) && MineCell(c0, l, 2 * (r - 1) + 1) == Pos(r, Toggle(col, l))
      && (if (r + 1) % 2 == 1 then c0 else Toggle(c0, l)) == Toggle(col, l)
  {
    assert (2 * (r - 1)) / 2 == r - 1 && (2 * (r - 1) + 1) / 2 == r - 1 && (2 * (r - 1) + 2) / 2 == r;
    assert Toggle(Toggle(c0, l), l) == c0;
  }
}
