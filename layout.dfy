/**
 * Layout trees and their instantiation.  A layout node names a region
 * factory, a router factory and the layout nodes downstream of it; `create`
 * calls the factories in pre-order and links every created region (and
 * router) to its parent's.  The factories themselves are labels here.
 */
module Layouts {

  /** The region factories the templates use. */
  datatype RegionSpec =
    | SingleRowRegisterSpec(width: int)
    | RouteBusSpec(width: int)
    | BellSpec(height: int)
    | PrefilledBufferSpec(width: int, height: int, layout: string)

  /** The router factories the templates use. */
  datatype RouterKind = BaselineRegisterRouter | StandardBusRouter | BellRouter | TreeFilledBufferRouter | VerticalFilledBufferRouter

  /** `LayoutNode`; the upstream link its constructor sets is the parent in this tree. */
  datatype Layout = Layout(region: RegionSpec, router: RouterKind, downstream: seq<Layout>)

  /**
   * One created node, by position in the pre-order: its factories, the
   * position of its parent (-1 for the root, which gets the caller's
   * upstream) and the positions of its children, in order.
   */
  datatype Entry = Entry(region: RegionSpec, router: RouterKind, parent: int, kids: seq<nat>)

  function Offset(ks: seq<nat>, off: nat): (r: seq<nat>)
    ensures |r| == |ks| && forall j | 0 <= j < |ks| :: r[j] == ks[j] + off
  {
    seq(|ks|, j requires 0 <= j < |ks| => ks[j] + off)
  }

  /** A subtree's entries placed `off` positions further on, its root becoming a child of position 0. */
  function Shift(f: seq<Entry>, off: nat): (r: seq<Entry>)
    ensures |r| == |f|
    ensures forall i | 0 <= i < |f| ::
              r[i] == Entry(f[i].region, f[i].router, if f[i].parent < 0 then 0 else f[i].parent + off, Offset(f[i].kids, off))
  {
    seq(|f|, i requires 0 <= i < |f| =>
      Entry(f[i].region, f[i].router, if f[i].parent < 0 then 0 else f[i].parent + off, Offset(f[i].kids, off)))
  }

  /** The entries once one more subtree has been created below the root. */
  function Extend(es: seq<Entry>, f: seq<Entry>): (r: seq<Entry>)
    requires es != []
    ensures |r| == |es| + |f|
  {
    [Entry(es[0].region, es[0].router, es[0].parent, es[0].kids + [|es|])] + es[1..] + Shift(f, |es|)
  }

  /** What `create` makes of a layout, in the order of its result lists. */
  function Flat(n: Layout): seq<Entry>
    decreases n, 1
  {
    Prefix(n, |n.downstream|)
  }

  /** The entries after the root and its first `k` subtrees. */
  function Prefix(n: Layout, k: nat): (r: seq<Entry>)
    requires k <= |n.downstream|
    ensures r != []
    decreases n, 0, k
  {
    if k == 0 then [Entry(n.region, n.router, -1, [])]
    else Extend(Prefix(n, k - 1), Flat(n.downstream[k - 1]))
  }

  /** The layout nodes in pre-order: a node, then each of its subtrees in turn. */
  function Nodes(n: Layout): seq<Layout>
    decreases n, 1
  {
    NodesPrefix(n, |n.downstream|)
  }

  function NodesPrefix(n: Layout, k: nat): (r: seq<Layout>)
    requires k <= |n.downstream|
    ensures r != [] && r[0] == n
    decreases n, 0, k
  {
    if k == 0 then [n] else NodesPrefix(n, k - 1) + Nodes(n.downstream[k - 1])
  }

  predicate Increasing(ks: seq<nat>)
  {
    forall j, l | 0 <= j < l < |ks| :: ks[j] < ks[l]
  }

  /** Entry `i` comes after its parent and before its children, which it lists in increasing order. */
  predicate Ordered(es: seq<Entry>, i: nat)
  {
    && i < |es|
    && (i > 0 ==> 0 <= es[i].parent < i)
    && Increasing(es[i].kids)
    && forall j | 0 <= j < |es[i].kids| :: i < es[i].kids[j] < |es|
  }

  /** Entry `i` lists `j` as a child exactly when `j` names `i` as its parent. */
  predicate Mirrored(es: seq<Entry>, i: nat, j: nat)
  {
    i < |es| && j < |es| && (j in es[i].kids <==> es[j].parent == i)
  }

  /**
   * A well-formed creation order: the root comes first with no parent,
   * every other node comes after its parent, every node's children come
   * after it in increasing order, and a node lists exactly the nodes that
   * name it as their parent.
   */
  predicate Tree(es: seq<Entry>)
  {
    && es != [] && es[0].parent == -1
    && (forall i | 0 <= i < |es| :: Ordered(es, i))
    && (forall i, j | 0 <= i < |es| && 0 < j < |es| :: Mirrored(es, i, j))
  }

  lemma ExtendRoot(es: seq<Entry>, f: seq<Entry>)
    requires es != []
    ensures Extend(es, f)[0] == Entry(es[0].region, es[0].router, es[0].parent, es[0].kids + [|es|])
  {
  }

  lemma ExtendOld(es: seq<Entry>, f: seq<Entry>, i: nat)
    requires 0 < i < |es|
    ensures Extend(es, f)[i] == es[i]
  {
  }

  lemma ExtendNew(es: seq<Entry>, f: seq<Entry>, i: nat)
    requires es != [] && |es| <= i < |es| + |f|
    ensures Extend(es, f)[i] == Shift(f, |es|)[i - |es|]
  {
  }

  lemma InOffset(ks: seq<nat>, off: nat, j: nat)
    ensures j in ks <==> j + off in Offset(ks, off)
  {
    if j + off in Offset(ks, off) {
      var l :| 0 <= l < |ks| && Offset(ks, off)[l] == j + off;
      assert ks[l] == j;
    }
  }

  lemma ExtendOrdered(es: seq<Entry>, f: seq<Entry>, i: nat)
    requires Tree(es) && Tree(f) && i < |es| + |f|
    ensures Ordered(Extend(es, f), i)
  {
    var m := |es|;
    if i == 0 {
      ExtendRoot(es, f);
      assert Ordered(es, 0);
    } else if i < m {
      ExtendOld(es, f, i);
      assert Ordered(es, i);
    } else {
      ExtendNew(es, f, i);
      assert Ordered(f, i - m);
    }
  }

  /** Below the old part, the children and the parents of the old entries are unchanged. */
  lemma ExtendMirroredOld(es: seq<Entry>, f: seq<Entry>, i: nat, j: nat)
    requires Tree(es) && Tree(f) && i < |es| && 0 < j < |es|
    ensures Mirrored(Extend(es, f), i, j)
  {
    ExtendOld(es, f, j);
    assert Mirrored(es, i, j);
    if i == 0 {
      ExtendRoot(es, f);
    } else {
      ExtendOld(es, f, i);
    }
  }

  /** An old entry has no new child except that the root has the new subtree's root. */
  lemma ExtendMirroredDown(es: seq<Entry>, f: seq<Entry>, i: nat, j: nat)
    requires Tree(es) && Tree(f) && i < |es| <= j < |es| + |f|
    ensures Mirrored(Extend(es, f), i, j)
  {
    var m := |es|;
    ExtendNew(es, f, j);
    assert Ordered(f, j - m);
    assert Ordered(es, i);
    if i == 0 {
      ExtendRoot(es, f);
    } else {
      ExtendOld(es, f, i);
    }
  }

  /** A new entry never names an old one, nor is named by one as parent. */
  lemma ExtendMirroredUp(es: seq<Entry>, f: seq<Entry>, i: nat, j: nat)
    requires Tree(es) && Tree(f) && 0 < j < |es| <= i < |es| + |f|
    ensures Mirrored(Extend(es, f), i, j)
  {
    ExtendOld(es, f, j);
    assert Ordered(es, j);
    ExtendOrdered(es, f, i);
  }

  /** Among the new entries the subtree's own links are shifted along. */
  lemma ExtendMirroredNew(es: seq<Entry>, f: seq<Entry>, i: nat, j: nat)
    requires Tree(es) && Tree(f) && |es| <= i < |es| + |f| && |es| <= j < |es| + |f|
    ensures Mirrored(Extend(es, f), i, j)
  {
    var m := |es|;
    ExtendNew(es, f, i);
    ExtendNew(es, f, j);
    InOffset(f[i - m].kids, m, j - m);
    assert Ordered(f, i - m);
    if j > m {
      assert Mirrored(f, i - m, j - m);
    }
  }

  /** Creating one more subtree below the root keeps the creation order well formed. */
  lemma ExtendTree(es: seq<Entry>, f: seq<Entry>)
    requires Tree(es) && Tree(f)
    ensures Tree(Extend(es, f))
  {
    var r := Extend(es, f);
    var m := |es|;
    ExtendRoot(es, f);
    forall i | 0 <= i < |r|
      ensures Ordered(r, i)
    {
      ExtendOrdered(es, f, i);
    }
    forall i, j | 0 <= i < |r| && 0 < j < |r|
      ensures Mirrored(r, i, j)
    {
      if i < m && j < m {
        ExtendMirroredOld(es, f, i, j);
      } else if i < m {
        ExtendMirroredDown(es, f, i, j);
      } else if j < m {
        ExtendMirroredUp(es, f, i, j);
      } else {
        ExtendMirroredNew(es, f, i, j);
      }
    }
  }

  /** `create` always builds a well-formed tree: each created node is linked below the node it was created under. */
  lemma {:induction false} FlatTree(n: Layout)
    ensures Tree(Flat(n))
    decreases n, 1
  {
    PrefixTree(n, |n.downstream|);
  }

  lemma {:induction false} PrefixTree(n: Layout, k: nat)
    requires k <= |n.downstream|
    ensures Tree(Prefix(n, k))
    decreases n, 0, k
  {
    if k > 0 {
      PrefixTree(n, k - 1);
      FlatTree(n.downstream[k - 1]);
      ExtendTree(Prefix(n, k - 1), Flat(n.downstream[k - 1]));
    }
  }

  /** What the entry at a position says of the node it was created from. */
  predicate Describes(e: Entry, n: Layout)
  {
    e.region == n.region && e.router == n.router && |e.kids| == |n.downstream|
  }

  /**
   * The created entries are the layout's nodes in pre-order: each entry has
   * its node's factories and one child per downstream node.
   */
  lemma {:induction false} FlatNodes(n: Layout)
    ensures |Flat(n)| == |Nodes(n)|
    ensures forall i | 0 <= i < |Flat(n)| :: Describes(Flat(n)[i], Nodes(n)[i])
    decreases n, 1
  {
    PrefixNodes(n, |n.downstream|);
  }

  lemma {:induction false} PrefixNodes(n: Layout, k: nat)
    requires k <= |n.downstream|
    ensures |Prefix(n, k)| == |NodesPrefix(n, k)| && |Prefix(n, k)[0].kids| == k
    ensures Prefix(n, k)[0].region == n.region && Prefix(n, k)[0].router == n.router
    ensures forall i | 0 < i < |Prefix(n, k)| :: Describes(Prefix(n, k)[i], NodesPrefix(n, k)[i])
    decreases n, 0, k
  {
    if k > 0 {
      var c := n.downstream[k - 1];
      PrefixNodes(n, k - 1);
      FlatNodes(c);
      var es := Prefix(n, k - 1);
      var ns := NodesPrefix(n, k - 1);
      var r := Prefix(n, k);
      assert r == Extend(es, Flat(c));
      assert NodesPrefix(n, k) == ns + Nodes(c);
      forall i | 0 < i < |r|
        ensures Describes(r[i], NodesPrefix(n, k)[i])
      {
        if i >= |es| {
          assert r[i] == Shift(Flat(c), |es|)[i - |es|];
        } else {
          assert r[i] == es[i];
        }
      }
    }
  }

  /** A created region or router. */
  datatype Label = RegionLabel(region: RegionSpec) | RouterLabel(router: RouterKind)

  function LabelOf(e: Entry, router: bool): Label
  {
    if router then RouterLabel(e.router) else RegionLabel(e.region)
  }

  /** A region or router made by a factory: what it was made from, and its links. */
  class Piece {
    const made: Label
    /** For a router, the region it routes for. */
    const wraps: Piece?
    var upstream: Piece?
    var downstream: seq<Piece>

    /** A fresh region or router is linked to nothing. */
    constructor (made: Label, wraps: Piece?)
      ensures this.made == made && this.wraps == wraps && upstream == null && downstream == []
    {
      this.made := made;
      this.wraps := wraps;
      upstream := null;
      downstream := [];
    }
  }

  predicate InRange(ks: seq<nat>, n: nat)
  {
    forall j | 0 <= j < |ks| :: ks[j] < n
  }

  function Pick(ps: seq<Piece>, ks: seq<nat>): (r: seq<Piece>)
    requires InRange(ks, |ps|)
    ensures |r| == |ks| && forall j | 0 <= j < |ks| :: r[j] == ps[ks[j]]
  {
    seq(|ks|, j requires 0 <= j < |ks| => ps[ks[j]])
  }

  /** Piece `i` has entry `i`'s factory, its parent's piece upstream and its children's pieces downstream. */
  ghost predicate LinkedAt(ps: seq<Piece>, es: seq<Entry>, i: nat, router: bool)
    requires i < |ps| == |es|
    reads ps[i]
  {
    && ps[i].made == LabelOf(es[i], router)
    && (0 <= es[i].parent < |ps| ==> ps[i].upstream == ps[es[i].parent])
    && InRange(es[i].kids, |ps|) && ps[i].downstream == Pick(ps, es[i].kids)
  }

  /** From position `lo` on, every piece is linked as its entry says. */
  ghost predicate Linked(ps: seq<Piece>, es: seq<Entry>, lo: nat, router: bool)
    reads set i | lo <= i < |ps| :: ps[i]
  {
    |ps| == |es| && forall i | lo <= i < |ps| :: LinkedAt(ps, es, i, router)
  }

  predicate Distinct(ps: seq<Piece>)
  {
    forall i, j | 0 <= i < j < |ps| :: ps[i] != ps[j]
  }

  predicate Disjoint(ps: seq<Piece>, qs: seq<Piece>)
  {
    forall i, j | 0 <= i < |ps| && 0 <= j < |qs| :: ps[i] != qs[j]
  }

  lemma LinkedTail(ps: seq<Piece>, es: seq<Entry>, router: bool)
    requires Linked(ps, es, 0, router)
    ensures Linked(ps, es, 1, router)
  {
  }

  lemma LinkedOld(ps: seq<Piece>, es: seq<Entry>, qs: seq<Piece>, f: seq<Entry>, router: bool, i: nat)
    requires Tree(es) && 0 < i < |ps| == |es| && |qs| == |f| && LinkedAt(ps, es, i, router)
    ensures LinkedAt(ps + qs, Extend(es, f), i, router)
  {
    ExtendOld(es, f, i);
    assert Ordered(es, i);
    assert Pick(ps + qs, es[i].kids) == Pick(ps, es[i].kids);
  }

  lemma LinkedNew(ps: seq<Piece>, es: seq<Entry>, qs: seq<Piece>, f: seq<Entry>, router: bool, i: nat)
    requires Tree(f) && 0 < |ps| == |es| <= i < |es| + |f| && |qs| == |f|
    requires LinkedAt(qs, f, i - |ps|, router) && qs[0].upstream == ps[0]
    ensures LinkedAt(ps + qs, Extend(es, f), i, router)
  {
    var m := |ps|;
    ExtendNew(es, f, i);
    assert Ordered(f, i - m);
    assert Pick(ps + qs, Offset(f[i - m].kids, m)) == Pick(qs, f[i - m].kids);
  }

  lemma LinkedRoot(ps: seq<Piece>, es: seq<Entry>, qs: seq<Piece>, f: seq<Entry>, router: bool)
    requires Tree(es) && 0 < |ps| == |es| && |qs| == |f| > 0
    requires ps[0].made == LabelOf(es[0], router)
    requires InRange(es[0].kids, |ps|) && ps[0].downstream == Pick(ps, es[0].kids) + [qs[0]]
    ensures LinkedAt(ps + qs, Extend(es, f), 0, router)
  {
    ExtendRoot(es, f);
    assert Pick(ps + qs, es[0].kids + [|ps|]) == Pick(ps, es[0].kids) + [qs[0]];
  }

  /** Linking a created subtree below the root of the pieces made so far. */
  lemma LinkedExtend(ps: seq<Piece>, es: seq<Entry>, qs: seq<Piece>, f: seq<Entry>, router: bool)
    requires Tree(es) && Tree(f) && Linked(ps, es, 1, router) && Linked(qs, f, 0, router)
    requires ps[0].made == LabelOf(es[0], router) && qs[0].upstream == ps[0]
    requires InRange(es[0].kids, |ps|) && ps[0].downstream == Pick(ps, es[0].kids) + [qs[0]]
    ensures Linked(ps + qs, Extend(es, f), 0, router)
  {
    var m := |ps|;
    forall i | 0 <= i < |ps + qs|
      ensures LinkedAt(ps + qs, Extend(es, f), i, router)
    {
      if i == 0 {
        LinkedRoot(ps, es, qs, f, router);
      } else if i < m {
        LinkedOld(ps, es, qs, f, router, i);
      } else {
        LinkedNew(ps, es, qs, f, router, i);
      }
    }
  }

  /** Pieces made during a call come after, and differ from, everything made before it. */
  lemma DistinctJoin(ps: seq<Piece>, rs: seq<Piece>, qs: seq<Piece>, ts: seq<Piece>)
    requires Distinct(ps) && Distinct(rs) && Disjoint(ps, rs)
    requires Distinct(qs) && Distinct(ts) && Disjoint(qs, ts)
    requires Disjoint(ps, qs) && Disjoint(ps, ts) && Disjoint(rs, qs) && Disjoint(rs, ts)
    ensures Distinct(ps + qs) && Distinct(rs + ts) && Disjoint(ps + qs, rs + ts)
  {
  }

  /** The regions and routers are linked as the entries say, each router routing for its region, and no piece occurs twice. */
  ghost predicate Made(regions: seq<Piece>, routers: seq<Piece>, es: seq<Entry>)
    reads (set i | 0 <= i < |regions| :: regions[i]), (set i | 0 <= i < |routers| :: routers[i])
  {
    && |regions| == |routers| > 0
    && Linked(regions, es, 0, false) && Linked(routers, es, 0, true)
    && (forall i | 0 <= i < |routers| :: routers[i].wraps == regions[i])
    && Distinct(regions) && Distinct(routers) && Disjoint(regions, routers)
  }

  /**
   * `LayoutNode.create`: makes the node's region and its router, links them
   * below the given upstream region and router, then creates every
   * downstream layout below them, the results in pre-order.
   */
  method Create(n: Layout, upRegion: Piece?, upRouter: Piece?) returns (regions: seq<Piece>, routers: seq<Piece>)
    requires upRegion != null ==> upRegion != upRouter
    modifies upRegion, upRouter
    ensures Made(regions, routers, Flat(n))
    ensures regions[0].upstream == upRegion && routers[0].upstream == upRouter
    ensures fresh(regions) && fresh(routers)
    ensures upRegion != null ==> upRegion.downstream == old(upRegion.downstream) + [regions[0]] && upRegion.upstream == old(upRegion.upstream)
    ensures upRouter != null ==> upRouter.downstream == old(upRouter.downstream) + [routers[0]] && upRouter.upstream == old(upRouter.upstream)
    decreases n, 2
  {
    var region := new Piece(RegionLabel(n.region), null);
    var router := new Piece(RouterLabel(n.router), region);
    region.upstream := upRegion;
    router.upstream := upRouter;
    if upRegion != null {
      upRegion.downstream := upRegion.downstream + [region];
    }
    if upRouter != null {
      upRouter.downstream := upRouter.downstream + [router];
    }
    regions, routers := CreateChildren(n, region, router);
    assert regions == [region] + regions[1..] && routers == [router] + routers[1..];
  }

  /** The loop of `create`: every downstream layout is created, in turn, below the node's fresh region and router. */
  method CreateChildren(n: Layout, region: Piece, router: Piece) returns (regions: seq<Piece>, routers: seq<Piece>)
    requires region.made == RegionLabel(n.region) && router.made == RouterLabel(n.router) && router.wraps == region
    requires region != router && region.downstream == [] && router.downstream == []
    modifies region, router
    ensures Made(regions, routers, Flat(n)) && regions[0] == region && routers[0] == router
    ensures region.upstream == old(region.upstream) && router.upstream == old(router.upstream)
    ensures fresh(regions[1..]) && fresh(routers[1..])
    decreases n, 1
  {
    regions := [region];
    routers := [router];
    for k := 0 to |n.downstream|
      invariant Made(regions, routers, Prefix(n, k)) && regions[0] == region && routers[0] == router
      invariant region.upstream == old(region.upstream) && router.upstream == old(router.upstream)
      invariant fresh(regions[1..]) && fresh(routers[1..])
    {
      var rs, ts := CreateBelow(n, k, regions, routers);
      assert (regions + rs)[1..] == regions[1..] + rs && (routers + ts)[1..] == routers[1..] + ts;
      regions, routers := regions + rs, routers + ts;
    }
  }

  /** One pass of `create`'s loop: the next downstream layout is created below the first region and router. */
  method CreateBelow(n: Layout, k: nat, regions: seq<Piece>, routers: seq<Piece>)
    returns (rs: seq<Piece>, ts: seq<Piece>)
    requires k < |n.downstream| && Made(regions, routers, Prefix(n, k))
    modifies regions[0], routers[0]
    ensures Made(regions + rs, routers + ts, Prefix(n, k + 1))
    ensures fresh(rs) && fresh(ts)
    ensures regions[0].upstream == old(regions[0].upstream) && routers[0].upstream == old(routers[0].upstream)
    decreases n, 0
  {
    var c := n.downstream[k];
    ghost var es := Prefix(n, k);
    PrefixTree(n, k);
    FlatTree(c);
    var region, router := regions[0], routers[0];
    assert LinkedAt(regions, es, 0, false) && LinkedAt(routers, es, 0, true);
    ghost var below, belowRouter := region.downstream, router.downstream;
    assert below == Pick(regions, es[0].kids) && belowRouter == Pick(routers, es[0].kids);
    LinkedTail(regions, es, false);
    LinkedTail(routers, es, true);
    assert region !in set i | 1 <= i < |regions| :: regions[i];
    assert router !in set i | 1 <= i < |regions| :: regions[i];
    assert region !in set i | 1 <= i < |routers| :: routers[i];
    assert router !in set i | 1 <= i < |routers| :: routers[i];
    rs, ts := Create(c, region, router);
    LinkedExtend(regions, es, rs, Flat(c), false);
    LinkedExtend(routers, es, ts, Flat(c), true);
    DistinctJoin(regions, routers, rs, ts);
  }
}
