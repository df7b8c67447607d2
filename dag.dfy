/**
 * The gate DAG of the scheduler's utilities: its construction from a
 * consumption schedule, the pruning of edges implied by longer chains, the
 * post-order topological sort and the propagation of schedule weights.
 *
 * Gates are named by index.  `pre[g]` and `post[g]` stand for the
 * predecessor and successor lists of gate `g`; the operations take the lists
 * and return the new ones.  The DAG has no cycle, and a `rank` that falls
 * along every edge is the witness of that: the walks of the source loop
 * forever on a cycle.
 */
module Dags {
  import opened Wrappers

  /** Every index in `ids` names one of `n` gates. */
  predicate Within(ids: seq<nat>, n: nat)
  {
    forall k | 0 <= k < |ids| :: ids[k] < n
  }

  /** No index occurs twice. */
  predicate NoDup(ids: seq<nat>)
  {
    forall j, k | 0 <= j < k < |ids| :: ids[j] != ids[k]
  }

  /** One edge list per gate, each among the `n` gates. */
  predicate Edges(e: seq<seq<nat>>, n: nat)
  {
    |e| == n && forall g | 0 <= g < n :: Within(e[g], n)
  }

  /** The successor lists have no cycle: every edge leads to a gate of lower rank. */
  predicate Ranked(post: seq<seq<nat>>, rank: seq<nat>)
  {
    |rank| == |post| && Edges(post, |post|)
    && forall g, k | 0 <= g < |post| && 0 <= k < |post[g]| :: rank[post[g][k]] < rank[g]
  }

  /** Each gate of `p` is followed by one of its successors. */
  predicate Walk(post: seq<seq<nat>>, p: seq<nat>)
  {
    forall k | 0 <= k < |p| - 1 :: Step(post, p, k)
  }

  /** The walk goes from its `k`-th gate to its `k + 1`-th along an edge. */
  predicate Step(post: seq<seq<nat>>, p: seq<nat>, k: nat)
  {
    k + 1 < |p| && p[k] < |post| && p[k + 1] in post[p[k]]
  }

  /** `p` walks from `x` to `t` through at least one gate in between. */
  predicate Detour(post: seq<seq<nat>>, p: seq<nat>, x: nat, t: nat)
  {
    |p| >= 3 && p[0] == x && p[|p| - 1] == t && Walk(post, p)
  }

  /** An edge from `x` to `t` is implied by a longer chain of the DAG. */
  ghost predicate Implied(post: seq<seq<nat>>, x: nat, t: nat)
  {
    exists p :: Detour(post, p, x, t)
  }

  /** `p` walks from one of the roots to `x`. */
  predicate Route(post: seq<seq<nat>>, roots: seq<nat>, p: seq<nat>, x: nat)
  {
    |p| >= 1 && p[0] in roots && p[|p| - 1] == x && Walk(post, p)
  }

  /** Gate `x` can be reached from one of the roots. */
  ghost predicate Reachable(post: seq<seq<nat>>, roots: seq<nat>, x: nat)
  {
    exists p :: Route(post, roots, p, x)
  }

  lemma RouteStep(post: seq<seq<nat>>, roots: seq<nat>, p: seq<nat>, x: nat, y: nat)
    requires Route(post, roots, p, x) && x < |post| && y in post[x]
    ensures Route(post, roots, p + [y], y)
  {
    var q := p + [y];
    forall k | 0 <= k < |q| - 1 ensures Step(post, q, k) {
      if k < |p| - 1 { assert q[k] == p[k] && q[k + 1] == p[k + 1] && Step(post, p, k); }
    }
  }

  /* ------------------------------------------------------------------ */
  /* the walks' stacks                                                   */
  /* ------------------------------------------------------------------ */

  /** A stack entry of the walks: a gate and the index of its next successor. */
  datatype Frame = Frame(node: nat, idx: nat)

  predicate FramesIn(stack: seq<Frame>, n: nat)
  {
    forall k | 0 <= k < |stack| :: stack[k].node < n
  }

  /** The entries the walks start from: each root with index 0. */
  function Pend(roots: seq<nat>): (s: seq<Frame>)
    ensures |s| == |roots| && forall k | 0 <= k < |roots| :: s[k] == Frame(roots[k], 0)
  {
    seq(|roots|, k requires 0 <= k < |roots| => Frame(roots[k], 0))
  }

  function Nodes(frames: seq<Frame>): (r: seq<nat>)
    ensures |r| == |frames| && forall k | 0 <= k < |frames| :: r[k] == frames[k].node
  {
    seq(|frames|, k requires 0 <= k < |frames| => frames[k].node)
  }

  /** How many more pops the entry of gate `g` at index `i` costs, itself included. */
  ghost function Budget(post: seq<seq<nat>>, rank: seq<nat>, g: nat, i: nat): nat
    requires Ranked(post, rank) && g < |post|
    decreases rank[g], |post[g]| - i
  {
    if i >= |post[g]| then 1 else 1 + Budget(post, rank, post[g][i], 0) + Budget(post, rank, g, i + 1)
  }

  /** What is left to pop of the whole stack. */
  ghost function Weight(post: seq<seq<nat>>, rank: seq<nat>, stack: seq<Frame>): nat
    requires Ranked(post, rank) && FramesIn(stack, |post|)
  {
    if stack == [] then 0
    else Weight(post, rank, stack[..|stack| - 1]) + Budget(post, rank, stack[|stack| - 1].node, stack[|stack| - 1].idx)
  }

  lemma WeightSnoc(post: seq<seq<nat>>, rank: seq<nat>, stack: seq<Frame>, f: Frame)
    requires Ranked(post, rank) && FramesIn(stack, |post|) && f.node < |post|
    ensures FramesIn(stack + [f], |post|)
    ensures Weight(post, rank, stack + [f]) == Weight(post, rank, stack) + Budget(post, rank, f.node, f.idx)
  {
    assert (stack + [f])[..|stack|] == stack;
  }

  /**
   * Popping the entry of `g` at index `i < |post[g]|` and pushing the entry
   * at `i + 1` and the successor's entry at 0 leaves less to pop.
   */
  lemma Descend(post: seq<seq<nat>>, rank: seq<nat>, rest: seq<Frame>, g: nat, i: nat)
    requires Ranked(post, rank) && FramesIn(rest, |post|) && g < |post| && i < |post[g]|
    ensures FramesIn(rest + [Frame(g, i + 1)] + [Frame(post[g][i], 0)], |post|)
    ensures Weight(post, rank, rest + [Frame(g, i + 1)] + [Frame(post[g][i], 0)]) < Weight(post, rank, rest + [Frame(g, i)])
  {
    WeightSnoc(post, rank, rest, Frame(g, i));
    WeightSnoc(post, rank, rest, Frame(g, i + 1));
    WeightSnoc(post, rank, rest + [Frame(g, i + 1)], Frame(post[g][i], 0));
  }

  /**
   * The open entries of a walk, bottom to top: each entry's last successor
   * taken is the next entry's gate, so the ranks fall strictly upwards.
   */
  predicate Chain(post: seq<seq<nat>>, rank: seq<nat>, open: seq<Frame>)
  {
    |rank| == |post|
    && (forall k | 0 <= k < |open| :: open[k].node < |post| && 1 <= open[k].idx <= |post[open[k].node]|)
    && (forall k | 0 <= k < |open| - 1 :: Linked(post, open, k))
    && (forall j, k | 0 <= j < k < |open| :: rank[open[k].node] < rank[open[j].node])
  }

  /** Entry `k + 1` is the successor entry `k` took last. */
  predicate Linked(post: seq<seq<nat>>, open: seq<Frame>, k: nat)
  {
    k + 1 < |open| && open[k].node < |post| && 1 <= open[k].idx <= |post[open[k].node]|
    && open[k + 1].node == post[open[k].node][open[k].idx - 1]
  }

  /** The successor the top open entry has just pushed. */
  predicate Above(post: seq<seq<nat>>, open: seq<Frame>, c: nat)
  {
    open != [] && open[|open| - 1].node < |post| && 1 <= open[|open| - 1].idx <= |post[open[|open| - 1].node]|
    && c == post[open[|open| - 1].node][open[|open| - 1].idx - 1]
  }

  /** A gate pushed above the open entries is below all of them in rank, so it is none of them. */
  lemma AboveFresh(post: seq<seq<nat>>, rank: seq<nat>, open: seq<Frame>, c: nat)
    requires Ranked(post, rank) && Chain(post, rank, open) && Above(post, open, c)
    ensures c < |post| && forall k | 0 <= k < |open| :: rank[c] < rank[open[k].node]
    ensures c !in Nodes(open)
  {
  }

  /** Opening the entry of `c` pushed above the open ones keeps the chain. */
  lemma ChainOpen(post: seq<seq<nat>>, rank: seq<nat>, open: seq<Frame>, c: nat)
    requires Ranked(post, rank) && Chain(post, rank, open) && (open == [] || Above(post, open, c))
    requires c < |post| && |post[c]| > 0
    ensures Chain(post, rank, open + [Frame(c, 1)])
  {
    var o := open + [Frame(c, 1)];
    if open != [] {
      AboveFresh(post, rank, open, c);
    }
    assert forall k | 0 <= k < |open| :: o[k] == open[k];
    forall k | 0 <= k < |o| - 1 ensures Linked(post, o, k) {
      if k < |open| - 1 { assert Linked(post, open, k); }
    }
  }

  /** Moving the top open entry on to its next successor keeps the chain. */
  lemma ChainNext(post: seq<seq<nat>>, rank: seq<nat>, open: seq<Frame>)
    requires Chain(post, rank, open) && open != []
    requires open[|open| - 1].idx < |post[open[|open| - 1].node]|
    ensures Chain(post, rank, open[..|open| - 1] + [Frame(open[|open| - 1].node, open[|open| - 1].idx + 1)])
  {
    var last := open[|open| - 1];
    var o := open[..|open| - 1] + [Frame(last.node, last.idx + 1)];
    assert forall k | 0 <= k < |open| - 1 :: o[k] == open[k];
    assert forall k | 0 <= k < |open| :: o[k].node == open[k].node;
    forall k | 0 <= k < |o| - 1 ensures Linked(post, o, k) {
      assert Linked(post, open, k);
    }
  }

  /** Dropping the top open entry keeps the chain. */
  lemma ChainPrefix(post: seq<seq<nat>>, rank: seq<nat>, open: seq<Frame>)
    requires Chain(post, rank, open) && open != []
    ensures Chain(post, rank, open[..|open| - 1])
  {
    var o := open[..|open| - 1];
    assert forall k | 0 <= k < |o| :: o[k] == open[k];
    forall k | 0 <= k < |o| - 1 ensures Linked(post, o, k) {
      assert Linked(post, open, k);
    }
  }

  /**
   * A gate on the open chain other than the top one reaches the successor
   * the top one has just pushed by a walk through the top one.
   */
  lemma ChainDetour(post: seq<seq<nat>>, rank: seq<nat>, open: seq<Frame>, j: nat, t: nat)
    requires Chain(post, rank, open) && j < |open| - 1 && Above(post, open, t)
    ensures Detour(post, Nodes(open)[j..] + [t], open[j].node, t)
  {
    var p := Nodes(open)[j..] + [t];
    forall k | 0 <= k < |p| - 1 ensures Step(post, p, k) {
      assert p[k] == open[j + k].node;
      if k < |p| - 2 {
        assert p[k + 1] == open[j + k + 1].node;
        assert Linked(post, open, j + k);
      }
    }
  }

  /* ------------------------------------------------------------------ */
  /* dag_prune                                                           */
  /* ------------------------------------------------------------------ */

  /** `s.remove(x)`: the first occurrence of `x` goes. */
  function RemoveFirst(s: seq<nat>, x: nat): (r: seq<nat>)
    requires x in s
    ensures multiset(r) == multiset(s) - multiset{x}
  {
    assert s == [s[0]] + s[1..];
    if s[0] == x then s[1..] else [s[0]] + RemoveFirst(s[1..], x)
  }

  /** `[x for x in s if x not in d]`. */
  function Without(s: seq<nat>, d: set<nat>): (r: seq<nat>)
    ensures forall x :: x in r <==> x in s && x !in d
    ensures |r| <= |s|
  {
    if s == [] then []
    else Without(s[..|s| - 1], d) + (if s[|s| - 1] in d then [] else [s[|s| - 1]])
  }

  /**
   * What the prune has done so far: `removed[t]` holds the entries taken out
   * of `pre[t]`, `x` was taken out of `pre[t]` exactly when `t` was put in
   * `x`'s discard set, and every discarded edge is implied by a longer chain.
   */
  ghost predicate Pruned(pre0: seq<seq<nat>>, post: seq<seq<nat>>, pre: seq<seq<nat>>, discard: seq<set<nat>>, removed: seq<multiset<nat>>)
  {
    var n := |post|;
    Edges(pre, n) && |pre0| == n && |discard| == n && |removed| == n
    && (forall t | 0 <= t < n :: multiset(pre[t]) + removed[t] == multiset(pre0[t]))
    && (forall x, t | 0 <= x < n && 0 <= t < n :: x in removed[t] <==> t in discard[x])
    && (forall x, t | 0 <= x < n && t in discard[x] :: t < n && Implied(post, x, t))
  }

  /** The discard sets once each gate of `marked` has had `gate` added to its own. */
  function Marked(discard: seq<set<nat>>, marked: set<nat>, gate: nat): (r: seq<set<nat>>)
    ensures |r| == |discard| && forall y | 0 <= y < |discard| :: r[y] == if y in marked then discard[y] + {gate} else discard[y]
  {
    seq(|discard|, y requires 0 <= y < |discard| => if y in marked then discard[y] + {gate} else discard[y])
  }

  /**
   * The state of the inner loop of the prune: the gates of `done` have gone
   * once each from `gate`'s predecessors and have `gate` in their discard
   * sets, and those of `rest` are still among `gate`'s predecessors.
   */
  ghost predicate Dropping(pre0: seq<seq<nat>>, discard0: seq<set<nat>>, pre: seq<seq<nat>>, discard: seq<set<nat>>,
                           gate: nat, done: set<nat>, rest: set<nat>)
  {
    gate < |pre0| && done !! rest
    && |pre| == |pre0| && pre == pre0[gate := pre[gate]]
    && multiset(pre[gate]) + multiset(done) == multiset(pre0[gate])
    && (forall y | y in rest :: y in pre[gate])
    && discard == Marked(discard0, done, gate)
  }

  /** One round of the inner loop: `x` goes once from `gate`'s predecessors and gets `gate` in its discard set. */
  method DropOne(ghost pre0: seq<seq<nat>>, ghost discard0: seq<set<nat>>, pre: seq<seq<nat>>, discard: seq<set<nat>>,
                 gate: nat, ghost done: set<nat>, ghost rest: set<nat>, x: nat)
    returns (pre': seq<seq<nat>>, discard': seq<set<nat>>)
    requires Dropping(pre0, discard0, pre, discard, gate, done, rest) && x in rest && x < |discard|
    ensures Dropping(pre0, discard0, pre', discard', gate, done + {x}, rest - {x})
  {
    var cut := RemoveFirst(pre[gate], x);
    forall y | y in rest - {x} ensures y in cut {
      assert multiset(cut)[y] == multiset(pre[gate])[y] > 0;
    }
    assert multiset(done + {x}) == multiset(done) + multiset{x};
    discard' := discard[x := discard[x] + {gate}];
    pre' := pre[gate := cut];
    assert discard' == Marked(discard0, done + {x}, gate);
  }

  /**
   * The inner loop of the prune, for successor `gate` and the redundant
   * predecessors: each gets `gate` in its discard set and is removed once from
   * `gate`'s predecessors; nothing else changes.
   */
  method DropRedundant(pre: seq<seq<nat>>, discard: seq<set<nat>>, gate: nat, redundant: set<nat>)
    returns (pre': seq<seq<nat>>, discard': seq<set<nat>>)
    requires gate < |pre| == |discard|
    requires forall x | x in redundant :: x < |pre| && x in pre[gate]
    ensures |pre'| == |pre| && |discard'| == |discard|
    ensures forall t | 0 <= t < |pre| && t != gate :: pre'[t] == pre[t]
    ensures multiset(pre'[gate]) + multiset(redundant) == multiset(pre[gate])
    ensures forall x | 0 <= x < |pre| :: discard'[x] == if x in redundant then discard[x] + {gate} else discard[x]
  {
    pre', discard' := pre, discard;
    var rest := redundant;
    ghost var done: set<nat> := {};
    assert discard == Marked(discard, {}, gate);
    while rest != {}
      invariant Dropping(pre, discard, pre', discard', gate, done, rest)
      invariant done + rest == redundant
      decreases rest
    {
      var x :| x in rest;
      pre', discard' := DropOne(pre, discard, pre', discard', gate, done, rest, x);
      done := done + {x};
      rest := rest - {x};
    }
  }

  /**
   * The stack of the prune's walk: the roots not yet started, each with
   * index 0, then the open entries, then at most one entry just pushed; the
   * seen set holds the gates of the open entries, the path the walk is on.
   */
  ghost predicate Walking(post: seq<seq<nat>>, rank: seq<nat>, roots: seq<nat>, stack: seq<Frame>, seen: set<nat>,
                          m: nat, open: seq<Frame>, tops: seq<Frame>)
  {
    Ranked(post, rank) && Within(roots, |post|) && m <= |roots|
    && Chain(post, rank, open)
    && |tops| <= 1 && (tops != [] ==> tops[0].idx == 0 && tops[0].node < |post| && (open == [] || Above(post, open, tops[0].node)))
    && stack == Pend(roots[..m]) + open + tops
    && FramesIn(stack, |post|)
    && seen == set k | 0 <= k < |open| :: open[k].node
  }

  /** Every redundant predecessor the walk finds is on the path above, so its edge is implied. */
  lemma RedundantImplied(post: seq<seq<nat>>, rank: seq<nat>, open: seq<Frame>, gate: nat, redundant: set<nat>)
    requires Ranked(post, rank) && Chain(post, rank, open) && Above(post, open, gate)
    requires redundant <= (set k | 0 <= k < |open| :: open[k].node) - {open[|open| - 1].node}
    ensures forall x | x in redundant :: Implied(post, x, gate)
  {
    forall x | x in redundant ensures Implied(post, x, gate) {
      var j :| 0 <= j < |open| && open[j].node == x;
      ChainDetour(post, rank, open, j, gate);
    }
  }

  /** Removing all of `redundant` from `gate`'s predecessors keeps the record of the prune. */
  lemma PrunedDrop(pre0: seq<seq<nat>>, post: seq<seq<nat>>, pre: seq<seq<nat>>, discard: seq<set<nat>>, removed: seq<multiset<nat>>,
                   gate: nat, redundant: set<nat>, pre': seq<seq<nat>>, discard': seq<set<nat>>)
    requires Pruned(pre0, post, pre, discard, removed) && gate < |post|
    requires forall x | x in redundant :: x < |post| && x in pre[gate] && Implied(post, x, gate)
    requires |pre'| == |pre| && |discard'| == |discard|
    requires forall t | 0 <= t < |pre| && t != gate :: pre'[t] == pre[t]
    requires multiset(pre'[gate]) + multiset(redundant) == multiset(pre[gate])
    requires forall x | 0 <= x < |pre| :: discard'[x] == if x in redundant then discard[x] + {gate} else discard[x]
    ensures Pruned(pre0, post, pre', discard', removed[gate := removed[gate] + multiset(redundant)])
  {
    var n := |post|;
    var removed' := removed[gate := removed[gate] + multiset(redundant)];
    forall t | 0 <= t < n ensures Within(pre'[t], n) {
      if t == gate {
        forall k | 0 <= k < |pre'[gate]| ensures pre'[gate][k] < n {
          assert pre'[gate][k] in multiset(pre[gate]);
        }
      }
    }
    assert forall t | 0 <= t < n :: multiset(pre'[t]) + removed'[t] == multiset(pre0[t]);
  }

  /** With nothing just pushed and no open entry, the top of the stack is the last root not yet started. */
  lemma WalkRoot(post: seq<seq<nat>>, rank: seq<nat>, roots: seq<nat>, stack: seq<Frame>, seen: set<nat>, m: nat)
    requires stack != [] && Walking(post, rank, roots, stack, seen, m, [], [])
    ensures m > 0 && Walking(post, rank, roots, stack, seen, m - 1, [], [Frame(roots[m - 1], 0)])
  {
    assert roots[..m] == roots[..m - 1] + [roots[m - 1]];
  }

  /** The top of the stack: the entry just pushed if there is one, else the top open entry. */
  lemma WalkTop(post: seq<seq<nat>>, rank: seq<nat>, roots: seq<nat>, stack: seq<Frame>, seen: set<nat>,
                m: nat, open: seq<Frame>, tops: seq<Frame>)
    requires Walking(post, rank, roots, stack, seen, m, open, tops) && (tops != [] || open != [])
    ensures stack != [] && stack[|stack| - 1] == if tops != [] then tops[0] else open[|open| - 1]
    ensures stack[..|stack| - 1] == Pend(roots[..m]) + if tops != [] then open else open[..|open| - 1]
  {
    if tops == [] {
      assert stack == Pend(roots[..m]) + open[..|open| - 1] + [open[|open| - 1]];
    }
  }

  /** The entry just pushed names a gate with no successor: it leaves at once. */
  lemma WalkLeaf(post: seq<seq<nat>>, rank: seq<nat>, roots: seq<nat>, stack: seq<Frame>, seen: set<nat>,
                 m: nat, open: seq<Frame>, c: nat)
    requires Walking(post, rank, roots, stack, seen, m, open, [Frame(c, 0)]) && |post[c]| == 0
    ensures Walking(post, rank, roots, stack[..|stack| - 1], seen + {c} - {c}, m, open, [])
  {
    if open != [] { AboveFresh(post, rank, open, c); }
    assert stack[..|stack| - 1] == Pend(roots[..m]) + open;
  }

  /** The top open entry has no successor left: its gate leaves the path. */
  lemma WalkClose(post: seq<seq<nat>>, rank: seq<nat>, roots: seq<nat>, stack: seq<Frame>, seen: set<nat>,
                  m: nat, open: seq<Frame>)
    requires Walking(post, rank, roots, stack, seen, m, open, []) && open != []
    requires open[|open| - 1].idx >= |post[open[|open| - 1].node]|
    ensures Walking(post, rank, roots, stack[..|stack| - 1], seen - {open[|open| - 1].node}, m, open[..|open| - 1], [])
  {
    var o := open[..|open| - 1];
    ChainPrefix(post, rank, open);
    assert stack[..|stack| - 1] == Pend(roots[..m]) + o;
    assert forall k | 0 <= k < |o| :: o[k] == open[k];
  }

  /** The entry just pushed names a gate with successors: it opens, and its first successor is pushed. */
  lemma WalkOpen(post: seq<seq<nat>>, rank: seq<nat>, roots: seq<nat>, stack: seq<Frame>, seen: set<nat>,
                 m: nat, open: seq<Frame>, tops: seq<Frame>, curr: nat, i: nat)
    requires Walking(post, rank, roots, stack, seen, m, open, tops) && tops != []
    requires stack[|stack| - 1] == Frame(curr, i) && i < |post[curr]|
    ensures Walking(post, rank, roots, stack[..|stack| - 1] + [Frame(curr, i + 1)] + [Frame(post[curr][i], 0)],
                    if i == 0 then seen + {curr} else seen, m, open + [Frame(curr, 1)], [Frame(post[curr][i], 0)])
  {
    PushedTop(Pend(roots[..m]) + open, tops, stack, curr, i);
    WalkOpenFirst(post, rank, roots, stack, seen, m, open, curr);
  }

  /** The top of a stack that ends with the entry just pushed, which has index 0. */
  lemma PushedTop(below: seq<Frame>, tops: seq<Frame>, stack: seq<Frame>, curr: nat, i: nat)
    requires stack == below + tops && |tops| == 1 && tops[0].idx == 0 && stack[|stack| - 1] == Frame(curr, i)
    ensures i == 0 && tops == [Frame(curr, 0)]
  {
    assert stack[|stack| - 1] == tops[0];
  }

  /** `WalkOpen` for the entry `curr` just pushed, at index 0. */
  lemma WalkOpenFirst(post: seq<seq<nat>>, rank: seq<nat>, roots: seq<nat>, stack: seq<Frame>, seen: set<nat>,
                      m: nat, open: seq<Frame>, curr: nat)
    requires Walking(post, rank, roots, stack, seen, m, open, [Frame(curr, 0)]) && 0 < |post[curr]|
    ensures Walking(post, rank, roots, stack[..|stack| - 1] + [Frame(curr, 1)] + [Frame(post[curr][0], 0)],
                    seen + {curr}, m, open + [Frame(curr, 1)], [Frame(post[curr][0], 0)])
  {
    ChainOpen(post, rank, open, curr);
    var o := open + [Frame(curr, 1)];
    var c := post[curr][0];
    assert Above(post, o, c);
    OpenStack(Pend(roots[..m]), open, stack, curr, c);
    NodeSetSnoc(open, Frame(curr, 1));
    FramesStep(stack, curr, c, |post|);
  }

  /** The stack once the entry just pushed opens and its first successor is pushed. */
  lemma OpenStack(pend: seq<Frame>, open: seq<Frame>, stack: seq<Frame>, curr: nat, c: nat)
    requires stack == pend + open + [Frame(curr, 0)]
    ensures stack[..|stack| - 1] + [Frame(curr, 1)] + [Frame(c, 0)] == pend + (open + [Frame(curr, 1)]) + [Frame(c, 0)]
  {
    assert stack[..|stack| - 1] == pend + open;
  }

  /** Replacing the top entry by one of the same gate and pushing an entry of a gate in range. */
  lemma FramesStep(stack: seq<Frame>, node: nat, c: nat, n: nat)
    requires FramesIn(stack, n) && stack != [] && stack[|stack| - 1].node == node && c < n
    ensures forall i :: FramesIn(stack[..|stack| - 1] + [Frame(node, i)] + [Frame(c, 0)], n)
  {
    forall i ensures FramesIn(stack[..|stack| - 1] + [Frame(node, i)] + [Frame(c, 0)], n) {
      var st := stack[..|stack| - 1] + [Frame(node, i)] + [Frame(c, 0)];
      assert forall k | 0 <= k < |stack| - 1 :: st[k] == stack[k];
    }
  }

  /** The gates of the open entries once one more is opened. */
  lemma NodeSetSnoc(open: seq<Frame>, f: Frame)
    ensures (set k | 0 <= k < |open + [f]| :: (open + [f])[k].node) == (set k | 0 <= k < |open| :: open[k].node) + {f.node}
  {
    var o := open + [f];
    assert forall k | 0 <= k < |open| :: o[k] == open[k];
    assert o[|open|] == f;
  }

  /** The top open entry has a successor left: it moves on, and that successor is pushed. */
  lemma WalkNext(post: seq<seq<nat>>, rank: seq<nat>, roots: seq<nat>, stack: seq<Frame>, seen: set<nat>,
                 m: nat, open: seq<Frame>, tops: seq<Frame>, curr: nat, i: nat)
    requires Walking(post, rank, roots, stack, seen, m, open, tops) && tops == [] && open != []
    requires stack[|stack| - 1] == Frame(curr, i) && i < |post[curr]|
    ensures Walking(post, rank, roots, stack[..|stack| - 1] + [Frame(curr, i + 1)] + [Frame(post[curr][i], 0)],
                    if i == 0 then seen + {curr} else seen, m, open[..|open| - 1] + [Frame(curr, i + 1)], [Frame(post[curr][i], 0)])
  {
    WalkTop(post, rank, roots, stack, seen, m, open, tops);
    assert i != 0;
    ChainNext(post, rank, open);
    var o := open[..|open| - 1] + [Frame(curr, i + 1)];
    assert stack[..|stack| - 1] + [Frame(curr, i + 1)] + [Frame(post[curr][i], 0)] == Pend(roots[..m]) + o + [Frame(post[curr][i], 0)];
    assert forall k | 0 <= k < |o| :: o[k].node == open[k].node;
    assert (set k | 0 <= k < |o| :: o[k].node) == seen;
  }

  /** The popped entry of `curr` at `i` has no successor left: `curr` leaves the path. */
  lemma WalkLeave(post: seq<seq<nat>>, rank: seq<nat>, roots: seq<nat>, stack: seq<Frame>, seen: set<nat>,
                  m: nat, open: seq<Frame>, tops: seq<Frame>, curr: nat, i: nat) returns (open': seq<Frame>)
    requires Walking(post, rank, roots, stack, seen, m, open, tops) && (tops != [] || open != [])
    requires stack[|stack| - 1] == Frame(curr, i) && i >= |post[curr]|
    ensures Walking(post, rank, roots, stack[..|stack| - 1], (if i == 0 then seen + {curr} else seen) - {curr}, m, open', [])
  {
    WalkTop(post, rank, roots, stack, seen, m, open, tops);
    if tops != [] {
      WalkLeaf(post, rank, roots, stack, seen, m, open, curr);
      open' := open;
    } else {
      WalkClose(post, rank, roots, stack, seen, m, open);
      open' := open[..|open| - 1];
    }
  }

  /** The popped entry of `curr` at `i` has a successor left: `curr` is on the path and pushes it. */
  lemma WalkDescend(post: seq<seq<nat>>, rank: seq<nat>, roots: seq<nat>, stack: seq<Frame>, seen: set<nat>,
                    m: nat, open: seq<Frame>, tops: seq<Frame>, curr: nat, i: nat) returns (open': seq<Frame>)
    requires Walking(post, rank, roots, stack, seen, m, open, tops) && (tops != [] || open != [])
    requires stack[|stack| - 1] == Frame(curr, i) && i < |post[curr]|
    ensures Walking(post, rank, roots, stack[..|stack| - 1] + [Frame(curr, i + 1)] + [Frame(post[curr][i], 0)],
                    if i == 0 then seen + {curr} else seen, m, open', [Frame(post[curr][i], 0)])
    ensures open' != [] && open'[|open'| - 1].node == curr
  {
    if tops != [] {
      WalkOpen(post, rank, roots, stack, seen, m, open, tops, curr, i);
      open' := open + [Frame(curr, 1)];
    } else {
      WalkNext(post, rank, roots, stack, seen, m, open, tops, curr, i);
      open' := open[..|open| - 1] + [Frame(curr, i + 1)];
    }
  }

  /**
   * The body of the prune's loop once the top gate `curr` of the path has
   * pushed its successor `gate`: `gate`'s predecessors on the path, other
   * than `curr`, lose their edge to it.
   */
  method PruneAt(post: seq<seq<nat>>, ghost rank: seq<nat>, ghost pre0: seq<seq<nat>>, pre: seq<seq<nat>>,
                 discard: seq<set<nat>>, ghost removed: seq<multiset<nat>>, ghost open: seq<Frame>, seen: set<nat>, curr: nat, gate: nat)
    returns (pre': seq<seq<nat>>, discard': seq<set<nat>>, ghost removed': seq<multiset<nat>>)
    requires Ranked(post, rank) && Chain(post, rank, open) && Above(post, open, gate) && curr == open[|open| - 1].node
    requires seen == set k | 0 <= k < |open| :: open[k].node
    requires Pruned(pre0, post, pre, discard, removed)
    ensures Pruned(pre0, post, pre', discard', removed')
  {
    var redundant := (set x | x in pre[gate]) * seen - {curr};
    RedundantImplied(post, rank, open, gate, redundant);
    pre', discard' := DropRedundant(pre, discard, gate, redundant);
    PrunedDrop(pre0, post, pre, discard, removed, gate, redundant, pre', discard');
    removed' := removed[gate := removed[gate] + multiset(redundant)];
  }

  /**
   * One pass of the prune's loop: pop an entry; a gate with no successor
   * left leaves the path; otherwise its next successor's predecessors that
   * are on the path above it lose their edge to it, and the successor is
   * pushed.
   */
  method PruneStep(post: seq<seq<nat>>, ghost rank: seq<nat>, ghost roots: seq<nat>, ghost pre0: seq<seq<nat>>,
                   stack: seq<Frame>, seen: set<nat>, pre: seq<seq<nat>>, discard: seq<set<nat>>,
                   ghost removed: seq<multiset<nat>>, ghost m: nat, ghost open: seq<Frame>, ghost tops: seq<Frame>)
    returns (stack': seq<Frame>, seen': set<nat>, pre': seq<seq<nat>>, discard': seq<set<nat>>,
             ghost removed': seq<multiset<nat>>, ghost m': nat, ghost open': seq<Frame>, ghost tops': seq<Frame>)
    requires Walking(post, rank, roots, stack, seen, m, open, tops) && (tops != [] || open != [])
    requires Pruned(pre0, post, pre, discard, removed)
    ensures Walking(post, rank, roots, stack', seen', m', open', tops') && Pruned(pre0, post, pre', discard', removed')
    ensures Weight(post, rank, stack') < Weight(post, rank, stack)
  {
    m' := m;
    var curr, i := stack[|stack| - 1].node, stack[|stack| - 1].idx;
    var rest := stack[..|stack| - 1];
    assert stack == rest + [Frame(curr, i)];
    WeightSnoc(post, rank, rest, Frame(curr, i));
    seen' := seen;
    if i == 0 {
      seen' := seen' + {curr};
    }
    if i >= |post[curr]| {
      seen' := seen' - {curr};
      stack', pre', discard', removed' := rest, pre, discard, removed;
      open' := WalkLeave(post, rank, roots, stack, seen, m, open, tops, curr, i);
      tops' := [];
      return;
    }
    var gate := post[curr][i];
    stack' := rest + [Frame(curr, i + 1)] + [Frame(gate, 0)];
    open' := WalkDescend(post, rank, roots, stack, seen, m, open, tops, curr, i);
    tops' := [Frame(gate, 0)];
    pre', discard', removed' := PruneAt(post, rank, pre0, pre, discard, removed, open', seen', curr, gate);
    Descend(post, rank, rest, curr, i);
  }

  /** The walk of `dag_prune`, from the roots: what it leaves of the predecessor lists and the discard sets. */
  method PruneWalk(roots: seq<nat>, pre: seq<seq<nat>>, post: seq<seq<nat>>, ghost rank: seq<nat>)
    returns (pre': seq<seq<nat>>, discard: seq<set<nat>>, ghost removed: seq<multiset<nat>>)
    requires Ranked(post, rank) && Edges(pre, |post|) && Within(roots, |post|)
    ensures Pruned(pre, post, pre', discard, removed)
  {
    discard := seq(|post|, _ => {});
    var seen: set<nat> := {};
    var stack := Pend(roots);
    pre' := pre;
    removed := seq(|post|, _ => multiset{});
    ghost var m: nat, open: seq<Frame>, tops: seq<Frame> := |roots|, [], [];
    assert roots[..|roots|] == roots;
    while stack != []
      invariant Walking(post, rank, roots, stack, seen, m, open, tops)
      invariant Pruned(pre, post, pre', discard, removed)
      decreases Weight(post, rank, stack)
    {
      if tops == [] && open == [] {
        WalkRoot(post, rank, roots, stack, seen, m);
        m, tops := m - 1, [Frame(roots[m - 1], 0)];
      }
      stack, seen, pre', discard, removed, m, open, tops := PruneStep(post, rank, roots, pre, stack, seen, pre', discard, removed, m, open, tops);
    }
  }

  /**
   * `dag_prune`: a depth-first walk from the roots that, on each edge from
   * `curr` to `gate`, drops every other predecessor of `gate` that is on the
   * path to `curr`, then filters each successor list by its discard set.
   * Only edges implied by a longer chain go; `x` leaves `pre[t]` once
   * exactly when `t` is in `x`'s discard set, and `post[x]` keeps its order.
   */
  method DagPrune(roots: seq<nat>, pre: seq<seq<nat>>, post: seq<seq<nat>>, ghost rank: seq<nat>)
    returns (pre': seq<seq<nat>>, post': seq<seq<nat>>, ghost discard: seq<set<nat>>, ghost removed: seq<multiset<nat>>)
    requires Ranked(post, rank) && Edges(pre, |post|) && Within(roots, |post|)
    ensures Edges(pre', |post|) && |post'| == |post| && |discard| == |post| && |removed| == |post|
    ensures forall g | 0 <= g < |post| :: post'[g] == Without(post[g], discard[g])
    ensures forall t | 0 <= t < |post| :: multiset(pre'[t]) + removed[t] == multiset(pre[t])
    ensures forall x, t | 0 <= x < |post| && 0 <= t < |post| :: x in removed[t] <==> t in discard[x]
    ensures forall x, t | 0 <= x < |post| && t in discard[x] :: t < |post| && Implied(post, x, t)
  {
    var disc;
    pre', disc, removed := PruneWalk(roots, pre, post, rank);
    post' := [];
    for g := 0 to |post|
      invariant |post'| == g && forall h | 0 <= h < g :: post'[h] == Without(post[h], disc[h])
    {
      post' := post' + [Without(post[g], disc[g])];
    }
    discard := disc;
  }

  /** `pre` and `post` mirror each other: `x` precedes `t` exactly when `t` succeeds `x`. */
  predicate Mirrored(pre: seq<seq<nat>>, post: seq<seq<nat>>)
  {
    |pre| == |post| && forall x, t | 0 <= x < |post| && 0 <= t < |post| :: x in pre[t] <==> t in post[x]
  }

  lemma {:induction false} NoDupCount(s: seq<nat>, x: nat)
    requires NoDup(s)
    ensures multiset(s)[x] <= 1
  {
    if s != [] {
      var t := s[1..];
      assert s == [s[0]] + t;
      assert NoDup(t) by {
        forall j, k | 0 <= j < k < |t| ensures t[j] != t[k] { assert t[j] == s[j + 1] && t[k] == s[k + 1]; }
      }
      NoDupCount(t, x);
      if s[0] == x {
        assert x !in t by {
          forall k | 0 <= k < |t| ensures t[k] != x { assert t[k] == s[k + 1]; }
        }
      }
    }
  }

  /**
   * When no predecessor list names a gate twice, the prune keeps the two
   * lists mirroring each other: the edge taken out of `pre[t]` is the one
   * filtered out of `post[x]`.
   */
  lemma PruneKeepsMirror(pre: seq<seq<nat>>, post: seq<seq<nat>>, pre': seq<seq<nat>>, post': seq<seq<nat>>,
                         discard: seq<set<nat>>, removed: seq<multiset<nat>>)
    requires Mirrored(pre, post) && forall t | 0 <= t < |pre| :: NoDup(pre[t])
    requires |pre'| == |post'| == |post| && |discard| == |post| && |removed| == |post|
    requires forall g | 0 <= g < |post| :: post'[g] == Without(post[g], discard[g])
    requires forall t | 0 <= t < |post| :: multiset(pre'[t]) + removed[t] == multiset(pre[t])
    requires forall x, t | 0 <= x < |post| && 0 <= t < |post| :: x in removed[t] <==> t in discard[x]
    ensures Mirrored(pre', post')
  {
    forall x, t | 0 <= x < |post| && 0 <= t < |post| ensures x in pre'[t] <==> t in post'[x] {
      NoDupCount(pre[t], x);
      assert multiset(pre'[t])[x] + removed[t][x] == multiset(pre[t])[x];
    }
  }

  /* ------------------------------------------------------------------ */
  /* topological_sort                                                    */
  /* ------------------------------------------------------------------ */

  /**
   * The list so far: each gate once, after all of its successors, and each
   * reachable from the roots; `seen` is the set of its gates.
   */
  ghost predicate Sorted(post: seq<seq<nat>>, roots: seq<nat>, seen: set<nat>, order: seq<nat>)
  {
    Within(order, |post|) && NoDup(order) && seen == (set k | 0 <= k < |order| :: order[k])
    && (forall i, j | 0 <= i < |order| && 0 <= j < |post[order[i]]| :: post[order[i]][j] in order[..i])
    && (forall i | 0 <= i < |order| :: Reachable(post, roots, order[i]))
  }

  /** A gate whose successors are all listed joins the list. */
  lemma SortedAdd(post: seq<seq<nat>>, roots: seq<nat>, seen: set<nat>, order: seq<nat>, x: nat)
    requires Edges(post, |post|) && Sorted(post, roots, seen, order) && x < |post| && x !in seen
    requires forall j | 0 <= j < |post[x]| :: post[x][j] in seen
    requires Reachable(post, roots, x)
    ensures Sorted(post, roots, seen + {x}, order + [x])
  {
    var o := order + [x];
    assert forall i | 0 <= i < |order| :: o[..i] == order[..i];
    assert o[..|order|] == order;
    assert forall i | 0 <= i < |order| :: o[i] == order[i];
    assert o[|order|] == x;
    forall y ensures y in (set k | 0 <= k < |o| :: o[k]) <==> y in seen + {x} {
      if y in seen + {x} && y != x {
        var k :| 0 <= k < |order| && order[k] == y;
        assert o[k] == y;
      }
    }
  }

  /** The shape of a walk's stack: the open entries, then at most one entry just pushed. */
  ghost predicate Framed(post: seq<seq<nat>>, rank: seq<nat>, stack: seq<Frame>, open: seq<Frame>, tops: seq<Frame>)
  {
    Ranked(post, rank) && Chain(post, rank, open)
    && |tops| <= 1 && (tops != [] ==> tops[0].idx == 0 && tops[0].node < |post| && (open == [] || Above(post, open, tops[0].node)))
    && stack == open + tops
    && FramesIn(stack, |post|)
  }

  /**
   * What the sort's walk still owes: no open gate is listed yet but all are
   * reachable; the successors of an open entry before its last one are
   * listed, and so is its last one once nothing is above it.
   */
  ghost predicate Waiting(post: seq<seq<nat>>, rank: seq<nat>, roots: seq<nat>, seen: set<nat>, open: seq<Frame>, tops: seq<Frame>)
  {
    Chain(post, rank, open)
    && (forall k | 0 <= k < |open| :: open[k].node !in seen && Reachable(post, roots, open[k].node))
    && (forall k, j | 0 <= k < |open| && 0 <= j < open[k].idx - 1 :: post[open[k].node][j] in seen)
    && (tops == [] && open != [] ==> post[open[|open| - 1].node][open[|open| - 1].idx - 1] in seen)
    && (tops != [] ==> Reachable(post, roots, tops[0].node))
  }

  /** The state of the sort's walk from `root`, which is listed, just pushed, or the bottom open entry. */
  ghost predicate Sorting(post: seq<seq<nat>>, rank: seq<nat>, roots: seq<nat>, root: nat, stack: seq<Frame>,
                          seen: set<nat>, order: seq<nat>, open: seq<Frame>, tops: seq<Frame>)
  {
    Framed(post, rank, stack, open, tops) && Sorted(post, roots, seen, order) && Waiting(post, rank, roots, seen, open, tops)
    && (root in seen || (open == [] && tops == [Frame(root, 0)]) || (open != [] && open[0].node == root))
  }

  /** The top of a walk's stack: the entry just pushed if there is one, else the top open entry. */
  lemma FramedTop(post: seq<seq<nat>>, rank: seq<nat>, stack: seq<Frame>, open: seq<Frame>, tops: seq<Frame>)
    requires Framed(post, rank, stack, open, tops) && stack != []
    ensures stack[|stack| - 1] == if tops != [] then tops[0] else open[|open| - 1]
    ensures stack[..|stack| - 1] == if tops != [] then open else open[..|open| - 1]
  {
    if tops == [] {
      assert stack == open[..|open| - 1] + [open[|open| - 1]];
    }
  }

  /** Popping an entry that pushes nothing. */
  lemma FramedPop(post: seq<seq<nat>>, rank: seq<nat>, stack: seq<Frame>, open: seq<Frame>, tops: seq<Frame>)
    requires Framed(post, rank, stack, open, tops) && stack != []
    ensures Framed(post, rank, stack[..|stack| - 1], if tops != [] then open else open[..|open| - 1], [])
  {
    var rest := stack[..|stack| - 1];
    if tops != [] {
      assert rest == open;
      assert FramesIn(rest, |post|);
    } else {
      var o := open[..|open| - 1];
      assert rest == o;
      assert forall k | 0 <= k < |o| :: o[k] == open[k];
      ChainPrefix(post, rank, open);
      assert FramesIn(rest, |post|);
    }
  }

  /** Opening the entry just pushed, whose gate has successors, and pushing its first successor. */
  lemma FramedOpen(post: seq<seq<nat>>, rank: seq<nat>, stack: seq<Frame>, open: seq<Frame>, node: nat)
    requires Framed(post, rank, stack, open, [Frame(node, 0)]) && |post[node]| > 0
    ensures Framed(post, rank, open + [Frame(node, 1)] + [Frame(post[node][0], 0)], open + [Frame(node, 1)], [Frame(post[node][0], 0)])
  {
    ChainOpen(post, rank, open, node);
    var o := open + [Frame(node, 1)];
    var st := o + [Frame(post[node][0], 0)];
    assert forall k | 0 <= k < |open| :: st[k] == stack[k];
    assert FramesIn(st, |post|);
  }

  /** Moving the top open entry on to its next successor and pushing that successor. */
  lemma FramedNext(post: seq<seq<nat>>, rank: seq<nat>, stack: seq<Frame>, open: seq<Frame>, node: nat, ci: nat)
    requires Framed(post, rank, stack, open, []) && open != [] && open[|open| - 1] == Frame(node, ci) && ci < |post[node]|
    ensures Framed(post, rank, open[..|open| - 1] + [Frame(node, ci + 1)] + [Frame(post[node][ci], 0)],
                   open[..|open| - 1] + [Frame(node, ci + 1)], [Frame(post[node][ci], 0)])
  {
    ChainNext(post, rank, open);
    var o := open[..|open| - 1] + [Frame(node, ci + 1)];
    var st := o + [Frame(post[node][ci], 0)];
    assert forall k | 0 <= k < |open| - 1 :: st[k] == stack[k];
    assert FramesIn(st, |post|);
  }

  /** Dropping the entry of a listed gate owes nothing new. */
  lemma WaitingSkip(post: seq<seq<nat>>, rank: seq<nat>, roots: seq<nat>, seen: set<nat>, open: seq<Frame>, node: nat)
    requires Waiting(post, rank, roots, seen, open, [Frame(node, 0)]) && (open == [] || Above(post, open, node)) && node in seen
    ensures Waiting(post, rank, roots, seen, open, [])
  {
  }

  /** Listing the gate of the entry just pushed, which has no successor. */
  lemma WaitingLeaf(post: seq<seq<nat>>, rank: seq<nat>, roots: seq<nat>, seen: set<nat>, open: seq<Frame>, node: nat)
    requires Ranked(post, rank) && Waiting(post, rank, roots, seen, open, [Frame(node, 0)]) && (open == [] || Above(post, open, node))
    ensures Waiting(post, rank, roots, seen + {node}, open, [])
  {
    if open != [] { AboveFresh(post, rank, open, node); }
  }

  /** Listing the gate of the top open entry, which has no successor left. */
  lemma WaitingClose(post: seq<seq<nat>>, rank: seq<nat>, roots: seq<nat>, seen: set<nat>, open: seq<Frame>, node: nat)
    requires Waiting(post, rank, roots, seen, open, []) && open != [] && open[|open| - 1].node == node
    requires open[|open| - 1].idx >= |post[node]|
    ensures forall j | 0 <= j < |post[node]| :: post[node][j] in seen
    ensures Waiting(post, rank, roots, seen + {node}, open[..|open| - 1], [])
  {
    var o := open[..|open| - 1];
    ChainPrefix(post, rank, open);
    assert forall k | 0 <= k < |o| :: o[k] == open[k];
    assert forall k | 0 <= k < |o| :: o[k].node != open[|open| - 1].node;
    if o != [] {
      assert Linked(post, open, |o| - 1);
    }
  }

  /** Opening the gate just pushed, or moving the top open one on, and pushing the successor. */
  lemma WaitingPush(post: seq<seq<nat>>, rank: seq<nat>, roots: seq<nat>, seen: set<nat>, open: seq<Frame>, tops: seq<Frame>,
                    node: nat, ci: nat, open': seq<Frame>)
    requires Ranked(post, rank) && Waiting(post, rank, roots, seen, open, tops) && node < |post| && ci < |post[node]|
    requires tops != [] ==> tops == [Frame(node, 0)] && ci == 0 && node !in seen && open' == open + [Frame(node, 1)]
    requires tops == [] ==> open != [] && open[|open| - 1] == Frame(node, ci) && open' == open[..|open| - 1] + [Frame(node, ci + 1)]
    requires Chain(post, rank, open')
    ensures Waiting(post, rank, roots, seen, open', [Frame(post[node][ci], 0)])
  {
    assert Reachable(post, roots, node) by {
      if tops == [] { assert open[|open| - 1].node == node; }
    }
    var p :| Route(post, roots, p, node);
    RouteStep(post, roots, p, node, post[node][ci]);
    if tops != [] {
      assert forall k | 0 <= k < |open| :: open'[k] == open[k];
    } else {
      assert forall k | 0 <= k < |open| - 1 :: open'[k] == open[k];
    }
  }

  /** The entry just pushed names a listed gate: it is dropped. */
  lemma SortSkip(post: seq<seq<nat>>, rank: seq<nat>, roots: seq<nat>, root: nat, stack: seq<Frame>,
                 seen: set<nat>, order: seq<nat>, open: seq<Frame>, tops: seq<Frame>, node: nat)
    requires Sorting(post, rank, roots, root, stack, seen, order, open, tops)
    requires stack != [] && stack[|stack| - 1] == Frame(node, 0) && node in seen
    ensures tops == [Frame(node, 0)]
    ensures Sorting(post, rank, roots, root, stack[..|stack| - 1], seen, order, open, [])
  {
    FramedFresh(post, rank, stack, open, tops, node);
    FramedPop(post, rank, stack, open, tops);
    WaitingSkip(post, rank, roots, seen, open, node);
  }

  /** An entry with index 0 on top of the stack is the one just pushed. */
  lemma FramedFresh(post: seq<seq<nat>>, rank: seq<nat>, stack: seq<Frame>, open: seq<Frame>, tops: seq<Frame>, node: nat)
    requires Framed(post, rank, stack, open, tops) && stack != [] && stack[|stack| - 1] == Frame(node, 0)
    ensures tops == [Frame(node, 0)] && (open == [] || Above(post, open, node))
  {
    FramedTop(post, rank, stack, open, tops);
  }

  /** The entry just pushed names an unlisted gate with no successor: it is listed. */
  lemma SortLeaf(post: seq<seq<nat>>, rank: seq<nat>, roots: seq<nat>, root: nat, stack: seq<Frame>,
                 seen: set<nat>, order: seq<nat>, open: seq<Frame>, node: nat)
    requires Sorting(post, rank, roots, root, stack, seen, order, open, [Frame(node, 0)])
    requires node !in seen && |post[node]| == 0
    ensures Sorting(post, rank, roots, root, stack[..|stack| - 1], seen + {node}, order + [node], open, [])
  {
    WaitingLeaf(post, rank, roots, seen, open, node);
    assert Reachable(post, roots, node);
    SortedAdd(post, roots, seen, order, node);
    assert root in seen + {node} || (open != [] && open[0].node == root);
  }

  /** The top open entry has no successor left: its gate is listed. */
  lemma SortClose(post: seq<seq<nat>>, rank: seq<nat>, roots: seq<nat>, root: nat, stack: seq<Frame>,
                  seen: set<nat>, order: seq<nat>, open: seq<Frame>, node: nat)
    requires Sorting(post, rank, roots, root, stack, seen, order, open, [])
    requires open != [] && open[|open| - 1].node == node && open[|open| - 1].idx >= |post[node]|
    ensures Sorting(post, rank, roots, root, stack[..|stack| - 1], seen + {node}, order + [node], open[..|open| - 1], [])
  {
    FramedPop(post, rank, stack, open, []);
    WaitingClose(post, rank, roots, seen, open, node);
    SortedAdd(post, roots, seen, order, node);
  }

  /** The entry just pushed names an unlisted gate with successors: it opens and pushes the first. */
  lemma SortOpen(post: seq<seq<nat>>, rank: seq<nat>, roots: seq<nat>, root: nat, stack: seq<Frame>,
                 seen: set<nat>, order: seq<nat>, open: seq<Frame>, node: nat)
    requires Sorting(post, rank, roots, root, stack, seen, order, open, [Frame(node, 0)])
    requires node !in seen && |post[node]| > 0
    ensures Sorting(post, rank, roots, root, open + [Frame(node, 1)] + [Frame(post[node][0], 0)], seen, order,
                    open + [Frame(node, 1)], [Frame(post[node][0], 0)])
  {
    FramedOpen(post, rank, stack, open, node);
    WaitingPush(post, rank, roots, seen, open, [Frame(node, 0)], node, 0, open + [Frame(node, 1)]);
  }

  /** The top open entry moves on and pushes its next successor. */
  lemma SortNext(post: seq<seq<nat>>, rank: seq<nat>, roots: seq<nat>, root: nat, stack: seq<Frame>,
                 seen: set<nat>, order: seq<nat>, open: seq<Frame>, node: nat, ci: nat)
    requires Sorting(post, rank, roots, root, stack, seen, order, open, [])
    requires open != [] && open[|open| - 1] == Frame(node, ci) && ci < |post[node]|
    ensures Sorting(post, rank, roots, root, open[..|open| - 1] + [Frame(node, ci + 1)] + [Frame(post[node][ci], 0)], seen, order,
                    open[..|open| - 1] + [Frame(node, ci + 1)], [Frame(post[node][ci], 0)])
  {
    FramedNext(post, rank, stack, open, node, ci);
    WaitingPush(post, rank, roots, seen, open, [], node, ci, open[..|open| - 1] + [Frame(node, ci + 1)]);
  }

  /** A pass of the sort's inner loop that lists the gate of the top entry, which has no successor left. */
  method SortList(post: seq<seq<nat>>, ghost rank: seq<nat>, ghost roots: seq<nat>, ghost root: nat, stack: seq<Frame>,
                  seen: set<nat>, order: seq<nat>, ghost open: seq<Frame>, ghost tops: seq<Frame>)
    returns (ghost open': seq<Frame>)
    requires stack != [] && Sorting(post, rank, roots, root, stack, seen, order, open, tops)
    requires !(stack[|stack| - 1].idx == 0 && stack[|stack| - 1].node in seen)
    requires stack[|stack| - 1].idx >= |post[stack[|stack| - 1].node]|
    ensures var node := stack[|stack| - 1].node;
      Sorting(post, rank, roots, root, stack[..|stack| - 1], seen + {node}, order + [node], open', [])
  {
    FramedTop(post, rank, stack, open, tops);
    var node := stack[|stack| - 1].node;
    if tops != [] {
      SortLeaf(post, rank, roots, root, stack, seen, order, open, node);
      open' := open;
    } else {
      SortClose(post, rank, roots, root, stack, seen, order, open, node);
      open' := open[..|open| - 1];
    }
  }

  /** A pass of the sort's inner loop that moves the top entry on and pushes its next successor. */
  method SortPush(post: seq<seq<nat>>, ghost rank: seq<nat>, ghost roots: seq<nat>, ghost root: nat, stack: seq<Frame>,
                  seen: set<nat>, order: seq<nat>, ghost open: seq<Frame>, ghost tops: seq<Frame>)
    returns (stack': seq<Frame>, ghost open': seq<Frame>)
    requires stack != [] && Sorting(post, rank, roots, root, stack, seen, order, open, tops)
    requires var f := stack[|stack| - 1]; !(f.idx == 0 && f.node in seen) && f.idx < |post[f.node]|
    ensures var f := stack[|stack| - 1];
      stack' == stack[..|stack| - 1] + [Frame(f.node, f.idx + 1)] + [Frame(post[f.node][f.idx], 0)]
      && Sorting(post, rank, roots, root, stack', seen, order, open', [Frame(post[f.node][f.idx], 0)])
  {
    FramedTop(post, rank, stack, open, tops);
    var node, ci := stack[|stack| - 1].node, stack[|stack| - 1].idx;
    stack' := stack[..|stack| - 1] + [Frame(node, ci + 1)] + [Frame(post[node][ci], 0)];
    if tops != [] {
      SortOpen(post, rank, roots, root, stack, seen, order, open, node);
      open' := open + [Frame(node, 1)];
    } else {
      SortNext(post, rank, roots, root, stack, seen, order, open, node, ci);
      open' := open[..|open| - 1] + [Frame(node, ci + 1)];
    }
  }

  /** One pass of the sort's inner loop. */
  method SortStep(post: seq<seq<nat>>, ghost rank: seq<nat>, ghost roots: seq<nat>, ghost root: nat, stack: seq<Frame>,
                  seen: set<nat>, order: seq<nat>, ghost open: seq<Frame>, ghost tops: seq<Frame>)
    returns (stack': seq<Frame>, seen': set<nat>, order': seq<nat>, ghost open': seq<Frame>, ghost tops': seq<Frame>)
    requires stack != [] && Sorting(post, rank, roots, root, stack, seen, order, open, tops)
    ensures Sorting(post, rank, roots, root, stack', seen', order', open', tops') && seen <= seen'
    ensures Weight(post, rank, stack') < Weight(post, rank, stack)
  {
    var node, ci := stack[|stack| - 1].node, stack[|stack| - 1].idx;
    var rest := stack[..|stack| - 1];
    assert stack == rest + [Frame(node, ci)];
    WeightSnoc(post, rank, rest, Frame(node, ci));
    if ci == 0 && node in seen {
      SortSkip(post, rank, roots, root, stack, seen, order, open, tops, node);
      stack', seen', order', open', tops' := rest, seen, order, open, [];
    } else if ci >= |post[node]| {
      open' := SortList(post, rank, roots, root, stack, seen, order, open, tops);
      stack', seen', order', tops' := rest, seen + {node}, order + [node], [];
    } else {
      Descend(post, rank, rest, node, ci);
      stack', open' := SortPush(post, rank, roots, root, stack, seen, order, open, tops);
      seen', order', tops' := seen, order, [Frame(post[node][ci], 0)];
    }
  }

  /** A one-gate route: every root is reachable. */
  lemma RootReachable(post: seq<seq<nat>>, roots: seq<nat>, i: nat)
    requires i < |roots|
    ensures Reachable(post, roots, roots[i])
  {
    assert Route(post, roots, [roots[i]], roots[i]);
  }

  /** The inner loop of `topological_sort`: the walk from one root not yet listed. */
  method SortFrom(post: seq<seq<nat>>, ghost rank: seq<nat>, ghost roots: seq<nat>, root: nat, seen: set<nat>, order: seq<nat>)
    returns (seen': set<nat>, order': seq<nat>)
    requires Ranked(post, rank) && root < |post| && root !in seen && Reachable(post, roots, root)
    requires Sorted(post, roots, seen, order)
    ensures Sorted(post, roots, seen', order') && seen <= seen' && root in seen'
  {
    var stack := [Frame(root, 0)];
    seen', order' := seen, order;
    ghost var open: seq<Frame>, tops: seq<Frame> := [], [Frame(root, 0)];
    while stack != []
      invariant Sorting(post, rank, roots, root, stack, seen', order', open, tops) && seen <= seen'
      decreases Weight(post, rank, stack)
    {
      stack, seen', order', open, tops := SortStep(post, rank, roots, root, stack, seen', order', open, tops);
    }
  }

  /**
   * `topological_sort`: every gate reachable from the roots, each once, each
   * after all of its successors.
   */
  method TopologicalSort(roots: seq<nat>, post: seq<seq<nat>>, ghost rank: seq<nat>) returns (order: seq<nat>)
    requires Ranked(post, rank) && Within(roots, |post|)
    ensures Within(order, |post|) && NoDup(order)
    ensures forall i, j | 0 <= i < |order| && 0 <= j < |post[order[i]]| :: post[order[i]][j] in order[..i]
    ensures forall x :: x in order <==> Reachable(post, roots, x)
  {
    var seen: set<nat> := {};
    order := [];
    for i := 0 to |roots|
      invariant Sorted(post, roots, seen, order)
      invariant forall k | 0 <= k < i :: roots[k] in seen
    {
      if roots[i] !in seen {
        RootReachable(post, roots, i);
        seen, order := SortFrom(post, rank, roots, roots[i], seen, order);
      }
    }
    SortComplete(post, rank, roots, seen, order);
  }

  /**
   * A list made as the sort makes it, holding every root, holds every
   * reachable gate: each step of a route leads from a listed gate to one of
   * its successors, which were listed before it.
   */
  lemma SortComplete(post: seq<seq<nat>>, rank: seq<nat>, roots: seq<nat>, seen: set<nat>, order: seq<nat>)
    requires Ranked(post, rank) && Sorted(post, roots, seen, order)
    requires forall k | 0 <= k < |roots| :: roots[k] in seen
    ensures forall x :: x in order <==> Reachable(post, roots, x)
  {
    forall x | Reachable(post, roots, x) ensures x in order {
      var p :| Route(post, roots, p, x);
      RouteListed(post, roots, seen, order, p);
    }
  }

  lemma {:induction false} RouteListed(post: seq<seq<nat>>, roots: seq<nat>, seen: set<nat>, order: seq<nat>, p: seq<nat>)
    requires Sorted(post, roots, seen, order) && forall k | 0 <= k < |roots| :: roots[k] in seen
    requires |p| >= 1 && p[0] in roots && Walk(post, p)
    ensures p[|p| - 1] in order
  {
    if |p| > 1 {
      var q := p[..|p| - 1];
      forall k | 0 <= k < |q| - 1 ensures Step(post, q, k) {
        assert Step(post, p, k);
      }
      RouteListed(post, roots, seen, order, q);
      ListedStep(post, roots, seen, order, p[|p| - 2], p[|p| - 1]) by {
        assert Step(post, p, |p| - 2);
      }
    }
  }

  /** A successor of a listed gate is listed. */
  lemma ListedStep(post: seq<seq<nat>>, roots: seq<nat>, seen: set<nat>, order: seq<nat>, g: nat, x: nat)
    requires Sorted(post, roots, seen, order) && g in order && g < |post| && x in post[g]
    ensures x in order
  {
    var i :| 0 <= i < |order| && order[i] == g;
    var j :| 0 <= j < |post[g]| && post[g][j] == x;
    assert post[order[i]][j] in order[..i];
  }
}
