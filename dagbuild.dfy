/**
 * `dag_create` and `parse_weights` on gate indices: the consumption
 * schedule is read into predecessor and successor lists, which are then
 * pruned; the schedule weights are propagated from the leaves up.
 *
 * A schedule entry `{targ: pre}` is an `Entry`; an entry dictionary with
 * several keys is the same as consecutive one-key entries, so a layer is a
 * sequence of entries.
 */
module DagBuild {
  import opened Wrappers
  import opened Dags

  datatype Entry = Entry(targ: nat, pre: seq<nat>)

  datatype Graph = Graph(pre: seq<seq<nat>>, post: seq<seq<nat>>)

  /** The entries of all layers, in the order `dag_create` reads them. */
  function Flatten(schedule: seq<seq<Entry>>): seq<Entry>
  {
    if schedule == [] then [] else Flatten(schedule[..|schedule| - 1]) + schedule[|schedule| - 1]
  }

  /** Every index the entries name is one of the `n` gates. */
  predicate EntriesIn(es: seq<Entry>, n: nat)
  {
    forall i | 0 <= i < |es| :: es[i].targ < n && Within(es[i].pre, n)
  }

  /** The gates a layer lists. */
  function Targets(layer: seq<Entry>): (r: seq<nat>)
    ensures |r| == |layer| && forall i | 0 <= i < |layer| :: r[i] == layer[i].targ
  {
    seq(|layer|, i requires 0 <= i < |layer| => layer[i].targ)
  }

  /** What the entries append to `pre[t]`: the predecessor lists of the entries for `t`, in order. */
  function PreOf(es: seq<Entry>, t: nat): seq<nat>
  {
    if es == [] then []
    else PreOf(es[..|es| - 1], t) + (if es[|es| - 1].targ == t then es[|es| - 1].pre else [])
  }

  /** `t` once for every occurrence of `x` in `qs`. */
  function Hits(qs: seq<nat>, x: nat, t: nat): (r: seq<nat>)
    ensures forall y | y in r :: y == t
  {
    if qs == [] then [] else Hits(qs[..|qs| - 1], x, t) + (if qs[|qs| - 1] == x then [t] else [])
  }

  /** What the entries append to `post[x]`: the target of each entry, once per time it names `x`. */
  function PostOf(es: seq<Entry>, x: nat): seq<nat>
  {
    if es == [] then [] else PostOf(es[..|es| - 1], x) + Hits(es[|es| - 1].pre, x, es[|es| - 1].targ)
  }

  /** The graph the entries make from `g0`. */
  ghost predicate Built(g0: Graph, es: seq<Entry>, g: Graph)
  {
    |g.pre| == |g0.pre| && |g.post| == |g0.post|
    && (forall t | 0 <= t < |g0.pre| :: g.pre[t] == g0.pre[t] + PreOf(es, t))
    && (forall x | 0 <= x < |g0.post| :: g.post[x] == g0.post[x] + PostOf(es, x))
  }

  /* ------------------------------------------------------------------ */
  /* dag_create                                                          */
  /* ------------------------------------------------------------------ */

  /**
   * The innermost loop of `dag_create`: each predecessor `q` of the entry
   * goes on `pre[targ]`, and `targ` on `post[q]`; a `q` out of range raises.
   */
  method AddEntry(g0: Graph, e: Entry) returns (r: Option<Graph>)
    requires |g0.pre| == |g0.post| && e.targ < |g0.pre|
    ensures r.None? <==> !Within(e.pre, |g0.pre|)
    ensures r.Some? ==> Built(g0, [e], r.value)
  {
    var n := |g0.pre|;
    var pre: seq<seq<nat>>, post: seq<seq<nat>> := g0.pre, g0.post;
    for k := 0 to |e.pre|
      invariant Added(g0, e, k, pre, post)
    {
      var q := e.pre[k];
      if q >= n {
        return None;
      }
      AddedStep(g0, e, k, pre, post);
      pre := pre[e.targ := pre[e.targ] + [q]];
      post := post[q := post[q] + [e.targ]];
    }
    AddedAll(g0, e, pre, post);
    r := Some(Graph(pre, post));
  }

  /** The graph once the first `k` predecessors of the entry are recorded. */
  ghost predicate Added(g0: Graph, e: Entry, k: nat, pre: seq<seq<nat>>, post: seq<seq<nat>>)
  {
    var n := |g0.pre|;
    k <= |e.pre| && |g0.post| == n && |pre| == n && |post| == n && Within(e.pre[..k], n)
    && (forall t | 0 <= t < n :: pre[t] == g0.pre[t] + (if t == e.targ then e.pre[..k] else []))
    && (forall x | 0 <= x < n :: post[x] == g0.post[x] + Hits(e.pre[..k], x, e.targ))
  }

  /** Recording one more predecessor in range. */
  lemma AddedStep(g0: Graph, e: Entry, k: nat, pre: seq<seq<nat>>, post: seq<seq<nat>>)
    requires Added(g0, e, k, pre, post) && k < |e.pre| && e.pre[k] < |g0.pre| && e.targ < |g0.pre|
    ensures Added(g0, e, k + 1, pre[e.targ := pre[e.targ] + [e.pre[k]]], post[e.pre[k] := post[e.pre[k]] + [e.targ]])
  {
    assert e.pre[..k + 1] == e.pre[..k] + [e.pre[k]];
  }

  /** Every predecessor recorded: the graph the one entry builds. */
  lemma AddedAll(g0: Graph, e: Entry, pre: seq<seq<nat>>, post: seq<seq<nat>>)
    requires |g0.pre| == |g0.post| && Added(g0, e, |e.pre|, pre, post)
    ensures Within(e.pre, |g0.pre|) && Built(g0, [e], Graph(pre, post))
  {
    assert e.pre[..|e.pre|] == e.pre;
    assert [e][..0] == [];
  }

  /** Entries read after `es` extend what `es` made. */
  lemma BuiltSnoc(g0: Graph, es: seq<Entry>, g: Graph, e: Entry, h: Graph)
    requires Built(g0, es, g) && Built(g, [e], h)
    ensures Built(g0, es + [e], h)
  {
    var s := es + [e];
    assert s[..|s| - 1] == es;
    assert [e][..0] == [];
    forall t | 0 <= t < |g0.pre| ensures h.pre[t] == g0.pre[t] + PreOf(s, t) {
      assert PreOf(s, t) == PreOf(es, t) + PreOf([e], t);
    }
    forall x | 0 <= x < |g0.post| ensures h.post[x] == g0.post[x] + PostOf(s, x) {
      assert PostOf(s, x) == PostOf(es, x) + PostOf([e], x);
    }
  }

  /** One layer of `dag_create`: the layer's gates, and its entries read into the graph. */
  method AddLayer(g0: Graph, layer: seq<Entry>) returns (r: Option<(seq<nat>, Graph)>)
    requires |g0.pre| == |g0.post|
    ensures r.None? <==> !EntriesIn(layer, |g0.pre|)
    ensures r.Some? ==> r.value.0 == Targets(layer) && Built(g0, layer, r.value.1)
  {
    var n := |g0.pre|;
    var g := g0;
    var targets := [];
    for i := 0 to |layer|
      invariant EntriesIn(layer[..i], n) && targets == Targets(layer[..i])
      invariant Built(g0, layer[..i], g)
    {
      assert layer[..i + 1] == layer[..i] + [layer[i]];
      if layer[i].targ >= n {
        return None;
      }
      targets := targets + [layer[i].targ];
      var step := AddEntry(g, layer[i]);
      if step.None? {
        return None;
      }
      BuiltSnoc(g0, layer[..i], g, layer[i], step.value);
      g := step.value;
    }
    assert layer[..|layer|] == layer;
    r := Some((targets, g));
  }

  /**
   * The reading loop of `dag_create`: one list of gates per layer, and the
   * graph with every entry's edges added; an index out of range raises.
   */
  method ReadSchedule(schedule: seq<seq<Entry>>, g0: Graph) returns (r: Option<(seq<seq<nat>>, Graph)>)
    requires |g0.pre| == |g0.post|
    ensures r.None? <==> !EntriesIn(Flatten(schedule), |g0.pre|)
    ensures r.Some? ==> |r.value.0| == |schedule| && (forall l | 0 <= l < |schedule| :: r.value.0[l] == Targets(schedule[l]))
    ensures r.Some? ==> Built(g0, Flatten(schedule), r.value.1)
  {
    var n := |g0.pre|;
    var g := g0;
    var layers := [];
    for l := 0 to |schedule|
      invariant EntriesIn(Flatten(schedule[..l]), n) && Built(g0, Flatten(schedule[..l]), g)
      invariant |layers| == l && forall m | 0 <= m < l :: layers[m] == Targets(schedule[m])
    {
      assert schedule[..l + 1][..l] == schedule[..l];
      assert Flatten(schedule[..l + 1]) == Flatten(schedule[..l]) + schedule[l];
      var step := AddLayer(g, schedule[l]);
      if step.None? {
        LayerOutOfRange(schedule, l, n);
        return None;
      }
      BuiltJoin(g0, Flatten(schedule[..l]), g, schedule[l], step.value.1);
      EntriesSplit(Flatten(schedule[..l]), schedule[l], n);
      layers := layers + [step.value.0];
      g := step.value.1;
    }
    assert schedule[..|schedule|] == schedule;
    r := Some((layers, g));
  }

  /** Entries are in range exactly when both halves are. */
  lemma EntriesSplit(a: seq<Entry>, b: seq<Entry>, n: nat)
    ensures EntriesIn(a + b, n) <==> EntriesIn(a, n) && EntriesIn(b, n)
  {
    var s := a + b;
    if EntriesIn(a, n) && EntriesIn(b, n) {
      forall i | 0 <= i < |s| ensures s[i].targ < n && Within(s[i].pre, n) {
        if i >= |a| { assert s[i] == b[i - |a|]; }
      }
    }
    if EntriesIn(s, n) {
      forall i | 0 <= i < |a| ensures a[i].targ < n && Within(a[i].pre, n) {
        assert s[i] == a[i];
      }
      forall i | 0 <= i < |b| ensures b[i].targ < n && Within(b[i].pre, n) {
        assert s[|a| + i] == b[i];
      }
    }
  }

  /** Flattening distributes over the concatenation of schedules. */
  lemma {:induction false} FlattenJoin(a: seq<seq<Entry>>, b: seq<seq<Entry>>)
    ensures Flatten(a + b) == Flatten(a) + Flatten(b)
    decreases |b|
  {
    if b == [] {
      assert a + b == a;
    } else {
      var b' := b[..|b| - 1];
      assert (a + b)[..|a + b| - 1] == a + b';
      FlattenJoin(a, b');
    }
  }

  /** A layer with an index out of range puts one in the whole schedule. */
  lemma LayerOutOfRange(schedule: seq<seq<Entry>>, l: nat, n: nat)
    requires l < |schedule| && !EntriesIn(schedule[l], n)
    ensures !EntriesIn(Flatten(schedule), n)
  {
    assert schedule == schedule[..l] + [schedule[l]] + schedule[l + 1..];
    FlattenJoin(schedule[..l] + [schedule[l]], schedule[l + 1..]);
    FlattenJoin(schedule[..l], [schedule[l]]);
    assert Flatten([schedule[l]]) == schedule[l] by {
      assert [schedule[l]][..0] == [];
    }
    EntriesSplit(Flatten(schedule[..l] + [schedule[l]]), Flatten(schedule[l + 1..]), n);
    EntriesSplit(Flatten(schedule[..l]), schedule[l], n);
  }

  /** The edges a layer adds after the earlier entries. */
  lemma {:induction false} BuiltJoin(g0: Graph, es: seq<Entry>, g: Graph, layer: seq<Entry>, h: Graph)
    requires Built(g0, es, g) && Built(g, layer, h)
    ensures Built(g0, es + layer, h)
    decreases |layer|
  {
    forall t | 0 <= t < |g0.pre| ensures h.pre[t] == g0.pre[t] + PreOf(es + layer, t) {
      PreOfJoin(es, layer, t);
    }
    forall x | 0 <= x < |g0.post| ensures h.post[x] == g0.post[x] + PostOf(es + layer, x) {
      PostOfJoin(es, layer, x);
    }
  }

  lemma {:induction false} PreOfJoin(a: seq<Entry>, b: seq<Entry>, t: nat)
    ensures PreOf(a + b, t) == PreOf(a, t) + PreOf(b, t)
    decreases |b|
  {
    if b == [] {
      assert a + b == a;
    } else {
      var b', e := b[..|b| - 1], b[|b| - 1];
      assert (a + b)[..|a + b| - 1] == a + b' && (a + b)[|a + b| - 1] == e;
      PreOfJoin(a, b', t);
    }
  }

  lemma {:induction false} PostOfJoin(a: seq<Entry>, b: seq<Entry>, x: nat)
    ensures PostOf(a + b, x) == PostOf(a, x) + PostOf(b, x)
    decreases |b|
  {
    if b == [] {
      assert a + b == a;
    } else {
      var b', e := b[..|b| - 1], b[|b| - 1];
      assert (a + b)[..|a + b| - 1] == a + b' && (a + b)[|a + b| - 1] == e;
      assert PostOf(a + b, x) == PostOf(a + b', x) + Hits(e.pre, x, e.targ);
      assert PostOf(b, x) == PostOf(b', x) + Hits(e.pre, x, e.targ);
      PostOfJoin(a, b', x);
    }
  }

  /** Each time `qs` names `x`, its hits name `t` once. */
  lemma {:induction false} HitsCount(qs: seq<nat>, x: nat, t: nat)
    ensures multiset(Hits(qs, x, t))[t] == multiset(qs)[x]
  {
    if qs != [] {
      var q := qs[..|qs| - 1];
      assert qs == q + [qs[|qs| - 1]];
      HitsCount(q, x, t);
    }
  }

  /** Hits name nothing but `t`. */
  lemma {:induction false} HitsOther(qs: seq<nat>, x: nat, t: nat, u: nat)
    requires u != t
    ensures multiset(Hits(qs, x, t))[u] == 0
  {
    assert u !in Hits(qs, x, t);
  }

  /**
   * The entries add `x` to `pre[t]` exactly as often as they add `t` to
   * `post[x]`: every edge is recorded at both ends.
   */
  lemma {:induction false} MirrorCount(es: seq<Entry>, t: nat, x: nat)
    ensures multiset(PreOf(es, t))[x] == multiset(PostOf(es, x))[t]
    decreases |es|
  {
    if es != [] {
      var e := es[|es| - 1];
      MirrorCount(es[..|es| - 1], t, x);
      if e.targ == t {
        HitsCount(e.pre, x, t);
      } else {
        HitsOther(e.pre, x, e.targ, t);
      }
    }
  }

  /** Every gate the entries add to `post[x]` is the target of an entry that names `x`. */
  lemma {:induction false} PostOfSource(es: seq<Entry>, x: nat, t: nat)
    requires t in PostOf(es, x)
    ensures exists i | 0 <= i < |es| :: es[i].targ == t && x in es[i].pre
    decreases |es|
  {
    var e := es[|es| - 1];
    var es' := es[..|es| - 1];
    if t in PostOf(es', x) {
      PostOfSource(es', x, t);
      var i :| 0 <= i < |es'| && es'[i].targ == t && x in es'[i].pre;
      assert es[i] == es'[i];
    } else {
      assert t in Hits(e.pre, x, e.targ);
      HitsSource(e.pre, x, e.targ);
      assert es[|es| - 1] == e;
    }
  }

  /** A hit comes from an occurrence. */
  lemma {:induction false} HitsSource(qs: seq<nat>, x: nat, t: nat)
    requires Hits(qs, x, t) != []
    ensures x in qs
  {
    var q := qs[..|qs| - 1];
    if qs[|qs| - 1] != x {
      HitsSource(q, x, t);
      assert x in q;
    }
  }

  /** Every gate the entries add to `pre[t]` is named by an entry for `t`. */
  lemma {:induction false} PreOfSource(es: seq<Entry>, t: nat, x: nat)
    requires x in PreOf(es, t)
    ensures exists i | 0 <= i < |es| :: es[i].targ == t && x in es[i].pre
    decreases |es|
  {
    var e := es[|es| - 1];
    var es' := es[..|es| - 1];
    if x in PreOf(es', t) {
      PreOfSource(es', t, x);
      var i :| 0 <= i < |es'| && es'[i].targ == t && x in es'[i].pre;
      assert es[i] == es'[i];
    } else {
      assert es[|es| - 1] == e;
    }
  }

  /** The schedule's dependencies respect `rank`: each predecessor outranks its target. */
  predicate EntriesRanked(es: seq<Entry>, rank: seq<nat>)
  {
    forall i, k | 0 <= i < |es| && 0 <= k < |es[i].pre| :: es[i].targ < |rank| && es[i].pre[k] < |rank| ==> rank[es[i].targ] < rank[es[i].pre[k]]
  }

  /** The graph the entries build from a ranked one stays ranked and in range. */
  lemma BuiltRanked(g0: Graph, es: seq<Entry>, g: Graph, rank: seq<nat>)
    requires Built(g0, es, g) && |g0.pre| == |g0.post| && Edges(g0.pre, |g0.pre|) && Ranked(g0.post, rank)
    requires EntriesIn(es, |g0.pre|) && EntriesRanked(es, rank)
    ensures Edges(g.pre, |g.post|) && Ranked(g.post, rank)
  {
    var n := |g0.pre|;
    forall t, k | 0 <= t < n && 0 <= k < |g.pre[t]| ensures g.pre[t][k] < n {
      if k >= |g0.pre[t]| {
        var x := g.pre[t][k];
        assert x in PreOf(es, t);
        PreOfSource(es, t, x);
      }
    }
    forall x, k | 0 <= x < n && 0 <= k < |g.post[x]| ensures g.post[x][k] < n && rank[g.post[x][k]] < rank[x] {
      if k >= |g0.post[x]| {
        var t := g.post[x][k];
        assert t in PostOf(es, x);
        PostOfSource(es, x, t);
        var i :| 0 <= i < |es| && es[i].targ == t && x in es[i].pre;
        var j :| 0 <= j < |es[i].pre| && es[i].pre[j] == x;
      }
    }
  }

  /**
   * `dag_create`: the schedule is read into the graph, whose edges are then
   * pruned from the first layer.  An index out of range raises, and so does
   * an empty schedule, which has no first layer.
   */
  method DagCreate(schedule: seq<seq<Entry>>, g0: Graph, ghost rank: seq<nat>)
    returns (r: Option<(seq<seq<nat>>, Graph)>, ghost built: Graph, ghost discard: seq<set<nat>>)
    requires |g0.pre| == |g0.post| && Edges(g0.pre, |g0.pre|) && Ranked(g0.post, rank)
    requires EntriesRanked(Flatten(schedule), rank)
    ensures r.None? <==> !EntriesIn(Flatten(schedule), |g0.pre|) || schedule == []
    ensures r.Some? ==> |r.value.0| == |schedule| && forall l | 0 <= l < |schedule| :: r.value.0[l] == Targets(schedule[l])
    ensures r.Some? ==> Built(g0, Flatten(schedule), built) && Ranked(built.post, rank)
    ensures r.Some? ==> forall t, x | 0 <= t < |g0.pre| && 0 <= x < |g0.pre| ::
      multiset(built.pre[t])[x] - multiset(g0.pre[t])[x] == multiset(built.post[x])[t] - multiset(g0.post[x])[t]
    ensures r.Some? ==> var n, g := |g0.pre|, r.value.1;
      |g.pre| == n && |g.post| == n && |discard| == n
      && (forall x | 0 <= x < n :: g.post[x] == Without(built.post[x], discard[x]))
      && (forall t | 0 <= t < n :: multiset(g.pre[t]) <= multiset(built.pre[t]))
      && (forall x, t | 0 <= x < n && 0 <= t < n :: multiset(built.pre[t])[x] - multiset(g.pre[t])[x] > 0 <==> t in discard[x])
      && (forall x, t | 0 <= x < n && t in discard[x] :: t < n && Implied(built.post, x, t))
  {
    var n := |g0.pre|;
    discard := [];
    built := g0;
    var read := ReadSchedule(schedule, g0);
    if read.None? {
      return None, built, discard;
    }
    var layers, g := read.value.0, read.value.1;
    built := g;
    if layers == [] {
      return None, built, discard;
    }
    BuiltRanked(g0, Flatten(schedule), g, rank);
    BuiltMirror(g0, Flatten(schedule), g);
    assert Within(layers[0], n) by {
      RootsIn(schedule, n);
    }
    var pre', post';
    ghost var removed;
    pre', post', discard, removed := DagPrune(layers[0], g.pre, g.post, rank);
    RemovedDiscard(g.pre, pre', discard, removed);
    r := Some((layers, Graph(pre', post')));
  }

  /** What a build adds to both ends of its edges is the same. */
  lemma BuiltMirror(g0: Graph, es: seq<Entry>, g: Graph)
    requires |g0.pre| == |g0.post| && Built(g0, es, g)
    ensures forall t, x | 0 <= t < |g0.pre| && 0 <= x < |g0.pre| ::
      multiset(g.pre[t])[x] - multiset(g0.pre[t])[x] == multiset(g.post[x])[t] - multiset(g0.post[x])[t]
  {
    forall t, x | 0 <= t < |g0.pre| && 0 <= x < |g0.pre|
      ensures multiset(g.pre[t])[x] - multiset(g0.pre[t])[x] == multiset(g.post[x])[t] - multiset(g0.post[x])[t]
    {
      MirrorCount(es, t, x);
    }
  }

  /** A predecessor the prune removed from `pre[t]` is one whose edge to `t` it discarded. */
  lemma RemovedDiscard(pre: seq<seq<nat>>, pre': seq<seq<nat>>, discard: seq<set<nat>>, removed: seq<multiset<nat>>)
    requires |pre'| == |pre| && |discard| == |pre| && |removed| == |pre|
    requires forall t | 0 <= t < |pre| :: multiset(pre'[t]) + removed[t] == multiset(pre[t])
    requires forall x, t | 0 <= x < |pre| && 0 <= t < |pre| :: x in removed[t] <==> t in discard[x]
    ensures forall x, t | 0 <= x < |pre| && 0 <= t < |pre| :: multiset(pre[t])[x] - multiset(pre'[t])[x] > 0 <==> t in discard[x]
  {
    forall x, t | 0 <= x < |pre| && 0 <= t < |pre|
      ensures multiset(pre[t])[x] - multiset(pre'[t])[x] > 0 <==> t in discard[x]
    {
      assert multiset(pre'[t])[x] + removed[t][x] == multiset(pre[t])[x];
    }
  }

  /** The first layer's gates are in range when every entry is. */
  lemma RootsIn(schedule: seq<seq<Entry>>, n: nat)
    requires schedule != [] && EntriesIn(Flatten(schedule), n)
    ensures Within(Targets(schedule[0]), n)
  {
    FlattenJoin([schedule[0]], schedule[1..]);
    assert [schedule[0]] + schedule[1..] == schedule;
    assert Flatten([schedule[0]]) == schedule[0] by {
      assert [schedule[0]][..0] == [];
    }
    EntriesSplit(schedule[0], Flatten(schedule[1..]), n);
  }

  /* ------------------------------------------------------------------ */
  /* parse_weights                                                       */
  /* ------------------------------------------------------------------ */

  /**
   * The schedule weight the source means a gate to get: the sum, over its
   * successors, of each successor's schedule weight plus its own weight.
   */
  ghost function ScheduleWeight(post: seq<seq<nat>>, rank: seq<nat>, weight: seq<int>, g: nat): int
    requires Ranked(post, rank) && |weight| == |post| && g < |post|
    decreases rank[g], |post[g]| + 1
  {
    Part(post, rank, weight, g, |post[g]|)
  }

  /** The sum over the first `k` successors of `g`. */
  ghost function Part(post: seq<seq<nat>>, rank: seq<nat>, weight: seq<int>, g: nat, k: nat): int
    requires Ranked(post, rank) && |weight| == |post| && g < |post| && k <= |post[g]|
    decreases rank[g], k
  {
    if k == 0 then 0
    else
      var c := post[g][k - 1];
      Part(post, rank, weight, g, k - 1) + ScheduleWeight(post, rank, weight, c) + weight[c]
  }

  /** `sum(c.schedule_weight + c.weight for c in cs)`. */
  function Total(cs: seq<nat>, sw: seq<int>, weight: seq<int>): int
    requires Within(cs, |sw|) && |weight| == |sw|
  {
    if cs == [] then 0 else Total(cs[..|cs| - 1], sw, weight) + sw[cs[|cs| - 1]] + weight[cs[|cs| - 1]]
  }

  /** Summing values that are already the successors' schedule weights gives the gate's own. */
  lemma {:induction false} TotalIsWeight(post: seq<seq<nat>>, rank: seq<nat>, weight: seq<int>, sw: seq<int>, g: nat, k: nat)
    requires Ranked(post, rank) && |weight| == |post| && |sw| == |post| && g < |post| && k <= |post[g]|
    requires forall j | 0 <= j < |post[g]| :: sw[post[g][j]] == ScheduleWeight(post, rank, weight, post[g][j])
    ensures Within(post[g][..k], |sw|) && Total(post[g][..k], sw, weight) == Part(post, rank, weight, g, k)
  {
    if k > 0 {
      assert post[g][..k][..k - 1] == post[g][..k - 1];
      TotalIsWeight(post, rank, weight, sw, g, k - 1);
    }
  }

  /** With weights that are not negative, so are the schedule weights. */
  lemma {:induction false} ScheduleWeightNonNegative(post: seq<seq<nat>>, rank: seq<nat>, weight: seq<int>, g: nat)
    requires Ranked(post, rank) && |weight| == |post| && g < |post|
    requires forall x | 0 <= x < |weight| :: weight[x] >= 0
    ensures ScheduleWeight(post, rank, weight, g) >= 0
    decreases rank[g]
  {
    PartNonNegative(post, rank, weight, g, |post[g]|);
  }

  lemma {:induction false} PartNonNegative(post: seq<seq<nat>>, rank: seq<nat>, weight: seq<int>, g: nat, k: nat)
    requires Ranked(post, rank) && |weight| == |post| && g < |post| && k <= |post[g]|
    requires forall x | 0 <= x < |weight| :: weight[x] >= 0
    ensures Part(post, rank, weight, g, k) >= 0
    decreases rank[g], k
  {
    if k > 0 {
      PartNonNegative(post, rank, weight, g, k - 1);
      ScheduleWeightNonNegative(post, rank, weight, post[g][k - 1]);
    }
  }

  /**
   * A gate outweighs each of its successors by at least that successor's
   * weight, so, with positive weights, gates earlier in the DAG get larger
   * schedule weights.
   */
  lemma {:induction false} ScheduleWeightDominates(post: seq<seq<nat>>, rank: seq<nat>, weight: seq<int>, g: nat, j: nat)
    requires Ranked(post, rank) && |weight| == |post| && g < |post| && j < |post[g]|
    requires forall x | 0 <= x < |weight| :: weight[x] >= 0
    ensures ScheduleWeight(post, rank, weight, g) >= ScheduleWeight(post, rank, weight, post[g][j]) + weight[post[g][j]]
  {
    PartGrows(post, rank, weight, g, j + 1, |post[g]|);
    PartNonNegative(post, rank, weight, g, j);
  }

  lemma {:induction false} PartGrows(post: seq<seq<nat>>, rank: seq<nat>, weight: seq<int>, g: nat, k: nat, m: nat)
    requires Ranked(post, rank) && |weight| == |post| && g < |post| && k <= m <= |post[g]|
    requires forall x | 0 <= x < |weight| :: weight[x] >= 0
    ensures Part(post, rank, weight, g, k) <= Part(post, rank, weight, g, m)
    decreases m
  {
    if k < m {
      PartGrows(post, rank, weight, g, k, m - 1);
      ScheduleWeightNonNegative(post, rank, weight, post[g][m - 1]);
    }
  }

  /**
   * `parse_weights`: the gates reachable from the first layer, in post-order,
   * each get the sum over their successors of schedule weight plus weight; a
   * leaf gets 0.  Gates not reachable keep theirs; no layers raise.
   */
  method ParseWeights(layers: seq<seq<nat>>, post: seq<seq<nat>>, weight: seq<int>, sw0: seq<int>, ghost rank: seq<nat>)
    returns (r: Option<seq<int>>)
    requires Ranked(post, rank) && |weight| == |post| && |sw0| == |post|
    requires layers != [] ==> Within(layers[0], |post|)
    ensures r.None? <==> layers == []
    ensures r.Some? ==> |r.value| == |post| && forall x | 0 <= x < |post| ::
      r.value[x] == if Reachable(post, layers[0], x) then ScheduleWeight(post, rank, weight, x) else sw0[x]
  {
    if layers == [] {
      return None;
    }
    var order := TopologicalSort(layers[0], post, rank);
    var sw := sw0;
    for i := 0 to |order|
      invariant |sw| == |post|
      invariant forall x | 0 <= x < |post| :: sw[x] == if x in order[..i] then ScheduleWeight(post, rank, weight, x) else sw0[x]
    {
      var g := order[i];
      assert order[..i + 1] == order[..i] + [g];
      assert g !in order[..i];
      forall j | 0 <= j < |post[g]| ensures sw[post[g][j]] == ScheduleWeight(post, rank, weight, post[g][j]) {
        assert post[order[i]][j] in order[..i];
      }
      if |post[g]| == 0 {
        sw := sw[g := 0];
      } else {
        TotalIsWeight(post, rank, weight, sw, g, |post[g]|);
        assert post[g][..|post[g]|] == post[g];
        sw := sw[g := Total(post[g], sw, weight)];
      }
    }
    assert order[..|order|] == order;
    r := Some(sw);
  }
}
