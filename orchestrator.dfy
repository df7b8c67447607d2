/**
 * The schedule orchestrator: the pass loop that admits queued gates the
 * strategy can allocate, advances every active gate by one tick and one
 * cleanup, retires the completed ones and queues their children once all of a
 * child's predecessors are completed.  Gates are the nodes of a DAG, named by
 * index; the orchestrator sees of each gate its class, its clock and its
 * edges.
 */
module Orchestration {
  import opened Wrappers
  import opened Gates

  /** One gate of the DAG: its class, its clock and the indices of its predecessors and successors. */
  datatype Node = Node(kind: GateKind, clock: Clock, pre: seq<nat>, post: seq<nat>)

  /** Every index in `ids` names a gate of a DAG of `n` gates. */
  predicate Within(ids: seq<nat>, n: nat)
  {
    forall k | 0 <= k < |ids| :: ids[k] < n
  }

  /** Every edge of the DAG stays inside it. */
  predicate Closed(gates: seq<Node>)
  {
    forall i | 0 <= i < |gates| :: Within(gates[i].pre, |gates|) && Within(gates[i].post, |gates|)
  }

  /** No index occurs twice. */
  predicate NoDup(ids: seq<nat>)
  {
    forall j, k | 0 <= j < k < |ids| :: ids[j] != ids[k]
  }

  /** Two DAGs with the same gates and edges, whatever the clocks. */
  predicate SameShape(a: seq<Node>, b: seq<Node>)
  {
    |a| == |b| && forall i | 0 <= i < |a| :: a[i].kind == b[i].kind && a[i].pre == b[i].pre && a[i].post == b[i].post
  }

  /** All predecessors of gate `g` are completed. */
  predicate PreDone(gates: seq<Node>, g: nat)
    requires Closed(gates) && g < |gates|
  {
    forall k | 0 <= k < |gates[g].pre| :: Done(gates[gates[g].pre[k]].clock)
  }

  /** `gate.available()` on a node; `None` for the rotation gate, whose `available` raises. */
  function NodeAvailable(gates: seq<Node>, g: nat): (r: Option<bool>)
    requires Closed(gates) && g < |gates|
    ensures r.None? <==> gates[g].kind.RotateGate?
    ensures gates[g].kind.TwoPhase() ==> r == Some(PreDone(gates, g))
  {
    match gates[g].kind
    case RotateGate => None
    case PlainGate => Some(true)
    case MoveGate => Some(true)
    case _ => Some(PreDone(gates, g))
  }

  /** What the admission loop leaves: the gates still queued, the gates made active, and the processed set. */
  datatype Admission = Admission(queued: seq<nat>, admitted: seq<nat>, processed: set<nat>)

  /**
   * The admission loop over queue `q`: a processed gate is dropped, an
   * available gate the strategy allocates (`alloc` answers what
   * `alloc_gate` returns) is replaced by the gate returned, and every other
   * gate stays queued.  `None` where `available` raises.
   */
  function Admit(gates: seq<Node>, q: seq<nat>, processed: set<nat>, alloc: nat -> Option<nat>): (r: Option<Admission>)
    requires Closed(gates) && Within(q, |gates|)
    ensures r.Some? ==> Within(r.value.queued, |gates|)
    ensures r.Some? && (forall g: nat :: alloc(g).Some? ==> alloc(g).value < |gates|) ==> Within(r.value.admitted, |gates|)
    decreases |q|
  {
    if q == [] then Some(Admission([], [], processed))
    else
      match Admit(gates, q[..|q| - 1], processed, alloc)
      case None => None
      case Some(a) =>
        var g := q[|q| - 1];
        if g in a.processed then Some(a)
        else
          match NodeAvailable(gates, g)
          case None => None
          case Some(av) =>
            if av && alloc(g).Some? then Some(Admission(a.queued, a.admitted + [alloc(g).value], a.processed + {alloc(g).value}))
            else Some(Admission(a.queued + [g], a.admitted, a.processed))
  }

  /** `tick` on every gate listed, in order. */
  function TickAll(gates: seq<Node>, ids: seq<nat>): (r: seq<Node>)
    requires Within(ids, |gates|)
    ensures SameShape(gates, r) && (Closed(gates) ==> Closed(r))
    decreases |ids|
  {
    if ids == [] then gates
    else
      var g0 := TickAll(gates, ids[..|ids| - 1]);
      var g := ids[|ids| - 1];
      g0[g := g0[g].(clock := TickClock(g0[g].clock))]
  }

  /** The clock part of `cleanup` on every gate listed, in order. */
  function CleanupAll(gates: seq<Node>, ids: seq<nat>): (r: seq<Node>)
    requires Within(ids, |gates|)
    ensures SameShape(gates, r) && (Closed(gates) ==> Closed(r))
    decreases |ids|
  {
    if ids == [] then gates
    else
      var g0 := CleanupAll(gates, ids[..|ids| - 1]);
      var g := ids[|ids| - 1];
      g0[g := g0[g].(clock := CleanupClock(g0[g].kind, g0[g].clock))]
  }

  /** The children among `cs` whose predecessors are all completed, in order. */
  function ReadyChildren(gates: seq<Node>, cs: seq<nat>): (r: seq<nat>)
    requires Closed(gates) && Within(cs, |gates|)
    ensures Within(r, |gates|)
    decreases |cs|
  {
    if cs == [] then []
    else ReadyChildren(gates, cs[..|cs| - 1]) + (if PreDone(gates, cs[|cs| - 1]) then [cs[|cs| - 1]] else [])
  }

  /** The retirement loop: the uncompleted gates stay active; a completed one queues its ready children. */
  function Retire(gates: seq<Node>, act: seq<nat>): (r: (seq<nat>, seq<nat>))
    requires Closed(gates) && Within(act, |gates|)
    ensures Within(r.0, |gates|) && Within(r.1, |gates|)
    decreases |act|
  {
    if act == [] then ([], [])
    else
      var (still, ready) := Retire(gates, act[..|act| - 1]);
      var g := act[|act| - 1];
      if !Done(gates[g].clock) then (still + [g], ready)
      else (still, ready + ReadyChildren(gates, gates[g].post))
  }

  // ----- properties of the pass -----

  lemma SameShapeClosed(a: seq<Node>, b: seq<Node>)
    requires SameShape(a, b) && Closed(a)
    ensures Closed(b)
  {
    assert forall i | 0 <= i < |b| :: b[i].pre == a[i].pre && b[i].post == a[i].post;
  }

  /**
   * Admission keeps every processed gate processed and adds exactly the gates
   * it activates; the gates it leaves queued come from the queue and were not
   * processed; and with a strategy that answers only with the gate asked
   * about, each activated gate came from the queue unprocessed and available,
   * and no gate is activated twice.
   */
  lemma {:induction false} AdmitFacts(gates: seq<Node>, q: seq<nat>, processed: set<nat>, alloc: nat -> Option<nat>)
    requires Closed(gates) && Within(q, |gates|)
    requires Admit(gates, q, processed, alloc).Some?
    ensures var a := Admit(gates, q, processed, alloc).value;
      processed <= a.processed
      && (forall k | 0 <= k < |a.admitted| :: a.admitted[k] in a.processed)
      && (forall k | 0 <= k < |a.queued| :: a.queued[k] in q && a.queued[k] !in processed)
      && (forall x :: x in a.processed <==> x in processed || x in a.admitted)
    ensures (forall g: nat :: alloc(g).Some? ==> alloc(g).value == g) ==>
      var a := Admit(gates, q, processed, alloc).value;
      NoDup(a.admitted)
      && (forall k | 0 <= k < |a.admitted| :: a.admitted[k] in q && a.admitted[k] !in processed)
      && (forall k | 0 <= k < |a.admitted| :: NodeAvailable(gates, a.admitted[k]) == Some(true))
    decreases |q|
  {
    if q != [] {
      var q0 := q[..|q| - 1];
      AdmitFacts(gates, q0, processed, alloc);
      var a0 := Admit(gates, q0, processed, alloc).value;
      var g := q[|q| - 1];
      assert forall x | x in q0 :: x in q;
      if g !in a0.processed && NodeAvailable(gates, g) == Some(true) && alloc(g).Some? {
        var a := Admit(gates, q, processed, alloc).value;
        assert a.admitted == a0.admitted + [alloc(g).value];
        assert forall x :: x in a.admitted <==> x in a0.admitted || x == alloc(g).value;
        if forall h: nat :: alloc(h).Some? ==> alloc(h).value == h {
          assert alloc(g).value == g;
        }
      }
    }
  }

  /** The elements of `q` whose flag in `keep` is set, in order. */
  function Select(q: seq<nat>, keep: seq<bool>): seq<nat>
    requires |keep| == |q|
    decreases |q|
  {
    if q == [] then [] else Select(q[..|q| - 1], keep[..|keep| - 1]) + (if keep[|keep| - 1] then [q[|q| - 1]] else [])
  }

  /** The processed set as the admission loop reaches position `k` of the queue. */
  ghost function SeenAt(gates: seq<Node>, q: seq<nat>, processed: set<nat>, alloc: nat -> Option<nat>, k: nat): set<nat>
    requires Closed(gates) && Within(q, |gates|) && k <= |q|
  {
    var p := Admit(gates, q[..k], processed, alloc);
    if p.Some? then p.value.processed else processed
  }

  /** Which queued gates stay queued: those not processed at their turn that are unavailable or refused. */
  ghost function Stays(gates: seq<Node>, q: seq<nat>, processed: set<nat>, alloc: nat -> Option<nat>): (keep: seq<bool>)
    requires Closed(gates) && Within(q, |gates|)
    ensures |keep| == |q|
  {
    seq(|q|, k requires 0 <= k < |q| =>
      q[k] !in SeenAt(gates, q, processed, alloc, k) && !(NodeAvailable(gates, q[k]) == Some(true) && alloc(q[k]).Some?))
  }

  /** Which queued gates are admitted: those not processed at their turn that are available and allocated. */
  ghost function Takes(gates: seq<Node>, q: seq<nat>, processed: set<nat>, alloc: nat -> Option<nat>): (take: seq<bool>)
    requires Closed(gates) && Within(q, |gates|)
    ensures |take| == |q|
  {
    seq(|q|, k requires 0 <= k < |q| =>
      q[k] !in SeenAt(gates, q, processed, alloc, k) && NodeAvailable(gates, q[k]) == Some(true) && alloc(q[k]).Some?)
  }

  /** What `alloc_gate` answers for each queued gate, the gate itself where it answers nothing. */
  function Answers(q: seq<nat>, alloc: nat -> Option<nat>): (r: seq<nat>)
    ensures |r| == |q|
  {
    seq(|q|, k requires 0 <= k < |q| => if alloc(q[k]).Some? then alloc(q[k]).value else q[k])
  }

  /**
   * The admission loop, position by position: the gates left queued are, in
   * queue order, exactly those unprocessed at their turn that are unavailable
   * or refused; the gates admitted are, in queue order, the answers of
   * `alloc_gate` for exactly those unprocessed at their turn that are
   * available and allocated.
   */
  lemma {:induction false} AdmitSelects(gates: seq<Node>, q: seq<nat>, processed: set<nat>, alloc: nat -> Option<nat>)
    requires Closed(gates) && Within(q, |gates|)
    requires Admit(gates, q, processed, alloc).Some?
    ensures Admit(gates, q, processed, alloc).value.queued == Select(q, Stays(gates, q, processed, alloc))
    ensures Admit(gates, q, processed, alloc).value.admitted == Select(Answers(q, alloc), Takes(gates, q, processed, alloc))
    decreases |q|
  {
    if q != [] {
      var n := |q| - 1;
      var q0 := q[..n];
      AdmitSelects(gates, q0, processed, alloc);
      FlagsPrefix(gates, q, processed, alloc);
      var a0 := Admit(gates, q0, processed, alloc).value;
      assert SeenAt(gates, q, processed, alloc, n) == a0.processed;
    }
  }

  /** The flags of a queue's positions before the last are those of the queue without its last gate. */
  lemma FlagsPrefix(gates: seq<Node>, q: seq<nat>, processed: set<nat>, alloc: nat -> Option<nat>)
    requires Closed(gates) && Within(q, |gates|) && q != []
    ensures Stays(gates, q, processed, alloc)[..|q| - 1] == Stays(gates, q[..|q| - 1], processed, alloc)
    ensures Takes(gates, q, processed, alloc)[..|q| - 1] == Takes(gates, q[..|q| - 1], processed, alloc)
    ensures Answers(q, alloc)[..|q| - 1] == Answers(q[..|q| - 1], alloc)
  {
    var q0 := q[..|q| - 1];
    forall k | 0 <= k < |q0|
      ensures SeenAt(gates, q, processed, alloc, k) == SeenAt(gates, q0, processed, alloc, k)
    {
      assert q[..k] == q0[..k];
    }
  }

  /** Once a prefix of the queue makes `available` raise, so does the whole queue. */
  lemma {:induction false} AdmitStuck(gates: seq<Node>, q: seq<nat>, i: nat, processed: set<nat>, alloc: nat -> Option<nat>)
    requires Closed(gates) && Within(q, |gates|) && i <= |q|
    requires Admit(gates, q[..i], processed, alloc).None?
    ensures Admit(gates, q, processed, alloc).None?
    decreases |q| - i
  {
    if i == |q| {
      assert q[..i] == q;
    } else {
      var q0 := q[..|q| - 1];
      assert q0[..i] == q[..i];
      AdmitStuck(gates, q0, i, processed, alloc);
    }
  }

  /** Ticking gates that are each listed once advances each of them by one tick and leaves the others alone. */
  lemma {:induction false} TickAllOnce(gates: seq<Node>, ids: seq<nat>, g: nat)
    requires Within(ids, |gates|) && NoDup(ids) && g < |gates|
    ensures TickAll(gates, ids)[g].clock == if g in ids then TickClock(gates[g].clock) else gates[g].clock
    decreases |ids|
  {
    if ids != [] {
      var ids0 := ids[..|ids| - 1];
      assert forall x | x in ids0 :: x in ids;
      assert g in ids <==> g in ids0 || g == ids[|ids| - 1];
      assert ids[|ids| - 1] !in ids0;
      TickAllOnce(gates, ids0, g);
    }
  }

  /** The same for the clock part of cleanup. */
  lemma {:induction false} CleanupAllOnce(gates: seq<Node>, ids: seq<nat>, g: nat)
    requires Within(ids, |gates|) && NoDup(ids) && g < |gates|
    ensures CleanupAll(gates, ids)[g].clock == if g in ids then CleanupClock(gates[g].kind, gates[g].clock) else gates[g].clock
    decreases |ids|
  {
    if ids != [] {
      var ids0 := ids[..|ids| - 1];
      assert forall x | x in ids0 :: x in ids;
      assert g in ids <==> g in ids0 || g == ids[|ids| - 1];
      assert ids[|ids| - 1] !in ids0;
      CleanupAllOnce(gates, ids0, g);
    }
  }

  /**
   * In one pass every active gate, listed once, takes exactly one tick and
   * one cleanup (`PassClock`), and every other gate's clock is unchanged.
   */
  lemma PassAdvancesOnce(gates: seq<Node>, act: seq<nat>, g: nat)
    requires Within(act, |gates|) && NoDup(act) && g < |gates|
    ensures CleanupAll(TickAll(gates, act), act)[g].clock == if g in act then PassClock(gates[g].kind, gates[g].clock) else gates[g].clock
  {
    TickAllOnce(gates, act, g);
    CleanupAllOnce(TickAll(gates, act), act, g);
  }

  /** Every child queued is one whose predecessors are all completed, and it is one of the children listed. */
  lemma {:induction false} ReadyChildrenFacts(gates: seq<Node>, cs: seq<nat>)
    requires Closed(gates) && Within(cs, |gates|)
    ensures forall k | 0 <= k < |ReadyChildren(gates, cs)| :: ReadyChildren(gates, cs)[k] in cs && PreDone(gates, ReadyChildren(gates, cs)[k])
    ensures forall c | c in cs :: PreDone(gates, c) ==> c in ReadyChildren(gates, cs)
    decreases |cs|
  {
    if cs != [] {
      var cs0 := cs[..|cs| - 1];
      assert forall x | x in cs0 :: x in cs;
      assert forall c | c in cs :: c in cs0 || c == cs[|cs| - 1];
      ReadyChildrenFacts(gates, cs0);
    }
  }

  /**
   * Retirement keeps exactly the uncompleted active gates, in order (a
   * subsequence, so no gate is listed twice if none was before), and queues
   * only children whose predecessors are all completed.
   */
  lemma {:induction false} RetireFacts(gates: seq<Node>, act: seq<nat>)
    requires Closed(gates) && Within(act, |gates|)
    ensures var (still, queued) := Retire(gates, act);
      Within(queued, |gates|)
      && (forall g :: g in still <==> g in act && !Done(gates[g].clock))
      && (NoDup(act) ==> NoDup(still))
      && (forall k | 0 <= k < |queued| :: PreDone(gates, queued[k]))
    decreases |act|
  {
    if act != [] {
      var act0 := act[..|act| - 1];
      var g := act[|act| - 1];
      assert forall x | x in act0 :: x in act;
      assert forall x | x in act :: x in act0 || x == g;
      RetireFacts(gates, act0);
      var (still0, queued0) := Retire(gates, act0);
      if Done(gates[g].clock) {
        ReadyChildrenFacts(gates, gates[g].post);
        var rc := ReadyChildren(gates, gates[g].post);
        assert forall k | 0 <= k < |queued0 + rc| :: (queued0 + rc)[k] in queued0 || (queued0 + rc)[k] in rc;
      } else if NoDup(act) {
        assert g !in act0;
        assert forall x | x in still0 :: x in act0;
      }
    }
  }

  class Orchestrator {
    var gates: seq<Node>
    var waiting: seq<nat>
    var queued: seq<nat>
    var active: seq<nat>
    var processed: set<nat>
    var time: int

    /** Names only gates of the DAG, whose edges stay inside it. */
    ghost predicate Valid()
      reads this
    {
      Closed(gates) && Within(waiting, |gates|) && Within(queued, |gates|) && Within(active, |gates|)
    }

    /** Every active gate is listed once and has been processed: no gate runs twice at a time. */
    ghost predicate Exclusive()
      reads this
    {
      NoDup(active) && forall k | 0 <= k < |active| :: active[k] in processed
    }

    /** `ScheduleOrchestrator(gate_dag_roots, ...)`: the roots wait, nothing is queued or active, time 0. */
    constructor (gates: seq<Node>, roots: seq<nat>)
      requires Closed(gates) && Within(roots, |gates|)
      ensures Valid() && Exclusive()
      ensures this.gates == gates && waiting == roots && queued == [] && active == [] && processed == {} && time == 0
    {
      this.gates := gates;
      waiting := roots;
      queued := [];
      active := [];
      processed := {};
      time := 0;
    }

    /** The admission loop of a pass; `ok` is false where a queued gate's `available` raises. */
    method AdmitQueued(alloc: nat -> Option<nat>) returns (ok: bool)
      requires Valid()
      requires forall g: nat :: alloc(g).Some? ==> alloc(g).value < |gates|
      modifies this`queued, this`active, this`processed
      ensures Valid()
      ensures var r := Admit(gates, old(queued), old(processed), alloc);
        ok == r.Some? && (ok ==> queued == r.value.queued && active == old(active) + r.value.admitted && processed == r.value.processed)
    {
      var q := queued;
      var nextQueued: seq<nat> := [];
      ghost var admitted: seq<nat> := [];
      for i := 0 to |q|
        invariant Valid() && Within(nextQueued, |gates|)
        invariant Admit(gates, q[..i], old(processed), alloc) == Some(Admission(nextQueued, admitted, processed))
        invariant active == old(active) + admitted
      {
        assert q[..i + 1][..i] == q[..i];
        var g := q[i];
        if g in processed {
          continue;
        }
        var av := NodeAvailable(gates, g);
        if av.None? {
          AdmitStuck(gates, q, i + 1, old(processed), alloc);
          return false;
        }
        if av.value && alloc(g).Some? {
          var a := alloc(g).value;
          active := active + [a];
          processed := processed + {a};
          admitted := admitted + [a];
        } else {
          nextQueued := nextQueued + [g];
        }
      }
      assert q[..|q|] == q;
      queued := nextQueued;
      ok := true;
    }

    /** The tick loop of a pass. */
    method TickActive()
      requires Valid()
      modifies this`gates
      ensures Valid() && gates == TickAll(old(gates), active)
    {
      for i := 0 to |active|
        invariant gates == TickAll(old(gates), active[..i])
        invariant Valid()
      {
        assert active[..i + 1][..i] == active[..i];
        var g := active[i];
        gates := gates[g := gates[g].(clock := TickClock(gates[g].clock))];
        SameShapeClosed(old(gates), gates);
      }
      assert active[..|active|] == active;
    }

    /** The cleanup loop of a pass, on the clocks. */
    method CleanupActive()
      requires Valid()
      modifies this`gates
      ensures Valid() && gates == CleanupAll(old(gates), active)
    {
      for i := 0 to |active|
        invariant gates == CleanupAll(old(gates), active[..i])
        invariant Valid()
      {
        assert active[..i + 1][..i] == active[..i];
        var g := active[i];
        gates := gates[g := gates[g].(clock := CleanupClock(gates[g].kind, gates[g].clock))];
        SameShapeClosed(old(gates), gates);
      }
      assert active[..|active|] == active;
    }

    /** The retirement loop of a pass: keep the uncompleted gates active, queue the ready children of the others. */
    method RetireActive()
      requires Valid()
      modifies this`active, this`queued
      ensures Valid()
      ensures var (still, ready) := Retire(gates, old(active));
        active == still && queued == old(queued) + ready
    {
      var act := active;
      var nextActive: seq<nat> := [];
      ghost var queuedHere: seq<nat> := [];
      for i := 0 to |act|
        invariant Valid() && Within(nextActive, |gates|)
        invariant Retire(gates, act[..i]) == (nextActive, queuedHere)
        invariant queued == old(queued) + queuedHere
      {
        assert act[..i + 1][..i] == act[..i];
        var g := act[i];
        if !Done(gates[g].clock) {
          nextActive := nextActive + [g];
        } else {
          QueueReady(gates[g].post);
          queuedHere := queuedHere + ReadyChildren(gates, gates[g].post);
        }
      }
      assert act[..|act|] == act;
      active := nextActive;
    }

    /** The inner loop of retirement: queue every child whose predecessors are all completed. */
    method QueueReady(post: seq<nat>)
      requires Valid() && Within(post, |gates|)
      modifies this`queued
      ensures Valid() && queued == old(queued) + ReadyChildren(gates, post)
    {
      for j := 0 to |post|
        invariant Valid()
        invariant queued == old(queued) + ReadyChildren(gates, post[..j])
      {
        assert post[..j + 1][..j] == post[..j];
        if PreDone(gates, post[j]) {
          queued := queued + [post[j]];
        }
      }
      assert post[..|post|] == post;
    }

    /**
     * `schedule_pass` with `alloc` answering `alloc_gate`: admit, tick,
     * clean up, retire, and advance the time by one.
     */
    method SchedulePass(alloc: nat -> Option<nat>) returns (ok: bool)
      requires Valid()
      requires forall g: nat :: alloc(g).Some? ==> alloc(g).value < |gates|
      modifies this
      ensures Valid() && SameShape(old(gates), gates)
      ensures time == old(time) + (if ok then 1 else 0)
      ensures var r := Admit(old(gates), old(queued), old(processed), alloc);
        ok == r.Some?
        && (ok ==>
              var act := old(active) + r.value.admitted;
              var after := CleanupAll(TickAll(old(gates), act), act);
              var (still, ready) := Retire(after, act);
              gates == after && active == still && queued == r.value.queued + ready
              && processed == r.value.processed && time == old(time) + 1 && waiting == old(waiting))
    {
      ok := AdmitQueued(alloc);
      if !ok {
        return;
      }
      TickActive();
      CleanupActive();
      RetireActive();
      time := time + 1;
    }

    /**
     * A pass with a strategy that answers only with the gate asked about keeps
     * every active gate listed once and processed, and advances each of them
     * by one tick and one cleanup.
     */
    method ExclusivePass(alloc: nat -> Option<nat>) returns (ok: bool)
      requires Valid() && Exclusive()
      requires forall g: nat :: alloc(g).Some? ==> alloc(g).value == g && g < |gates|
      modifies this
      ensures Valid() && SameShape(old(gates), gates)
      ensures ok ==> Exclusive() && time == old(time) + 1
      ensures ok ==> forall g | 0 <= g < |gates| && g in old(active) :: gates[g].clock == PassClock(gates[g].kind, old(gates[g].clock))
      ensures ok ==> forall g | 0 <= g < |gates| && g in active :: !Done(gates[g].clock)
    {
      ghost var gates0 := gates;
      ghost var active0 := active;
      ghost var processed0 := processed;
      ghost var r := Admit(gates, queued, processed, alloc);
      if r.Some? {
        AdmitFacts(gates, queued, processed, alloc);
      }
      ok := SchedulePass(alloc);
      if !ok {
        return;
      }
      var act := active0 + r.value.admitted;
      assert NoDup(act) by {
        forall j, k | 0 <= j < k < |act|
          ensures act[j] != act[k]
        {
          if k >= |active0| && j < |active0| {
            assert act[j] in processed0;
          }
        }
      }
      forall g | 0 <= g < |gates| && g in active0
        ensures gates[g].clock == PassClock(gates[g].kind, gates0[g].clock)
      {
        PassAdvancesOnce(gates0, act, g);
      }
      RetireFacts(gates, act);
      forall k | 0 <= k < |active|
        ensures active[k] in processed
      {
        assert active[k] in act;
      }
    }

    /**
     * `schedule`: queue the waiting gates, then run passes while any gate is
     * queued or active.  `allocAt(t)` answers `alloc_gate` during the pass at
     * time `t`; at most `fuel` passes are run, and `done` says the loop ended.
     */
    method Schedule(allocAt: int -> nat -> Option<nat>, fuel: nat) returns (done: bool)
      requires Valid()
      requires forall t: int, g: nat :: allocAt(t)(g).Some? ==> allocAt(t)(g).value < |gates|
      modifies this
      ensures Valid() && SameShape(old(gates), gates)
      ensures done ==> queued == [] && active == []
      ensures time - old(time) <= fuel
    {
      queued := queued + waiting;
      var n := 0;
      while queued != [] || active != []
        invariant Valid() && SameShape(old(gates), gates) && n <= fuel
        invariant time - old(time) == n
        decreases fuel - n
      {
        if n == fuel {
          return false;
        }
        var ok := SchedulePass(allocAt(time));
        if !ok {
          return false;
        }
        n := n + 1;
      }
      done := true;
    }
  }
}
