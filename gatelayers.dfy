/**
 * The gate factories next to the DAG utilities: `make_gates`, one T gate per
 * qubit, and `make_gsprep_layers`, which links graph-state preparation gates
 * layer to layer.
 */
module GateLayers {
  import opened Wrappers
  import opened Gates

  /** No gate occurs twice. */
  predicate Distinct(gates: seq<Gate>)
  {
    forall i, j | 0 <= i < j < |gates| :: gates[i] != gates[j]
  }

  /**
   * `make_gates`: gate `q` is a T gate on `func(q)` whose original target is
   * `q`, with move duration 2 and correction duration 3. As written,
   * util.py imports the legacy `T_Gate`, whose constructor has no
   * `targ_orig`, so every call with a qubit raises TypeError; this builds
   * the T gates of base/gate.py as evidently intended.
   */
  method MakeGates(nQubits: nat, func: nat -> int) returns (gates: seq<Gate>)
    ensures |gates| == nQubits && Distinct(gates)
    ensures forall q | 0 <= q < nQubits ::
              (fresh(gates[q]) && gates[q].kind == TGate && gates[q].targ == Some(func(q)) && gates[q].targOrig == Some(q)
               && gates[q].Timing() == Start(2, 3) && gates[q].pre == [] && gates[q].post == [])
  {
    gates := [];
    for q := 0 to nQubits
      invariant |gates| == q && Distinct(gates)
      invariant forall p | 0 <= p < q ::
                  (fresh(gates[p]) && gates[p].kind == TGate && gates[p].targ == Some(func(p)) && gates[p].targOrig == Some(p)
                   && gates[p].Timing() == Start(2, 3) && gates[p].pre == [] && gates[p].post == [])
    {
      var g := new Gate.NewT(func(q), 2, 3, Some(q));
      gates := gates + [g];
    }
  }

  /** No gate occurs twice in the layers, nor in two places. */
  predicate DistinctIn(layers: seq<seq<Gate>>)
  {
    forall a, b, c, d | 0 <= a < |layers| && 0 <= b < |layers[a]| && 0 <= c < |layers| && 0 <= d < |layers[c]| ::
      (a != c || b != d) ==> layers[a][b] != layers[c][d]
  }

  /** What `make_gsprep_layers` links a gate in layer `i` back to. */
  function PreLayer(gl: seq<seq<Gate>>, i: nat): seq<Gate>
    requires i < |gl|
  {
    if i > 0 then gl[i - 1] else []
  }

  /** What `make_gsprep_layers` links a gate in layer `i` on to. */
  function PostLayer(gl: seq<seq<Gate>>, i: nat): seq<Gate>
    requires i < |gl|
  {
    if i < |gl| - 1 then gl[i + 1] else []
  }

  /** The gates of one layer, one fresh preparation gate per target tuple. */
  method MakeLayer(layer: seq<seq<int>>) returns (row: seq<Gate>)
    ensures |row| == |layer| && Distinct(row)
    ensures forall b | 0 <= b < |layer| ::
              (fresh(row[b]) && row[b].kind == GSPrepGate && row[b].targs == layer[b]
               && row[b].Timing() == Start(2, 2) && row[b].pre == [] && row[b].post == [])
  {
    row := [];
    for b := 0 to |layer|
      invariant |row| == b && Distinct(row)
      invariant forall e | 0 <= e < b ::
                  (fresh(row[e]) && row[e].kind == GSPrepGate && row[e].targs == layer[e]
                   && row[e].Timing() == Start(2, 2) && row[e].pre == [] && row[e].post == [])
    {
      var g := new Gate.NewGSPrep(layer[b]);
      row := row + [g];
    }
  }

  /** The first half of `make_gsprep_layers`: the gates, in the shape of the layers, unlinked. */
  method MakeAllLayers(layers: seq<seq<seq<int>>>) returns (gl: seq<seq<Gate>>)
    ensures |gl| == |layers| && DistinctIn(gl)
    ensures forall a | 0 <= a < |gl| :: |gl[a]| == |layers[a]|
    ensures forall a, b | 0 <= a < |gl| && 0 <= b < |gl[a]| ::
              (fresh(gl[a][b]) && gl[a][b].kind == GSPrepGate && gl[a][b].targs == layers[a][b]
               && gl[a][b].Timing() == Start(2, 2) && gl[a][b].pre == [] && gl[a][b].post == [])
  {
    gl := [];
    for a := 0 to |layers|
      invariant |gl| == a && DistinctIn(gl)
      invariant forall c | 0 <= c < a :: |gl[c]| == |layers[c]|
      invariant forall c, b | 0 <= c < a && 0 <= b < |gl[c]| ::
                  (fresh(gl[c][b]) && gl[c][b].kind == GSPrepGate && gl[c][b].targs == layers[c][b]
                   && gl[c][b].Timing() == Start(2, 2) && gl[c][b].pre == [] && gl[c][b].post == [])
    {
      var row := MakeLayer(layers[a]);
      var gl' := gl + [row];
      assert forall c | 0 <= c < a :: gl'[c] == gl[c];
      gl := gl';
    }
  }

  /**
   * `make_gsprep_layers`: one fresh preparation gate per target tuple, in
   * the shape of the layers; every gate's `pre` is the whole previous layer
   * and its `post` the whole next one, empty at the ends.
   */
  method MakeGsprepLayers(layers: seq<seq<seq<int>>>) returns (gl: seq<seq<Gate>>)
    ensures |gl| == |layers| && DistinctIn(gl)
    ensures forall a | 0 <= a < |gl| :: |gl[a]| == |layers[a]|
    ensures forall a, b | 0 <= a < |gl| && 0 <= b < |gl[a]| ::
              (fresh(gl[a][b]) && gl[a][b].kind == GSPrepGate && gl[a][b].targs == layers[a][b]
               && gl[a][b].Timing() == Start(2, 2) && gl[a][b].pre == PreLayer(gl, a) && gl[a][b].post == PostLayer(gl, a))
  {
    gl := MakeAllLayers(layers);
    for a := 0 to |gl|
      invariant forall c, b | 0 <= c < |gl| && 0 <= b < |gl[c]| ::
                  (fresh(gl[c][b]) && gl[c][b].kind == GSPrepGate && gl[c][b].targs == layers[c][b] && gl[c][b].Timing() == Start(2, 2))
      invariant forall c, b | 0 <= c < a && 0 <= b < |gl[c]| :: gl[c][b].pre == PreLayer(gl, c) && gl[c][b].post == PostLayer(gl, c)
      invariant forall c, b | a <= c < |gl| && 0 <= b < |gl[c]| :: gl[c][b].pre == [] && gl[c][b].post == []
    {
      assert forall c, b | 0 <= c < |gl| && c != a && 0 <= b < |gl[c]| :: gl[c][b] !in Layer(gl, a);
      LinkLayer(gl, a);
    }
  }

  /** The gates of layer `a`. */
  function Layer(gl: seq<seq<Gate>>, a: nat): set<Gate>
    requires a < |gl|
  {
    set b | 0 <= b < |gl[a]| :: gl[a][b]
  }


  /** The inner loop of the linking pass: every gate of layer `a` gets its neighbours. */
  method LinkLayer(gl: seq<seq<Gate>>, a: nat)
    requires a < |gl| && DistinctIn(gl)
    requires forall b | 0 <= b < |gl[a]| :: gl[a][b].pre == [] && gl[a][b].post == []
    modifies Layer(gl, a)
    ensures forall b | 0 <= b < |gl[a]| :: gl[a][b].pre == PreLayer(gl, a) && gl[a][b].post == PostLayer(gl, a)
    ensures forall b | 0 <= b < |gl[a]| ::
              (gl[a][b].timer == old(gl[a][b].timer) && gl[a][b].duration == old(gl[a][b].duration) && gl[a][b].stage == old(gl[a][b].stage))
  {
    for b := 0 to |gl[a]|
      invariant forall e | 0 <= e < b :: gl[a][e].pre == PreLayer(gl, a) && gl[a][e].post == PostLayer(gl, a)
      invariant forall e | 0 <= e < |gl[a]| ::
                  (gl[a][e].timer == old(gl[a][e].timer) && gl[a][e].duration == old(gl[a][e].duration) && gl[a][e].stage == old(gl[a][e].stage))
      invariant forall e | b <= e < |gl[a]| :: gl[a][e].pre == [] && gl[a][e].post == []
    {
      var gate := gl[a][b];
      if a > 0 {
        gate.pre := gl[a - 1];
      }
      if a < |gl| - 1 {
        gate.post := gl[a + 1];
      }
    }
  }
}
