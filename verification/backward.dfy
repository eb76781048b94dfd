/** fire_nn, second half: when an answer is expected, the errors propagated backwards, layer by layer. */
module Backward {
  import opened Graph
  import opened Fire

  /** The error of a neuron: `e` is what reaches it from behind. */
  function Slope(gain: real, o: real, e: real): real {
    gain * o * (1.0 - o) * e
  }

  /** The errors of the last layer. */
  function OutErrors(gain: real, o: Row, expected: Row): (e: Row)
    requires |o| <= |expected|
    ensures |e| == |o| && forall i | 0 <= i < |o| :: e[i] == Slope(gain, o[i], expected[i] - o[i])
  {
    if o == [] then [] else
      var m := |o| - 1;
      OutErrors(gain, o[..m], expected[..m]) + [Slope(gain, o[m], expected[m] - o[m])]
  }

  function Half(e: real): real {
    0.5 * e * e
  }

  /** Half the summed squares of the first `m` differences. */
  function HalfSquares(o: Row, expected: Row, m: nat): real
    requires m <= |o| <= |expected|
  {
    if m == 0 then 0.0 else HalfSquares(o, expected, m - 1) + Half(expected[m - 1] - o[m - 1])
  }

  /** What the first `m` links bring back: the errors behind, weighted. */
  function Back(w: Row, e: Row, m: nat): real
    requires m <= |w| && m <= |e|
  {
    if m == 0 then 0.0 else Back(w, e, m - 1) + w[m - 1] * e[m - 1]
  }

  /** The errors of a layer with the outputs `o` and the weights `w`, before a layer with the errors `e`. */
  function Delta(gain: real, o: Row, w: seq<Row>, e: Row): (d: Row)
    requires Fitting(w, |o|, |e|)
    ensures |d| == |o| && forall i | 0 <= i < |o| :: |w[i]| == |e| && d[i] == Slope(gain, o[i], Back(w[i], e, |e|))
  {
    if o == [] then [] else
      var m := |o| - 1;
      Delta(gain, o[..m], w[..m], e) + [Slope(gain, o[m], Back(w[m], e, |e|))]
  }

  // ---- the last layer ----

  /** The first `m` errors are computed. */
  ghost predicate Erred(ns: seq<Neuro<real>>, m: nat, e: Row)
    reads ns`error
  {
    m <= |e| == |ns| && forall i {:trigger ns[i]} | 0 <= i < m :: ns[i].error == e[i]
  }

  /** The error of one neuron of the last layer, and its part in the error of the network. */
  method LastNeuro(n: Neuro<real>, gain: real, error: real) returns (part: real)
    modifies n`error
    ensures n.error == Slope(gain, n.output, error) && part == Half(error)
  {
    n.error := gain * n.output * (1.0 - n.output) * error;
    part := 0.5 * error * error;
  }

  /** The loop over the last layer: its errors, and the error of the network. */
  method LastErrors(nn: NN<real>, ns: seq<Neuro<real>>, expected: seq<real>, ghost o: Row)
    requires |ns| <= |expected| && Outputs(ns, o) && Apart(ns)
    modifies nn`error, ns`error
    ensures Errors(ns, OutErrors(nn.gain, o, expected))
    ensures nn.error == HalfSquares(o, expected, |o|)
  {
    ghost var e := OutErrors(nn.gain, o, expected);
    nn.error := 0.0;
    var counter := 0;
    while counter != |ns|
      invariant 0 <= counter <= |ns|
      invariant Erred(ns, counter, e)
      invariant nn.error == HalfSquares(o, expected, counter)
    {
      var error := expected[counter] - ns[counter].output;
      var part := LastNeuro(ns[counter], nn.gain, error);
      nn.error := nn.error + part;
      counter := counter + 1;
    }
  }

  // ---- the layers before it ----

  /** The loop over the links of one neuron, and its error. */
  method BackNeuro(n: Neuro<real>, targets: seq<Neuro<real>>, gain: real, ghost w: Row, ghost e: Row)
    requires Reaches(n.fpNp, targets) && Weights(n.fpNp, w) && Errors(targets, e)
    modifies n`error
    ensures |w| == |e| && n.error == Slope(gain, n.output, Back(w, e, |e|))
  {
    var error := 0.0;
    var counter3 := 0;
    while counter3 != |targets|
      invariant 0 <= counter3 <= |targets| == |w| == |e|
      invariant error == Back(w, e, counter3)
    {
      var cLink := n.fpNp.links[counter3];
      assert cLink.linkedNeuro == targets[counter3] && cLink.weight == w[counter3];
      error := error + cLink.weight * cLink.linkedNeuro.error;
      counter3 := counter3 + 1;
    }
    n.error := gain * n.output * (1.0 - n.output) * error;
  }

  /** The loop over the neurons of one layer. */
  method BackLayer(ns: seq<Neuro<real>>, targets: seq<Neuro<real>>, gain: real,
                   ghost o: Row, ghost w: seq<Row>, ghost e: Row)
    requires Apart(ns) && (forall j | 0 <= j < |ns| :: ns[j] !in targets)
    requires WeightRows(ns, w) && Fitting(w, |ns|, |targets|)
    requires forall i | 0 <= i < |ns| :: Reaches(ns[i].fpNp, targets)
    requires Outputs(ns, o) && Errors(targets, e)
    modifies ns`error
    ensures Errors(ns, Delta(gain, o, w, e))
  {
    ghost var d := Delta(gain, o, w, e);
    var counter2 := 0;
    while counter2 != |ns|
      invariant 0 <= counter2 <= |ns|
      invariant Erred(ns, counter2, d) && Errors(targets, e)
    {
      BackNeuro(ns[counter2], targets, gain, w[counter2], e);
      counter2 := counter2 + 1;
    }
  }

  /** The errors of layer `k`, recursively from the last layer: the delta rule. */
  function DeltaRule(p: seq<nat>, v: Values, gain: real, expected: Row, k: nat): (e: Row)
    requires Consistent(p, v) && k < |p| && p[|p| - 1] <= |expected|
    ensures |e| == p[k]
    decreases |p| - k
  {
    assert |v.o[k]| == p[k];
    if k == |p| - 1 then OutErrors(gain, v.o[k], expected)
    else Delta(gain, v.o[k], v.w[k], DeltaRule(p, v, gain, expected, k + 1))
  }

  ghost predicate LayerErrors(ls: seq<Layer<real>>, p: seq<nat>, v: Values, gain: real, expected: Row, k: nat)
    requires Consistent(p, v) && k < |ls| == |p| && p[|p| - 1] <= |expected|
    reads *
  {
    Errors(ls[k].neuros, DeltaRule(p, v, gain, expected, k))
  }

  /** One round of the loop over the layers in reverse order. */
  method BackAt(ls: seq<Layer<real>>, c: nat, d: nat, gain: real,
                ghost p: seq<nat>, ghost v: Values, ghost expected: Row)
    requires d == c + 1 < |ls| == |p| && Shape(ls, p) && Wired(ls)
    requires Consistent(p, v) && p[|p| - 1] <= |expected|
    requires NetWeights(ls, v.w) && Outputs(ls[c].neuros, v.o[c]) && LayerErrors(ls, p, v, gain, expected, d)
    modifies ls[c].neuros`error
    ensures LayerErrors(ls, p, v, gain, expected, c)
  {
    var ns, targets := ls[c].neuros, ls[d].neuros;
    NeuronsKnowTheirPlace(ls, p, c);
    NeuronsKnowTheirPlace(ls, p, d);
    assert PairWired(ls, c) && WeightRows(ns, v.w[c]) && Fitting(v.w[c], p[c], At(p, d));
    BackLayer(ns, targets, gain, v.o[c], v.w[c], DeltaRule(p, v, gain, expected, d));
  }
}
