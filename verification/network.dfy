/** fire_nn as a whole. A double is a real number here, and exp any positive function. */
module Network {
  import opened Graph
  import opened Fire
  import opened Forward
  import opened Backward
  import opened Wrappers

  function Sigmoid(exp: real -> real, gain: real, x: real): real
    requires forall y :: exp(y) > 0.0
  {
    1.0 / (1.0 + exp(-gain * x))
  }

  lemma InverseOf(x: real, y: real)
    requires x > 1.0 && y == 1.0 / x
    ensures 0.0 < y < 1.0 && y * x == 1.0
  {
  }

  /** The activation lies strictly between 0 and 1. */
  lemma SigmoidIsBetween(exp: real -> real, gain: real, x: real)
    requires forall y :: exp(y) > 0.0
    ensures 0.0 < Sigmoid(exp, gain, x) < 1.0
  {
    InverseOf(1.0 + exp(-gain * x), Sigmoid(exp, gain, x));
  }

  lemma Mirror(e: real, f: real, s: real, t: real)
    requires e > 0.0 && f > 0.0 && e * f == 1.0 && s == 1.0 / (1.0 + e) && t == 1.0 / (1.0 + f)
    ensures s + t == 1.0
  {
    assert s * (1.0 + e) == 1.0 && t * (1.0 + f) == 1.0;
    assert (s + t) * ((1.0 + e) * (1.0 + f)) == (1.0 + f) + (1.0 + e);
  }

  /** It mirrors: the activations of x and of -x make up 1, if exp(y) and exp(-y) are inverse. */
  lemma SigmoidMirrors(exp: real -> real, gain: real, x: real)
    requires (forall y :: exp(y) > 0.0) && forall y :: exp(y) * exp(-y) == 1.0
    ensures Sigmoid(exp, gain, x) + Sigmoid(exp, gain, -x) == 1.0
  {
    var y := -gain * x;
    assert -gain * -x == -y;
    Mirror(exp(y), exp(-y), Sigmoid(exp, gain, x), Sigmoid(exp, gain, -x));
  }

  /** The activation of a network with this gain. */
  function Activation(exp: real -> real, gain: real): real -> real
    requires forall y :: exp(y) > 0.0
  {
    x => Sigmoid(exp, gain, x)
  }

  /** The network is wired and shows the numbers `v`. */
  ghost predicate Ready(ls: seq<Layer<real>>, p: seq<nat>, v: Values)
    reads *
  {
    Carries(ls, p, v) && NetShows(ls, v)
  }

  /** The errors of layer `c` and of those behind it are there. */
  ghost predicate ErrorsFrom(ls: seq<Layer<real>>, c: nat, p: seq<nat>, v: Values, gain: real, expected: Row)
    requires Consistent(p, v) && |ls| == |p| && 0 < |p| && p[|p| - 1] <= |expected|
    reads *
  {
    forall k | c <= k < |ls| :: LayerErrors(ls, p, v, gain, expected, k)
  }

  /** The errors of some neurons are as they were. */
  twostate predicate ErrorsSame(ns: seq<Neuro<real>>)
    reads *
  {
    forall n | n in ns :: n.error == old(n.error)
  }

  /** One round of the backward pass leaves the errors of the other layers alone. */
  method BackAlone(ls: seq<Layer<real>>, c: nat, d: nat, gain: real,
                   ghost p: seq<nat>, ghost v: Values, ghost expected: Row)
    requires Ready(ls, p, v) && d == c + 1 < |ls| && p[|p| - 1] <= |expected|
    requires LayerErrors(ls, p, v, gain, expected, d)
    modifies ls[c].neuros`error
    ensures LayerErrors(ls, p, v, gain, expected, c)
    ensures forall k | 0 <= k < |ls| && k != c :: ErrorsSame(ls[k].neuros)
  {
    NeuronsKnowTheirPlace(ls, p, c);
    assert Outputs(ls[c].neuros, v.o[c]);
    BackAt(ls, c, d, gain, p, v, expected);
    forall k | 0 <= k < |ls| && k != c ensures ErrorsSame(ls[k].neuros) {
      NeuronsKnowTheirPlace(ls, p, k);
    }
  }

  /** One round of the backward pass: it writes the errors of one layer. */
  method BackRound(ls: seq<Layer<real>>, c: nat, d: nat, gain: real,
                   ghost p: seq<nat>, ghost v: Values, ghost expected: Row)
    requires Ready(ls, p, v) && d == c + 1 < |ls| && p[|p| - 1] <= |expected|
    requires ErrorsFrom(ls, d, p, v, gain, expected)
    modifies ls[c].neuros`error
    ensures ErrorsFrom(ls, c, p, v, gain, expected)
  {
    assert LayerErrors(ls, p, v, gain, expected, d);
    BackAlone(ls, c, d, gain, p, v, expected);
    forall k | d <= k < |ls| ensures LayerErrors(ls, p, v, gain, expected, k) {
      assert old(LayerErrors(ls, p, v, gain, expected, k)) && ErrorsSame(ls[k].neuros);
    }
  }

  /** It writes no link, no state and no output. */
  method BackSame(ls: seq<Layer<real>>, c: nat, d: nat, gain: real,
                  ghost p: seq<nat>, ghost v: Values, ghost expected: Row)
    requires Ready(ls, p, v) && d == c + 1 < |ls| && p[|p| - 1] <= |expected|
    requires ErrorsFrom(ls, d, p, v, gain, expected)
    modifies ls[c].neuros`error
    ensures ErrorsFrom(ls, c, p, v, gain, expected)
    ensures forall k | 0 <= k < |ls| :: LinksSame(ls[k].neuros)
    ensures forall k | 0 <= k < |ls| :: NumbersSame(ls[k].neuros)
  {
    BackRound(ls, c, d, gain, p, v, expected);
  }

  method BackReady(ls: seq<Layer<real>>, c: nat, gain: real, ghost p: seq<nat>, ghost v: Values, ghost expected: Row)
    requires Ready(ls, p, v) && c + 1 < |ls| && p[|p| - 1] <= |expected|
    requires ErrorsFrom(ls, c + 1, p, v, gain, expected)
    modifies NetNeuros(ls)`error
    ensures ErrorsFrom(ls, c, p, v, gain, expected)
    ensures Ready(ls, p, v)
  {
    NetNeurosHoldAll(ls, c);
    BackSame(ls, c, c + 1, gain, p, v, expected);
    WiringStays(ls, p, v);
  }

  /** The round of the last layer, and the error of the network. */
  method BackLast(nn: NN<real>, expected: seq<real>, ghost p: seq<nat>, ghost v: Values)
    requires 0 < |nn.layers| && Ready(nn.layers, p, v) && p[|p| - 1] <= |expected|
    modifies nn`error, nn.layers[|nn.layers| - 1].neuros`error
    ensures LayerErrors(nn.layers, p, v, nn.gain, expected, |p| - 1)
    ensures nn.error == HalfSquares(v.o[|p| - 1], expected, p[|p| - 1])
  {
    var ls, m := nn.layers, |nn.layers| - 1;
    NeuronsKnowTheirPlace(ls, p, m);
    assert Outputs(ls[m].neuros, v.o[m]);
    LastErrors(nn, ls[m].neuros, expected, v.o[m]);
  }

  method BackLastSame(nn: NN<real>, expected: seq<real>, ghost p: seq<nat>, ghost v: Values)
    requires 0 < |nn.layers| && Ready(nn.layers, p, v) && p[|p| - 1] <= |expected|
    modifies nn`error, NetNeuros(nn.layers)`error
    ensures LayerErrors(nn.layers, p, v, nn.gain, expected, |p| - 1)
    ensures nn.error == HalfSquares(v.o[|p| - 1], expected, p[|p| - 1])
    ensures forall k | 0 <= k < |nn.layers| :: LinksSame(nn.layers[k].neuros)
    ensures forall k | 0 <= k < |nn.layers| :: NumbersSame(nn.layers[k].neuros)
  {
    NetNeurosHoldAll(nn.layers, |nn.layers| - 1);
    BackLast(nn, expected, p, v);
  }

  method BackLastReady(nn: NN<real>, expected: seq<real>, ghost p: seq<nat>, ghost v: Values)
    requires 0 < |nn.layers| && Ready(nn.layers, p, v) && p[|p| - 1] <= |expected|
    modifies nn`error, NetNeuros(nn.layers)`error
    ensures ErrorsFrom(nn.layers, |p| - 1, p, v, nn.gain, expected)
    ensures nn.error == HalfSquares(v.o[|p| - 1], expected, p[|p| - 1])
    ensures Ready(nn.layers, p, v)
  {
    ghost var ls := nn.layers;
    BackLastSame(nn, expected, p, v);
    WiringStays(ls, p, v);
  }

  /** The backward pass: the error of the network, and every error of every layer by the delta rule. */
  method FireBackward(nn: NN<real>, expected: seq<real>, ghost p: seq<nat>, ghost v: Values)
    requires 0 < |nn.layers| && Ready(nn.layers, p, v) && p[|p| - 1] <= |expected|
    modifies nn`error, NetNeuros(nn.layers)`error
    ensures ErrorsFrom(nn.layers, 0, p, v, nn.gain, expected)
    ensures nn.error == HalfSquares(v.o[|p| - 1], expected, p[|p| - 1])
    ensures Ready(nn.layers, p, v)
  {
    var ls := nn.layers;
    var m := |ls| - 1;
    BackLastReady(nn, expected, p, v);
    while m != 0
      invariant 0 <= m < |ls| && Ready(ls, p, v)
      invariant ErrorsFrom(ls, m, p, v, nn.gain, expected)
      invariant nn.error == HalfSquares(v.o[|p| - 1], expected, p[|p| - 1])
    {
      m := m - 1;
      BackReady(ls, m, nn.gain, p, v, expected);
    }
  }

  /** The loop that copies the last layer out. */
  method CopyOut(ns: seq<Neuro<real>>, ghost o: Row) returns (output: seq<real>)
    requires Outputs(ns, o)
    ensures output == o
  {
    output := [];
    while |output| != |ns|
      invariant |output| <= |ns| && output == o[..|output|]
    {
      output := output + [ns[|output|].output];
    }
  }

  /** The forward pass, and the last layer copied out. */
  method FireOut(nn: NN<real>, act: real -> real, ghost v: Values) returns (output: seq<real>)
    requires 0 < |nn.layers| && Ready(nn.layers, nn.sizes, v)
    modifies NetNeuros(nn.layers)`state, NetNeuros(nn.layers)`output
    ensures Ready(nn.layers, nn.sizes, Next(nn.sizes, v, act))
    ensures output == Next(nn.sizes, v, act).o[|nn.sizes| - 1]
  {
    ghost var r := Next(nn.sizes, v, act);
    FireForward(nn.layers, act, nn.sizes, v);
    assert Outputs(nn.layers[|nn.layers| - 1].neuros, r.o[|nn.sizes| - 1]);
    output := CopyOut(nn.layers[|nn.layers| - 1].neuros, r.o[|nn.sizes| - 1]);
  }

  /** A call has made `r` of the numbers and given out the last layer. Without an expected answer it left all errors
    * alone; with one it computed the error of the network, and every other by the delta rule. */
  twostate predicate Called(nn: NN<real>, r: Values, expected: Option<seq<real>>, output: seq<real>)
    requires 0 < |nn.sizes|
    requires expected.Some? ==> nn.sizes[|nn.sizes| - 1] <= |expected.value|
    reads *
  {
    var p := nn.sizes;
    && Ready(nn.layers, p, r) && output == r.o[|p| - 1]
    && match expected
       case None => nn.error == old(nn.error) && forall k | 0 <= k < |nn.layers| :: ErrorsSame(nn.layers[k].neuros)
       case Some(e) =>
         && nn.error == HalfSquares(r.o[|p| - 1], e, p[|p| - 1]) && ErrorsFrom(nn.layers, 0, p, r, nn.gain, e)
  }

  /** Both passes, the second one on demand. */
  method FirePasses(nn: NN<real>, act: real -> real, expected: Option<seq<real>>, ghost v: Values)
    returns (output: seq<real>)
    requires 0 < |nn.layers| && Ready(nn.layers, nn.sizes, v)
    requires expected.Some? ==> nn.sizes[|nn.sizes| - 1] <= |expected.value|
    modifies nn`error, NetNeuros(nn.layers)`state, NetNeuros(nn.layers)`output, NetNeuros(nn.layers)`error
    ensures Called(nn, Next(nn.sizes, v, act), expected, output)
  {
    ghost var r := Next(nn.sizes, v, act);
    output := FireOut(nn, act, v);
    if expected.Some? { FireBackward(nn, expected.value, nn.sizes, r); }
  }

  /** fire_nn; the vector of inputs is never read. */
  method FireNN(nn: NN<real>, exp: real -> real, input: seq<real>, expected: Option<seq<real>>, ghost v: Values)
    returns (output: seq<real>)
    requires forall y :: exp(y) > 0.0
    requires nn.Valid() && Ready(nn.layers, nn.sizes, v)
    requires expected.Some? ==> nn.sizes[|nn.sizes| - 1] <= |expected.value|
    modifies nn`error, NetNeuros(nn.layers)`state, NetNeuros(nn.layers)`output, NetNeuros(nn.layers)`error
    ensures nn.Valid()
    ensures Called(nn, Next(nn.sizes, v, Activation(exp, nn.gain)), expected, output)
  {
    output := FirePasses(nn, Activation(exp, nn.gain), expected, v);
  }

  // ---- what the two passes have to do with each other ----

  /** The sum over the neurons of the next layer: what the first `n` of them receive, times their errors. */
  function Received(w: seq<Row>, o: Row, e: Row, m: nat, n: nat): real
    requires Fitting(w, |o|, |e|) && m <= |o| && n <= |e|
  {
    if n == 0 then 0.0 else Received(w, o, e, m, n - 1) + Dot(w, o, n - 1, m) * e[n - 1]
  }

  /** The sum over the neurons of this layer: their outputs, times what the links bring back to the first `m`. */
  function Returned(w: seq<Row>, o: Row, e: Row, m: nat, n: nat): real
    requires Fitting(w, |o|, |e|) && m <= |o| && n <= |e|
  {
    if m == 0 then 0.0 else Returned(w, o, e, m - 1, n) + o[m - 1] * Back(w[m - 1], e, n)
  }

  lemma {:induction false} OneMoreReceived(w: seq<Row>, o: Row, e: Row, m: nat, n: nat)
    requires Fitting(w, |o|, |e|) && m < |o| && n <= |e|
    ensures Received(w, o, e, m + 1, n) == Received(w, o, e, m, n) + o[m] * Back(w[m], e, n)
  {
    if n > 0 {
      OneMoreReceived(w, o, e, m, n - 1);
      var a, b, c, x, y := Dot(w, o, n - 1, m), w[m][n - 1], o[m], e[n - 1], Back(w[m], e, n - 1);
      calc {
        (a + b * c) * x + c * y;
        a * x + (b * c) * x + c * y;
        a * x + c * (y + b * x);
      }
    }
  }

  /** The backward pass applies the transpose of what the forward pass applies: summed over a layer, the outputs times
    * what comes back are what is received behind times the errors there. */
  lemma {:induction false} PassesAreTransposed(w: seq<Row>, o: Row, e: Row, m: nat)
    requires Fitting(w, |o|, |e|) && m <= |o|
    ensures Received(w, o, e, m, |e|) == Returned(w, o, e, m, |e|)
  {
    if m > 0 {
      PassesAreTransposed(w, o, e, m - 1);
      OneMoreReceived(w, o, e, m - 1, |e|);
    } else {
      NothingReceived(w, o, e, |e|);
    }
  }

  lemma {:induction false} NothingReceived(w: seq<Row>, o: Row, e: Row, n: nat)
    requires Fitting(w, |o|, |e|) && n <= |e|
    ensures Received(w, o, e, 0, n) == 0.0
  {
    if n > 0 { NothingReceived(w, o, e, n - 1); }
  }

  /** The error of the network is never negative, and zero just when every output is the expected one. */
  lemma {:induction false} ErrorIsZeroIffMatched(o: Row, expected: Row, m: nat)
    requires m <= |o| <= |expected|
    ensures HalfSquares(o, expected, m) >= 0.0
    ensures HalfSquares(o, expected, m) == 0.0 <==> forall i | 0 <= i < m :: o[i] == expected[i]
  {
    if m > 0 {
      ErrorIsZeroIffMatched(o, expected, m - 1);
      var e := expected[m - 1] - o[m - 1];
      HalfIsPositive(e, Half(e));
    }
  }

  lemma ProductIsPositive(a: real, b: real, c: real)
    requires a > 0.0 && b > 0.0 && c == a * b
    ensures c > 0.0
  {
  }

  lemma HalfIsPositive(e: real, h: real)
    requires h == Half(e)
    ensures h >= 0.0 && (h == 0.0 <==> e == 0.0)
  {
    if e > 0.0 {
      ProductIsPositive(0.5 * e, e, h);
    } else if e < 0.0 {
      ProductIsPositive(-0.5 * e, -e, h);
    }
  }
}
