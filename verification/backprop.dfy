/** The errors of fire_nn are minus the derivatives of the network error by the states, layer by layer. */
module Backprop {
  import opened Graph
  import opened Fire
  import opened Forward
  import opened Settle
  import opened Backward
  import opened Network
  import opened Logistic
  import opened Gradient
  import opened Chain

  // ---- from one layer to the next ----

  /** What the outputs `x` of a layer send to the `n` neurons behind it. */
  function Forwarded(w: seq<Row>, x: Row, n: nat): (s: Row)
    requires Fitting(w, |x|, n)
    ensures |s| == n && forall j | 0 <= j < n :: s[j] == Dot(w, x, j, |x|)
  {
    seq(n, j requires 0 <= j < n => Dot(w, x, j, |x|))
  }

  /** What comes back of `e`. */
  function Backed(w: seq<Row>, e: Row): (b: Row)
    requires Fitting(w, |w|, |e|)
    ensures |b| == |w| && forall i | 0 <= i < |w| :: b[i] == Back(w[i], e, |e|)
  {
    seq(|w|, i requires 0 <= i < |w| => Back(w[i], e, |e|))
  }

  ghost function Through(w: seq<Row>, n: nat): Row -> Row
    requires Fitting(w, |w|, n)
  {
    x => if |x| == |w| then Forwarded(w, x, n) else []
  }

  lemma {:induction false} DotAdds(w: seq<Row>, x: Row, d: Row, t: Row, j: nat, m: nat)
    requires m <= |w| == |x| == |d| == |t| && forall i | 0 <= i < |w| :: j < |w[i]|
    requires forall i | 0 <= i < |w| :: t[i] == x[i] + d[i]
    ensures Dot(w, t, j, m) == Dot(w, x, j, m) + Dot(w, d, j, m)
  {
    if m > 0 {
      DotAdds(w, x, d, t, j, m - 1);
      var c, a, b := w[m - 1][j], x[m - 1], d[m - 1];
      Distributes(c, a, b, t[m - 1], c * a, c * b);
    }
  }

  lemma ForwardedAdds(w: seq<Row>, n: nat, z: Row, d: Row)
    requires Fitting(w, |w|, n) && |w| == |z| == |d|
    ensures Off(Through(w, n)(Plus(z, d)), Through(w, n)(z)) == Forwarded(w, d, n)
  {
    forall j | 0 <= j < n ensures Forwarded(w, Plus(z, d), n)[j] - Forwarded(w, z, n)[j] == Forwarded(w, d, n)[j] {
      DotAdds(w, z, d, Plus(z, d), j, |w|);
    }
  }

  lemma {:induction false} InnerIsReceived(w: seq<Row>, d: Row, g: Row, n: nat)
    requires Fitting(w, |d|, |g|) && n <= |g|
    ensures Total(Products(g, Forwarded(w, d, |g|)), n) == Received(w, d, g, |d|, n)
  {
    if n > 0 {
      InnerIsReceived(w, d, g, n - 1);
      var p := ProductAt(g, Forwarded(w, d, |g|), n - 1);
    }
  }

  lemma {:induction false} InnerIsReturned(w: seq<Row>, d: Row, g: Row, m: nat)
    requires Fitting(w, |d|, |g|) && m <= |d|
    ensures Total(Products(Backed(w, g), d), m) == Returned(w, d, g, m, |g|)
  {
    if m > 0 {
      InnerIsReturned(w, d, g, m - 1);
      var p := ProductAt(Backed(w, g), d, m - 1);
    }
  }

  /** What is sent on, weighed by `g`, is what comes back of `g`, weighed by what is sent. */
  lemma InnersAreEqual(w: seq<Row>, d: Row, g: Row)
    requires Fitting(w, |d|, |g|)
    ensures Inner(g, Forwarded(w, d, |g|)) == Inner(Backed(w, g), d)
  {
    InnerIsReceived(w, d, g, |g|);
    InnerIsReturned(w, d, g, |d|);
    PassesAreTransposed(w, d, g, |d|);
  }

  // ---- its size ----

  /** The weights of the links to neuron `j`, without their signs. */
  function Weight(w: seq<Row>, j: nat, m: nat): (s: real)
    requires m <= |w| && forall i | 0 <= i < |w| :: j < |w[i]|
    ensures s >= 0.0
  {
    if m == 0 then 0.0 else Weight(w, j, m - 1) + Mag(w[m - 1][j])
  }

  predicate TermIsBelow(f: real -> real, w: real, d: real) {
    Mag(w * d) <= f(Mag(w))
  }

  lemma {:induction false} DotIsBelow(w: seq<Row>, d: Row, j: nat, m: nat, f: real -> real)
    requires m <= |w| == |d| && (forall i | 0 <= i < |w| :: j < |w[i]|) && Additive(f)
    requires forall i {:trigger TermIsBelow(f, w[i][j], d[i])} | 0 <= i < |w| :: TermIsBelow(f, w[i][j], d[i])
    ensures Mag(Dot(w, d, j, m)) <= f(Weight(w, j, m))
  {
    if m > 0 {
      DotIsBelow(w, d, j, m - 1, f);
      assert TermIsBelow(f, w[m - 1][j], d[m - 1]) && AddsUp(f, Weight(w, j, m - 1), Mag(w[m - 1][j]));
    }
  }

  lemma TermBelow(w: real, d: real, n: real)
    requires Mag(d) <= n
    ensures TermIsBelow(By(n), w, d)
  {
    MagTimes(w, d, w * d, Mag(w) * Mag(d));
    ProductGrows(Mag(w), Mag(d), n, Mag(w) * Mag(d), Mag(w) * n);
  }

  function Weights(w: seq<Row>, n: nat): (s: Row)
    requires Fitting(w, |w|, n)
    ensures |s| == n && forall j | 0 <= j < n :: s[j] == Weight(w, j, |w|)
  {
    seq(n, j requires 0 <= j < n => Weight(w, j, |w|))
  }

  lemma ForwardedIsBelow(w: seq<Row>, d: Row, n: nat, f: real -> real)
    requires Fitting(w, |d|, n) && f == By(Norm(d))
    ensures Norm(Forwarded(w, d, n)) <= f(Total(Weights(w, n), n))
  {
    forall j | 0 <= j < n ensures Mags(Forwarded(w, d, n))[j] <= f(Weights(w, n)[j]) {
      forall i | 0 <= i < |w| ensures TermIsBelow(f, w[i][j], d[i]) {
        PartOfNorm(d, i);
        TermBelow(w[i][j], d[i], Norm(d));
      }
      DotIsBelow(w, d, j, |w|, f);
    }
    TotalIsBelow(Mags(Forwarded(w, d, n)), f, Weights(w, n), n);
  }

  lemma LinksMove(w: seq<Row>, z: Row, g: Row, d: Row, e: Row, l: real -> real, q: real -> real)
    requires Fitting(w, |z|, |g|) && |d| == |z| && e == Forwarded(w, d, |g|)
    requires Norm(e) <= l(Norm(d)) && q(Norm(d)) >= 0.0
    ensures Moves(Through(w, |g|), z, g, Backed(w, g), l, q, d)
  {
    ForwardedAdds(w, |g|, z, d);
    InnersAreEqual(w, d, g);
    MovesIf(Through(w, |g|), z, g, Backed(w, g), d, e, l, q, 0.0);
  }

  lemma Commuted(l: real, n: real)
    ensures By(n)(l) == By(l)(n) && Quadratic(0.0)(n) == 0.0
  {
  }

  /** Through the links a gradient by what is received becomes one by the outputs. */
  lemma LinksDerive(f: Row -> real, w: seq<Row>, z: Row, g: Row)
    requires Fitting(w, |z|, |g|) && Derives(f, Through(w, |g|)(z), g)
    ensures Derives(Composed(f, Through(w, |g|)), z, Backed(w, g))
  {
    var phi, l, h := Through(w, |g|), Total(Weights(w, |g|), |g|), Backed(w, g);
    PartOfTotal(Weights(w, |g|), 0, |g|);
    forall d: Row | |d| == |z| && Norm(d) <= 1.0 ensures Moves(phi, z, g, h, By(l), Quadratic(0.0), d) {
      ForwardedIsBelow(w, d, |g|, By(Norm(d)));
      Commuted(l, Norm(d));
      LinksMove(w, z, g, d, Forwarded(w, d, |g|), By(l), Quadratic(0.0));
    }
    ChainRule(f, phi, z, g, h, l, 0.0, 1.0);
  }

  // ---- the whole network ----

  /** The network error as a number of the states of layer `k`. */
  ghost function ErrorBy(p: seq<nat>, w: seq<seq<Row>>, act: real -> real, expected: Row, k: nat): Row -> real
    requires WeightsFit(p, w) && k < |p| && p[|p| - 1] <= |expected|
    decreases |p| - k
  {
    if k == |p| - 1 then Composed(ErrorOf(expected, p[k]), Layerwise(act)) else
      assert Fitting(w[k], p[k], At(p, k + 1));
      Composed(Composed(ErrorBy(p, w, act, expected, k + 1), Through(w[k], p[k + 1])), Layerwise(act))
  }

  /** What layer `k` is sent by the layer before. */
  function Sums(p: seq<nat>, v: Values, k: nat): (s: Row)
    requires Consistent(p, v) && 0 < k < |p|
    ensures |s| == p[k]
  {
    assert |v.o[k - 1]| == p[k - 1] && Fitting(v.w[k - 1], p[k - 1], At(p, k));
    Forwarded(v.w[k - 1], v.o[k - 1], p[k])
  }

  /** The outputs of layer `k` are the activations of `z`, */
  ghost predicate Activates(p: seq<nat>, v: Values, act: real -> real, k: nat, z: Row)
    requires Consistent(p, v) && k < |p|
  {
    |z| == p[k] && v.o[k] == Activate(act, z)
  }

  /** and those of the layers behind it of what they are sent. */
  ghost predicate FeedsOn(p: seq<nat>, v: Values, act: real -> real, k: nat, z: Row)
    requires Consistent(p, v) && k < |p|
  {
    Activates(p, v, act, k, z) && forall i | k < i < |p| :: Activates(p, v, act, i, Sums(p, v, i))
  }

  lemma SumsAreThrough(p: seq<nat>, v: Values, act: real -> real, k: nat, z: Row)
    requires Consistent(p, v) && k + 1 < |p| && FeedsOn(p, v, act, k, z)
    ensures |v.o[k]| == p[k] && Fitting(v.w[k], p[k], p[k + 1])
    ensures Sums(p, v, k + 1) == Through(v.w[k], p[k + 1])(v.o[k])
    ensures FeedsOn(p, v, act, k + 1, Sums(p, v, k + 1))
  {
    assert |v.o[k]| == p[k] && Fitting(v.w[k], p[k], At(p, k + 1));
    assert Activates(p, v, act, k + 1, Sums(p, v, k + 1));
  }

  function Minus(e: Row): (m: Row)
    ensures |m| == |e| && forall i | 0 <= i < |e| :: m[i] == -e[i]
  {
    seq(|e|, i requires 0 <= i < |e| => -e[i])
  }

  lemma {:induction false} BackOfMinus(w: Row, e: Row, m: nat)
    requires m <= |w| == |e|
    ensures Back(w, Minus(e), m) == -Back(w, e, m)
  {
    if m > 0 {
      BackOfMinus(w, e, m - 1);
      NegatedProduct(w[m - 1], e[m - 1], Minus(e)[m - 1], w[m - 1] * e[m - 1]);
    }
  }

  lemma NegatedProduct(a: real, b: real, c: real, ab: real)
    requires c == -b && ab == a * b
    ensures a * c == -ab
  {
  }

  lemma SlopeTurns(gain: real, o: real, x: real, e: real, g: real, h: real)
    requires e == Slope(gain, o, x) && g == -x && h == -e
    ensures SlopingAt(SlopeOf(gain), o, g, h)
  {
    SlopeWeighed(gain, o, x);
    NegatedProduct(SlopeOf(gain)(o), x, g, SlopeOf(gain)(o) * x);
  }

  lemma LastSlope(gain: real, a: real, b: real, e: real, g: real, h: real)
    requires e == Slope(gain, a, b - a) && g == a - b && h == -e
    ensures SlopingAt(SlopeOf(gain), a, g, h)
  {
    SlopeTurns(gain, a, b - a, e, g, h);
  }

  /** The last layer: from the differences to minus the errors. */
  lemma LastSlopes(gain: real, o: Row, expected: Row)
    requires |o| <= |expected|
    ensures Sloping(SlopeOf(gain), o, Off(o, expected), Minus(OutErrors(gain, o, expected)))
  {
    var e := OutErrors(gain, o, expected);
    var g, h := Off(o, expected), Minus(e);
    forall i | 0 <= i < |o| ensures SlopingAt(SlopeOf(gain), o[i], g[i], h[i]) {
      LastSlope(gain, o[i], expected[i], e[i], g[i], h[i]);
    }
  }

  /** A layer before it. */
  lemma InnerSlopes(gain: real, o: Row, w: seq<Row>, e: Row)
    requires Fitting(w, |o|, |e|)
    ensures Sloping(SlopeOf(gain), o, Backed(w, Minus(e)), Minus(Delta(gain, o, w, e)))
  {
    var d := Delta(gain, o, w, e);
    var g, h := Backed(w, Minus(e)), Minus(d);
    forall i | 0 <= i < |o| ensures SlopingAt(SlopeOf(gain), o[i], g[i], h[i]) {
      BackOfMinus(w[i], e, |e|);
      SlopeTurns(gain, o[i], Back(w[i], e, |e|), d[i], g[i], h[i]);
    }
  }

  /** Where the layers behind have the activations of what they are sent, the errors by the delta rule are minus the
    * gradient of the network error by the states. */
  lemma {:induction false} ErrorsAreGradient(p: seq<nat>, v: Values, act: real -> real, gain: real, expected: Row,
                                             k: nat, z: Row)
    requires Consistent(p, v) && k < |p| && p[|p| - 1] <= |expected| && Sloped(act, SlopeOf(gain), gain)
    requires FeedsOn(p, v, act, k, z)
    ensures WeightsFit(p, v.w)
    ensures Derives(ErrorBy(p, v.w, act, expected, k), z, Minus(DeltaRule(p, v, gain, expected, k)))
    decreases |p| - k
  {
    var o, e := v.o[k], DeltaRule(p, v, gain, expected, k);
    assert |o| == p[k];
    if k == |p| - 1 {
      ErrorDerives(o, expected);
      LastSlopes(gain, o, expected);
      ActivationDerives(ErrorOf(expected, p[k]), act, SlopeOf(gain), gain, z, Off(o, expected), Minus(e));
    } else {
      SumsAreThrough(p, v, act, k, z);
      ErrorsAreGradient(p, v, act, gain, expected, k + 1, Sums(p, v, k + 1));
      var w, e', f := v.w[k], DeltaRule(p, v, gain, expected, k + 1), ErrorBy(p, v.w, act, expected, k + 1);
      LinksDerive(f, w, o, Minus(e'));
      InnerSlopes(gain, o, w, e');
      ActivationDerives(Composed(f, Through(w, p[k + 1])), act, SlopeOf(gain), gain, z, Backed(w, Minus(e')), Minus(e));
    }
  }

  lemma LastIsError(act: real -> real, expected: Row, z: Row, o: Row)
    requires o == Activate(act, z) && |z| <= |expected|
    ensures Composed(ErrorOf(expected, |z|), Layerwise(act))(z) == HalfSquares(o, expected, |o|)
  {
  }

  /** At these states this number is the error that the call computes. */
  lemma {:induction false} ErrorByIsError(p: seq<nat>, v: Values, act: real -> real, expected: Row, k: nat, z: Row,
                                          err: real)
    requires Consistent(p, v) && k < |p| && p[|p| - 1] <= |expected| && FeedsOn(p, v, act, k, z)
    requires |v.o[|p| - 1]| == p[|p| - 1] && err == HalfSquares(v.o[|p| - 1], expected, p[|p| - 1])
    ensures WeightsFit(p, v.w) && ErrorBy(p, v.w, act, expected, k)(z) == err
    decreases |p| - k
  {
    assert |v.o[k]| == p[k];
    if k == |p| - 1 {
      LastIsError(act, expected, z, v.o[k]);
    } else {
      SumsAreThrough(p, v, act, k, z);
      ErrorByIsError(p, v, act, expected, k + 1, Sums(p, v, k + 1), err);
    }
  }

  lemma DerivativeIsMinus(f: Row -> real, z: Row, e: Row, j: nat, s: real)
    requires Derives(f, z, Minus(e)) && j < |z| == |e| && s == -e[j]
    ensures IsDerivative(f, z, j, s)
  {
    GradientIsDerivatives(f, z, Minus(e), j, s);
  }

  /** So an error by the delta rule is minus the derivative of the network error by the state of the neuron. */
  lemma ErrorIsDerivative(p: seq<nat>, v: Values, act: real -> real, gain: real, expected: Row, k: nat, z: Row, j: nat,
                          s: real)
    requires Consistent(p, v) && k < |p| && j < p[k] && p[|p| - 1] <= |expected|
    requires Sloped(act, SlopeOf(gain), gain) && FeedsOn(p, v, act, k, z)
    requires s == -DeltaRule(p, v, gain, expected, k)[j]
    ensures WeightsFit(p, v.w) && IsDerivative(ErrorBy(p, v.w, act, expected, k), z, j, s)
  {
    var e := DeltaRule(p, v, gain, expected, k);
    ErrorsAreGradient(p, v, act, gain, expected, k, z);
    DerivativeIsMinus(ErrorBy(p, v.w, act, expected, k), z, e, j, s);
  }

  lemma ErrorOfNeuron(nn: NN<real>, act: real -> real, p: seq<nat>, v: Values, expected: Row, k: nat, z: Row, j: nat)
    returns (s: real)
    requires Consistent(p, v) && k < |p| == |nn.layers| && j < p[k] && p[|p| - 1] <= |expected|
    requires Sloped(act, SlopeOf(nn.gain), nn.gain) && FeedsOn(p, v, act, k, z)
    requires LayerErrors(nn.layers, p, v, nn.gain, expected, k)
    ensures WeightsFit(p, v.w) && j < |nn.layers[k].neuros| && nn.layers[k].neuros[j].error == -s
    ensures IsDerivative(ErrorBy(p, v.w, act, expected, k), z, j, s)
  {
    s := -DeltaRule(p, v, nn.gain, expected, k)[j];
    ErrorIsDerivative(p, v, act, nn.gain, expected, k, z, j, s);
  }

  /** What a call with an expected answer leaves: the error of the network, and those of the neurons. */
  ghost predicate Erroneous(nn: NN<real>, p: seq<nat>, v: Values, expected: Row)
    requires Consistent(p, v) && 0 < |p| && p[|p| - 1] <= |expected|
    reads *
  {
    && |p| == |nn.layers| && |v.o[|p| - 1]| == p[|p| - 1]
    && ErrorsFrom(nn.layers, 0, p, v, nn.gain, expected)
    && nn.error == HalfSquares(v.o[|p| - 1], expected, p[|p| - 1])
  }

  /** The errors that a call leaves in the neurons of a layer are minus the derivatives of the network error by their
    * states, where the layers behind have the activations of what they are sent. */
  lemma ErrorsAreDerivatives(nn: NN<real>, exp: real -> real, p: seq<nat>, v: Values, expected: Row, k: nat, z: Row,
                             j: nat) returns (s: real)
    requires IsExp(exp) && forall y :: exp(y) > 0.0
    requires Consistent(p, v) && k < |p| && j < p[k] && p[|p| - 1] <= |expected| && Erroneous(nn, p, v, expected)
    requires FeedsOn(p, v, Activation(exp, nn.gain), k, z)
    ensures WeightsFit(p, v.w) && j < |nn.layers[k].neuros|
    ensures ErrorBy(p, v.w, Activation(exp, nn.gain), expected, k)(z) == nn.error
    ensures IsDerivative(ErrorBy(p, v.w, Activation(exp, nn.gain), expected, k), z, j, s)
    ensures nn.layers[k].neuros[j].error == -s
  {
    var act := Activation(exp, nn.gain);
    SigmoidIsSloped(exp, nn.gain);
    assert LayerErrors(nn.layers, p, v, nn.gain, expected, k);
    ErrorByIsError(p, v, act, expected, k, z, nn.error);
    s := ErrorOfNeuron(nn, act, p, v, expected, k, z, j);
  }

  // ---- when that is so ----

  /** After any one call it is so of the last layer, and of the states with which its neurons fired, */
  lemma LastFeedsOn(p: seq<nat>, v: Values, act: real -> real, r: Values)
    requires Consistent(p, v) && Consistent(p, r) && 1 < |p| && IsNext(p, v, act, r)
    ensures FeedsOn(p, r, act, |p| - 1, Fed(p, v, |p| - 1))
  {
    assert LayerNext(p, v, act, r, |p| - 1);
  }

  lemma SettledActivates(p: seq<nat>, v: Values, act: real -> real, x: Row, k: nat)
    requires Consistent(p, v) && 0 < k < |p| && |x| == p[0] && Settled(p, v, act, x, k - 1) && Settled(p, v, act, x, k)
    ensures Activates(p, v, act, k, Sums(p, v, k))
  {
    forall j | 0 <= j < p[k] ensures v.o[k][j] == act(Sums(p, v, k)[j]) {
      DotIsSum(p, v.w, act, x, v.o[k - 1], k, j, p[k - 1]);
    }
  }

  /** and after as many calls as there are layers, or one fewer if no state was waiting, of all layers behind the first
    * and of what they are sent. */
  lemma RunFeedsOn(p: seq<nat>, act: real -> real, r: seq<Values>, t: nat, k: nat)
    requires Run(p, act, r) && t < |r| && 0 < k < |p|
    requires |p| <= t || (|p| - 1 <= t && Quiet(p, r[0]))
    ensures FeedsOn(p, r[t], act, k, Sums(p, r[t], k))
  {
    forall i | k <= i < |p| ensures Activates(p, r[t], act, i, Sums(p, r[t], i)) {
      Settles(p, act, r, t, i - 1);
      Settles(p, act, r, t, i);
      SettledActivates(p, r[t], act, r[0].o[0], i);
    }
  }
}
