/** The activation of fire_nn is the logistic function: its odds, its growth, and its derivative. */
module Logistic {
  import opened Graph
  import opened Fire
  import opened Forward
  import opened Settle
  import opened Backward
  import opened Network

  function Mag(x: real): (m: real)
    ensures m >= 0.0
  {
    if x < 0.0 then -x else x
  }

  predicate ProductOfSum(exp: real -> real, a: real, b: real) {
    exp(a + b) == exp(a) * exp(b)
  }

  predicate AboveTangent(exp: real -> real, h: real) {
    exp(h) >= 1.0 + h
  }

  /** What is needed of exp: sums become products, and it lies above its tangent at 0. */
  ghost predicate IsExp(exp: real -> real) {
    (forall a, b :: ProductOfSum(exp, a, b)) && forall h :: AboveTangent(exp, h)
  }

  lemma SquareIsPositive(x: real, s: real)
    requires s == x * x
    ensures s >= 0.0
  {
    if x > 0.0 { ProductIsPositive(x, x, s); }
    if x < 0.0 { ProductIsPositive(-x, -x, s); }
  }

  lemma ExpOfZero(exp: real -> real)
    requires IsExp(exp)
    ensures exp(0.0) == 1.0
  {
    var e := exp(0.0);
    assert ProductOfSum(exp, 0.0, 0.0) && AboveTangent(exp, 0.0);
    assert e * (e - 1.0) == 0.0;
    if e > 1.0 { ProductIsPositive(e, e - 1.0, e * (e - 1.0)); }
  }

  lemma ExpOfMinus(exp: real -> real, y: real, z: real)
    requires IsExp(exp) && z == -y
    ensures exp(y) * exp(z) == 1.0 && exp(y) > 0.0
  {
    ExpOfZero(exp);
    assert ProductOfSum(exp, y, z) && y + z == 0.0;
    var h := 0.5 * y;
    assert ProductOfSum(exp, h, h) && h + h == y;
    SquareIsPositive(exp(h), exp(y));
  }

  lemma ExpGrows(exp: real -> real, x: real, y: real, d: real)
    requires IsExp(exp) && d == y - x && d > 0.0
    ensures exp(x) < exp(y)
  {
    ExpOfMinus(exp, x, -x);
    assert ProductOfSum(exp, x, d) && x + d == y && AboveTangent(exp, d);
    ProductIsPositive(exp(x), exp(d) - 1.0, exp(y) - exp(x));
  }

  lemma ExpIsPositive(exp: real -> real)
    requires IsExp(exp)
    ensures forall y :: exp(y) > 0.0
  {
    forall y ensures exp(y) > 0.0 { ExpOfMinus(exp, y, -y); }
  }

  // ---- odds and growth ----

  lemma OddsOf(e: real, f: real, s: real)
    requires e > 0.0 && f * e == 1.0 && s == 1.0 / (1.0 + e)
    ensures s == f * (1.0 - s)
  {
    assert s * (1.0 + e) == 1.0;
    assert 1.0 - s == s * e;
    assert f * (s * e) == s * (f * e);
  }

  /** The odds of the activation, to what is missing to 1, are the exponential of the state. */
  lemma SigmoidOdds(exp: real -> real, gain: real, x: real)
    requires (forall y :: exp(y) > 0.0) && forall y :: exp(y) * exp(-y) == 1.0
    ensures Sigmoid(exp, gain, x) == exp(gain * x) * (1.0 - Sigmoid(exp, gain, x))
  {
    assert -(gain * x) == -gain * x;
    assert exp(gain * x) * exp(-(gain * x)) == 1.0;
    OddsOf(exp(-gain * x), exp(gain * x), Sigmoid(exp, gain, x));
  }

  lemma LessInverse(e: real, f: real, s: real, t: real)
    requires 0.0 < f < e && s == 1.0 / (1.0 + e) && t == 1.0 / (1.0 + f)
    ensures s < t
  {
    assert s * (1.0 + e) == 1.0 && t * (1.0 + f) == 1.0 && s > 0.0;
    ProductIsPositive(s, e - f, s * (e - f));
    assert (t - s) * (1.0 + f) == s * (e - f);
    FactorIsPositive(t - s, 1.0 + f, s * (e - f));
  }

  lemma FactorIsPositive(d: real, q: real, c: real)
    requires q > 0.0 && c == d * q && c > 0.0
    ensures d > 0.0
  {
    if d < 0.0 { ProductIsPositive(-d, q, -c); }
  }

  lemma FactorKeepsOrder(g: real, x: real, y: real, p: real)
    requires g > 0.0 && x < y && p == g * (y - x)
    ensures -g * y < -g * x
  {
    ProductIsPositive(g, y - x, p);
  }

  /** With a growing exp and a positive gain the activation grows. */
  lemma SigmoidGrows(exp: real -> real, gain: real, x: real, y: real)
    requires (forall z :: exp(z) > 0.0) && (forall a, b :: a < b ==> exp(a) < exp(b)) && gain > 0.0 && x < y
    ensures Sigmoid(exp, gain, x) < Sigmoid(exp, gain, y)
  {
    FactorKeepsOrder(gain, x, y, gain * (y - x));
    LessInverse(exp(-gain * x), exp(-gain * y), Sigmoid(exp, gain, x), Sigmoid(exp, gain, y));
  }

  /** What neuron `j` of layer `k` has to activate: what waits in its state, and what is sent to it. */
  function Incoming(p: seq<nat>, v: Values, k: nat, j: nat): real
    requires Consistent(p, v) && 0 < k < |p| && j < p[k]
  {
    assert |v.s[k]| == p[k] && |v.o[k - 1]| == p[k - 1] && Fitting(v.w[k - 1], p[k - 1], At(p, k));
    v.s[k][j] + Dot(v.w[k - 1], v.o[k - 1], j, p[k - 1])
  }

  lemma NextIsActivation(p: seq<nat>, v: Values, exp: real -> real, gain: real, r: Values, k: nat, j: nat)
    requires forall y :: exp(y) > 0.0
    requires Consistent(p, v) && Consistent(p, r) && IsNext(p, v, Activation(exp, gain), r) && 0 < k < |p| && j < p[k]
    ensures |r.o[k]| == p[k] && r.o[k][j] == Sigmoid(exp, gain, Incoming(p, v, k, j))
  {
    OneCall(p, v, Activation(exp, gain), r, k, j);
  }

  /** The output that a call of fire_nn leaves in a neuron behind the first layer is the activation of what came in, */
  lemma OutputIsActivation(nn: NN<real>, exp: real -> real, p: seq<nat>, v: Values, r: Values, k: nat, j: nat)
    requires forall y :: exp(y) > 0.0
    requires Consistent(p, v) && Consistent(p, r) && IsNext(p, v, Activation(exp, nn.gain), r)
    requires 0 < k < |p| && j < p[k] && |nn.layers| == |r.o| == |r.s| && NetShows(nn.layers, r)
    ensures j < |nn.layers[k].neuros|
    ensures nn.layers[k].neuros[j].output == Sigmoid(exp, nn.gain, Incoming(p, v, k, j))
  {
    NextIsActivation(p, v, exp, nn.gain, r, k, j);
    assert Outputs(nn.layers[k].neuros, r.o[k]);
  }

  /** and so has the odds of it. */
  lemma OutputHasOdds(nn: NN<real>, exp: real -> real, p: seq<nat>, v: Values, r: Values, k: nat, j: nat)
    requires (forall y :: exp(y) > 0.0) && forall y :: exp(y) * exp(-y) == 1.0
    requires Consistent(p, v) && Consistent(p, r) && IsNext(p, v, Activation(exp, nn.gain), r)
    requires 0 < k < |p| && j < p[k] && |nn.layers| == |r.o| == |r.s| && NetShows(nn.layers, r)
    ensures j < |nn.layers[k].neuros|
    ensures var o := nn.layers[k].neuros[j].output; o == exp(nn.gain * Incoming(p, v, k, j)) * (1.0 - o)
  {
    OutputIsActivation(nn, exp, p, v, r, k, j);
    SigmoidOdds(exp, nn.gain, Incoming(p, v, k, j));
  }

  /** Of two neurons with one positive gain the one with more coming in is given the greater output. */
  lemma OutputsGrow(exp: real -> real, gain: real, p: seq<nat>, v: Values, r: Values, k: nat, j: nat,
                    p': seq<nat>, v': Values, r': Values, k': nat, j': nat)
    requires (forall y :: exp(y) > 0.0) && (forall a, b :: a < b ==> exp(a) < exp(b)) && gain > 0.0
    requires Consistent(p, v) && Consistent(p, r) && IsNext(p, v, Activation(exp, gain), r) && 0 < k < |p| && j < p[k]
    requires Consistent(p', v') && Consistent(p', r') && IsNext(p', v', Activation(exp, gain), r')
    requires 0 < k' < |p'| && j' < p'[k'] && Incoming(p, v, k, j) < Incoming(p', v', k', j')
    ensures |r.o[k]| == p[k] && |r'.o[k']| == p'[k'] && r.o[k][j] < r'.o[k'][j']
  {
    NextIsActivation(p, v, exp, gain, r, k, j);
    NextIsActivation(p', v', exp, gain, r', k', j');
    SigmoidGrows(exp, gain, Incoming(p, v, k, j), Incoming(p', v', k', j'));
  }

  // ---- the derivative ----

  lemma StepOf(e: real, f: real, s: real, t: real, ef: real)
    requires e > 0.0 && ef > 0.0 && ef == e * f && s == 1.0 / (1.0 + e) && t == 1.0 / (1.0 + ef)
    ensures t - s == (1.0 - s) * ((1.0 - f) * t)
  {
    var se := s * e;
    InverseOf(1.0 + e, s);
    InverseOf(1.0 + ef, t);
    assert s + se == 1.0 && t + t * ef == 1.0;
    assert t * ef == (t * e) * f;
    Rearranged(e, f, s, t, se, t * ef);
  }

  lemma Rearranged(e: real, f: real, s: real, t: real, se: real, tef: real)
    requires se == s * e && s + se == 1.0 && t + tef == 1.0 && tef == (t * e) * f
    ensures t - s == se * ((1.0 - f) * t)
  {
    calc {
      se * ((1.0 - f) * t);
      se * t - s * ((t * e) * f);
      se * t - s * (1.0 - t);
      (s + se) * t - s;
    }
  }

  lemma ProductGrows(a: real, b: real, c: real, ab: real, ac: real)
    requires a >= 0.0 && b <= c && ab == a * b && ac == a * c
    ensures ab <= ac
  {
    if a > 0.0 && b < c { ProductIsPositive(a, c - b, ac - ab); }
  }

  lemma UpperOfExp(u: real, f: real, g: real, p: real)
    requires u >= -0.5 && f > 0.0 && f * g == 1.0 && g >= 1.0 + u && p == f * u
    ensures f + p <= 1.0 && f <= 2.0
  {
    ProductGrows(f, 1.0 + u, g, f + p, 1.0);
    ProductGrows(f, 0.5, 1.0 + u, 0.5 * f, f + p);
  }

  /** exp near 0: `u` small, `f` for exp(-u) and `g` for exp(u). */
  lemma NearZero(u: real, f: real, g: real, sq: real)
    requires -0.5 <= u <= 0.5 && f > 0.0 && f * g == 1.0 && g >= 1.0 + u && f >= 1.0 - u && sq == u * u
    ensures 0.0 <= u - (1.0 - f) <= 2.0 * sq && Mag(1.0 - f) <= 2.0 * Mag(u)
  {
    var d, p := 1.0 - f, f * u;
    UpperOfExp(u, f, g, p);
    SquareIsPositive(u, sq);
    assert u - p == u * d;
    if u >= 0.0 {
      ProductGrows(f, 0.0, u, 0.0, p);
      ProductGrows(u, d, u, u - p, sq);
    } else {
      ProductGrows(-u, f, 2.0, -p, -2.0 * u);
      ProductGrows(-u, -d, -2.0 * u, u - p, 2.0 * sq);
    }
  }

  lemma MagTimes(a: real, b: real, c: real, m: real)
    requires c == a * b && m == Mag(a) * Mag(b)
    ensures Mag(c) == m
  {
    if a > 0.0 && b > 0.0 { ProductIsPositive(a, b, c); }
    if a > 0.0 && b < 0.0 { ProductIsPositive(a, -b, -c); }
    if a < 0.0 && b > 0.0 { ProductIsPositive(-a, b, -c); }
    if a < 0.0 && b < 0.0 { ProductIsPositive(-a, -b, c); }
  }

  lemma MagOfProduct(a: real, b: real, m: real, c: real)
    requires Mag(a) <= 1.0 && Mag(b) <= m && c == a * b
    ensures Mag(c) <= m
  {
    var n := Mag(a) * Mag(b);
    MagTimes(a, b, c, n);
    ProductGrows(Mag(b), Mag(a), 1.0, n, Mag(b));
  }

  lemma RestIs(u: real, s: real, t: real, step: real, dt: real, a: real, b: real, c: real, rest: real)
    requires t - s == step && step == (1.0 - s) * dt && a == dt - t * u && b == u * step && c == a + b
    requires rest == step - u * (s * (1.0 - s))
    ensures rest == (1.0 - s) * c
  {
    assert c == dt - u * s;
    assert (1.0 - s) * (dt - u * s) == (1.0 - s) * dt - u * (s * (1.0 - s));
  }

  lemma Distribute(t: real, d: real, u: real, dt: real, a: real)
    requires dt == t * d && a == dt - t * u
    ensures a == t * (d - u)
  {
  }

  lemma StepIsSmall(u: real, d: real, s: real, t: real, step: real, dt: real)
    requires 0.0 < s < 1.0 && 0.0 < t < 1.0 && step == (1.0 - s) * dt && dt == t * d && Mag(d) <= 2.0 * Mag(u)
    ensures Mag(step) <= 2.0 * Mag(u)
  {
    MagOfProduct(t, d, 2.0 * Mag(u), dt);
    MagOfProduct(1.0 - s, dt, 2.0 * Mag(u), step);
  }

  lemma TwoRests(u: real, d: real, t: real, step: real, dt: real, sq: real, a: real, b: real)
    requires 0.0 < t < 1.0 && dt == t * d && a == dt - t * u && b == u * step && sq == u * u
    requires 0.0 <= u - d <= 2.0 * sq && Mag(step) <= 2.0 * Mag(u)
    ensures Mag(a + b) <= 4.0 * sq
  {
    Distribute(t, d, u, dt, a);
    MagOfProduct(t, d - u, 2.0 * sq, a);
    StepTimes(u, step, sq, b);
  }

  /** The rest of the first order: `s` and `t` are the activations, `d` for 1 - exp(-u). */
  lemma SmallRest(u: real, d: real, s: real, t: real, step: real, dt: real, sq: real, rest: real)
    requires 0.0 < s < 1.0 && 0.0 < t < 1.0 && t - s == step && step == (1.0 - s) * dt && dt == t * d
    requires 0.0 <= u - d <= 2.0 * sq && Mag(step) <= 2.0 * Mag(u) && sq == u * u
    requires rest == step - u * (s * (1.0 - s))
    ensures Mag(rest) <= 4.0 * sq
  {
    var a, b := dt - t * u, u * step;
    TwoRests(u, d, t, step, dt, sq, a, b);
    RestIs(u, s, t, step, dt, a, b, a + b, rest);
    MagOfProduct(1.0 - s, a + b, 4.0 * sq, rest);
  }

  /** Step and rest, from the exponentials. */
  lemma StepAndRest(e: real, f: real, s: real, t: real, ef: real, u: real, sq: real, rest: real)
    requires e > 0.0 && ef > 0.0 && ef == e * f && s == 1.0 / (1.0 + e) && t == 1.0 / (1.0 + ef)
    requires 0.0 <= u - (1.0 - f) <= 2.0 * sq && Mag(1.0 - f) <= 2.0 * Mag(u) && sq == u * u
    requires rest == t - s - u * (s * (1.0 - s))
    ensures Mag(t - s) <= 2.0 * Mag(u) && Mag(rest) <= 4.0 * sq
  {
    InverseOf(1.0 + e, s);
    InverseOf(1.0 + ef, t);
    StepOf(e, f, s, t, ef);
    var d := 1.0 - f;
    var dt := t * d;
    assert d * t == dt;
    StepIsSmall(u, d, s, t, t - s, dt);
    SmallRest(u, d, s, t, t - s, dt, sq, rest);
  }

  lemma StepTimes(u: real, step: real, sq: real, b: real)
    requires sq == u * u && Mag(step) <= 2.0 * Mag(u) && b == u * step
    ensures Mag(b) <= 2.0 * sq
  {
    MagTimes(u, step, b, Mag(u) * Mag(step));
    MagTimes(u, u, sq, Mag(u) * Mag(u));
    SquareIsPositive(u, sq);
    ProductGrows(Mag(u), Mag(step), 2.0 * Mag(u), Mag(u) * Mag(step), 2.0 * sq);
  }

  lemma SigmoidRest(exp: real -> real, gain: real, x: real, h: real, u: real, sq: real, hs: real)
    requires IsExp(exp) && (forall y :: exp(y) > 0.0) && u == gain * h && -0.5 <= u <= 0.5 && sq == u * u
    requires var s := Sigmoid(exp, gain, x); hs == u * (s * (1.0 - s))
    ensures var s, t := Sigmoid(exp, gain, x), Sigmoid(exp, gain, x + h);
      Mag(t - s) <= 2.0 * Mag(u) && Mag(t - s - hs) <= 4.0 * sq
  {
    var f := ShiftedExp(exp, gain, x, h, u, sq);
    var s, t := Sigmoid(exp, gain, x), Sigmoid(exp, gain, x + h);
    StepAndRest(exp(-gain * x), f, s, t, exp(-gain * (x + h)), u, sq, t - s - hs);
  }

  /** The slope of fire_nn is the derivative of its activation: with a change `h` of the state that the gain makes no
    * greater than a half, the activation changes by the slope times `h`, up to four times the square of gain times `h`;
    * and by twice gain times `h` at most. */
  lemma SlopeIsDerivative(exp: real -> real, gain: real, x: real, h: real, u: real, sq: real)
    requires IsExp(exp) && u == gain * h && -0.5 <= u <= 0.5 && sq == u * u
    ensures forall y :: exp(y) > 0.0
    ensures var s, t := Sigmoid(exp, gain, x), Sigmoid(exp, gain, x + h);
      Mag(t - s - h * Slope(gain, s, 1.0)) <= 4.0 * sq && Mag(t - s) <= 2.0 * Mag(u)
  {
    ExpIsPositive(exp);
    var hs := SlopeTimes(gain, Sigmoid(exp, gain, x), h, u);
    SigmoidRest(exp, gain, x, h, u, sq, hs);
  }

  lemma ShiftedExp(exp: real -> real, gain: real, x: real, h: real, u: real, sq: real) returns (f: real)
    requires IsExp(exp) && u == gain * h && -0.5 <= u <= 0.5 && sq == u * u
    ensures f > 0.0 && exp(-gain * (x + h)) == exp(-gain * x) * f
    ensures 0.0 <= u - (1.0 - f) <= 2.0 * sq && Mag(1.0 - f) <= 2.0 * Mag(u)
  {
    f := exp(-u);
    assert -gain * (x + h) == -gain * x + -u;
    assert ProductOfSum(exp, -gain * x, -u);
    ExpOfMinus(exp, -u, u);
    assert AboveTangent(exp, u) && AboveTangent(exp, -u);
    NearZero(u, f, exp(u), sq);
  }

  lemma SlopeTimes(gain: real, s: real, h: real, u: real) returns (hs: real)
    requires u == gain * h
    ensures hs == h * Slope(gain, s, 1.0) && hs == u * (s * (1.0 - s))
  {
    hs := h * Slope(gain, s, 1.0);
  }
}
