/** The chain rule for the derivative by a row, and the activation of a layer as one link of the chain. */
module Chain {
  import opened Graph
  import opened Fire
  import opened Forward
  import opened Settle
  import opened Backward
  import opened Network
  import opened Logistic
  import opened Gradient

  // ---- the chain rule ----

  function Composed(f: Row -> real, phi: Row -> Row): Row -> real {
    z => f(phi(z))
  }

  /** A change `d` moves `phi` by at most `l` of its size; and of that `g` makes what `h` makes of `d`, up to `q`. */
  ghost predicate Moves(phi: Row -> Row, z: Row, g: Row, h: Row, l: real -> real, q: real -> real, d: Row) {
    && |z| == |d| == |h| && |phi(Plus(z, d))| == |phi(z)| == |g|
    && var e := Off(phi(Plus(z, d)), phi(z));
       Norm(e) <= l(Norm(d)) && Mag(Inner(g, e) - Inner(h, d)) <= q(Norm(d))
  }

  ghost predicate SmallTogether(b: real -> real, l: real -> real, q: real -> real, t: real -> real, m: real, n: real) {
    0.0 <= n <= l(m) ==> b(n) + q(m) <= t(m)
  }

  lemma RestOfChain(f: Row -> real, phi: Row -> Row, z: Row, g: Row, h: Row, d: Row, e: Row)
    requires |z| == |d| == |h| && |phi(Plus(z, d))| == |phi(z)| == |g| && e == Off(phi(Plus(z, d)), phi(z))
    ensures Rest(Composed(f, phi), z, h, d) == Rest(f, phi(z), g, e) + (Inner(g, e) - Inner(h, d))
    ensures Norm(e) >= 0.0
  {
    assert Plus(phi(z), e) == phi(Plus(z, d));
    PartOfNorm(e, 0);
  }

  lemma ChainAt(f: Row -> real, phi: Row -> Row, z: Row, g: Row, h: Row, b: real -> real, l: real -> real,
                q: real -> real, t: real -> real, d: Row)
    requires Moves(phi, z, g, h, l, q, d)
    requires var e := Off(phi(Plus(z, d)), phi(z));
      Close(f, phi(z), g, b, e) && SmallTogether(b, l, q, t, Norm(d), Norm(e))
    ensures Close(Composed(f, phi), z, h, t, d)
  {
    RestOfChain(f, phi, z, g, h, d, Off(phi(Plus(z, d)), phi(z)));
  }

  /** How far a change may go: not beyond `s`, and `l` times it not beyond `r`. */
  lemma Reach(l: real, r: real, s: real) returns (t: real)
    requires l >= 0.0 && r > 0.0 && s > 0.0
    ensures 0.0 < t <= s && forall m | 0.0 <= m <= t :: By(l)(m) <= r
  {
    var k := r / (l + 1.0);
    assert k * (l + 1.0) == r;
    FactorIsPositive(k, l + 1.0, r);
    t := if k < s then k else s;
    forall m | 0.0 <= m <= t ensures By(l)(m) <= r {
      ProductGrows(l, m, k, l * m, l * k);
    }
  }

  lemma SquareOfProduct(l: real, m: real, n: real, lm: real)
    requires lm == l * m && 0.0 <= n <= lm
    ensures Square(n) <= (l * l) * Square(m)
  {
    ProductGrows(n, n, lm, n * n, n * lm);
    ProductGrows(lm, n, lm, lm * n, lm * lm);
    assert lm * lm == (l * l) * (m * m);
  }

  lemma QuadraticsAddUp(c: real, l: real, q: real, m: real, n: real, t: real)
    requires c >= 0.0 && t == c * (l * l) + q
    ensures SmallTogether(Quadratic(c), By(l), Quadratic(q), Quadratic(t), m, n)
  {
    if 0.0 <= n <= l * m {
      SquareOfProduct(l, m, n, l * m);
      ProductGrows(c, Square(n), (l * l) * Square(m), c * Square(n), c * ((l * l) * Square(m)));
      assert t * Square(m) == c * ((l * l) * Square(m)) + q * Square(m);
    }
  }

  lemma ChainUpTo(f: Row -> real, phi: Row -> Row, z: Row, g: Row, h: Row, b: real -> real, l: real -> real,
                  q: real -> real, t: real -> real, r: real, k: real)
    requires CloseUpTo(f, phi(z), g, b, r) && |z| == |h| && k > 0.0
    requires forall d: Row | |d| == |z| && Norm(d) <= k :: Moves(phi, z, g, h, l, q, d)
    requires (forall m | 0.0 <= m <= k :: l(m) <= r) && forall m, n :: SmallTogether(b, l, q, t, m, n)
    ensures CloseUpTo(Composed(f, phi), z, h, t, k)
  {
    forall d: Row | |d| == |z| && Norm(d) <= k ensures Close(Composed(f, phi), z, h, t, d) {
      assert Moves(phi, z, g, h, l, q, d);
      var e := Off(phi(Plus(z, d)), phi(z));
      PartOfNorm(d, 0);
      assert Close(f, phi(z), g, b, e) && SmallTogether(b, l, q, t, Norm(d), Norm(e));
      ChainAt(f, phi, z, g, h, b, l, q, t, d);
    }
  }

  /** The chain rule. */
  lemma ChainRule(f: Row -> real, phi: Row -> Row, z: Row, g: Row, h: Row, l: real, q: real, s: real)
    requires Derives(f, phi(z), g) && |z| == |h| && l >= 0.0 && q >= 0.0 && s > 0.0
    requires forall d: Row | |d| == |z| && Norm(d) <= s :: Moves(phi, z, g, h, By(l), Quadratic(q), d)
    ensures Derives(Composed(f, phi), z, h)
  {
    var c, r :| c >= 0.0 && CloseUpTo(f, phi(z), g, Quadratic(c), r);
    var k := Reach(l, r, s);
    var t := OneBound(c, l, q);
    forall m, n ensures SmallTogether(Quadratic(c), By(l), Quadratic(q), Quadratic(t), m, n) {
      QuadraticsAddUp(c, l, q, m, n, t);
    }
    ChainUpTo(f, phi, z, g, h, Quadratic(c), By(l), Quadratic(q), Quadratic(t), r, k);
  }

  lemma OneBound(c: real, l: real, q: real) returns (t: real)
    requires c >= 0.0 && l >= 0.0 && q >= 0.0
    ensures t == c * (l * l) + q && t >= 0.0
  {
    SquareIsPositive(l, l * l);
    ProductGrows(c, 0.0, l * l, 0.0, c * (l * l));
    t := c * (l * l) + q;
  }

  // ---- the activation of a layer ----

  /** Where gain times `d` is small, the step of `act` is `d` times the slope of its value, up to second order. */
  predicate Steps(act: real -> real, slope: real -> real, gain: real, x: real, d: real) {
    var u, e := gain * d, act(x + d) - act(x);
    Mag(u) <= 0.5 ==> Mag(e) <= 2.0 * Mag(u) && Mag(e - d * slope(act(x))) <= 4.0 * (u * u)
  }

  ghost predicate Sloped(act: real -> real, slope: real -> real, gain: real) {
    forall x, d :: Steps(act, slope, gain, x, d)
  }

  /** What is left of an error `1.0` behind a neuron with the output `o`. */
  function SlopeOf(gain: real): real -> real {
    o => Slope(gain, o, 1.0)
  }

  lemma StepsIf(act: real -> real, slope: real -> real, gain: real, x: real, d: real, u: real, sq: real, hs: real,
                s: real, t: real)
    requires u == gain * d && sq == u * u && s == act(x) && t == act(x + d) && hs == d * slope(s)
    requires Mag(u) <= 0.5 ==> Mag(t - s) <= 2.0 * Mag(u) && Mag(t - s - hs) <= 4.0 * sq
    ensures Steps(act, slope, gain, x, d)
  {
  }

  lemma SigmoidNear(exp: real -> real, gain: real, x: real, d: real, u: real, sq: real)
    returns (s: real, t: real, hs: real)
    requires IsExp(exp) && (forall y :: exp(y) > 0.0) && u == gain * d && sq == u * u
    ensures s == Sigmoid(exp, gain, x) && t == Sigmoid(exp, gain, x + d) && hs == d * Slope(gain, s, 1.0)
    ensures Mag(u) <= 0.5 ==> Mag(t - s) <= 2.0 * Mag(u) && Mag(t - s - hs) <= 4.0 * sq
  {
    s, t := Sigmoid(exp, gain, x), Sigmoid(exp, gain, x + d);
    hs := SlopeTimes(gain, s, d, u);
    if Mag(u) <= 0.5 { SigmoidRest(exp, gain, x, d, u, sq, hs); }
  }

  lemma SigmoidSteps(exp: real -> real, gain: real, x: real, d: real)
    requires IsExp(exp) && forall y :: exp(y) > 0.0
    ensures Steps(Activation(exp, gain), SlopeOf(gain), gain, x, d)
  {
    var u := gain * d;
    var s, t, hs := SigmoidNear(exp, gain, x, d, u, u * u);
    StepsIf(Activation(exp, gain), SlopeOf(gain), gain, x, d, u, u * u, hs, s, t);
  }

  lemma SigmoidIsSloped(exp: real -> real, gain: real)
    requires IsExp(exp) && forall y :: exp(y) > 0.0
    ensures Sloped(Activation(exp, gain), SlopeOf(gain), gain)
  {
    forall x, d ensures Steps(Activation(exp, gain), SlopeOf(gain), gain, x, d) { SigmoidSteps(exp, gain, x, d); }
  }

  lemma SlopeWeighed(gain: real, o: real, e: real)
    ensures Slope(gain, o, e) == e * SlopeOf(gain)(o)
  {
  }

  function Layerwise(act: real -> real): Row -> Row {
    z => Activate(act, z)
  }

  predicate SlopingAt(slope: real -> real, o: real, g: real, h: real) {
    h == g * slope(o)
  }

  /** The slopes make `h` of a gradient `g` by the outputs. */
  ghost predicate Sloping(slope: real -> real, o: Row, g: Row, h: Row) {
    && |o| == |g| == |h|
    && forall i {:trigger SlopingAt(slope, o[i], g[i], h[i])} | 0 <= i < |o| :: SlopingAt(slope, o[i], g[i], h[i])
  }

  lemma Within(gain: real, d: real, n: real, u: real)
    requires u == gain * d && Mag(d) <= n && By(Mag(gain))(n) <= 0.5
    ensures Mag(u) <= 0.5
  {
    MagTimes(gain, d, u, Mag(gain) * Mag(d));
    ProductGrows(Mag(gain), Mag(d), n, Mag(gain) * Mag(d), Mag(gain) * n);
  }

  lemma MovesByGain(gain: real, d: real, u: real, l: real, e: real)
    requires u == gain * d && l == 2.0 * Mag(gain) && Mag(e) <= 2.0 * Mag(u)
    ensures Mag(e) <= By(l)(Mag(d))
  {
    MagTimes(gain, d, u, Mag(gain) * Mag(d));
  }

  lemma WeighedRest(gain: real, d: real, u: real, g: real, n: real, q: real, r: real, c: real)
    requires u == gain * d && Mag(g) <= n && q == n * (4.0 * (gain * gain)) && Mag(r) <= 4.0 * (u * u) && c == g * r
    ensures Mag(c) <= By(q)(d * d)
  {
    var b := 4.0 * (u * u);
    MagTimes(g, r, c, Mag(g) * Mag(r));
    ProductGrows(Mag(g), Mag(r), b, Mag(g) * Mag(r), Mag(g) * b);
    SquareIsPositive(u, u * u);
    ProductGrows(b, Mag(g), n, b * Mag(g), b * n);
    assert u * u == (gain * gain) * (d * d);
    assert b * n == q * (d * d);
  }

  lemma RestWeighed(sg: real, g: real, sl: real, d: real, e: real, ge: real, hd: real)
    requires sg == g * sl && ge == g * e && hd == sg * d
    ensures ge - hd == g * (e - d * sl)
  {
    assert hd == g * (d * sl);
  }

  /** One neuron: `e` is the step of its output, `sl` its slope, and `g` the gradient by it. */
  lemma NeuronMoves(gain: real, d: real, u: real, sl: real, e: real, g: real, sg: real, m: real, l: real, q: real,
                    ge: real, hd: real)
    requires u == gain * d && Mag(e) <= 2.0 * Mag(u) && Mag(e - d * sl) <= 4.0 * (u * u)
    requires Mag(g) <= m && l == 2.0 * Mag(gain) && q == m * (4.0 * (gain * gain))
    requires sg == g * sl && ge == g * e && hd == sg * d
    ensures Mag(e) <= By(l)(Mag(d)) && Mag(ge - hd) <= By(q)(d * d)
  {
    MovesByGain(gain, d, u, l, e);
    RestWeighed(sg, g, sl, d, e, ge, hd);
    WeighedRest(gain, d, u, g, m, q, e - d * sl, ge - hd);
  }

  /** A step `e` of at most `l`, of which a gradient `g` makes what `sg` makes of `d`, up to `q`. */
  predicate MovesLittle(l: real -> real, q: real -> real, d: real, g: real, e: real, sg: real) {
    Mag(e) <= l(Mag(d)) && Mag(g * e - sg * d) <= q(d * d)
  }

  lemma ActivationMovesAt(act: real -> real, slope: real -> real, gain: real, x: real, d: real, n: real, e: real,
                          g: real, sg: real, m: real, l: real, q: real)
    requires Sloped(act, slope, gain) && Mag(d) <= n && By(Mag(gain))(n) <= 0.5 && Mag(g) <= m
    requires l == 2.0 * Mag(gain) && q == m * (4.0 * (gain * gain))
    requires e == act(x + d) - act(x) && sg == g * slope(act(x))
    ensures MovesLittle(By(l), By(q), d, g, e, sg)
  {
    Within(gain, d, n, gain * d);
    assert Steps(act, slope, gain, x, d);
    NeuronMoves(gain, d, gain * d, slope(act(x)), e, g, sg, m, l, q, g * e, sg * d);
  }

  lemma ActivationMovesRow(g: Row, d: Row, e: Row, h: Row, l: real -> real, q: real -> real, i: nat)
    requires i < |g| == |d| == |e| == |h| && MovesLittle(l, q, d[i], g[i], e[i], h[i])
    ensures Mags(e)[i] <= l(Mags(d)[i])
    ensures Mag(Products(g, e)[i] - Products(h, d)[i]) <= q(Products(d, d)[i])
  {
    assert Products(d, d)[i] == d[i] * d[i];
  }

  ghost predicate RowIsLittle(l: real -> real, q: real -> real, d: Row, g: Row, e: Row, h: Row) {
    && |g| == |d| == |e| == |h|
    && forall i {:trigger MovesLittle(l, q, d[i], g[i], e[i], h[i])} | 0 <= i < |d| ::
         MovesLittle(l, q, d[i], g[i], e[i], h[i])
  }

  lemma RowMovesLittle(g: Row, d: Row, e: Row, h: Row, l: real -> real, q: real -> real)
    requires Additive(l) && Additive(q) && RowIsLittle(l, q, d, g, e, h)
    ensures Norm(e) <= l(Norm(d)) && Mag(Inner(g, e) - Inner(h, d)) <= q(Inner(d, d))
  {
    forall i | 0 <= i < |d| ensures Mags(e)[i] <= l(Mags(d)[i])
      && Mag(Products(g, e)[i] - Products(h, d)[i]) <= q(Products(d, d)[i])
    {
      ActivationMovesRow(g, d, e, h, l, q, i);
    }
    TotalIsBelow(Mags(e), l, Mags(d), |d|);
    TotalsAreClose(Products(g, e), Products(h, d), q, Products(d, d), |d|);
  }

  /** This holds of all neurons, for changes up to `n` and gradients up to `m`. */
  predicate NeuronIsBound(act: real -> real, slope: real -> real, n: real, m: real, l: real -> real, q: real -> real,
                          x: real, d: real, g: real, e: real, sg: real) {
    Mag(d) <= n && Mag(g) <= m && e == act(x + d) - act(x) && SlopingAt(slope, act(x), g, sg) ==>
      MovesLittle(l, q, d, g, e, sg)
  }

  ghost predicate Bounded(act: real -> real, slope: real -> real, n: real, m: real, l: real -> real, q: real -> real) {
    forall x, d, g, e, sg :: NeuronIsBound(act, slope, n, m, l, q, x, d, g, e, sg)
  }

  lemma ActivationIsBounded(act: real -> real, slope: real -> real, gain: real, m: real)
    returns (n: real, l: real, q: real)
    requires Sloped(act, slope, gain) && m >= 0.0
    ensures n > 0.0 && l >= 0.0 && q >= 0.0 && Bounded(act, slope, n, m, By(l), By(q))
  {
    n := Reach(Mag(gain), 0.5, 1.0);
    l, q := BoundOf(gain, m);
    forall x, d, g, e, sg ensures NeuronIsBound(act, slope, n, m, By(l), By(q), x, d, g, e, sg) {
      if Mag(d) <= n && Mag(g) <= m && e == act(x + d) - act(x) && SlopingAt(slope, act(x), g, sg) {
        ActivationMovesAt(act, slope, gain, x, d, n, e, g, sg, m, l, q);
      }
    }
  }

  lemma BoundOf(gain: real, m: real) returns (l: real, q: real)
    requires m >= 0.0
    ensures l == 2.0 * Mag(gain) && q == m * (4.0 * (gain * gain)) && q >= 0.0
  {
    l, q := 2.0 * Mag(gain), m * (4.0 * (gain * gain));
    SquareIsPositive(gain, gain * gain);
    ProductGrows(m, 0.0, 4.0 * (gain * gain), 0.0, q);
  }

  lemma NeuronIsLittle(act: real -> real, slope: real -> real, n: real, m: real, l: real -> real, q: real -> real,
                       x: real, d: real, t: real, o: real, g: real, e: real, sg: real)
    requires Bounded(act, slope, n, m, l, q) && Mag(d) <= n && Mag(g) <= m
    requires t == x + d && o == act(x) && e == act(t) - o && SlopingAt(slope, o, g, sg)
    ensures MovesLittle(l, q, d, g, e, sg)
  {
    assert NeuronIsBound(act, slope, n, m, l, q, x, d, g, e, sg);
  }

  /** `t` is `z` changed by `d`; `o` and `e` are its activations and their steps. */
  ghost predicate Stepping(act: real -> real, z: Row, d: Row, t: Row, o: Row, e: Row) {
    && |z| == |d| == |t| == |o| == |e|
    && forall i | 0 <= i < |z| :: t[i] == z[i] + d[i] && o[i] == act(z[i]) && e[i] == act(t[i]) - o[i]
  }

  lemma ActivateSteps(act: real -> real, z: Row, d: Row)
    requires |z| == |d|
    ensures var t, o := Plus(z, d), Activate(act, z); Stepping(act, z, d, t, o, Off(Activate(act, t), o))
  {
  }

  lemma PartsOfNorm(d: Row, n: real)
    requires Norm(d) <= n
    ensures forall i | 0 <= i < |d| :: Mag(d[i]) <= n
  {
    forall i | 0 <= i < |d| ensures Mag(d[i]) <= n { PartOfNorm(d, i); }
  }

  lemma ActivatedRow(act: real -> real, slope: real -> real, z: Row, g: Row, d: Row, t: Row, o: Row, e: Row, h: Row,
                     n: real, m: real, l: real -> real, q: real -> real)
    requires Bounded(act, slope, n, m, l, q) && |z| == |g| == |d| == |t| == |e| && Sloping(slope, o, g, h)
    requires Stepping(act, z, d, t, o, e) && forall i | 0 <= i < |d| :: Mag(d[i]) <= n && Mag(g[i]) <= m
    ensures RowIsLittle(l, q, d, g, e, h)
  {
    forall i | 0 <= i < |d| ensures MovesLittle(l, q, d[i], g[i], e[i], h[i]) {
      NeuronIsLittle(act, slope, n, m, l, q, z[i], d[i], t[i], o[i], g[i], e[i], h[i]);
    }
  }

  lemma ActivatedTotals(act: real -> real, slope: real -> real, z: Row, g: Row, d: Row, t: Row, o: Row, e: Row, h: Row,
                        n: real, m: real, l: real -> real, q: real -> real)
    requires Bounded(act, slope, n, m, l, q) && |z| == |g| == |d| && Norm(d) <= n && Norm(g) <= m
    requires Stepping(act, z, d, t, o, e) && Sloping(slope, o, g, h) && Additive(l) && Additive(q)
    ensures Norm(e) <= l(Norm(d)) && Mag(Inner(g, e) - Inner(h, d)) <= q(Inner(d, d))
  {
    PartsOfNorm(d, n);
    PartsOfNorm(g, m);
    ActivatedRow(act, slope, z, g, d, t, o, e, h, n, m, l, q);
    RowMovesLittle(g, d, e, h, l, q);
  }

  lemma SquaresAreQuadratic(q: real, d: Row)
    requires q >= 0.0
    ensures By(q)(Inner(d, d)) <= Quadratic(q)(Norm(d))
  {
    SquaresAreBelow(d, |d|);
    ProductGrows(q, Inner(d, d), Square(Norm(d)), q * Inner(d, d), q * Square(Norm(d)));
  }

  lemma MovesIf(phi: Row -> Row, z: Row, g: Row, h: Row, d: Row, e: Row, l: real -> real, q: real -> real, x: real)
    requires |z| == |d| == |h| && |phi(Plus(z, d))| == |phi(z)| == |g| && e == Off(phi(Plus(z, d)), phi(z))
    requires Norm(e) <= l(Norm(d)) && Mag(Inner(g, e) - Inner(h, d)) <= x <= q(Norm(d))
    ensures Moves(phi, z, g, h, l, q, d)
  {
  }

  lemma ActivationMoves(act: real -> real, slope: real -> real, z: Row, g: Row, h: Row, d: Row, n: real, m: real,
                        l: real -> real, q: real -> real, u: real -> real, t: Row, o: Row, e: Row)
    requires Bounded(act, slope, n, m, l, q) && |z| == |g| == |d| && Norm(d) <= n && Norm(g) <= m
    requires Sloping(slope, o, g, h) && Additive(l) && Additive(q) && q(Inner(d, d)) <= u(Norm(d))
    requires t == Plus(z, d) && o == Layerwise(act)(z) && Stepping(act, z, d, t, o, e)
    requires |Layerwise(act)(t)| == |o| && e == Off(Layerwise(act)(t), o)
    ensures Moves(Layerwise(act), z, g, h, l, u, d)
  {
    ActivatedTotals(act, slope, z, g, d, t, o, e, h, n, m, l, q);
    MovesIf(Layerwise(act), z, g, h, d, e, l, u, q(Inner(d, d)));
  }

  /** Through the activation of a layer a gradient by its outputs becomes one by its states. */
  lemma ActivationDerives(f: Row -> real, act: real -> real, slope: real -> real, gain: real, z: Row, g: Row, h: Row)
    requires Sloped(act, slope, gain) && Derives(f, Activate(act, z), g) && Sloping(slope, Activate(act, z), g, h)
    ensures Derives(Composed(f, Layerwise(act)), z, h)
  {
    PartOfNorm(g, 0);
    var n, l, q := ActivationIsBounded(act, slope, gain, Norm(g));
    forall d: Row | |d| == |z| && Norm(d) <= n ensures Moves(Layerwise(act), z, g, h, By(l), Quadratic(q), d) {
      var t, o := Plus(z, d), Activate(act, z);
      SquaresAreQuadratic(q, d);
      ActivateSteps(act, z, d);
      ActivationMoves(act, slope, z, g, h, d, n, Norm(g), By(l), By(q), Quadratic(q), t, o, Off(Activate(act, t), o));
    }
    ChainRule(f, Layerwise(act), z, g, h, l, q, n);
  }
}
