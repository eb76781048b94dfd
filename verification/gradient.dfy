/** The errors of fire_nn are minus the gradient of the network error: first the derivative of a number by a row. */
module Gradient {
  import opened Backward
  import opened Fire
  import opened Logistic
  import opened Network

  // ---- sums ----

  /** The sum of the first `m` entries. */
  function Total(x: Row, m: nat): real
    requires m <= |x|
  {
    if m == 0 then 0.0 else Total(x, m - 1) + x[m - 1]
  }

  predicate AddsUp(f: real -> real, a: real, b: real) {
    f(a + b) == f(a) + f(b)
  }

  ghost predicate Additive(f: real -> real) {
    f(0.0) == 0.0 && forall a, b :: AddsUp(f, a, b)
  }

  /** `c` times. */
  function By(c: real): (f: real -> real)
    ensures Additive(f)
  {
    var f := x => c * x;
    forall a, b ensures AddsUp(f, a, b) { Distributes(c, a, b, a + b, c * a, c * b); }
    f
  }

  lemma Distributes(c: real, a: real, b: real, s: real, ca: real, cb: real)
    requires s == a + b && ca == c * a && cb == c * b
    ensures c * s == ca + cb
  {
  }

  lemma {:induction false} TotalAdds(x: Row, y: Row, z: Row, m: nat)
    requires m <= |x| && m <= |y| && m <= |z| && forall i | 0 <= i < m :: z[i] == x[i] + y[i]
    ensures Total(z, m) == Total(x, m) + Total(y, m)
  {
    if m > 0 { TotalAdds(x, y, z, m - 1); }
  }

  lemma {:induction false} TotalIsBelow(x: Row, f: real -> real, b: Row, m: nat)
    requires Additive(f) && m <= |x| && m <= |b| && forall i | 0 <= i < m :: x[i] <= f(b[i])
    ensures Total(x, m) <= f(Total(b, m))
  {
    if m > 0 {
      TotalIsBelow(x, f, b, m - 1);
      assert AddsUp(f, Total(b, m - 1), b[m - 1]);
    }
  }

  /** What holds of the differences place by place holds of the sums. */
  lemma {:induction false} TotalsAreClose(x: Row, y: Row, f: real -> real, b: Row, m: nat)
    requires Additive(f) && m <= |x| && m <= |y| && m <= |b|
    requires forall i | 0 <= i < m :: Mag(x[i] - y[i]) <= f(b[i])
    ensures Mag(Total(x, m) - Total(y, m)) <= f(Total(b, m))
  {
    if m > 0 {
      TotalsAreClose(x, y, f, b, m - 1);
      assert AddsUp(f, Total(b, m - 1), b[m - 1]);
    }
  }

  function Mags(x: Row): (y: Row)
    ensures |y| == |x| && forall i | 0 <= i < |x| :: y[i] == Mag(x[i])
  {
    seq(|x|, i requires 0 <= i < |x| => Mag(x[i]))
  }

  function Norm(d: Row): (n: real) {
    Total(Mags(d), |d|)
  }

  lemma {:induction false} PartOfTotal(x: Row, i: nat, m: nat)
    requires m <= |x| && (forall j | 0 <= j < m :: x[j] >= 0.0)
    ensures Total(x, m) >= 0.0 && (i < m ==> x[i] <= Total(x, m))
  {
    if m > 0 { PartOfTotal(x, i, m - 1); }
  }

  lemma PartOfNorm(d: Row, i: nat)
    ensures Norm(d) >= 0.0 && (i < |d| ==> Mag(d[i]) <= Norm(d))
  {
    PartOfTotal(Mags(d), i, |d|);
  }

  /** The products, place by place. */
  function Products(g: Row, d: Row): (y: Row)
    requires |g| == |d|
    ensures |y| == |d|
  {
    seq(|d|, i requires 0 <= i < |d| => g[i] * d[i])
  }

  lemma ProductAt(g: Row, d: Row, i: nat) returns (p: real)
    requires i < |g| == |d|
    ensures p == Products(g, d)[i] && p == g[i] * d[i]
  {
    p := g[i] * d[i];
  }

  function Inner(g: Row, d: Row): real
    requires |g| == |d|
  {
    Total(Products(g, d), |d|)
  }

  lemma SumOfProducts(x: Row, d: Row, y: Row, z: Row, i: nat)
    requires i < |x| == |d| == |y| == |z| && y[i] == x[i] + d[i]
    ensures Products(y, z)[i] == Products(x, z)[i] + Products(d, z)[i]
  {
    Distributes(z[i], x[i], d[i], y[i], z[i] * x[i], z[i] * d[i]);
  }

  /** The inner product is additive, */
  lemma InnerAdds(x: Row, d: Row, y: Row, z: Row)
    requires |x| == |d| == |y| == |z| && forall i | 0 <= i < |x| :: y[i] == x[i] + d[i]
    ensures Inner(y, z) == Inner(x, z) + Inner(d, z)
  {
    forall i | 0 <= i < |x| ensures Products(y, z)[i] == Products(x, z)[i] + Products(d, z)[i] {
      SumOfProducts(x, d, y, z, i);
    }
    TotalAdds(Products(x, z), Products(d, z), Products(y, z), |x|);
  }

  lemma ProductTurns(x: Row, y: Row, i: nat)
    requires i < |x| == |y|
    ensures Products(x, y)[i] == Products(y, x)[i]
  {
    var p := ProductAt(x, y, i);
    var q := ProductAt(y, x, i);
  }

  /** and symmetric. */
  lemma InnerTurns(x: Row, y: Row)
    requires |x| == |y|
    ensures Inner(x, y) == Inner(y, x)
  {
    forall i | 0 <= i < |x| ensures Products(x, y)[i] == Products(y, x)[i] { ProductTurns(x, y, i); }
    assert Products(x, y) == Products(y, x);
  }

  function Square(x: real): real {
    x * x
  }

  lemma OneMoreSquare(n: real, x: real, a: real, xx: real, na: real)
    requires n >= 0.0 && a == Mag(x) && xx == x * x && na == n * a
    ensures 0.0 <= xx && Square(n) + xx <= Square(n + a)
  {
    SquareIsPositive(x, xx);
    assert a * a == xx;
    ProductGrows(n, 0.0, a, 0.0, na);
    assert Square(n + a) == Square(n) + 2.0 * na + xx;
  }

  lemma {:induction false} SquaresAreBelow(d: Row, m: nat)
    requires m <= |d|
    ensures 0.0 <= Total(Products(d, d), m) <= Square(Total(Mags(d), m)) && Total(Mags(d), m) >= 0.0
  {
    if m > 0 {
      SquaresAreBelow(d, m - 1);
      var n, x := Total(Mags(d), m - 1), d[m - 1];
      var p := ProductAt(d, d, m - 1);
      OneMoreSquare(n, x, Mag(x), p, n * Mag(x));
    }
  }

  // ---- the derivative of a number by a row ----

  /** `z` changed by `d`, place by place. */
  function Plus(z: Row, d: Row): (t: Row)
    requires |z| == |d|
    ensures |t| == |z| && forall i | 0 <= i < |z| :: t[i] == z[i] + d[i]
  {
    seq(|z|, i requires 0 <= i < |z| => z[i] + d[i])
  }

  /** What a change by `d` leaves beyond the first order. */
  function Rest(f: Row -> real, z: Row, g: Row, d: Row): real
    requires |z| == |g| == |d|
  {
    f(Plus(z, d)) - f(z) - Inner(g, d)
  }

  /** The rest is at most `b` of the size of the change, */
  ghost predicate Close(f: Row -> real, z: Row, g: Row, b: real -> real, d: Row)
    requires |z| == |g| == |d|
  {
    Mag(Rest(f, z, g, d)) <= b(Norm(d))
  }

  /** for all changes up to `r`. */
  ghost predicate CloseUpTo(f: Row -> real, z: Row, g: Row, b: real -> real, r: real) {
    r > 0.0 && |z| == |g| && forall d: Row | |d| == |z| && Norm(d) <= r :: Close(f, z, g, b, d)
  }

  function Quadratic(c: real): real -> real {
    n => c * Square(n)
  }

  /** `g` is the gradient of `f` at `z`: the rest is of the second order. */
  ghost predicate Derives(f: Row -> real, z: Row, g: Row) {
    exists c, r :: c >= 0.0 && CloseUpTo(f, z, g, Quadratic(c), r)
  }

  // ---- half the summed squares ----

  /** The differences from what is expected. */
  function Off(o: Row, expected: Row): (g: Row)
    requires |o| <= |expected|
    ensures |g| == |o| && forall i | 0 <= i < |o| :: g[i] == o[i] - expected[i]
  {
    seq(|o|, i requires 0 <= i < |o| => o[i] - expected[i])
  }

  /** Half the square of each difference. */
  function Halves(o: Row, expected: Row): (y: Row)
    requires |o| <= |expected|
    ensures |y| == |o| && forall i | 0 <= i < |o| :: y[i] == Half(expected[i] - o[i])
  {
    seq(|o|, i requires 0 <= i < |o| => Half(expected[i] - o[i]))
  }

  lemma {:induction false} HalfSquaresIsTotal(o: Row, expected: Row, h: Row, m: nat)
    requires m <= |h| == |o| <= |expected| && forall i | 0 <= i < |o| :: h[i] == Half(expected[i] - o[i])
    ensures HalfSquares(o, expected, m) == Total(h, m)
  {
    if m > 0 { HalfSquaresIsTotal(o, expected, h, m - 1); }
  }

  lemma HalfIs(e: real, x: real, h: real, xx: real)
    requires x == -e && h == Half(e) && xx == x * x
    ensures xx == h + h
  {
  }

  lemma ProductIsHalves(o: Row, expected: Row, x: Row, i: nat)
    requires i < |o| == |x| <= |expected| && x[i] == o[i] - expected[i]
    ensures Products(x, x)[i] == Halves(o, expected)[i] + Halves(o, expected)[i]
  {
    var p := ProductAt(x, x, i);
    HalfIs(expected[i] - o[i], x[i], Halves(o, expected)[i], p);
  }

  lemma TwiceHalfSquares(o: Row, expected: Row, x: Row)
    requires |o| <= |expected| && x == Off(o, expected)
    ensures Inner(x, x) == 2.0 * HalfSquares(o, expected, |o|)
  {
    var h := Halves(o, expected);
    HalfSquaresIsTotal(o, expected, h, |o|);
    forall i | 0 <= i < |o| ensures Products(x, x)[i] == h[i] + h[i] { ProductIsHalves(o, expected, x, i); }
    TotalAdds(h, h, Products(x, x), |o|);
  }

  lemma HalfSquaresRest(o: Row, d: Row, expected: Row, m: nat)
    requires m == |o| == |d| <= |expected|
    ensures HalfSquares(Plus(o, d), expected, m) - HalfSquares(o, expected, m) - Inner(Off(o, expected), d)
      == 0.5 * Inner(d, d)
  {
    var x, y := Off(o, expected), Off(Plus(o, d), expected);
    TwiceHalfSquares(o, expected, x);
    TwiceHalfSquares(Plus(o, d), expected, y);
    InnerAdds(x, d, y, y);
    InnerAdds(x, d, y, x);
    InnerAdds(x, d, y, d);
    InnerTurns(x, y);
    InnerTurns(d, y);
    InnerTurns(d, x);
  }

  /** The network error as a number of `n` outputs. */
  ghost function ErrorOf(expected: Row, n: nat): Row -> real
    requires n <= |expected|
  {
    o => if |o| == n then HalfSquares(o, expected, n) else 0.0
  }

  lemma ErrorIsClose(o: Row, expected: Row, d: Row)
    requires |o| == |d| <= |expected|
    ensures Close(ErrorOf(expected, |o|), o, Off(o, expected), Quadratic(0.5), d)
  {
    HalfSquaresRest(o, d, expected, |o|);
    SquaresAreBelow(d, |d|);
  }

  /** The gradient of the network error by the outputs of the last layer. */
  lemma ErrorDerives(o: Row, expected: Row)
    requires |o| <= |expected|
    ensures Derives(ErrorOf(expected, |o|), o, Off(o, expected))
  {
    forall d: Row | |d| == |o| && Norm(d) <= 1.0
      ensures Close(ErrorOf(expected, |o|), o, Off(o, expected), Quadratic(0.5), d)
    {
      ErrorIsClose(o, expected, d);
    }
    assert CloseUpTo(ErrorOf(expected, |o|), o, Off(o, expected), Quadratic(0.5), 1.0);
  }

  // ---- one place of the row ----

  /** From `x` to `y` the step is `h` times `s`, up to `eps` times `h`. */
  predicate StepIs(x: real, y: real, s: real, eps: real, h: real) {
    Mag(y - x - s * h) <= eps * Mag(h)
  }

  /** A change of place `i` by `h` changes `f` by `h` times `s`, up to `eps` times `h`, */
  ghost predicate Follows(f: Row -> real, z: Row, i: nat, s: real, eps: real, h: real)
    requires i < |z|
  {
    StepIs(f(z), f(z[i := z[i] + h]), s, eps, h)
  }

  /** for all changes up to `delta`, */
  ghost predicate FollowsUpTo(f: Row -> real, z: Row, i: nat, s: real, eps: real, delta: real)
    requires i < |z|
  {
    delta > 0.0 && forall h | Mag(h) <= delta :: Follows(f, z, i, s, eps, h)
  }

  /** and for every `eps` there is such a `delta`: `s` is the derivative of `f` by place `i`. */
  ghost predicate IsDerivative(f: Row -> real, z: Row, i: nat, s: real)
    requires i < |z|
  {
    forall eps | eps > 0.0 :: HasDelta(f, z, i, s, eps)
  }

  ghost predicate HasDelta(f: Row -> real, z: Row, i: nat, s: real, eps: real)
    requires i < |z|
  {
    exists delta :: FollowsUpTo(f, z, i, s, eps, delta)
  }

  /** A change of one place alone. */
  function Single(n: nat, i: nat, h: real): (d: Row)
    ensures |d| == n && forall j | 0 <= j < n :: d[j] == if j == i then h else 0.0
  {
    seq(n, j requires 0 <= j < n => if j == i then h else 0.0)
  }

  lemma {:induction false} TotalOfSingle(x: Row, i: nat, m: nat)
    requires m <= |x| && forall j | 0 <= j < |x| && j != i :: x[j] == 0.0
    ensures Total(x, m) == if i < m then x[i] else 0.0
  {
    if m > 0 { TotalOfSingle(x, i, m - 1); }
  }

  lemma ProductsOfSingle(g: Row, i: nat, h: real)
    requires i < |g|
    ensures Inner(g, Single(|g|, i, h)) == g[i] * h
  {
    var d := Single(|g|, i, h);
    forall j | 0 <= j < |g| && j != i ensures Products(g, d)[j] == 0.0 { var p := ProductAt(g, d, j); }
    var p := ProductAt(g, d, i);
    TotalOfSingle(Products(g, d), i, |g|);
  }

  lemma NormOfSingle(n: nat, i: nat, h: real)
    requires i < n
    ensures Norm(Single(n, i, h)) == Mag(h)
  {
    TotalOfSingle(Mags(Single(n, i, h)), i, n);
  }

  lemma RestOfSingle(f: Row -> real, z: Row, g: Row, i: nat, h: real)
    requires i < |z| == |g|
    ensures Rest(f, z, g, Single(|z|, i, h)) == f(z[i := z[i] + h]) - f(z) - g[i] * h
  {
    ProductsOfSingle(g, i, h);
    assert Plus(z, Single(|z|, i, h)) == z[i := z[i] + h];
  }

  predicate IsBelow(b: real -> real, eps: real, m: real) {
    b(m) <= eps * m
  }

  lemma SecondIsBelow(c: real, eps: real, k: real, m: real)
    requires c >= 0.0 && 0.0 <= m <= k && k * (c + 1.0) == eps
    ensures IsBelow(Quadratic(c), eps, m)
  {
    ProductGrows(c + 1.0, m, k, (c + 1.0) * m, eps);
    ProductGrows(m, (c + 1.0) * m, eps, m * ((c + 1.0) * m), m * eps);
    SquareIsPositive(m, m * m);
    assert m * ((c + 1.0) * m) == c * (m * m) + m * m;
  }

  lemma FollowsIf(f: Row -> real, z: Row, g: Row, i: nat, s: real, b: real -> real, eps: real, h: real)
    requires i < |z| == |g| && s == g[i] && Close(f, z, g, b, Single(|z|, i, h)) && IsBelow(b, eps, Mag(h))
    ensures Follows(f, z, i, s, eps, h)
  {
    NormOfSingle(|z|, i, h);
    RestOfSingle(f, z, g, i, h);
  }

  lemma FollowsIfClose(f: Row -> real, z: Row, g: Row, i: nat, s: real, b: real -> real, r: real, eps: real,
                       delta: real)
    requires CloseUpTo(f, z, g, b, r) && i < |z| && s == g[i] && 0.0 < delta <= r
    requires forall m | 0.0 <= m <= delta :: IsBelow(b, eps, m)
    ensures FollowsUpTo(f, z, i, s, eps, delta)
  {
    forall h | Mag(h) <= delta ensures Follows(f, z, i, s, eps, h) {
      NormOfSingle(|z|, i, h);
      assert Close(f, z, g, b, Single(|z|, i, h)) && IsBelow(b, eps, Mag(h));
      FollowsIf(f, z, g, i, s, b, eps, h);
    }
  }

  lemma DeltaOf(c: real, r: real, eps: real) returns (delta: real)
    requires c >= 0.0 && r > 0.0 && eps > 0.0
    ensures 0.0 < delta <= r && forall m | 0.0 <= m <= delta :: IsBelow(Quadratic(c), eps, m)
  {
    var k := eps / (c + 1.0);
    assert k * (c + 1.0) == eps;
    FactorIsPositive(k, c + 1.0, eps);
    delta := if k < r then k else r;
    forall m | 0.0 <= m <= delta ensures IsBelow(Quadratic(c), eps, m) { SecondIsBelow(c, eps, k, m); }
  }

  lemma QuadraticHasDelta(f: Row -> real, z: Row, g: Row, i: nat, s: real, c: real, r: real, eps: real)
    requires c >= 0.0 && CloseUpTo(f, z, g, Quadratic(c), r) && i < |z| && s == g[i] && eps > 0.0
    ensures HasDelta(f, z, i, s, eps)
  {
    var delta := DeltaOf(c, r, eps);
    FollowsIfClose(f, z, g, i, s, Quadratic(c), r, eps, delta);
  }

  /** The gradient holds the derivatives by the places. */
  lemma GradientIsDerivatives(f: Row -> real, z: Row, g: Row, i: nat, s: real)
    requires Derives(f, z, g) && i < |z| == |g| && s == g[i]
    ensures IsDerivative(f, z, i, s)
  {
    var c, r :| c >= 0.0 && CloseUpTo(f, z, g, Quadratic(c), r);
    forall eps | eps > 0.0 ensures HasDelta(f, z, i, s, eps) {
      QuadraticHasDelta(f, z, g, i, s, c, r, eps);
    }
  }

  lemma Cancelled(s: real, t: real, e: real, h: real, sh: real, th: real, eh: real)
    requires h > 0.0 && sh == s * h && th == t * h && eh == e * h && sh - th <= 2.0 * eh
    ensures s - t <= 2.0 * e
  {
    var d := s - t - 2.0 * e;
    assert d * h == sh - th - 2.0 * eh;
    if d > 0.0 { ProductIsPositive(d, h, d * h); }
  }

  lemma SameSlope(h: real, x: real, y: real, s: real, t: real, eps: real)
    requires h > 0.0 && StepIs(x, y, s, eps, h) && StepIs(x, y, t, eps, h)
    ensures Mag(s - t) <= 2.0 * eps
  {
    var sh, th, eh := s * h, t * h, eps * Mag(h);
    assert Mag(y - x - sh) <= eh && Mag(y - x - th) <= eh;
    assert Mag(h) == h;
    Cancelled(s, t, eps, h, sh, th, eh);
    Cancelled(t, s, eps, h, th, sh, eh);
  }

  lemma SlopesAreClose(f: Row -> real, z: Row, i: nat, s: real, t: real, eps: real, a: real, b: real)
    requires i < |z| && FollowsUpTo(f, z, i, s, eps, a) && FollowsUpTo(f, z, i, t, eps, b)
    ensures Mag(s - t) <= 2.0 * eps
  {
    var h := if a < b then a else b;
    assert Follows(f, z, i, s, eps, h) && Follows(f, z, i, t, eps, h);
    SameSlope(h, f(z), f(z[i := z[i] + h]), s, t, eps);
  }

  /** There is one derivative at most. */
  lemma DerivativeIsUnique(f: Row -> real, z: Row, i: nat, s: real, t: real)
    requires i < |z| && IsDerivative(f, z, i, s) && IsDerivative(f, z, i, t)
    ensures s == t
  {
    if s != t {
      var eps := 0.25 * Mag(s - t);
      assert HasDelta(f, z, i, s, eps) && HasDelta(f, z, i, t, eps);
      var a :| FollowsUpTo(f, z, i, s, eps, a);
      var b :| FollowsUpTo(f, z, i, t, eps, b);
      SlopesAreClose(f, z, i, s, t, eps, a, b);
    }
  }
}
