/** Integer arithmetic of the statistics: the square root and the variance. */
module Statistic {
  import opened Arithmetic
  import opened Expectation
  import opened Machine

  // ---- ISQRT ----

  /** g ^= bit */
  function Toggle(g: nat, bit: nat): (r: int)
    requires bit > 0
  {
    if g / bit % 2 == 0 then g + bit else g - bit
  }

  /** The argument as the unsigned long it is compared with. */
  function Unsigned(v: int): (u: int) {
    v % 0x1_0000_0000_0000_0000
  }

  /** A bit that is clear is set, and cleared again. */
  lemma Toggles(q: nat, bit: nat)
    requires bit > 0
    ensures Toggle(2 * q * bit, bit) == (2 * q + 1) * bit && Toggle((2 * q + 1) * bit, bit) == 2 * q * bit
  {
    QuotientIs(2 * q * bit, 2 * q, 0, bit);
    QuotientIs((2 * q + 1) * bit, 2 * q + 1, 0, bit);
  }

  /** The root is found up to `span`. */
  ghost predicate RootWithin(g: int, span: nat, u: int) {
    0 <= g <= 65536 - span && g * g <= u && (g + span == 65536 || u < (g + span) * (g + span))
  }

  lemma BitInPlace(g: nat, bit: nat, q: nat)
    requires g == q * (2 * bit)
    ensures g == 2 * q * bit && g + bit == (2 * q + 1) * bit
  {
  }

  /** Either half of the span. */
  lemma Halved(g: nat, bit: nat, u: nat, h: int)
    requires RootWithin(g, 2 * bit, u)
    requires if (g + bit) * (g + bit) > u then h == g else h == g + bit
    ensures RootWithin(h, bit, u)
  {
    if h != g {
      var a, b := g + 2 * bit, h + bit;
      assert a == b;
    }
  }

  /** One turn of the loop decides one more bit. */
  method NextBit(g: nat, bit: nat, u: nat, ghost q: nat) returns (h: int, ghost q': nat)
    requires bit > 0 && g == q * (2 * bit) && RootWithin(g, 2 * bit, u)
    ensures h == q' * bit && RootWithin(h, bit, u)
  {
    Toggles(q, bit);
    BitInPlace(g, bit, q);
    h, q' := Toggle(g, bit), 2 * q + 1;
    if h * h > u {
      h, q' := Toggle(h, bit), 2 * q;
    }
    Halved(g, bit, u, h);
  }

  /** The macro ISQRT: the exact root below 2^32, and 65535 from there on, a negative argument being compared as a
    * large unsigned one. */
  method Isqrt(v: int) returns (r: nat)
    requires -0x8000_0000_0000_0000 <= v < 0x8000_0000_0000_0000
    ensures r < 65536 && r * r <= Unsigned(v) && (r == 65535 || Unsigned(v) < (r + 1) * (r + 1))
    ensures 0 <= v < 0x1_0000_0000 ==> r * r <= v < (r + 1) * (r + 1)
    ensures v < 0 ==> r == 65535
  {
    var u := Unsigned(v);
    var g, bit: nat := 0, 0x8000;
    ghost var q, span: nat := 0, 0x1_0000;
    while bit > 0
      invariant span == if bit == 0 then 1 else 2 * bit
      invariant bit in {0, 1, 2, 4, 8, 16, 32, 64, 128, 256, 512, 1024, 2048, 4096, 8192, 16384, 32768}
      invariant g == q * span && RootWithin(g, span, u)
    {
      span := bit;
      g, q := NextBit(g, bit, u, q);
      bit := bit / 2;
    }
    r := g;
    if r < 65535 && v < 0 { SquareGrows(r + 1, 65535); }
  }

  lemma SquareGrows(a: nat, b: nat)
    requires a <= b
    ensures a * a <= b * b
  {
    assert b * b - a * a == (b - a) * (b + a);
  }

  // ---- mean and variance ----

  ghost predicate Between(h: seq<int>, lo: int, hi: int) {
    forall i | 0 <= i < |h| :: lo <= h[i] < hi
  }

  /** The summed squared distances from `x`, multiplied out, are not negative. */
  lemma {:induction false} SpreadIsPositive(h: seq<int>, x: int)
    ensures Powers(h, 2) - 2 * (x * Powers(h, 1)) + |h| * (x * x) >= 0
  {
    if h != [] {
      var m, y := |h| - 1, h[|h| - 1];
      SpreadIsPositive(h[..m], x);
      var s, xx := Powers(h[..m], 1), x * x;
      assert x * (s + y) == x * s + x * y;
      assert |h| * xx == m * xx + xx;
      assert y * y - 2 * (x * y) + xx == (y - x) * (y - x);
      SquareIsPositive(y - x);
    }
  }

  lemma SquareIsPositive(x: int)
    ensures x * x >= 0
  {
  }

  lemma {:induction false} CauchySchwarz(h: seq<int>)
    ensures Powers(h, 1) * Powers(h, 1) <= |h| * Powers(h, 2)
  {
    if h != [] {
      var m, y := |h| - 1, h[|h| - 1];
      CauchySchwarz(h[..m]);
      SpreadIsPositive(h[..m], y);
      OneMoreSample(Powers(h[..m], 1), Powers(h[..m], 2), m, y);
    }
  }

  lemma OneMoreSample(s: int, q: int, m: int, y: int)
    requires s * s <= m * q && q - 2 * (y * s) + m * (y * y) >= 0
    ensures (s + y) * (s + y) <= (m + 1) * (q + y * y)
  {
    var yy := y * y;
    assert (s + y) * (s + y) == s * s + 2 * (y * s) + yy;
    assert (m + 1) * (q + yy) == m * q + q + m * yy + yy;
  }

  /** Sums of numbers between two bounds, one number at a time. */
  lemma OneMoreBetween(m: int, s: int, y: int, lo: int, hi: int)
    requires m * lo <= s <= m * hi && lo <= y <= hi
    ensures (m + 1) * lo <= s + y <= (m + 1) * hi
  {
    assert (m + 1) * lo == m * lo + lo && (m + 1) * hi == m * hi + hi;
  }

  lemma {:induction false} SumIsBetween(h: seq<int>, lo: int, hi: int)
    requires Between(h, lo, hi)
    ensures |h| * lo <= Powers(h, 1) <= |h| * (hi - 1)
  {
    if h != [] {
      var m := |h| - 1;
      SumIsBetween(h[..m], lo, hi);
      OneMoreBetween(m, Powers(h[..m], 1), h[m], lo, hi - 1);
    }
  }

  lemma {:induction false} SquaresAreBetween(h: seq<int>, hi: int, b: int)
    requires Between(h, 0, hi) && b == (hi - 1) * (hi - 1)
    ensures 0 <= Powers(h, 2) <= |h| * b
  {
    if h != [] {
      var m := |h| - 1;
      SquaresAreBetween(h[..m], hi, b);
      SquareGrows(h[m], hi - 1);
      SquareIsPositive(h[m]);
      OneMoreBetween(m, Powers(h[..m], 2), h[m] * h[m], 0, b);
    }
  }

  lemma FactorOut(c: int, x: int, y: int)
    requires c > 0
    ensures c * x <= c * y ==> x <= y
    ensures c * x < c * y ==> x < y
  {
  }

  lemma QuotientBounds(s: int, c: int, lo: int, hi: int)
    requires c > 0 && c * lo <= s <= c * hi
    ensures lo <= s / c <= hi
  {
    var q, r := s / c, s % c;
    assert s == c * q + r && c * (q + 1) == c * q + c;
    FactorOut(c, lo, q + 1);
    FactorOut(c, q, hi);
  }

  /** Mean and mean square of samples in a range. */
  lemma MeanIsBetween(h: seq<int>, lo: int, hi: int)
    requires h != [] && Between(h, lo, hi) && 0 <= lo
    ensures lo <= Mean(h, 1) < hi && 0 <= Mean(h, 2) <= (hi - 1) * (hi - 1)
  {
    SumIsBetween(h, lo, hi);
    SumsArePositive(h);
    SquaresAreBetween(h, hi, (hi - 1) * (hi - 1));
    QuotientBounds(Powers(h, 1), |h|, lo, hi - 1);
    QuotientBounds(Powers(h, 2), |h|, 0, (hi - 1) * (hi - 1));
  }

  lemma {:induction false} SumsArePositive(h: seq<int>)
    requires forall i | 0 <= i < |h| :: 0 <= h[i]
    ensures 0 <= Powers(h, 1) && 0 <= Powers(h, 2)
  {
    if h != [] {
      SumsArePositive(h[..|h| - 1]);
      SquareIsPositive(h[|h| - 1]);
    }
  }

  lemma TruncationKeepsOrder(c: int, s: int, q: int)
    requires c > 0 && s >= 0 && q >= 0 && s * s <= c * q
    ensures (s / c) * (s / c) <= q / c
  {
    var m := s / c;
    var a := m * c;
    assert a + s % c == s;
    SquareGrows(a, s);
    assert a * a == c * (c * (m * m));
    FactorOut(c, c * (m * m), q);
    var p, r := q / c, q % c;
    assert q == c * p + r && c * (p + 1) == c * p + c;
    FactorOut(c, m * m, p + 1);
  }

  /** The mean square is not below the square of the mean, both truncated. */
  lemma VarianceIsPositive(h: seq<int>)
    requires forall i | 0 <= i < |h| :: 0 <= h[i]
    ensures Mean(h, 2) - Mean(h, 1) * Mean(h, 1) >= 0
  {
    if h != [] {
      SumsArePositive(h);
      CauchySchwarz(h);
      TruncationKeepsOrder(|h|, Powers(h, 1), Powers(h, 2));
    }
  }

  /** The deviation that is reported stays below every bound of the samples. */
  lemma DeviationIsBelow(h: seq<int>, hi: int, r: nat)
    requires Between(h, 0, hi) && hi > 0 && r * r <= Mean(h, 2) - Mean(h, 1) * Mean(h, 1)
    ensures r < hi
  {
    SquareIsPositive(Mean(h, 1));
    if h != [] { MeanIsBetween(h, 0, hi); } else { assert (hi - 1) * (hi - 1) >= 0; }
    assert hi * hi == (hi - 1) * (hi - 1) + 2 * hi - 1;
    if r >= hi { SquareGrows(hi, r); }
  }

  // ---- samples below a bound ----

  ghost predicate AtMost(h: seq<int>, hi: int) {
    forall i | 0 <= i < |h| :: h[i] <= hi
  }

  lemma {:induction false} SumIsAtMost(h: seq<int>, hi: nat)
    requires AtMost(h, hi)
    ensures Powers(h, 1) <= |h| * hi
  {
    if h != [] {
      var m := |h| - 1;
      SumIsAtMost(h[..m], hi);
      assert |h| * hi == m * hi + hi;
    }
  }

  /** The mean of samples of either sign is not above a bound that is not negative. */
  lemma MeanIsAtMost(h: seq<int>, hi: nat)
    requires AtMost(h, hi)
    ensures Mean(h, 1) <= hi
  {
    if h != [] {
      SumIsAtMost(h, hi);
      var s := Powers(h, 1);
      if s >= 0 { QuotientBounds(s, |h|, 0, hi); }
    }
  }

  // ---- sums that are longs ----

  /** A sum of squares is not below the sum, nor below any one square. */
  lemma {:induction false} SquaresAreGreater(h: seq<int>, i: nat)
    ensures Powers(h, 2) >= 0 && -Powers(h, 2) <= Powers(h, 1) <= Powers(h, 2)
    ensures i < |h| ==> h[i] * h[i] <= Powers(h, 2)
  {
    if h != [] {
      var m := |h| - 1;
      SquaresAreGreater(h[..m], if i < m then i else 0);
      SquareIsGreater(h[m]);
      if i < m { assert h[..m][i] == h[i]; }
    }
  }

  lemma SquareIsGreater(x: int)
    ensures 0 <= x * x && -(x * x) <= x <= x * x
  {
    if x > 0 { SquareGrows(1, x); assert x * (x - 1) >= 0; }
    if x < 0 { assert x * (x + 1) >= 0; }
  }

  /** If the sum of the squares is a long, so is the sum, and every sample is below 2^32. */
  lemma SquaresFit(h: seq<int>)
    requires IsLong(Powers(h, 2))
    ensures IsLong(Powers(h, 1)) && forall i | 0 <= i < |h| :: -0x1_0000_0000 < h[i] < 0x1_0000_0000
  {
    SquaresAreGreater(h, 0);
    forall i | 0 <= i < |h| ensures -0x1_0000_0000 < h[i] < 0x1_0000_0000 {
      SquaresAreGreater(h, i);
      RootIsSmall(h[i]);
    }
  }

  lemma RootIsSmall(x: int)
    requires x * x < 0x1_0000_0000 * 0x1_0000_0000
    ensures -0x1_0000_0000 < x < 0x1_0000_0000
  {
    var y: nat := if x < 0 then -x else x;
    assert y * y == x * x;
    if y >= 0x1_0000_0000 { SquareGrows(0x1_0000_0000, y); }
  }
}
