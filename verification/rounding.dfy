/** magic_round: the rounding to the sending period, in a loop over an int. */
module Rounding {
  import opened Arithmetic
  import opened Machine

  function Abs(x: int): int {
    if x < 0 then -x else x
  }

  /** The variable of the loop after `n` turns; each sum is a long and is cut to an int. */
  function AfterTurns(a: int, n: nat): (s: int)
    ensures IsInt(s)
  {
    if n == 0 then Int(a) else Int(AfterTurns(a, n - 1) + a)
  }

  /** `n` turns take it past `b`, and end the loop if no fewer did. */
  predicate Passes(a: int, b: int, n: nat) {
    AfterTurns(a, n) > b
  }

  lemma {:induction false} TurnsAreMultiples(a: int, n: nat)
    ensures AfterTurns(a, n) == Int((n + 1) * a)
  {
    if n > 0 {
      TurnsAreMultiples(a, n - 1);
      IntAbsorbs(n * a, a);
      assert (n + 1) * a == n * a + a;
    }
  }

  // ---- when the loop ends ----

  function Power2(k: nat): (p: nat)
    ensures p > 0
  {
    if k == 0 then 1 else 2 * Power2(k - 1)
  }

  lemma {:induction false} PowersAdd(j: nat, k: nat)
    ensures Power2(j + k) == Power2(j) * Power2(k)
  {
    if j > 0 {
      PowersAdd(j - 1, k);
      assert j - 1 + k == j + k - 1;
    }
  }

  /** How often 2 divides `a`, at most `k` times. */
  function Twos(a: int, k: nat): (j: nat)
    ensures j <= k
    decreases k
  {
    if k == 0 || a % 2 == 1 then 0 else 1 + Twos(a / 2, k - 1)
  }

  lemma {:induction false} TwosDivide(a: int, k: nat) returns (m: int)
    ensures a == Power2(Twos(a, k)) * m && (Twos(a, k) < k ==> m % 2 == 1)
    decreases k
  {
    m := a;
    if k > 0 && a % 2 == 0 {
      m := TwosDivide(a / 2, k - 1);
      assert a == 2 * (a / 2);
      Regroup(2, Power2(Twos(a / 2, k - 1)), m);
    }
  }

  lemma Regroup(x: int, y: int, z: int)
    ensures x * (y * z) == (x * y) * z
  {
  }

  /** The greatest value the variable can ever have: the greatest int that 2 divides as often as the period. */
  function Top(a: int): int {
    var j := Twos(a, 32);
    if j == 32 then 0 else INT - Power2(j)
  }

  lemma Doubled(p: int, q: int)
    requires q % 2 == 0
    ensures p * q == 2 * p * (q / 2)
  {
    assert q == 2 * (q / 2);
    Regroup(p, 2, q / 2);
  }

  lemma OneMore(n: int, p: int, m: int, q: int)
    ensures (n + p) * m + p * q == n * m + p * (q + m)
  {
  }

  /** Multiples of an odd number take every value modulo a power of two. */
  lemma {:induction false} OddReaches(m: int, t: int, k: nat) returns (n: nat, q: int)
    requires m % 2 == 1
    ensures n * m == t + Power2(k) * q
  {
    if k == 0 {
      return 0, -t;
    }
    n, q := OddReaches(m, t, k - 1);
    var p := Power2(k - 1);
    if q % 2 == 1 {
      OneMore(n, p, m, q);
      n, q := n + p, q + m;
    }
    Doubled(p, q);
    q := q / 2;
  }

  lemma PositiveFactor(p: nat, d: int, e: int)
    requires p > 0 && e == p * d && e > 0
    ensures e >= p
  {
    assert d > 0;
    assert e - p == p * (d - 1);
  }

  lemma FactorOut(p: int, g: int, y: int)
    ensures p * g - p * y == p * (g - y)
  {
  }

  lemma Reduced(p: int, g: int, y: int, k: int)
    ensures p * (y - 2 * (g * k)) == p * y - 2 * (p * g) * k
  {
  }

  /** An int that comes of a multiple of a divisor of 2^31 stays a whole divisor below 2^31. */
  lemma StaysBelow(p: nat, g: nat, y: int)
    requires p > 0 && p * g == INT
    ensures Int(p * y) <= INT - p
  {
    var x := p * y;
    var k := IntTurns(x);
    Reduced(p, g, y, k);
    FactorOut(p, g, y - 2 * (g * k));
    PositiveFactor(p, g - (y - 2 * (g * k)), INT - Int(x));
  }

  lemma Power2Of32()
    ensures Power2(31) == INT && Power2(32) == 2 * INT
  {
    assert Power2(4) == 16;
    PowersAdd(4, 4);
    PowersAdd(8, 8);
    PowersAdd(16, 16);
  }

  lemma TopParts(j: nat) returns (g: nat)
    requires j < 32
    ensures g == Power2(31 - j) && Power2(j) * g == INT && Power2(j) * Power2(32 - j) == 2 * INT
  {
    g := Power2(31 - j);
    PowersAdd(j, 31 - j);
    PowersAdd(j, 32 - j);
    Power2Of32();
  }

  lemma Reorder(c: int, p: int, m: int)
    ensures c * (p * m) == p * (c * m)
  {
  }

  lemma NeverAboveTop(a: int, n: nat)
    ensures AfterTurns(a, n) <= Top(a)
  {
    var j, c := Twos(a, 32), n + 1;
    var p := Power2(j);
    var m := TwosDivide(a, 32);
    TurnsAreMultiples(a, n);
    Reorder(c, p, m);
    if j == 32 {
      Power2Of32();
      IntIs(c * a, c * m);
    } else {
      var g := TopParts(j);
      StaysBelow(p, g, c * m);
    }
  }

  /** Where the multiple is 2^31 less a divisor, and whole turns of 2^32. */
  lemma Reached(p: nat, g: nat, h: nat, q: int)
    requires p > 0 && p * g == INT && p * h == 2 * INT
    ensures Int(p * (g - 1 + h * q)) == INT - p
  {
    var x := p * (g - 1 + h * q);
    Spread(p, g, h, q);
    IntIs(x, q);
  }

  lemma Spread(p: int, g: int, h: int, q: int)
    ensures p * (g - 1 + h * q) == p * g - p + (p * h) * q
  {
  }

  /** The same with a factor that is not 0. */
  lemma OddReachesTop(m: int, t: int, h: nat, k: nat) returns (n: nat, q: int)
    requires m % 2 == 1 && h == Power2(k)
    ensures n > 0 && n * m == t + h * q
  {
    n, q := OddReaches(m, t, k);
    if n == 0 {
      n, q := h, q + m;
    }
  }

  lemma MultipleIsTop(a: int, p: nat, m: int, g: nat, h: nat, c: nat, q: int)
    requires a == p * m && p > 0 && p * g == INT && p * h == 2 * INT && c > 0 && c * m == g - 1 + h * q
    ensures AfterTurns(a, c - 1) == INT - p
  {
    Reorder(c, p, m);
    Reached(p, g, h, q);
    TurnsAreMultiples(a, c - 1);
  }

  lemma TopIsReached(a: int) returns (n: nat)
    ensures AfterTurns(a, n) == Top(a)
  {
    var j := Twos(a, 32);
    var m := TwosDivide(a, 32);
    if j == 32 {
      Power2Of32();
      IntIs(a, m);
      return 0;
    }
    var g := TopParts(j);
    var c, q := OddReachesTop(m, g - 1, Power2(32 - j), 32 - j);
    MultipleIsTop(a, Power2(j), m, g, Power2(32 - j), c, q);
    n := c - 1;
  }

  /** The loop comes to its end. */
  predicate Ends(a: int, b: int) {
    b < Top(a)
  }

  /** The condition is exact, for every period and every argument: the variable runs through all ints that the period
    * allows, round and round, and ends the loop just if one of them is above `b`. */
  lemma LoopEndsIff(a: int, b: int)
    ensures (exists n :: Passes(a, b, n)) <==> Ends(a, b)
  {
    forall n | Passes(a, b, n) ensures Ends(a, b) { NeverAboveTop(a, n); }
    var n := TopIsReached(a);
    assert Passes(a, b, n) == Ends(a, b);
  }

  /** So it never ends for an argument that is no int. */
  lemma LongNeverEnds(a: int, b: int)
    requires b >= INT - 1
    ensures !Ends(a, b)
  {
  }

  // ---- what it gives ----

  /** `n` turns end the loop. */
  ghost predicate Stops(a: int, b: int, n: nat) {
    Passes(a, b, n) && forall m | 0 <= m < n :: !Passes(a, b, m)
  }

  ghost function Least(a: int, b: int, n: nat): (m: nat)
    requires Passes(a, b, n)
    ensures Stops(a, b, m)
  {
    if m: nat :| m < n && Passes(a, b, m) then Least(a, b, m) else n
  }

  /** The number of turns. */
  ghost function Turns(a: int, b: int): (n: nat)
    requires Ends(a, b)
    ensures Stops(a, b, n)
  {
    LoopEndsIff(a, b);
    var n :| Passes(a, b, n);
    Least(a, b, n)
  }

  /** The comparison behind the loop. */
  predicate IsNearer(a: int, b: int, s: int) {
    AbsLong(Long(s - b)) < AbsLong(Long(Long(s - a) - b))
  }

  function Nearer(a: int, b: int, s: int): CLong {
    if IsNearer(a, b, s) then Long(s) else Long(s - a)
  }

  ghost function Rounded(a: int, b: int): CLong
    requires Ends(a, b)
  {
    Nearer(a, b, AfterTurns(a, Turns(a, b)))
  }

  /** magic_round */
  method MagicRound(a: int, b: int) returns (r: CLong)
    requires Ends(a, b)
    ensures r == Rounded(a, b)
  {
    ghost var end := Turns(a, b);
    var s := LoopOfRound(a, b, end);
    LongFits(s);
    if IsNearer(a, b, s) { r := s; } else { r := Long(s - a); }
  }

  /** Its loop. */
  method LoopOfRound(a: int, b: int, ghost end: nat) returns (s: int)
    requires Stops(a, b, end)
    ensures s == AfterTurns(a, end)
  {
    s := Int(a);
    ghost var n: nat := 0;
    while s <= b
      invariant s == AfterTurns(a, n) && n <= end
      decreases end - n
    {
      assert !Passes(a, b, n);
      s, n := Int(s + a), n + 1;
    }
    assert Passes(a, b, n);
  }

  // ---- where it gives the nearest multiple ----

  /** The multiple of `a` nearest to `b`, the lower of two equally near. */
  function Nearest(a: int, b: int): (r: int)
    requires a > 0 && b >= 0
    ensures r % a == 0 && -a <= 2 * (r - b) < a
  {
    var r := b - b % a;
    QuotientIs(r, b / a, 0, a);
    QuotientIs(r + a, b / a + 1, 0, a);
    if 2 * (b % a) <= a then r else r + a
  }

  lemma {:induction false} MultipleIsFar(k: int, a: int)
    requires a > 0 && k != 0
    ensures if k > 0 then k * a >= a else k * a <= -a
    decreases if k > 0 then k else -k
  {
    if k > 1 { MultipleIsFar(k - 1, a); } else if k < -1 { MultipleIsFar(k + 1, a); }
  }

  /** No other multiple is nearer. */
  lemma NearestIsNearest(a: int, b: int, k: int)
    requires a > 0 && b >= 0
    ensures var r := Nearest(a, b);
      Abs(r - b) <= Abs(k * a - b) && (Abs(r - b) == Abs(k * a - b) ==> r <= k * a)
  {
    var r := Nearest(a, b);
    var q := r / a;
    assert r == q * a;
    var d := (k - q) * a;
    assert k * a == r + d;
    if k != q { MultipleIsFar(k - q, a); }
  }

  /** The first multiple of `a` above `b` */
  function Above(a: int, b: int): int
    requires a > 0 && b >= 0
  {
    b - b % a + a
  }

  /** is an int. */
  predicate Fits(a: int, b: int)
    requires a > 0 && b >= 0
  {
    Above(a, b) < INT
  }

  lemma AboveIs(a: int, b: int) returns (n: nat)
    requires a > 0 && b >= 0
    ensures n * a == Above(a, b) - a && (n + 1) * a == Above(a, b)
  {
    QuotientIsNat(a, b);
    n := b / a;
    assert b == n * a + b % a;
    assert (n + 1) * a == n * a + a;
  }

  lemma QuotientIsNat(a: int, b: int)
    requires a > 0 && b >= 0
    ensures b / a >= 0
  {
  }

  lemma TurnsAre(a: int, b: int, n: nat)
    requires Stops(a, b, n)
    ensures Ends(a, b) && Turns(a, b) == n
  {
    LoopEndsIff(a, b);
    var m := Turns(a, b);
    assert !(m < n) && !(n < m);
  }

  lemma EarlierIsSmaller(m: int, n: int, a: int)
    requires m <= n && a > 0
    ensures m * a <= n * a
  {
  }

  /** Then the variable is not cut on the way. */
  lemma StopsThere(a: int, b: int, n: nat)
    requires a > 0 && b >= 0 && Fits(a, b) && n * a == Above(a, b) - a && (n + 1) * a == Above(a, b)
    ensures Stops(a, b, n) && AfterTurns(a, n) == Above(a, b)
  {
    TurnsAreMultiples(a, n);
    IntIs((n + 1) * a, 0);
    forall m: nat | m < n ensures !Passes(a, b, m) {
      EarlierIsSmaller(m + 1, n, a);
      EarlierIsSmaller(0, m + 1, a);
      TurnsAreMultiples(a, m);
      IntIs((m + 1) * a, 0);
    }
  }

  /** The distances of a variable that is an int, from a number that is not too far below. */
  lemma NearerIs(a: int, b: int, s: int)
    requires IsInt(a) && IsInt(s) && -0x4000_0000_0000_0000 <= b < INT
    ensures Nearer(a, b, s) == if Abs(s - b) < Abs(s - a - b) then s else s - a
  {
    LongFits(s);
    LongFits(s - a);
    LongFits(s - b);
    LongFits(s - a - b);
  }

  /** Of the two multiples around `b` the comparison takes the nearer one. */
  lemma NearerOfTwo(a: int, b: int)
    requires 0 < a && b >= 0 && Fits(a, b)
    ensures Nearer(a, b, Above(a, b)) == Nearest(a, b)
  {
    NearerIs(a, b, Above(a, b));
  }

  lemma RoundedIsNearest(a: int, b: int)
    requires a > 0 && b >= 0 && Fits(a, b)
    ensures Ends(a, b) && Rounded(a, b) == Nearest(a, b)
  {
    var n := AboveIs(a, b);
    StopsThere(a, b, n);
    TurnsAre(a, b, n);
    NearerOfTwo(a, b);
  }

  lemma BetweenMultiples(s: int, t: int, a: int)
    requires a > 0 && t % a == 0 && t - a < s < t
    ensures s % a != 0 && (s - a) % a != 0
  {
    var q := t / a;
    assert t == a * q;
    assert a * (q - 1) == a * q - a && a * (q - 2) == a * q - 2 * a;
    QuotientIs(s, q - 1, s - t + a, a);
    QuotientIs(s - a, q - 2, s - t + a, a);
  }

  lemma AboveIsMultiple(a: int, b: int)
    requires a > 0 && b >= 0
    ensures Above(a, b) % a == 0
  {
    var n := AboveIs(a, b);
    QuotientIs(Above(a, b), n + 1, 0, a);
  }

  lemma CutIsNoMultiple(a: int, b: int, s: int)
    requires 0 < a < INT && 0 <= b < s < INT && !Fits(a, b)
    ensures Nearer(a, b, s) % a != 0
  {
    AboveIsMultiple(a, b);
    BetweenMultiples(s, Above(a, b), a);
    NearerIs(a, b, s);
  }

  /** Wherever the loop ends, for a positive period and an argument that is not negative, it gives the nearest multiple
    * if the first multiple above the argument is an int, and no multiple at all if not. */
  lemma RoundedIsMultipleIff(a: int, b: int)
    requires 0 < a < INT && b >= 0 && Ends(a, b)
    ensures Rounded(a, b) % a == 0 <==> Fits(a, b)
    ensures Fits(a, b) ==> Rounded(a, b) == Nearest(a, b)
  {
    if Fits(a, b) {
      RoundedIsNearest(a, b);
    } else {
      assert Passes(a, b, Turns(a, b));
      CutIsNoMultiple(a, b, AfterTurns(a, Turns(a, b)));
    }
  }

  /** A loop that is over before it begins. */
  lemma AtOnce(a: int, b: int)
    requires IsInt(a) && -0x4000_0000_0000_0000 <= b < a && (a <= 0 || b < 0)
    ensures Ends(a, b) && Rounded(a, b) == if a > 0 then 0 else a
  {
    IntIs(a, 0);
    assert Stops(a, b, 0);
    TurnsAre(a, b, 0);
    NearerIs(a, b, a);
  }

  /** With the usual period of 1000 the loop ends below 2147483640 and gives the nearest multiple below 2147483000. */
  lemma UsualPeriod(b: nat)
    ensures Ends(1000, b) <==> b < 2147483640
    ensures Fits(1000, b) <==> b < 2147483000
  {
    assert Twos(1000, 32) == 3;
    assert b == b / 1000 * 1000 + b % 1000;
  }
}
