/** What the CRC detects: differences evolve linearly, and no burst of at most 32 bits goes unnoticed. */
module Burst {
  import opened Arithmetic
  import opened Crc

  function Xor(x: seq<bool>, y: seq<bool>): (d: seq<bool>)
    requires |x| == |y|
    ensures |d| == |x| && forall i | 0 <= i < |d| :: d[i] == (x[i] != y[i])
  {
    seq(|x|, i requires 0 <= i < |x| => x[i] != y[i])
  }

  lemma StepIsLinear(c: Reg, d: Reg, b: bool, e: bool)
    ensures Step(Xor(c, d), b != e) == Xor(Step(c, b), Step(d, e))
  {
  }

  lemma {:induction false} FeedIsLinear(c: Reg, d: Reg, x: seq<bool>, y: seq<bool>)
    requires |x| == |y|
    ensures Feed(Xor(c, d), Xor(x, y)) == Xor(Feed(c, x), Feed(d, y))
    decreases |x|
  {
    if x != [] {
      StepIsLinear(c, d, x[0], y[0]);
      assert Xor(x, y)[1..] == Xor(x[1..], y[1..]);
      FeedIsLinear(Step(c, x[0]), Step(d, y[0]), x[1..], y[1..]);
    }
  }

  /** Two messages of one length collide exactly when their difference drives the zero register back to zero. */
  lemma CollisionIffDifferenceVanishes(c: Reg, x: seq<bool>, y: seq<bool>)
    requires |x| == |y|
    ensures Feed(c, x) == Feed(c, y) <==> Feed(All(false), Xor(x, y)) == All(false)
  {
    FeedIsLinear(c, c, x, y);
    var f, g := Feed(c, x), Feed(c, y);
    assert Xor(c, c) == All(false);
    if Xor(f, g) == All(false) {
      forall i | 0 <= i < 32 ensures f[i] == g[i] { assert !Xor(f, g)[i]; }
      assert f == g;
    }
  }

  lemma StepIsInjective(c: Reg, d: Reg, b: bool)
    requires Step(c, b) == Step(d, b)
    ensures c == d
  {
    assert Step(c, b)[0] == Step(d, b)[0];
    forall i | 0 <= i < 31 ensures c[i] == d[i] {
      assert Step(c, b)[i + 1] == Step(d, b)[i + 1];
    }
  }

  /** Under any fixed message the final register determines the initial one. */
  lemma {:induction false} FeedIsInjective(c: Reg, d: Reg, x: seq<bool>)
    requires Feed(c, x) == Feed(d, x)
    ensures c == d
    decreases |x|
  {
    if x != [] {
      FeedIsInjective(Step(c, x[0]), Step(d, x[0]), x[1..]);
      StepIsInjective(c, d, x[0]);
    }
  }

  /** A register that `k` more bits bring to zero has its low `32 - k` bits clear already. */
  lemma {:induction false} LowBitsClear(c: Reg, x: seq<bool>)
    requires Feed(c, x) == All(false) && |x| <= 32
    ensures forall i | 0 <= i < 32 - |x| :: !c[i]
    decreases |x|
  {
    if x != [] {
      var n := Step(c, x[0]);
      LowBitsClear(n, x[1..]);
      assert !n[0];
      forall i | 0 <= i < 32 - |x| ensures !c[i] { assert !n[i + 1]; }
    }
  }

  ghost predicate Clear(d: seq<bool>) {
    forall i | 0 <= i < |d| :: !d[i]
  }

  lemma {:induction false} ZerosKeepZero(z: seq<bool>)
    requires Clear(z)
    ensures Feed(All(false), z) == All(false)
    decreases |z|
  {
    if z != [] {
      assert Step(All(false), z[0]) == All(false);
      ZerosKeepZero(z[1..]);
    }
  }

  /** At most 32 bits, not all clear, move the zero register away from zero. */
  lemma {:induction false} ShortIsSeen(d: seq<bool>)
    requires |d| <= 32 && Feed(All(false), d) == All(false)
    ensures Clear(d)
    decreases |d|
  {
    if d != [] {
      var next := Step(All(false), d[0]);
      if d[0] {
        LowBitsClear(next, d[1..]);
        assert next[0];
      } else {
        assert next == All(false);
        ShortIsSeen(d[1..]);
      }
    }
  }

  /** Outside the `w` bits from bit `p` on, `x` and `y` agree. */
  predicate DifferOnlyIn(x: seq<bool>, y: seq<bool>, p: nat, w: nat)
    requires |x| == |y|
  {
    forall i | 0 <= i < |x| && !(p <= i < p + w) :: x[i] == y[i]
  }

  /** A difference that is clear before and behind a window of at most 32 bits, and that the register does not see, is
    * clear in the window. */
  lemma WindowIsSeen(before: seq<bool>, window: seq<bool>, behind: seq<bool>)
    requires Clear(before) && Clear(behind) && |window| <= 32
    requires Feed(All(false), before + (window + behind)) == All(false)
    ensures Clear(window)
  {
    FeedConcat(All(false), before, window + behind);
    ZerosKeepZero(before);
    FeedConcat(All(false), window, behind);
    ZerosKeepZero(behind);
    FeedIsInjective(Feed(All(false), window), All(false), behind);
    ShortIsSeen(window);
  }

  /** The register tells any two bit strings apart that differ only inside a window of at most 32 bits. */
  lemma BurstIsSeen(c: Reg, x: seq<bool>, y: seq<bool>, p: nat)
    requires |x| == |y| && DifferOnlyIn(x, y, p, 32)
    ensures Feed(c, x) == Feed(c, y) <==> x == y
  {
    CollisionIffDifferenceVanishes(c, x, y);
    var d, from := Xor(x, y), if p < |x| then p else |x|;
    var to := if from + 32 < |x| then from + 32 else |x|;
    if Feed(All(false), d) == All(false) {
      var before, window, behind := d[..from], d[from..to], d[to..];
      assert d == before + (window + behind);
      WindowIsSeen(before, window, behind);
      forall i | 0 <= i < |x| ensures x[i] == y[i] {
        if from <= i < to { assert !window[i - from]; }
      }
    }
  }

  /** A register whose low bits are clear is emptied by its own bits, fed from the top. */
  lemma {:induction false} Drains(c: Reg, r: seq<bool>)
    requires |r| <= 32 && forall i | 0 <= i < 32 - |r| :: !c[i]
    requires forall i | 0 <= i < |r| :: r[i] == c[31 - i]
    ensures Feed(c, r) == All(false)
    decreases |r|
  {
    if r == [] {
      assert c == All(false);
    } else {
      var n := Step(c, r[0]);
      forall i | 0 <= i < |r| - 1 ensures r[1..][i] == n[31 - i] {}
      Drains(n, r[1..]);
    }
  }

  /** 32 is the limit: of all differences of 33 bits that start with a set bit, exactly the generator itself,
    * top bit first, goes unnoticed. */
  lemma GeneratorIsTheOnlyHiddenBurst(r: seq<bool>)
    requires |r| == 32
    ensures Feed(All(false), [true] + r) == All(false) <==> forall i | 0 <= i < 32 :: r[i] == Poly(31 - i)
  {
    var poly := Step(All(false), true);
    assert ([true] + r)[1..] == r;
    var g := seq(32, i requires 0 <= i < 32 => Poly(31 - i));
    forall i | 0 <= i < 32 ensures g[i] == poly[31 - i] {}
    Drains(poly, g);
    CollisionIffDifferenceVanishes(poly, r, g);
    assert (forall i | 0 <= i < 32 :: r[i] == Poly(31 - i)) ==> r == g;
    if Feed(All(false), Xor(r, g)) == All(false) {
      ShortIsSeen(Xor(r, g));
      forall i | 0 <= i < 32 ensures r[i] == Poly(31 - i) { assert !Xor(r, g)[i]; }
    }
  }

  // ---- octets ----

  lemma {:induction false} OctetBitsDetermine(a: int, b: int, n: nat)
    requires 0 <= a < Pow2(n) && 0 <= b < Pow2(n) && OctetBits(a, n) == OctetBits(b, n)
    ensures a == b
    decreases n
  {
    if n > 0 {
      var x, y := OctetBits(a, n), OctetBits(b, n);
      assert x[0] == y[0] && x[1..] == y[1..];
      OctetBitsDetermine(a / 2, b / 2, n - 1);
    }
  }

  lemma {:induction false} BitsDetermine(x: seq<Byte>, y: seq<Byte>)
    requires |x| == |y| && Bits(x) == Bits(y)
    ensures x == y
    decreases |x|
  {
    if x != [] {
      var a, b := OctetBits(x[0], 8), OctetBits(y[0], 8);
      assert Bits(x)[..8] == a && Bits(y)[..8] == b && Bits(x)[8..] == Bits(x[1..]) && Bits(y)[8..] == Bits(y[1..]);
      assert Pow2(8) == 256;
      OctetBitsDetermine(x[0], y[0], 8);
      BitsDetermine(x[1..], y[1..]);
    }
  }

  /** Buffers of one length that differ only inside 32 consecutive bits have different CRCs. */
  lemma BurstChangesCrc(x: seq<Byte>, y: seq<Byte>, p: nat)
    requires |x| == |y| && x != y && DifferOnlyIn(Bits(x), Bits(y), p, 32)
    ensures Crc32(x) != Crc32(y)
  {
    BurstIsSeen(All(true), Bits(x), Bits(y), p);
    if Bits(x) == Bits(y) { BitsDetermine(x, y); }
  }

  // ---- the start of the register, and the order of the bits ----

  function PlaceValue(j: nat): (p: nat)
    ensures p > 0
  {
    if j == 0 then 1 else 2 * PlaceValue(j - 1)
  }

  lemma {:induction false} BitOfOctet(x: nat, n: nat, j: nat)
    requires j < n
    ensures OctetBits(x, n)[j] <==> x / PlaceValue(j) % 2 == 1
    decreases n
  {
    if j > 0 {
      BitOfOctet(x / 2, n - 1, j - 1);
      HalvedAgain(x, PlaceValue(j - 1));
    }
  }

  lemma HalvedAgain(x: nat, p: nat)
    requires p > 0
    ensures x / 2 / p == x / (2 * p)
  {
    var h := x / 2;
    var q, r := h / p, h % p;
    assert h == p * q + r && x == 2 * p * q + (2 * r + x % 2);
    QuotientIs(x, q, 2 * r + x % 2, 2 * p);
  }

  /** Octet by octet, and in each the lowest bit first. */
  lemma {:induction false} BitsAreLowFirst(data: seq<Byte>, i: nat, j: nat)
    requires i < |data| && j < 8
    ensures Bits(data)[8 * i + j] <==> data[i] / PlaceValue(j) % 2 == 1
    decreases i
  {
    assert Bits(data) == OctetBits(data[0], 8) + Bits(data[1..]);
    if i == 0 {
      BitOfOctet(data[0], 8, j);
    } else {
      assert Bits(data)[8 * i + j] == Bits(data[1..])[8 * (i - 1) + j];
      BitsAreLowFirst(data[1..], i - 1, j);
    }
  }

  /** Of all tails of four octets just one brings the register to zero: the register itself, from its top bit down. */
  lemma ZeroTailIff(data: seq<Byte>, t: seq<Byte>)
    requires |t| == 4
    ensures Crc32(data + t) == All(false) <==> forall i | 0 <= i < 32 :: Bits(t)[i] == Crc32(data)[31 - i]
  {
    BitsConcat(data, t);
    FeedConcat(All(true), Bits(data), Bits(t));
    DrainsIff(Crc32(data), Bits(t));
  }

  /** A register is emptied by its own bits from the top, and by no other 32. */
  lemma DrainsIff(c: Reg, x: seq<bool>)
    requires |x| == 32
    ensures Feed(c, x) == All(false) <==> forall i | 0 <= i < 32 :: x[i] == c[31 - i]
  {
    var r := seq(32, i requires 0 <= i < 32 => c[31 - i]);
    Drains(c, r);
    BurstIsSeen(c, x, r, 0);
    if forall i | 0 <= i < 32 :: x[i] == c[31 - i] { assert x == r; }
  }

  lemma BitOf255(j: nat)
    requires j < 8
    ensures 255 / PlaceValue(j) % 2 == 1
  {
    assert PlaceValue(1) == 2 && PlaceValue(2) == 4 && PlaceValue(3) == 8 && PlaceValue(4) == 16;
    assert PlaceValue(5) == 32 && PlaceValue(6) == 64 && PlaceValue(7) == 128;
  }

  lemma BitsOfAllOnes(s: seq<Byte>)
    requires s == [255, 255, 255, 255]
    ensures forall i | 0 <= i < 32 :: Bits(s)[i]
  {
    forall i | 0 <= i < 32 ensures Bits(s)[i] {
      BitsAreLowFirst(s, i / 8, i % 8);
      BitOf255(i % 8);
      assert 8 * (i / 8) + i % 8 == i;
    }
  }

  /** The register starts with all its bits set: no octets leave it so, and of all buffers of four octets only that of
    * all ones has the check value 0. */
  lemma ZeroCrcIff(s: seq<Byte>)
    requires |s| == 4
    ensures Crc32(s) == All(false) <==> s == [255, 255, 255, 255]
    ensures forall i | 0 <= i < 32 :: Crc32([])[i]
  {
    var ones: seq<Byte> := [255, 255, 255, 255];
    assert Bits([]) == [] && Crc32([]) == All(true);
    assert [] + s == s;
    ZeroTailIff([], s);
    BitsOfAllOnes(ones);
    if Crc32([] + s) == All(false) {
      forall i | 0 <= i < 32 ensures Bits(s)[i] == Bits(ones)[i] { assert Bits(s)[i] == Crc32([])[31 - i]; }
      assert Bits(s) == Bits(ones);
      BitsDetermine(s, ones);
    } else {
      assert exists i | 0 <= i < 32 :: Bits(s)[i] != Crc32([])[31 - i];
    }
  }
}
