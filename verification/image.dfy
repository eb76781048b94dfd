/** The byte image of a saved network, as a value. A double is the eight bytes memcpy moves. */
module Image {
  import opened Arithmetic
  import opened Crc

  type Double = b: seq<Byte> | |b| == 8 witness [0, 0, 0, 0, 0, 0, 0, 0]

  /** Three doubles stored side by side: state, output and error of a neuron, or the weights of a link. */
  datatype Triple = Triple(a: Double, b: Double, c: Double)

  /** What a saved file says about a network; `fwd[k][i]` are the forward links of neuron `i` of layer `k`,
    * `bwd[k][i]` the backward links of neuron `i` of layer `k + 1`. */
  datatype Content = Content(
    sizes: seq<nat>,
    neurons: seq<seq<Triple>>,
    fwd: seq<seq<seq<Triple>>>,
    bwd: seq<seq<seq<Triple>>>)

  datatype Head = Head(life: nat, alpha: Double, eta: Double, gain: Double, error: Double)

  // ---- sizes ----

  function Sum(p: seq<nat>): nat {
    if p == [] then 0 else Sum(p[..|p| - 1]) + p[|p| - 1]
  }

  /** The number of pairs of neurons in adjacent layers. */
  function Pairs(p: seq<nat>): nat {
    if |p| < 2 then 0 else Pairs(p[..|p| - 1]) + p[|p| - 2] * p[|p| - 1]
  }

  function ImageSize(p: seq<nat>): nat {
    42 + 4 * |p| + 24 * Sum(p) + 48 * Pairs(p)
  }

  lemma SumTakes(p: seq<nat>, i: nat)
    requires i < |p|
    ensures Sum(p[..i + 1]) == Sum(p[..i]) + p[i] && Sum(p[..i + 1]) <= Sum(p)
    decreases |p| - i
  {
    assert p[..i + 1][..i] == p[..i];
    if i + 1 < |p| { SumTakes(p, i + 1); } else { assert p[..i + 1] == p; }
  }

  lemma PairsTake(p: seq<nat>, i: nat)
    requires 0 < i < |p|
    ensures Pairs(p[..i + 1]) == Pairs(p[..i]) + p[i - 1] * p[i]
  {
    var q := p[..i + 1];
    assert q[..i] == p[..i] && q[i - 1] == p[i - 1] && q[i] == p[i];
  }

  const WRAP := 0x1_0000_0000

  lemma NoWrapIff(x: nat)
    ensures x % WRAP == x <==> x < WRAP
  {
  }

  lemma Congruent(x: int, k: int)
    ensures (x + WRAP * k) % WRAP == x % WRAP
  {
    QuotientIs(x + WRAP * k, x / WRAP + k, x % WRAP, WRAP);
  }

  /** A size passed on as a C int. */
  function AsInt(n: nat): (i: int)
    ensures i <= n && (n < 0x8000_0000 ==> i == n)
  {
    var m := n % WRAP;
    if m < 0x8000_0000 then m else m - WRAP
  }

  /** What eth_crc feeds of `rest`, whose size it is passed as an int: all of it below 2^31 octets. */
  function Hashed(rest: seq<Byte>): (h: seq<Byte>)
    ensures |rest| < 0x8000_0000 ==> h == rest
    ensures 0x8000_0000 <= |rest| < WRAP ==> h == []
  {
    var n := AsInt(|rest|);
    rest[..if n < 0 then 0 else n]
  }

  /** The first four octets are the check value of the rest. */
  predicate CrcOk(file: seq<Byte>)
    requires |file| >= 4
  {
    Bits(file[..4]) == Crc32(Hashed(file[4..]))
  }

  // ---- encodings; integers are in little-endian host order ----

  function U16(x: nat): (b: seq<Byte>)
    ensures |b| == 2
  {
    [x % 0x100, x / 0x100 % 0x100]
  }

  function U32(x: nat): (b: seq<Byte>)
    ensures |b| == 4
  {
    U16(x) + U16(x / 0x1_0000)
  }

  function ReadU16(b: seq<Byte>): (x: nat)
    requires |b| == 2
    ensures x < 0x1_0000
  {
    var lo: int, hi: int := b[0], b[1];
    lo + 0x100 * hi
  }

  function ReadU32(b: seq<Byte>): (x: nat)
    requires |b| == 4
    ensures x < 0x1_0000_0000
  {
    ReadU16(b[..2]) + 0x1_0000 * ReadU16(b[2..])
  }

  lemma LowOctets(x: nat)
    ensures x % 0x100 + 0x100 * (x / 0x100 % 0x100) == x % 0x1_0000
    ensures U16(x % 0x1_0000) == U16(x)
  {
    var q, r := x / 0x100, x % 0x100;
    var h, s := q / 0x100, q % 0x100;
    var y := 0x100 * s + r;
    assert x == 0x1_0000 * h + y;
    QuotientIs(x, h, y, 0x1_0000);
    QuotientIs(y, s, r, 0x100);
  }

  lemma ReadWrittenU16(x: nat)
    ensures ReadU16(U16(x)) == x % 0x1_0000
  {
    LowOctets(x);
  }

  /** A number is cut to 32 bits when it is stored. */
  lemma ReadWrittenU32(x: nat)
    ensures ReadU32(U32(x)) == x % WRAP
  {
    var q := x / 0x1_0000;
    var h, l := q / 0x1_0000, q % 0x1_0000;
    ReadWrittenU16(x);
    ReadWrittenU16(q);
    assert x == WRAP * h + (x % 0x1_0000 + 0x1_0000 * l);
    QuotientIs(x, h, x % 0x1_0000 + 0x1_0000 * l, WRAP);
    assert U32(x)[..2] == U16(x) && U32(x)[2..] == U16(q);
  }

  lemma WriteReadU16(b: seq<Byte>)
    requires |b| == 2
    ensures U16(ReadU16(b)) == b
  {
  }

  lemma WriteReadU32(b: seq<Byte>)
    requires |b| == 4
    ensures U32(ReadU32(b)) == b
  {
    var x := ReadU32(b);
    WriteReadU16(b[..2]);
    WriteReadU16(b[2..]);
    QuotientIs(x, ReadU16(b[2..]), ReadU16(b[..2]), 0x1_0000);
    LowOctets(x);
    assert b == b[..2] + b[2..];
  }

  function Table(p: seq<nat>): (b: seq<Byte>)
    ensures |b| == 4 * |p|
  {
    if p == [] then [] else Table(p[..|p| - 1]) + U32(p[|p| - 1])
  }

  function TripleBytes(t: Triple): (b: seq<Byte>)
    ensures |b| == 24
  {
    t.a + t.b + t.c
  }

  function Img1(ts: seq<Triple>): (b: seq<Byte>)
    ensures |b| == 24 * |ts|
  {
    if ts == [] then [] else Img1(ts[..|ts| - 1]) + TripleBytes(ts[|ts| - 1])
  }

  function Img2(tss: seq<seq<Triple>>): seq<Byte> {
    if tss == [] then [] else Img2(tss[..|tss| - 1]) + Img1(tss[|tss| - 1])
  }

  function Img3(tsss: seq<seq<seq<Triple>>>): seq<Byte> {
    if tsss == [] then [] else Img3(tsss[..|tsss| - 1]) + Img2(tsss[|tsss| - 1])
  }

  function Header(n: nat, h: Head): (b: seq<Byte>)
    ensures |b| == 38
  {
    U16(n) + U32(h.life) + h.alpha + h.eta + h.gain + h.error
  }

  /** Everything from the layer table on. */
  function Body(c: Content): seq<Byte> {
    Table(c.sizes) + Img2(c.neurons) + Img3(c.fwd) + Img3(c.bwd)
  }

  /** The numbers of links and neurons are those the sizes announce. */
  ghost predicate Fits(c: Content) {
    && |c.sizes| > 0 && |c.neurons| == |c.sizes| && |c.fwd| == |c.bwd| == |c.sizes| - 1
    && (forall k | 0 <= k < |c.sizes| :: |c.neurons[k]| == c.sizes[k])
    && Rectangles(c.fwd, c.sizes, true) && Rectangles(c.bwd, c.sizes, false)
  }

  ghost predicate Rectangle(tss: seq<seq<Triple>>, m: nat, n: nat) {
    |tss| == m && forall i | 0 <= i < m :: |tss[i]| == n
  }

  /** One rectangle for each pair of adjacent layers, lying or standing. */
  ghost predicate Rectangles(tsss: seq<seq<seq<Triple>>>, p: seq<nat>, forward: bool) {
    |tsss| == |p| - 1 && forall k {:trigger tsss[k]} | 0 <= k < |tsss| ::
      if forward then Rectangle(tsss[k], p[k], p[k + 1]) else Rectangle(tsss[k], p[k + 1], p[k])
  }

  // ---- lengths ----

  lemma {:induction false} RectangleLength(tss: seq<seq<Triple>>, m: nat, n: nat)
    requires Rectangle(tss, m, n)
    ensures |Img2(tss)| == 24 * (m * n)
    decreases m
  {
    if m > 0 {
      RectangleLength(tss[..m - 1], m - 1, n);
      assert m * n == (m - 1) * n + n;
    }
  }

  lemma {:induction false} NeuronsLength(tss: seq<seq<Triple>>, p: seq<nat>)
    requires |tss| == |p| && forall k | 0 <= k < |p| :: |tss[k]| == p[k]
    ensures |Img2(tss)| == 24 * Sum(p)
    decreases |p|
  {
    if p != [] { NeuronsLength(tss[..|p| - 1], p[..|p| - 1]); }
  }

  /** Either direction of a gap is as long. */
  lemma GapLength(tss: seq<seq<Triple>>, m: nat, n: nat, forward: bool, pairs: nat)
    requires (if forward then Rectangle(tss, m, n) else Rectangle(tss, n, m)) && pairs == m * n
    ensures |Img2(tss)| == 24 * pairs
  {
    if forward {
      RectangleLength(tss, m, n);
    } else {
      RectangleLength(tss, n, m);
      assert n * m == m * n;
    }
  }

  /** All gaps but the last. */
  lemma FrontGaps(tsss: seq<seq<seq<Triple>>>, p: seq<nat>, forward: bool, m: nat)
    requires Rectangles(tsss, p, forward) && |tsss| == m + 1
    ensures Rectangles(tsss[..m], p[..m + 1], forward)
    ensures if forward then Rectangle(tsss[m], p[m], p[m + 1]) else Rectangle(tsss[m], p[m + 1], p[m])
  {
    var f, q := tsss[..m], p[..m + 1];
    forall k | 0 <= k < m
      ensures if forward then Rectangle(f[k], q[k], q[k + 1]) else Rectangle(f[k], q[k + 1], q[k])
    {
      assert f[k] == tsss[k] && q[k] == p[k] && q[k + 1] == p[k + 1];
    }
  }

  lemma LastPair(p: seq<nat>, m: nat) returns (pairs: nat)
    requires |p| == m + 2
    ensures pairs == p[m] * p[m + 1] && Pairs(p) == Pairs(p[..m + 1]) + pairs
  {
    pairs := p[m] * p[m + 1];
  }

  lemma {:induction false} LinksLength(tsss: seq<seq<seq<Triple>>>, p: seq<nat>, forward: bool)
    requires Rectangles(tsss, p, forward)
    ensures |Img3(tsss)| == 24 * Pairs(p)
    decreases |p|
  {
    if tsss != [] {
      var m := |tsss| - 1;
      FrontGaps(tsss, p, forward, m);
      LinksLength(tsss[..m], p[..m + 1], forward);
      var pairs := LastPair(p, m);
      GapLength(tsss[m], p[m], p[m + 1], forward, pairs);
    }
  }

  /** The nested write loops fill exactly the size computed from the sums. */
  lemma BodyLength(c: Content)
    requires Fits(c)
    ensures |Body(c)| == ImageSize(c.sizes) - 42
  {
    NeuronsLength(c.neurons, c.sizes);
    LinksLength(c.fwd, c.sizes, true);
    LinksLength(c.bwd, c.sizes, false);
  }

  // ---- the image determines the content ----

  /** A number below 2^32 reads back as itself. */
  lemma ReadWrittenSmall(x: nat, b: seq<Byte>)
    requires x < WRAP && b == U32(x)
    ensures ReadU32(b) == x
  {
    ReadWrittenU32(x);
  }

  lemma {:induction false} TableDetermines(p: seq<nat>, q: seq<nat>)
    requires |p| == |q| && Table(p) == Table(q)
    requires forall k | 0 <= k < |p| :: p[k] < WRAP && q[k] < WRAP
    ensures p == q
    decreases |p|
  {
    if p != [] {
      var m := |p| - 1;
      assert Table(p)[..4 * m] == Table(p[..m]) && Table(q)[..4 * m] == Table(q[..m]);
      assert Table(p)[4 * m..] == U32(p[m]) && Table(q)[4 * m..] == U32(q[m]);
      TableDetermines(p[..m], q[..m]);
      ReadWrittenSmall(p[m], Table(p)[4 * m..]);
      ReadWrittenSmall(q[m], Table(q)[4 * m..]);
      assert p == p[..m] + [p[m]] && q == q[..m] + [q[m]];
    }
  }

  lemma TripleBytesDetermine(t: Triple, u: Triple)
    requires TripleBytes(t) == TripleBytes(u)
    ensures t == u
  {
    var x, y := TripleBytes(t), TripleBytes(u);
    assert t.a == x[..8] && u.a == y[..8];
    assert t.b == x[8..16] && u.b == y[8..16];
    assert t.c == x[16..] && u.c == y[16..];
  }

  lemma {:induction false} Img1Determines(ts: seq<Triple>, us: seq<Triple>)
    requires |ts| == |us| && Img1(ts) == Img1(us)
    ensures ts == us
    decreases |ts|
  {
    if ts != [] {
      var m := |ts| - 1;
      assert Img1(ts)[..24 * m] == Img1(ts[..m]) && Img1(us)[..24 * m] == Img1(us[..m]);
      assert Img1(ts)[24 * m..] == TripleBytes(ts[m]) && Img1(us)[24 * m..] == TripleBytes(us[m]);
      Img1Determines(ts[..m], us[..m]);
      TripleBytesDetermine(ts[m], us[m]);
      assert ts == ts[..m] + [ts[m]] && us == us[..m] + [us[m]];
    }
  }

  /** Equal bytes split where the lengths say. */
  lemma Split(a: seq<Byte>, b: seq<Byte>, x: seq<Byte>, y: seq<Byte>)
    requires a + b == x + y && |b| == |y|
    ensures a == x && b == y
  {
    assert |a| == |x|;
    assert a == (a + b)[..|a|] && x == (x + y)[..|a|];
    assert b == (a + b)[|a|..] && y == (x + y)[|a|..];
  }

  ghost predicate SameShape2(tss: seq<seq<Triple>>, uss: seq<seq<Triple>>) {
    |tss| == |uss| && forall k | 0 <= k < |tss| :: |tss[k]| == |uss[k]|
  }

  lemma {:induction false} Img2Determines(tss: seq<seq<Triple>>, uss: seq<seq<Triple>>)
    requires SameShape2(tss, uss) && Img2(tss) == Img2(uss)
    ensures tss == uss
    decreases |tss|
  {
    if tss != [] {
      var m := |tss| - 1;
      Split(Img2(tss[..m]), Img1(tss[m]), Img2(uss[..m]), Img1(uss[m]));
      Img2Determines(tss[..m], uss[..m]);
      Img1Determines(tss[m], uss[m]);
      assert tss == tss[..m] + [tss[m]] && uss == uss[..m] + [uss[m]];
    }
  }

  lemma {:induction false} Img3Determines(x: seq<seq<seq<Triple>>>, y: seq<seq<seq<Triple>>>, p: seq<nat>,
                                          forward: bool)
    requires Rectangles(x, p, forward) && Rectangles(y, p, forward) && Img3(x) == Img3(y)
    ensures x == y
    decreases |p|
  {
    if x != [] {
      var m := |x| - 1;
      var q := p[..|p| - 1];
      assert q[m] == p[m];
      RectangleLength(x[m], if forward then p[m] else p[m + 1], if forward then p[m + 1] else p[m]);
      RectangleLength(y[m], if forward then p[m] else p[m + 1], if forward then p[m + 1] else p[m]);
      Split(Img3(x[..m]), Img2(x[m]), Img3(y[..m]), Img2(y[m]));
      Img3Determines(x[..m], y[..m], q, forward);
      Img2Determines(x[m], y[m]);
      FrontAndLast(x, m);
      FrontAndLast(y, m);
    }
  }

  lemma FrontAndLast<T>(x: seq<T>, m: nat)
    requires |x| == m + 1
    ensures x == x[..m] + [x[m]]
  {
  }

  /** Two networks of the same sizes with the same body bytes have the same content. */
  lemma BodyDetermines(c: Content, d: Content)
    requires Fits(c) && Fits(d) && c.sizes == d.sizes && Body(c) == Body(d)
    ensures c == d
  {
    LinksLength(c.bwd, c.sizes, false);
    LinksLength(d.bwd, c.sizes, false);
    Split(Table(c.sizes) + Img2(c.neurons) + Img3(c.fwd), Img3(c.bwd),
          Table(d.sizes) + Img2(d.neurons) + Img3(d.fwd), Img3(d.bwd));
    LinksLength(c.fwd, c.sizes, true);
    LinksLength(d.fwd, c.sizes, true);
    Split(Table(c.sizes) + Img2(c.neurons), Img3(c.fwd), Table(d.sizes) + Img2(d.neurons), Img3(d.fwd));
    NeuronsLength(c.neurons, c.sizes);
    NeuronsLength(d.neurons, c.sizes);
    Split(Table(c.sizes), Img2(c.neurons), Table(d.sizes), Img2(d.neurons));
    Img3Determines(c.bwd, d.bwd, c.sizes, false);
    Img3Determines(c.fwd, d.fwd, c.sizes, true);
    Img2Determines(c.neurons, d.neurons);
  }
}
