/** The CRC-32 register of eth_crc: generator of section 3.2.9 of IEEE 802.3, low bit of each octet first. */
module Crc {

  type Byte = b: int | 0 <= b < 256

  /** The 32-bit register; element `i` is the bit of weight 2^i, so element 31 is the sign. */
  type Reg = c: seq<bool> | |c| == 32 witness seq(32, _ => false)

  function All(b: bool): (c: Reg)
    ensures forall i | 0 <= i < 32 :: c[i] == b
  {
    seq(32, _ => b)
  }

  /** The bits of 0x04c11db7. */
  predicate Poly(i: int) {
    || i == 0 || i == 1 || i == 2 || i == 4 || i == 5 || i == 7 || i == 8 || i == 10 || i == 11 || i == 12
    || i == 16 || i == 22 || i == 23 || i == 26
  }

  /** Bit `i` of the register after one turn of the inner loop: shift left, and add the generator if the
    * sign differs from the message bit. */
  predicate NextBit(crc: Reg, bit: bool, i: int)
    requires 0 <= i < 32
  {
    (i > 0 && crc[i - 1]) != (crc[31] != bit && Poly(i))
  }

  function Step(crc: Reg, bit: bool): (next: Reg)
    ensures forall i | 0 <= i < 32 :: next[i] == NextBit(crc, bit, i)
  {
    seq(32, i requires 0 <= i < 32 => NextBit(crc, bit, i))
  }

  function Feed(crc: Reg, bits: seq<bool>): Reg
    decreases |bits|
  {
    if bits == [] then crc else Feed(Step(crc, bits[0]), bits[1..])
  }

  /** The low `n` bits of an octet, lowest first; `/` halves a negative char as an arithmetic shift does. */
  function OctetBits(octet: int, n: nat): (bits: seq<bool>)
    ensures |bits| == n
    decreases n
  {
    if n == 0 then [] else [octet % 2 == 1] + OctetBits(octet / 2, n - 1)
  }

  function Bits(data: seq<Byte>): (bits: seq<bool>)
    ensures |bits| == 8 * |data|
  {
    if data == [] then [] else OctetBits(data[0], 8) + Bits(data[1..])
  }

  function Crc32(data: seq<Byte>): Reg {
    Feed(All(true), Bits(data))
  }

  // ---- the loops ----

  lemma FeedConcat(crc: Reg, a: seq<bool>, b: seq<bool>)
    ensures Feed(crc, a + b) == Feed(Feed(crc, a), b)
    decreases |a|
  {
    if a == [] {
      assert a + b == b;
    } else {
      assert (a + b)[1..] == a[1..] + b;
      FeedConcat(Step(crc, a[0]), a[1..], b);
    }
  }

  lemma BitsConcat(a: seq<Byte>, b: seq<Byte>)
    ensures Bits(a + b) == Bits(a) + Bits(b)
  {
    if a == [] {
      assert a + b == b;
    } else {
      assert (a + b)[1..] == a[1..] + b;
      BitsConcat(a[1..], b);
    }
  }

  /** The inner loop, over the bits of one octet. */
  method FeedOctet(start: Reg, octet: int) returns (crc: Reg)
    ensures crc == Feed(start, OctetBits(octet, 8))
  {
    crc := start;
    var currentOctet, bit := octet, 0;
    while bit < 8
      invariant 0 <= bit <= 8
      invariant Feed(crc, OctetBits(currentOctet, 8 - bit)) == Feed(start, OctetBits(octet, 8))
    {
      ghost var rest := OctetBits(currentOctet / 2, 7 - bit);
      assert OctetBits(currentOctet, 8 - bit) == [currentOctet % 2 == 1] + rest;
      assert ([currentOctet % 2 == 1] + rest)[1..] == rest;
      crc := Step(crc, currentOctet % 2 == 1);
      bit, currentOctet := bit + 1, currentOctet / 2;
    }
  }

  lemma OneMoreOctet(data: seq<Byte>, at: nat)
    requires at < |data|
    ensures Crc32(data[..at + 1]) == Feed(Crc32(data[..at]), OctetBits(data[at], 8))
  {
    assert data[..at + 1] == data[..at] + [data[at]];
    BitsConcat(data[..at], [data[at]]);
    assert Bits([data[at]]) == OctetBits(data[at], 8);
    FeedConcat(All(true), Bits(data[..at]), OctetBits(data[at], 8));
  }

  /** eth_crc over unsigned octets; a negative length feeds nothing. */
  method EthCrc(length: int, data: seq<Byte>) returns (crc: Reg)
    requires length <= |data|
    ensures crc == Crc32(data[..if length < 0 then 0 else length])
  {
    crc := All(true);
    var at := 0;
    while at < length
      invariant 0 <= at && (at <= length || at == 0 > length)
      invariant crc == Crc32(data[..at])
    {
      crc := FeedOctet(crc, data[at]);
      OneMoreOctet(data, at);
      at := at + 1;
    }
  }

  // ---- the copy of eth_crc that reads plain char ----

  /** An octet read as a char where char is signed. */
  function Signed(b: Byte): int {
    if b < 128 then b else b - 256
  }

  function Pow2(n: nat): nat {
    if n == 0 then 1 else 2 * Pow2(n - 1)
  }

  lemma {:induction false} SameLowBits(x: int, c: int, n: nat)
    ensures OctetBits(x + c * Pow2(n), n) == OctetBits(x, n)
    decreases n
  {
    if n > 0 {
      var h := c * Pow2(n - 1);
      assert c * Pow2(n) == 2 * h;
      assert (x + 2 * h) % 2 == x % 2 && (x + 2 * h) / 2 == x / 2 + h;
      SameLowBits(x / 2, c, n - 1);
    }
  }

  lemma SignDoesNotMatter(b: Byte)
    ensures OctetBits(Signed(b), 8) == OctetBits(b, 8)
  {
    assert Pow2(8) == 256;
    SameLowBits(b, -1, 8);
  }

  /** The char variant computes the same function of the octets. */
  method EthCrcOfChars(length: int, data: seq<Byte>) returns (crc: Reg)
    requires length <= |data|
    ensures crc == Crc32(data[..if length < 0 then 0 else length])
  {
    crc := All(true);
    var at := 0;
    while at < length
      invariant 0 <= at && (at <= length || at == 0 > length)
      invariant crc == Crc32(data[..at])
    {
      crc := FeedOctet(crc, Signed(data[at]));
      SignDoesNotMatter(data[at]);
      OneMoreOctet(data, at);
      at := at + 1;
    }
  }

  // ---- the register in memory ----

  function FromBits(bits: seq<bool>): (x: nat)
    ensures x < Pow2(|bits|)
    decreases |bits|
  {
    if bits == [] then 0 else Weight(bits[0]) + 2 * FromBits(bits[1..])
  }

  function Weight(b: bool): nat {
    if b then 1 else 0
  }

  lemma OneMoreBit(bits: seq<bool>, k: nat)
    requires k < |bits|
    ensures FromBits(bits[k..]) == Weight(bits[k]) + 2 * FromBits(bits[k + 1..])
  {
    assert bits[k..][1..] == bits[k + 1..];
  }

  /** Four bits are one more hexadecimal digit. */
  lemma FourMoreBits(bits: seq<bool>, k: nat, rest: nat)
    requires k + 4 <= |bits| && FromBits(bits[k + 4..]) == rest
    ensures FromBits(bits[k..]) == Weight(bits[k]) + 2 * Weight(bits[k + 1]) + 4 * Weight(bits[k + 2])
                                   + 8 * Weight(bits[k + 3]) + 16 * rest
  {
    OneMoreBit(bits, k);
    OneMoreBit(bits, k + 1);
    OneMoreBit(bits, k + 2);
    OneMoreBit(bits, k + 3);
  }

  lemma PolyUpper(bits: seq<bool>)
    requires |bits| == 32 && forall i | 0 <= i < 32 :: bits[i] == Poly(i)
    ensures FromBits(bits[16..]) == 0x04c1
  {
    assert bits[32..] == [];
    FourMoreBits(bits, 28, 0);
    FourMoreBits(bits, 24, 0x0);
    FourMoreBits(bits, 20, 0x04);
    FourMoreBits(bits, 16, 0x04c);
  }

  /** The bits of the generator spell the number in the source. */
  lemma PolyIsTheGenerator(bits: seq<bool>)
    requires |bits| == 32 && forall i | 0 <= i < 32 :: bits[i] == Poly(i)
    ensures FromBits(bits) == 0x04c1_1db7
  {
    PolyUpper(bits);
    FourMoreBits(bits, 12, 0x04c1);
    FourMoreBits(bits, 8, 0x0_4c11);
    FourMoreBits(bits, 4, 0x04_c11d);
    FourMoreBits(bits, 0, 0x04c_11db);
    assert bits[0..] == bits;
  }

  lemma {:induction false} BitsOfFromBits(bits: seq<bool>)
    ensures OctetBits(FromBits(bits), |bits|) == bits
    decreases |bits|
  {
    if bits != [] {
      BitsOfFromBits(bits[1..]);
      assert FromBits(bits) / 2 == FromBits(bits[1..]);
    }
  }

  function Octet(bits: seq<bool>): (b: Byte)
    requires |bits| == 8
    ensures OctetBits(b, 8) == bits
  {
    assert Pow2(8) == 256;
    BitsOfFromBits(bits);
    FromBits(bits)
  }

  /** The four octets memcpy takes from the register, in little-endian host order. */
  function CrcBytes(crc: Reg): (b: seq<Byte>)
    ensures |b| == 4 && Bits(b) == crc
  {
    var b := [Octet(crc[..8]), Octet(crc[8..16]), Octet(crc[16..24]), Octet(crc[24..])];
    assert b[1..][1..][1..] == [b[3]] && b[1..][1..] == [b[2], b[3]];
    assert Bits([b[3]]) == crc[24..];
    assert Bits([b[2], b[3]]) == crc[16..24] + crc[24..];
    assert Bits(b[1..]) == crc[8..16] + (crc[16..24] + crc[24..]);
    b
  }
}
