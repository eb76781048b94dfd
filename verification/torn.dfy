/** What the test of the reader is worth where a bucket is not copied in one step: the head of one published bucket
  * comes with the rest of another bucket of its slot. */
module Torn {
  import opened Burst
  import opened Crc
  import opened Ring

  /** How far the head has come: behind one of the four numbers, or behind `n` octets of the buffer. */
  datatype Split = AfterId | AfterWrote | AfterCrc | AfterLen | InBuffer(n: nat)

  function Mixed(x: Bucket, y: Bucket, c: Split): Bucket
    requires c.InBuffer? ==> c.n <= 1024
  {
    match c
    case AfterId => y.(id := x.id)
    case AfterWrote => y.(id := x.id, wrote := x.wrote)
    case AfterCrc => y.(id := x.id, wrote := x.wrote, crc := x.crc)
    case AfterLen => x.(buffer := y.buffer)
    case InBuffer(n) => x.(buffer := x.buffer[..n] + y.buffer[n..])
  }

  /** The message that a reader takes out of it. */
  function Message(b: Bucket): seq<Byte> {
    b.buffer[..b.len]
  }

  /** Split behind the id a mixture of two different messages always fails, and split behind wrote it always passes: the
    * check value covers neither. Split further behind it passes just if the message taken has the check value of the
    * first bucket. */
  lemma MixedPassesIff(a: nat, p: Push, b: nat, q: Push, c: Split, m: nat)
    requires m <= a != b && (c.InBuffer? ==> c.n <= 1024)
    ensures var x, y := Published(a, p), Published(b, q); var t := Mixed(x, y, c);
      && (c.AfterId? ==> !Accepts(t, m))
      && (c.AfterWrote? ==> Accepts(t, m) && Message(t) == Ring.Cut(q.data))
      && (!c.AfterId? && !c.AfterWrote? ==> (Accepts(t, m) <==> Crc32(Message(t)) == Crc32(Ring.Cut(p.data))))
  {
  }

  lemma SameHead(x: seq<bool>, y: seq<bool>, h: seq<bool>, s: seq<bool>, t: seq<bool>, p: nat)
    requires x == h + s && y == h + t && p == |h| && |s| == |t| <= 32
    ensures DifferOnlyIn(x, y, p, 32)
  {
  }

  /** Octets that follow the same ones differ only in their own bits. */
  lemma TailDiffers(h: seq<Byte>, s: seq<Byte>, t: seq<Byte>, p: nat)
    requires |s| == |t| <= 4 && p == 8 * |h|
    ensures DifferOnlyIn(Bits(h + s), Bits(h + t), p, 32)
  {
    BitsConcat(h, s);
    BitsConcat(h, t);
    SameHead(Bits(h + s), Bits(h + t), Bits(h), Bits(s), Bits(t), p);
  }

  /** With no more than four octets of the message missing a mixture passes just if the message taken is the one that
    * was pushed. */
  lemma LateSplitIsSeen(a: nat, p: Push, y: Bucket, n: nat, m: nat)
    requires m <= a && n <= 1024 && |Ring.Cut(p.data)| <= n + 4
    ensures var t := Mixed(Published(a, p), y, InBuffer(n)); Accepts(t, m) <==> Message(t) == Ring.Cut(p.data)
  {
    var x, d := Published(a, p), Ring.Cut(p.data);
    var t := Mixed(x, y, InBuffer(n));
    var l := if n < |d| then n else |d|;
    var s, u := d[l..], Message(t)[l..];
    assert d == d[..l] + s && Message(t) == d[..l] + u by {
      assert x.buffer[..l] == d[..l];
    }
    TailDiffers(d[..l], s, u, 8 * l);
    if Message(t) != d { BurstChangesCrc(d, Message(t), 8 * l); }
  }
}
