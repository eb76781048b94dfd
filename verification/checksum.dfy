/** chksum: the Internet checksum, as load_ip puts it into the header. */
module Checksum {
  import opened Crc

  /** The accumulator, a C int. */
  newtype Int32 = x: int | -0x8000_0000 <= x < 0x8000_0000

  type Word = x: int | 0 <= x <= 65535

  // ---- the specification: words added with end-around carry ----

  /** The 16-bit number that the host reads from two adjacent bytes. */
  function WordOf(little: bool, a: Byte, b: Byte): Word {
    if little then a + 256 * b else 256 * a + b
  }

  /** The two bytes the host writes for a 16-bit number. */
  function BytesOf(little: bool, w: Word): seq<Byte> {
    if little then [w % 256, w / 256] else [w / 256, w % 256]
  }

  /** The words of a buffer, an odd last byte followed by a zero. */
  function Words(little: bool, s: seq<Byte>): (ws: seq<Word>)
    ensures |ws| == (|s| + 1) / 2
  {
    if |s| == 0 then [] else if |s| == 1 then [WordOf(little, s[0], 0)]
    else [WordOf(little, s[0], s[1])] + Words(little, s[2..])
  }

  /** One's complement addition: a carry out of the top is added at the bottom. */
  function EndAround(a: Word, b: Word): Word {
    if a + b > 65535 then a + b - 65535 else a + b
  }

  function OnesSum(ws: seq<Word>): Word {
    if ws == [] then 0 else EndAround(OnesSum(ws[..|ws| - 1]), ws[|ws| - 1])
  }

  /** The checksum of a buffer. */
  function Sum16(little: bool, s: seq<Byte>): Word {
    65535 - OnesSum(Words(little, s))
  }

  // ---- deferred carries ----

  /** The plain sum that the loop accumulates. */
  function Total(ws: seq<Word>): (n: nat)
    ensures n <= 65535 * |ws|
  {
    if ws == [] then 0 else Total(ws[..|ws| - 1]) + ws[|ws| - 1]
  }

  /** The number from 1 to 65535 that is `n` modulo 65535; 0 only for 0. */
  function Norm(n: nat): Word {
    if n == 0 then 0 else (n - 1) % 65535 + 1
  }

  lemma Modulo65535(n: int, q: int, r: int)
    requires n == q * 65535 + r && 0 <= r < 65535
    ensures n % 65535 == r
  {
  }

  /** Adding a word commutes with reducing. */
  lemma NormAdds(n: nat, w: Word)
    ensures EndAround(Norm(n), w) == Norm(n + w)
  {
    if n > 0 {
      var q, r := (n - 1) / 65535, (n - 1) % 65535;
      if r + w < 65535 {
        Modulo65535(n + w - 1, q, r + w);
      } else {
        Modulo65535(n + w - 1, q + 1, r + w - 65535);
      }
    }
  }

  /** Adding the carries at the end is adding them at every step. */
  lemma {:induction false} DeferredCarries(ws: seq<Word>)
    ensures OnesSum(ws) == Norm(Total(ws))
  {
    if ws != [] {
      DeferredCarries(ws[..|ws| - 1]);
      NormAdds(Total(ws[..|ws| - 1]), ws[|ws| - 1]);
    }
  }

  /** The two folds of the accumulator. */
  function Folded(n: nat): nat {
    var once := n / 65536 + n % 65536;
    once + once / 65536
  }

  /** Two folds are enough for every sum a C int holds. */
  lemma TwoFolds(n: nat)
    requires n < 0x8000_0000
    ensures Folded(n) < 0x8000_0000 && Folded(n) % 65536 == Norm(n)
  {
    var h, l := n / 65536, n % 65536;
    assert n == h * 65536 + l && h < 32768;
    var once := h + l;
    if n > 0 {
      if once < 65536 {
        assert once / 65536 == 0;
        Modulo65535(n - 1, h, once - 1);
      } else {
        assert once / 65536 == 1;
        Modulo65535(n - 1, h + 1, once - 65536);
      }
    }
  }

  /** What the loop has added after `m` words. */
  function Partial(ws: seq<Word>, m: nat): (n: nat)
    requires m <= |ws|
    ensures n <= 65535 * m
  {
    if m == 0 then 0 else Partial(ws, m - 1) + ws[m - 1]
  }

  lemma {:induction false} PartialIsTotal(ws: seq<Word>, m: nat)
    requires m <= |ws|
    ensures Partial(ws, m) == Total(ws[..m])
  {
    if m > 0 {
      PartialIsTotal(ws, m - 1);
      assert ws[..m][..m - 1] == ws[..m - 1];
    }
  }

  /** `ws` are the words of `s`, one by one. */
  ghost predicate Spells(little: bool, s: seq<Byte>, ws: seq<Word>) {
    && |s| <= 2 * |ws| <= |s| + 1
    && forall i {:trigger ws[i]} | 0 <= i < |ws| ::
         ws[i] == WordOf(little, s[2 * i], if 2 * i + 1 < |s| then s[2 * i + 1] else 0)
  }

  lemma {:induction false} WordsSpell(little: bool, s: seq<Byte>)
    ensures Spells(little, s, Words(little, s))
  {
    if |s| > 1 {
      WordsSpell(little, s[2..]);
      var ws := Words(little, s);
      forall i | 0 <= i < |ws|
        ensures ws[i] == WordOf(little, s[2 * i], if 2 * i + 1 < |s| then s[2 * i + 1] else 0)
      {
        if i > 0 { assert ws[i] == ws[1..][i - 1]; }
      }
    }
  }

  /** The bytes that `len` covers; a negative length covers none. */
  function Covered(mem: array<Byte>, addr: nat, len: int): seq<Byte>
    requires addr + len <= mem.Length
    reads mem
  {
    if len < 0 then [] else mem[addr..addr + len]
  }

  /** The loop over the words, and the odd byte. */
  method SumWords(mem: array<Byte>, addr: nat, len: int, little: bool, ghost ws: seq<Word>) returns (sum: Int32)
    requires addr + len <= mem.Length && len <= 65536 && Spells(little, Covered(mem, addr, len), ws)
    ensures sum as int == Partial(ws, |ws|)
  {
    ghost var s: seq<Byte> := Covered(mem, addr, len);
    ghost var i := 0;
    var nleft, w := len, addr;
    sum := 0;
    while nleft > 1
      invariant 0 <= i <= |s| / 2 && w == addr + 2 * i && nleft == len - 2 * i
      invariant sum as int == Partial(ws, i)
    {
      sum := sum + WordOf(little, mem[w], mem[w + 1]) as Int32;
      w, nleft, i := w + 2, nleft - 2, i + 1;
    }
    if nleft == 1 {
      sum := sum + WordOf(little, mem[w], 0) as Int32;
      i := i + 1;
    }
  }

  /** chksum: the sum, the two folds and the complement cut to 16 bits. */
  method Chksum(mem: array<Byte>, addr: nat, len: int, little: bool) returns (answer: Word)
    requires addr + len <= mem.Length && len <= 65536
    ensures answer == Sum16(little, Covered(mem, addr, len))
  {
    ghost var ws := Words(little, Covered(mem, addr, len));
    WordsSpell(little, Covered(mem, addr, len));
    var sum := SumWords(mem, addr, len, little, ws);
    PartialIsTotal(ws, |ws|);
    assert ws[..|ws|] == ws;
    TwoFolds(Total(ws));
    DeferredCarries(ws);
    sum := sum / 65536 + sum % 65536;
    sum := sum + sum / 65536;
    answer := 65535 - (sum as int) % 65536;
  }
}
