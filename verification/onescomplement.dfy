/** What the checksum is good for: the receiver's check, and its independence of byte order, word order and
  * splitting. */
module OnesComplement {
  import opened Crc
  import opened Checksum

  // ---- the check of a stamped header ----

  /** `s` with the 16-bit field at the even offset `k` set to `w`. */
  function Store(little: bool, s: seq<Byte>, k: nat, w: Word): (t: seq<Byte>)
    requires k % 2 == 0 && k + 1 < |s|
    ensures |t| == |s|
  {
    s[k := BytesOf(little, w)[0]][k + 1 := BytesOf(little, w)[1]]
  }

  lemma BytesAndWords(little: bool, a: Byte, b: Byte, w: Word)
    ensures WordOf(little, BytesOf(little, w)[0], BytesOf(little, w)[1]) == w
    ensures BytesOf(little, WordOf(little, a, b)) == [a, b]
  {
  }

  lemma {:induction false} StoreSetsWord(little: bool, s: seq<Byte>, k: nat, w: Word)
    requires k % 2 == 0 && k + 1 < |s|
    ensures Words(little, Store(little, s, k, w)) == Words(little, s)[k / 2 := w]
  {
    BytesAndWords(little, 0, 0, w);
    if k == 0 {
      assert Store(little, s, k, w)[2..] == s[2..];
    } else {
      StoreSetsWord(little, s[2..], k - 2, w);
      assert Store(little, s, k, w)[2..] == Store(little, s[2..], k - 2, w);
    }
  }

  lemma {:induction false} TotalSetsWord(ws: seq<Word>, i: nat, w: Word)
    requires i < |ws|
    ensures Total(ws[i := w]) == Total(ws) - ws[i] + w
  {
    var m := |ws| - 1;
    if i == m {
      assert ws[i := w][..m] == ws[..m];
    } else {
      TotalSetsWord(ws[..m], i, w);
      assert ws[i := w][..m] == ws[..m][i := w];
    }
  }

  /** With the sum `n` of the other words, a word completes the sum to 65535 just if it is the complement. */
  lemma Completes(n: nat, v: Word)
    ensures Norm(n + v) == 65535 <==> v == 65535 - Norm(n) || (Norm(n) == 65535 && v == 65535)
  {
    NormAdds(n, v);
  }

  /** Whatever the field held, with `v` stored in it the checksum of the buffer is 0 just if `v` is the checksum taken
    * with the field zero; a checksum of 0 may as well be stored as 65535. */
  lemma ChecksIffStamped(little: bool, s: seq<Byte>, k: nat, v: Word)
    requires k % 2 == 0 && k + 1 < |s|
    ensures var c := Sum16(little, Store(little, s, k, 0));
      Sum16(little, Store(little, s, k, v)) == 0 <==> v == c || (c == 0 && v == 65535)
  {
    var ws := Words(little, s);
    var i := k / 2;
    StoreSetsWord(little, s, k, 0);
    StoreSetsWord(little, s, k, v);
    TotalSetsWord(ws, i, 0);
    TotalSetsWord(ws, i, v);
    DeferredCarries(ws[i := 0]);
    DeferredCarries(ws[i := v]);
    Completes(Total(ws[i := 0]), v);
  }

  /** A header that passes, with one word changed, fails; only the two zeros of one's complement, 0 and 65535, pass for
    * each other, and only where the other words do not all vanish. */
  lemma OneWordErrorIsSeen(little: bool, s: seq<Byte>, k: nat, v: Word)
    requires k % 2 == 0 && k + 1 < |s| && Sum16(little, s) == 0
    requires v != WordOf(little, s[k], s[k + 1])
    ensures var was := WordOf(little, s[k], s[k + 1]);
      Sum16(little, Store(little, s, k, v)) == 0 <==>
      Sum16(little, Store(little, s, k, 0)) == 0 && (was == 0 || was == 65535) && (v == 0 || v == 65535)
  {
    var was := WordOf(little, s[k], s[k + 1]);
    BytesAndWords(little, s[k], s[k + 1], was);
    assert Store(little, s, k, was) == s;
    ChecksIffStamped(little, s, k, was);
    ChecksIffStamped(little, s, k, v);
  }

  /** A 16-bit store into the header. */
  method PutWord(mem: array<Byte>, addr: nat, len: nat, field: nat, little: bool, w: Word)
    requires addr + len <= mem.Length && field % 2 == 0 && field + 1 < len
    modifies mem
    ensures mem[addr..addr + len] == Store(little, old(mem[addr..addr + len]), field, w)
    ensures mem[..addr] == old(mem[..addr]) && mem[addr + len..] == old(mem[addr + len..])
  {
    var bytes := BytesOf(little, w);
    mem[addr + field], mem[addr + field + 1] := bytes[0], bytes[1];
    assert mem[addr..addr + len] == old(mem[addr..addr + len])[field := bytes[0]][field + 1 := bytes[1]];
  }

  lemma StoreAgain(little: bool, s: seq<Byte>, k: nat, v: Word, w: Word)
    requires k % 2 == 0 && k + 1 < |s|
    ensures Store(little, Store(little, s, k, v), k, w) == Store(little, s, k, w)
  {
  }

  /** What load_ip does with the header: zero the field, take the checksum, store it. */
  method Stamp(mem: array<Byte>, addr: nat, len: nat, field: nat, little: bool)
    requires addr + len <= mem.Length && len <= 65536 && field % 2 == 0 && field + 1 < len
    modifies mem
    ensures var s := old(mem[addr..addr + len]);
      mem[addr..addr + len] == Store(little, s, field, Sum16(little, Store(little, s, field, 0)))
    ensures mem[..addr] == old(mem[..addr]) && mem[addr + len..] == old(mem[addr + len..])
    ensures Sum16(little, mem[addr..addr + len]) == 0
  {
    ghost var s: seq<Byte> := mem[addr..addr + len];
    PutWord(mem, addr, len, field, little, 0);
    var sum := Chksum(mem, addr, len, little);
    PutWord(mem, addr, len, field, little, sum);
    StoreAgain(little, s, field, 0, sum);
    ChecksIffStamped(little, s, field, sum);
  }

  // ---- byte order ----

  function Swap(w: Word): Word {
    w % 256 * 256 + w / 256
  }

  function Swapped(ws: seq<Word>): (r: seq<Word>)
    ensures |r| == |ws| && forall i | 0 <= i < |ws| :: r[i] == Swap(ws[i])
  {
    if ws == [] then [] else [Swap(ws[0])] + Swapped(ws[1..])
  }

  /** Swapping multiplies by 256, modulo 65535. */
  lemma SwapIsTimes256(w: Word)
    ensures Swap(w) + 65535 * (w / 256) == 256 * w
    ensures Swap(w) == 0 <==> w == 0
    ensures Swap(w) == 65535 <==> w == 65535
    ensures Swap(65535 - w) == 65535 - Swap(w)
  {
  }

  /** Two words that are equal modulo 65535, and zero together, are equal. */
  lemma SameResidue(x: Word, y: Word, q: int)
    requires x - y == 65535 * q && (x == 0 <==> y == 0)
    ensures x == y
  {
  }

  /** A carry stays a carry when the bytes change places. */
  lemma SwapEndAround(a: Word, b: Word)
    ensures Swap(EndAround(a, b)) == EndAround(Swap(a), Swap(b))
  {
    var r := EndAround(a, b);
    SwapIsTimes256(a);
    SwapIsTimes256(b);
    SwapIsTimes256(r);
    CarriesCancel(a, b, r, Swap(a), Swap(b), Swap(r), a / 256, b / 256, r / 256);
  }

  lemma CarriesCancel(a: Word, b: Word, r: Word, sa: Word, sb: Word, sr: Word, qa: int, qb: int, qr: int)
    requires r == EndAround(a, b)
    requires sa + 65535 * qa == 256 * a && sb + 65535 * qb == 256 * b && sr + 65535 * qr == 256 * r
    requires (sa == 0 <==> a == 0) && (sb == 0 <==> b == 0) && (sr == 0 <==> r == 0)
    ensures sr == EndAround(sa, sb)
  {
    var c, d := if a + b > 65535 then 1 else 0, if sa + sb > 65535 then 1 else 0;
    SameResidue(sr, EndAround(sa, sb), qa + qb - qr - 256 * c + d);
  }

  /** Swapping the bytes of every word swaps the bytes of the sum. */
  lemma {:induction false} SwapSum(ws: seq<Word>)
    ensures OnesSum(Swapped(ws)) == Swap(OnesSum(ws))
  {
    if ws != [] {
      var m := |ws| - 1;
      SwapSum(ws[..m]);
      assert Swapped(ws)[..m] == Swapped(ws[..m]);
      SwapEndAround(OnesSum(ws[..m]), ws[m]);
    }
  }

  lemma {:induction false} OtherHostReadsSwapped(s: seq<Byte>)
    ensures Words(false, s) == Swapped(Words(true, s))
  {
    if |s| > 1 { OtherHostReadsSwapped(s[2..]); }
  }

  lemma OtherHostStoresSwapped(w: Word)
    ensures BytesOf(true, w) == BytesOf(false, Swap(w))
  {
  }

  /** The two bytes that a host stores as the checksum of a buffer do not depend on its byte order. */
  lemma StoredBytesAreTheSame(s: seq<Byte>)
    ensures BytesOf(true, Sum16(true, s)) == BytesOf(false, Sum16(false, s))
  {
    OtherHostReadsSwapped(s);
    SwapSum(Words(true, s));
    var sum := OnesSum(Words(true, s));
    SwapIsTimes256(sum);
    OtherHostStoresSwapped(65535 - sum);
  }

  // ---- word order and splitting ----

  /** Taking a word out of the middle. */
  lemma {:induction false} TotalWithout(ws: seq<Word>, i: nat)
    requires i < |ws|
    ensures Total(ws) == Total(ws[..i] + ws[i + 1..]) + ws[i]
  {
    var m := |ws| - 1;
    if i == m {
      assert ws[..i] + ws[i + 1..] == ws[..m];
    } else {
      TotalWithout(ws[..m], i);
      var t := ws[..i] + ws[i + 1..];
      assert t[..|t| - 1] == ws[..m][..i] + ws[..m][i + 1..] && t[|t| - 1] == ws[m];
    }
  }

  lemma TakeOut(us: seq<Word>, i: nat)
    requires i < |us|
    ensures multiset(us[..i] + us[i + 1..]) == multiset(us) - multiset{us[i]}
  {
    assert us == us[..i] + [us[i]] + us[i + 1..];
  }

  lemma {:induction false} TotalIgnoresOrder(ws: seq<Word>, us: seq<Word>)
    requires multiset(ws) == multiset(us)
    ensures Total(ws) == Total(us)
    decreases |ws|
  {
    if ws == [] {
      assert |us| == |multiset(us)| == |multiset(ws)| == 0;
    } else {
      var m := |ws| - 1;
      assert ws == ws[..m] + [ws[m]];
      assert ws[m] in multiset(us);
      var i :| 0 <= i < |us| && us[i] == ws[m];
      var rest := us[..i] + us[i + 1..];
      TakeOut(us, i);
      assert multiset(rest) == multiset(ws[..m]);
      TotalIgnoresOrder(ws[..m], rest);
      TotalWithout(us, i);
    }
  }

  /** The order of the words does not matter. */
  lemma SumIgnoresOrder(ws: seq<Word>, us: seq<Word>)
    requires multiset(ws) == multiset(us)
    ensures OnesSum(ws) == OnesSum(us)
  {
    TotalIgnoresOrder(ws, us);
    DeferredCarries(ws);
    DeferredCarries(us);
  }

  lemma {:induction false} WordsConcat(little: bool, s: seq<Byte>, t: seq<Byte>)
    requires |s| % 2 == 0
    ensures Words(little, s + t) == Words(little, s) + Words(little, t)
  {
    if s == [] {
      assert s + t == t;
    } else {
      WordsConcat(little, s[2..], t);
      assert (s + t)[2..] == s[2..] + t;
    }
  }

  lemma {:induction false} EndAroundAssociates(a: Word, b: Word, c: Word)
    ensures EndAround(EndAround(a, b), c) == EndAround(a, EndAround(b, c))
  {
  }

  lemma {:induction false} SumConcat(ws: seq<Word>, us: seq<Word>)
    ensures OnesSum(ws + us) == EndAround(OnesSum(ws), OnesSum(us))
  {
    if us == [] {
      assert ws + us == ws;
    } else {
      var m := |us| - 1;
      SumConcat(ws, us[..m]);
      assert (ws + us)[..|ws| + m] == ws + us[..m];
      EndAroundAssociates(OnesSum(ws), OnesSum(us[..m]), us[m]);
    }
  }

  /** The checksum of a concatenation at an even boundary, from the checksums of the parts. */
  lemma ChecksumConcat(little: bool, s: seq<Byte>, t: seq<Byte>)
    requires |s| % 2 == 0
    ensures Sum16(little, s + t) == 65535 - EndAround(65535 - Sum16(little, s), 65535 - Sum16(little, t))
  {
    WordsConcat(little, s, t);
    SumConcat(Words(little, s), Words(little, t));
  }
}
