/** The size check of load_nn against the reads that follow it. */
module SizeCheck {
  import opened Crc
  import opened Image
  import opened Load
  import opened RoundTrip

  // ---- where the reads end, loop by loop ----

  /** The innermost loops: `times` numbers of `step` octets. */
  function Advance(cur: nat, step: nat, times: nat): nat
    decreases times
  {
    if times == 0 then cur else Advance(cur + step, step, times - 1)
  }

  /** The neurons of the layers from `k` on. */
  function PastNeurons(p: seq<nat>, k: nat, cur: nat): nat
    requires k <= |p|
    decreases |p| - k
  {
    if k == |p| then cur else PastNeurons(p, k + 1, Advance(cur, 24, p[k]))
  }

  /** The links of `m` neurons, `n` each. */
  function PastLayer(m: nat, n: nat, cur: nat): nat {
    if m == 0 then cur else PastLayer(m - 1, n, Advance(cur, 24, n))
  }

  /** The links across the gaps from layer `k` on. */
  function PastLinks(p: seq<nat>, forward: bool, k: nat, cur: nat): nat
    requires k < |p|
    decreases |p| - k
  {
    if k + 1 == |p| then cur else
      PastLinks(p, forward, k + 1, if forward then PastLayer(p[k], p[k + 1], cur) else PastLayer(p[k + 1], p[k], cur))
  }

  /** Where the cursor stands after the loops of load_nn over a table `p`, however long the file is. */
  function ReadsEnd(p: seq<nat>): nat
    requires |p| > 0
  {
    var table := Advance(42, 4, |p|);
    PastLinks(p, false, 0, PastLinks(p, true, 0, PastNeurons(p, 0, table)))
  }

  lemma {:induction false} AdvanceIs(cur: nat, step: nat, times: nat)
    ensures Advance(cur, step, times) == cur + step * times
    decreases times
  {
    if times > 0 {
      AdvanceIs(cur + step, step, times - 1);
      assert step * times == step + step * (times - 1);
    }
  }

  lemma {:induction false} PastNeuronsIs(p: seq<nat>, k: nat, cur: nat)
    requires k <= |p|
    ensures PastNeurons(p, k, cur) + 24 * Sum(p[..k]) == cur + 24 * Sum(p)
    decreases |p| - k
  {
    if k < |p| {
      AdvanceIs(cur, 24, p[k]);
      PastNeuronsIs(p, k + 1, cur + 24 * p[k]);
      SumTakes(p, k);
    } else {
      assert p[..k] == p;
    }
  }

  lemma {:induction false} PastLayerIs(m: nat, n: nat, cur: nat)
    ensures PastLayer(m, n, cur) == cur + 24 * (m * n)
    decreases m
  {
    if m > 0 {
      AdvanceIs(cur, 24, n);
      PastLayerIs(m - 1, n, cur + 24 * n);
      assert m * n == (m - 1) * n + n;
    }
  }

  lemma {:induction false} PastLinksIs(p: seq<nat>, forward: bool, k: nat, cur: nat)
    requires k < |p|
    ensures PastLinks(p, forward, k, cur) + 24 * Pairs(p[..k + 1]) == cur + 24 * Pairs(p)
    decreases |p| - k
  {
    if k + 1 < |p| {
      var x, y := p[k], p[k + 1];
      PastLayerIs(x, y, cur);
      PastLayerIs(y, x, cur);
      assert x * y == y * x;
      PastLinksIs(p, forward, k + 1, cur + 24 * (x * y));
      PairsTake(p, k + 1);
    } else {
      assert p[..k + 1] == p;
    }
  }

  /** The loops read exactly what save_nn would have written for this table. */
  lemma ReadsEndIsImageSize(p: seq<nat>)
    requires |p| > 0
    ensures ReadsEnd(p) == ImageSize(p)
  {
    var table := 42 + 4 * |p|;
    AdvanceIs(42, 4, |p|);
    PastNeuronsIs(p, 0, table);
    PastLinksIs(p, true, 0, table + 24 * Sum(p));
    PastLinksIs(p, false, 0, table + 24 * Sum(p) + 24 * Pairs(p));
    assert p[..0] == [] && p[..1] == [p[0]];
  }

  // ---- what the check is worth ----

  lemma RemainderIff(n: nat, size: nat)
    ensures n % WRAP == size <==> size < WRAP && exists k: nat :: n == size + WRAP * k
    ensures n % WRAP == size ==> (n == size <==> n < WRAP)
  {
    if n % WRAP == size {
      assert n == size + WRAP * (n / WRAP);
    }
    forall k: nat | size < WRAP && n == size + WRAP * k ensures n % WRAP == size {
      Congruent(size, k);
    }
  }

  /** For every file with a layer table: the size check passes just if the file has less than 2^32 octets and the reads
    * end a multiple of 2^32 behind its end. Where it passes, they end at the end of the file just if the size that the
    * table announces is below 2^32. */
  lemma SizeCheckIff(file: seq<Byte>)
    requires HasTable(file)
    ensures var p := TableOf(file, LayersOf(file));
      && (SizeOk(file) <==> |file| < WRAP && exists k: nat :: ReadsEnd(p) == |file| + WRAP * k)
      && (SizeOk(file) ==> (ReadsEnd(p) == |file| <==> ImageSize(p) < WRAP))
  {
    var p := TableOf(file, LayersOf(file));
    ReadsEndIsImageSize(p);
    RemainderIff(ReadsEnd(p), |file|);
  }

  lemma PartsOf(file: seq<Byte>, crc: seq<Byte>, head: seq<Byte>, table: seq<Byte>, zeros: seq<Byte>)
    requires |crc| == 4 && |head| == 38 && file == crc + (head + (table + zeros))
    ensures file[..4] == crc && file[4..] == head + (table + zeros)
    ensures file[4..42] == head && file[42..42 + |table|] == table
  {
  }

  /** A file with a good CRC that starts as asked. */
  lemma SealedFile(head: seq<Byte>, table: seq<Byte>, size: nat) returns (file: seq<Byte>)
    requires |head| == 38 && 42 + |table| <= size
    ensures |file| == size && CrcOk(file) && file[4..42] == head && file[42..42 + |table|] == table
  {
    var zeros: seq<Byte> := seq(size - 42 - |table|, _ => 0);
    var rest := head + (table + zeros);
    var crc := CrcBytes(Crc32(Hashed(rest)));
    file := crc + rest;
    PartsOf(file, crc, head, table, zeros);
  }

  /** For every table whose computed size leaves room for it there is a file that passes both checks, of just the size
    * that the program computes. */
  lemma PassingFile(p: seq<nat>) returns (file: seq<Byte>)
    requires 0 < |p| < 0x1_0000 && (forall k | 0 <= k < |p| :: p[k] < WRAP)
    requires 42 + 4 * |p| <= ImageSize(p) % WRAP
    ensures |file| == ImageSize(p) % WRAP && HasTable(file) && CrcOk(file) && SizeOk(file)
    ensures LayersOf(file) == |p| && TableOf(file, |p|) == p
  {
    var h := Head(0, ZERO8, ZERO8, ZERO8, ZERO8);
    file := SealedFile(Header(|p|, h), Table(p), ImageSize(p) % WRAP);
    FrontPasses(file, p, h);
  }

  /** Two layers of 65536 neurons: there is a file of 3145778 octets that passes both checks, and whose reads end more
    * than 200 billion octets behind it. */
  lemma WrappedFile() returns (file: seq<Byte>)
    ensures |file| == 3145778 && HasTable(file) && CrcOk(file) && SizeOk(file)
    ensures LayersOf(file) == 2 && TableOf(file, 2) == [65536, 65536] && ReadsEnd([65536, 65536]) == 206161575986
    ensures !Inside(file)
  {
    var p: seq<nat> := [65536, 65536];
    assert p[..1] == [65536] && p[..1][..0] == [];
    assert Sum(p[..1]) == 65536 && Sum(p) == 131072;
    assert Pairs(p) == 4294967296;
    assert ImageSize(p) == 206161575986;
    file := PassingFile(p);
    ReadsEndIsImageSize(p);
  }
}
