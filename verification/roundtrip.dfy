/** What saving and loading a network promise together. */
module RoundTrip {
  import opened Burst
  import opened Crc
  import opened Graph
  import opened Image
  import opened Load
  import opened Save
  import opened Wrappers

  lemma SizesAreSmall(p: seq<nat>)
    ensures forall k | 0 <= k < |p| :: p[k] <= Sum(p)
  {
    forall k | 0 <= k < |p| ensures p[k] <= Sum(p) { SumTakes(p, k); }
  }

  lemma TableOfImage(file: seq<Byte>, p: seq<nat>)
    requires |file| >= 42 + 4 * |p| && file[42..42 + 4 * |p|] == Table(p) && forall k | 0 <= k < |p| :: p[k] < WRAP
    ensures TableOf(file, |p|) == p
  {
    TableIsRead(file, |p|);
    TableDetermines(TableOf(file, |p|), p);
  }

  lemma HeaderStarts(n: nat, h: Head)
    ensures Header(n, h)[..2] == U16(n)
  {
  }

  lemma LayersOfImage(file: seq<Byte>, n: nat, h: Head)
    requires |file| >= 42 && file[4..42] == Header(n, h) && n < 0x1_0000
    ensures LayersOf(file) == n
  {
    HeaderStarts(n, h);
    assert file[4..42][..2] == file[4..6];
    ReadWrittenU16(n);
  }

  lemma BodyStarts(file: seq<Byte>, c: Content)
    requires |file| >= 42 + 4 * |c.sizes| && file[42..] == Body(c)
    ensures file[42..42 + 4 * |c.sizes|] == Table(c.sizes)
  {
    var n := 4 * |c.sizes|;
    assert file[42..42 + n] == file[42..][..n];
    assert Body(c)[..n] == Table(c.sizes);
  }

  lemma SumIsSmaller(p: seq<nat>)
    ensures Sum(p) <= ImageSize(p) && 42 + 4 * |p| <= ImageSize(p)
  {
  }

  /** A file with the layer table `p` and the size that the program computes for it passes the size check. */
  lemma FrontPasses(file: seq<Byte>, p: seq<nat>, h: Head)
    requires 0 < |p| < 0x1_0000 && (forall k | 0 <= k < |p| :: p[k] < WRAP)
    requires 42 + 4 * |p| <= |file| == ImageSize(p) % WRAP
    requires file[4..42] == Header(|p|, h) && file[42..42 + 4 * |p|] == Table(p)
    ensures HasTable(file) && LayersOf(file) == |p| && TableOf(file, |p|) == p && SizeOk(file)
  {
    LayersOfImage(file, |p|, h);
    TableOfImage(file, p);
  }

  /** With its true size and a layer table, a file is read inside. */
  lemma InsideWithTable(file: seq<Byte>, p: seq<nat>)
    requires HasTable(file) && LayersOf(file) == |p| && TableOf(file, |p|) == p && ImageSize(p) == |file|
    ensures Inside(file)
  {
  }

  lemma FrontOfImage(file: seq<Byte>, p: seq<nat>, h: Head)
    requires 0 < |p| < 0x1_0000 && |file| == ImageSize(p) < WRAP && TableIs(file, p) && file[4..42] == Header(|p|, h)
    ensures HasTable(file) && Inside(file) && SizeOk(file) && LayersOf(file) == |p| && TableOf(file, |p|) == p
  {
    SumIsSmaller(p);
    SizesAreSmall(p);
    NoWrapIff(|file|);
    FrontPasses(file, p, h);
    InsideWithTable(file, p);
  }

  lemma ImageFront(file: seq<Byte>, h: Head, c: Content)
    requires 0 < |c.sizes| < 0x1_0000 && |file| == ImageSize(c.sizes) < WRAP
    requires file[4..42] == Header(|c.sizes|, h) && file[42..] == Body(c)
    ensures HasTable(file) && Inside(file) && SizeOk(file)
    ensures LayersOf(file) == |c.sizes| && TableOf(file, |c.sizes|) == c.sizes
  {
    SumIsSmaller(c.sizes);
    BodyStarts(file, c);
    FrontOfImage(file, c.sizes, h);
  }

  /** Whatever save_nn wrote passes both checks of load_nn, and its layer table is read back. */
  lemma ImagePasses(file: seq<Byte>, h: Head, c: Content)
    requires StartsWith(file, h, c.sizes) && |file| < WRAP && file[42..] == Body(c)
    ensures Inside(file) && CrcOk(file) && SizeOk(file)
    ensures LayersOf(file) == |c.sizes| && TableOf(file, |c.sizes|) == c.sizes
  {
    ImageFront(file, h, c);
  }

  /** save_nn, and what load_nn will find in the file. */
  method SaveForLoad(nn: NN<Double>) returns (file: Option<seq<Byte>>, ghost c: Content)
    requires nn.Valid()
    ensures file.None? <==> ImageSize(nn.sizes) >= WRAP
    ensures old(Shows(nn, c)) && Fits(c) && c.sizes == nn.sizes
    ensures file.Some? ==> var f := file.value;
      && Inside(f) && CrcOk(f) && SizeOk(f) && LayersOf(f) == |nn.layers|
      && TableOf(f, LayersOf(f)) == nn.sizes && |f| == ImageSize(nn.sizes)
      && forall d | old(Shows(nn, d)) :: f[42..] == Body(d)
  {
    file, c := SaveNN(nn);
    ContentFits(nn, c);
    if file.Some? { ImagePasses(file.value, HeadOf(nn), c); }
  }

  /** Loading what was saved gives a valid network with the same sizes, neurons and weights. */
  method SaveThenLoad(nn: NN<Double>, ghost live: set<object>)
    returns (file: Option<seq<Byte>>, r: Option<NN<Double>>, ghost c: Content)
    requires nn.Valid() && |nn.layers| >= 2
    ensures file.None? <==> ImageSize(nn.sizes) >= WRAP
    ensures old(Shows(nn, c)) && c.sizes == nn.sizes
    ensures file.Some? ==> r.Some? && r.value.Valid() && r.value.Threaded() && Shows(r.value, c)
  {
    file, c := SaveForLoad(nn);
    if file.None? { return file, None, c; }
    ghost var d, live' := c, live;
    var loaded;
    loaded, d, live' := LoadNN(file.value, live);
    ContentFits(loaded.value, d);
    BodyDetermines(c, d);
    r := Some(loaded.value);
  }

  /** Saving what was loaded reproduces every byte from the layer table on. */
  method LoadThenSave(file: seq<Byte>, ghost live: set<object>) returns (again: Option<seq<Byte>>)
    ensures again.Some? <==> Accepted(file)
    ensures again.Some? ==> |again.value| == |file| && again.value[42..] == file[42..]
  {
    var r;
    ghost var c, d, live';
    r, c, live' := LoadNN(file, live);
    if r.Err? { return None; }
    assert Shows(r.value, c);
    again, d := SaveForLoad(r.value);
  }

  /** A saved file whose body was changed only inside 32 consecutive bits is refused just if it has less than 2^31
    * octets behind the CRC; of larger files eth_crc, which takes the size as an int, feeds nothing. */
  lemma CorruptionIsRefused(file: seq<Byte>, h: Head, c: Content, bad: seq<Byte>, p: nat)
    requires IsImage(file, h, c) && |file| < WRAP && |bad| == |file| && bad != file && bad[..4] == file[..4]
    requires DifferOnlyIn(Bits(file[4..]), Bits(bad[4..]), p, 32)
    ensures CrcOk(bad) <==> |file| - 4 >= 0x8000_0000
  {
    assert file == file[..4] + file[4..] && bad == bad[..4] + bad[4..];
    BurstChangesCrc(file[4..], bad[4..], p);
  }
}
