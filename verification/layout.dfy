/** Where everything stands in a saved file. */
module Layout {
  import opened Arithmetic
  import opened Crc
  import opened Graph
  import opened Image
  import opened Save

  /** `s` stands in `b` from offset `off` on. */
  predicate Stands(b: seq<Byte>, off: nat, s: seq<Byte>) {
    off + |s| <= |b| && b[off..off + |s|] == s
  }

  lemma SliceOfSlice<T>(b: seq<T>, lo: nat, hi: nat, x: nat, y: nat)
    requires lo <= hi <= |b| && x <= y <= hi - lo
    ensures b[lo..hi][x..y] == b[lo + x..lo + y]
  {
    var s, t := b[lo..hi][x..y], b[lo + x..lo + y];
    assert |s| == |t| && forall i | 0 <= i < |s| :: s[i] == t[i];
  }

  lemma StandsWithin(b: seq<Byte>, off: nat, s: seq<Byte>, off': nat, t: seq<Byte>)
    requires Stands(b, off, s) && Stands(s, off', t)
    ensures Stands(b, off + off', t)
  {
    SliceOfSlice(b, off, off + |s|, off', off' + |t|);
  }

  lemma StandsBetween(a: seq<Byte>, s: seq<Byte>, z: seq<Byte>)
    ensures Stands(a + s + z, |a|, s)
  {
  }

  // ---- numbers ----

  /** The number that some octets spell, the lowest first. */
  function Little(b: seq<Byte>): nat {
    if b == [] then 0 else
      var lowest: int := b[0];
      lowest + 256 * Little(b[1..])
  }

  lemma LittleOfTwo(b: seq<Byte>)
    requires |b| == 2
    ensures Little(b) == ReadU16(b)
  {
    assert b[1..] == [b[1]] && [b[1]][1..] == [];
    assert Little(b[1..]) == b[1] as int;
  }

  lemma LittleOfFour(b: seq<Byte>)
    requires |b| == 4
    ensures Little(b) == ReadU32(b)
  {
    assert b[1..][1..] == b[2..];
    LittleOfTwo(b[2..]);
    assert b[..2][0] == b[0] && b[..2][1] == b[1];
  }

  /** Numbers are stored from their lowest octet, and cut to 16 and to 32 bits. */
  lemma LowestFirst(x: nat)
    ensures Little(U16(x)) == x % 0x1_0000 && Little(U32(x)) == x % 0x1_0000_0000
  {
    ReadWrittenU16(x);
    ReadWrittenU32(x);
    LittleOfTwo(U16(x));
    LittleOfFour(U32(x));
  }

  lemma HeaderSlices(file: seq<Byte>, s: seq<Byte>)
    requires |file| >= 42 && s == file[4..42]
    ensures file[4..6] == s[..2] && file[6..10] == s[2..6] && file[10..18] == s[6..14]
    ensures file[18..26] == s[14..22] && file[26..34] == s[22..30] && file[34..42] == s[30..38]
  {
    SliceOfSlice(file, 4, 42, 0, 2);
    SliceOfSlice(file, 4, 42, 2, 6);
    SliceOfSlice(file, 4, 42, 6, 14);
    SliceOfSlice(file, 4, 42, 14, 22);
    SliceOfSlice(file, 4, 42, 22, 30);
    SliceOfSlice(file, 4, 42, 30, 38);
  }

  /** The header of a saved file, field by field. */
  lemma HeaderFields(file: seq<Byte>, h: Head, p: seq<nat>)
    requires StartsWith(file, h, p) && |file| >= 42
    ensures Little(file[4..6]) == |p| && Little(file[6..10]) == h.life % 0x1_0000_0000
    ensures file[10..18] == h.alpha && file[18..26] == h.eta && file[26..34] == h.gain && file[34..42] == h.error
  {
    LowestFirst(|p|);
    LowestFirst(h.life);
    HeaderParts(Header(|p|, h), |p|, h);
    HeaderSlices(file, Header(|p|, h));
  }

  lemma HeaderParts(s: seq<Byte>, n: nat, h: Head)
    requires s == Header(n, h)
    ensures s[..2] == U16(n) && s[2..6] == U32(h.life) && s[6..14] == h.alpha
    ensures s[14..22] == h.eta && s[22..30] == h.gain && s[30..38] == h.error
  {
  }

  // ---- the body ----

  lemma {:induction false} TableStands(p: seq<nat>, k: nat)
    requires k < |p|
    ensures Stands(Table(p), 4 * k, U32(p[k]))
    decreases |p|
  {
    var m := |p| - 1;
    if k < m { TableStands(p[..m], k); }
  }

  lemma {:induction false} Img1Stands(ts: seq<Triple>, i: nat)
    requires i < |ts|
    ensures Stands(Img1(ts), 24 * i, TripleBytes(ts[i]))
    decreases |ts|
  {
    var m := |ts| - 1;
    if i < m { Img1Stands(ts[..m], i); }
  }

  lemma {:induction false} Img2Stands(tss: seq<seq<Triple>>, k: nat)
    requires k < |tss|
    ensures Stands(Img2(tss), |Img2(tss[..k])|, Img1(tss[k]))
    decreases |tss|
  {
    var m := |tss| - 1;
    if k < m {
      Img2Stands(tss[..m], k);
      assert tss[..m][..k] == tss[..k];
    }
  }

  lemma {:induction false} Img3Stands(tsss: seq<seq<seq<Triple>>>, k: nat)
    requires k < |tsss|
    ensures Stands(Img3(tsss), |Img3(tsss[..k])|, Img2(tsss[k]))
    decreases |tsss|
  {
    var m := |tsss| - 1;
    if k < m {
      Img3Stands(tsss[..m], k);
      assert tsss[..m][..k] == tsss[..k];
    }
  }

  /** The parts of the body. */
  lemma BodyParts(c: Content, n: nat, s: nat, l: nat)
    requires Fits(c) && n == 4 * |c.sizes| && s == 24 * Sum(c.sizes) && l == 24 * Pairs(c.sizes)
    ensures Stands(Body(c), 0, Table(c.sizes)) && Stands(Body(c), n, Img2(c.neurons))
    ensures Stands(Body(c), n + s, Img3(c.fwd)) && Stands(Body(c), n + s + l, Img3(c.bwd))
  {
    NeuronsLength(c.neurons, c.sizes);
    LinksLength(c.fwd, c.sizes, true);
    LinksLength(c.bwd, c.sizes, false);
    FourParts(Table(c.sizes), Img2(c.neurons), Img3(c.fwd), Img3(c.bwd));
  }

  lemma FourParts(a: seq<Byte>, b: seq<Byte>, c: seq<Byte>, d: seq<Byte>)
    ensures Stands(a + b + c + d, 0, a) && Stands(a + b + c + d, |a|, b)
    ensures Stands(a + b + c + d, |a| + |b|, c) && Stands(a + b + c + d, |a| + |b| + |c|, d)
  {
  }

  /** Neuron `i` of layer `k` comes behind those of the layers before it and those before it in its layer. */
  lemma NeuronStands(c: Content, k: nat, i: nat)
    requires Fits(c) && k < |c.sizes| && i < c.sizes[k]
    ensures Stands(Img2(c.neurons), 24 * (Sum(c.sizes[..k]) + i), TripleBytes(c.neurons[k][i]))
  {
    var p := c.sizes;
    NeuronsLength(c.neurons[..k], p[..k]);
    Img2Stands(c.neurons, k);
    Img1Stands(c.neurons[k], i);
    StandsWithin(Img2(c.neurons), |Img2(c.neurons[..k])|, Img1(c.neurons[k]), 24 * i, TripleBytes(c.neurons[k][i]));
  }

  /** Link `j` of neuron `i` in a rectangle of links. */
  lemma LinkStands(tss: seq<seq<Triple>>, m: nat, n: nat, i: nat, j: nat, before: nat)
    requires Rectangle(tss, m, n) && i < m && j < n && before == i * n
    ensures |tss[i]| == n && Stands(Img2(tss), 24 * (before + j), TripleBytes(tss[i][j]))
  {
    assert Rectangle(tss[..i], i, n);
    RectangleLength(tss[..i], i, n);
    Img2Stands(tss, i);
    Img1Stands(tss[i], j);
    StandsWithin(Img2(tss), |Img2(tss[..i])|, Img1(tss[i]), 24 * j, TripleBytes(tss[i][j]));
  }

  lemma FrontRectangles(tsss: seq<seq<seq<Triple>>>, p: seq<nat>, forward: bool, k: nat)
    requires Rectangles(tsss, p, forward) && k < |tsss|
    ensures Rectangles(tsss[..k], p[..k + 1], forward)
  {
    var f, q := tsss[..k], p[..k + 1];
    forall l | 0 <= l < k
      ensures if forward then Rectangle(f[l], q[l], q[l + 1]) else Rectangle(f[l], q[l + 1], q[l])
    {
      assert f[l] == tsss[l] && q[l] == p[l] && q[l + 1] == p[l + 1];
    }
  }

  /** Link `j` of neuron `i` of gap `k`: the gaps before it hold as many links as there are pairs. */
  lemma GapLinkStands(tsss: seq<seq<seq<Triple>>>, p: seq<nat>, forward: bool, k: nat, i: nat, j: nat, before: nat)
    requires Rectangles(tsss, p, forward) && k < |tsss|
    requires var m, n := if forward then p[k] else p[k + 1], if forward then p[k + 1] else p[k];
      i < m && j < n && before == i * n
    ensures i < |tsss[k]| && j < |tsss[k][i]|
    ensures Stands(Img3(tsss), 24 * (Pairs(p[..k + 1]) + before + j), TripleBytes(tsss[k][i][j]))
  {
    var m, n := if forward then p[k] else p[k + 1], if forward then p[k + 1] else p[k];
    FrontRectangles(tsss, p, forward, k);
    LinksLength(tsss[..k], p[..k + 1], forward);
    Img3Stands(tsss, k);
    LinkStands(tsss[k], m, n, i, j, before);
    StandsWithin(Img3(tsss), |Img3(tsss[..k])|, Img2(tsss[k]), 24 * (before + j), TripleBytes(tsss[k][i][j]));
  }

  // ---- the file ----

  lemma BodyStands(file: seq<Byte>, h: Head, c: Content)
    requires IsImage(file, h, c)
    ensures Stands(file, 42, Body(c))
  {
    BodyLength(c);
  }

  /** Three doubles one behind the other. */
  predicate Doubles(file: seq<Byte>, at: nat, a: Double, b: Double, c: Double) {
    at + 24 <= |file| && file[at..at + 8] == a && file[at + 8..at + 16] == b && file[at + 16..at + 24] == c
  }

  lemma DoublesStand(file: seq<Byte>, at: nat, t: Triple)
    requires Stands(file, at, TripleBytes(t))
    ensures Doubles(file, at, t.a, t.b, t.c)
  {
    var s := TripleBytes(t);
    SliceOfSlice(file, at, at + 24, 0, 8);
    SliceOfSlice(file, at, at + 24, 8, 16);
    SliceOfSlice(file, at, at + 24, 16, 24);
    assert s[..8] == t.a && s[8..16] == t.b && s[16..24] == t.c;
  }

  lemma TableInFile(file: seq<Byte>, c: Content)
    requires Fits(c) && Stands(file, 42, Body(c))
    ensures Stands(file, 42, Table(c.sizes))
  {
    BodyParts(c, 4 * |c.sizes|, 24 * Sum(c.sizes), 24 * Pairs(c.sizes));
    StandsWithin(file, 42, Body(c), 0, Table(c.sizes));
  }

  lemma NeuronsInFile(file: seq<Byte>, c: Content)
    requires Fits(c) && Stands(file, 42, Body(c))
    ensures Stands(file, 42 + 4 * |c.sizes|, Img2(c.neurons))
  {
    BodyParts(c, 4 * |c.sizes|, 24 * Sum(c.sizes), 24 * Pairs(c.sizes));
    StandsWithin(file, 42, Body(c), 4 * |c.sizes|, Img2(c.neurons));
  }

  lemma WidthInFile(file: seq<Byte>, c: Content, k: nat)
    requires Fits(c) && Stands(file, 42, Body(c)) && k < |c.sizes|
    ensures Stands(file, 42 + 4 * k, U32(c.sizes[k]))
  {
    TableInFile(file, c);
    TableStands(c.sizes, k);
    StandsWithin(file, 42, Table(c.sizes), 4 * k, U32(c.sizes[k]));
  }

  /** The width of layer `k`, in a saved file. */
  lemma WidthAt(file: seq<Byte>, h: Head, c: Content, k: nat, at: nat)
    requires IsImage(file, h, c) && k < |c.sizes| && at == 42 + 4 * k
    ensures at + 4 <= |file| && Little(file[at..at + 4]) == c.sizes[k] % 0x1_0000_0000
  {
    BodyStands(file, h, c);
    WidthInFile(file, c, k);
    LowestFirst(c.sizes[k]);
  }

  lemma NeuronInFile(file: seq<Byte>, c: Content, k: nat, i: nat, off: nat)
    requires Fits(c) && Stands(file, 42, Body(c)) && k < |c.sizes| && i < c.sizes[k]
    requires off == 24 * (Sum(c.sizes[..k]) + i)
    ensures Stands(file, 42 + 4 * |c.sizes| + off, TripleBytes(c.neurons[k][i]))
  {
    NeuronsInFile(file, c);
    NeuronStands(c, k, i);
    StandsWithin(file, 42 + 4 * |c.sizes|, Img2(c.neurons), off, TripleBytes(c.neurons[k][i]));
  }

  /** State, output and error of neuron `i` of layer `k` of a network, in its saved file. */
  lemma NeuronAt(nn: NN<Double>, file: seq<Byte>, h: Head, c: Content, k: nat, i: nat, at: nat)
    requires Shows(nn, c) && IsImage(file, h, c) && k < |c.sizes| && i < c.sizes[k]
    requires at == 42 + 4 * |c.sizes| + 24 * (Sum(c.sizes[..k]) + i)
    ensures var n := nn.layers[k].neuros[i]; Doubles(file, at, n.state, n.output, n.error)
  {
    BodyStands(file, h, c);
    NeuronInFile(file, c, k, i, 24 * (Sum(c.sizes[..k]) + i));
    DoublesStand(file, at, c.neurons[k][i]);
    assert NeurosShow(nn.layers[k].neuros, c.neurons[k]);
    assert NeuroVal(nn.layers[k].neuros[i]) == c.neurons[k][i];
  }

  /** Where the links of one direction begin. */
  function LinksFrom(p: seq<nat>, forward: bool): nat {
    42 + 4 * |p| + 24 * Sum(p) + if forward then 0 else 24 * Pairs(p)
  }

  /** The place of link `j` of neuron `i`, forward from layer `k` or backward from layer `k + 1`: behind the links of
    * the gaps before, and those of the neurons before it. */
  predicate LinkPlace(p: seq<nat>, forward: bool, k: nat, i: nat, j: nat, at: nat) {
    k + 1 < |p| &&
    var m, n := if forward then p[k] else p[k + 1], if forward then p[k + 1] else p[k];
    i < m && j < n && at == LinksFrom(p, forward) + 24 * (Pairs(p[..k + 1]) + i * n + j)
  }

  lemma LinksInFile(file: seq<Byte>, c: Content, forward: bool, off: nat)
    requires Fits(c) && Stands(file, 42, Body(c)) && off == LinksFrom(c.sizes, forward) - 42
    ensures Stands(file, 42 + off, Img3(if forward then c.fwd else c.bwd))
  {
    BodyParts(c, 4 * |c.sizes|, 24 * Sum(c.sizes), 24 * Pairs(c.sizes));
    StandsWithin(file, 42, Body(c), off, Img3(if forward then c.fwd else c.bwd));
  }

  lemma LinkInside(file: seq<Byte>, from: nat, tsss: seq<seq<seq<Triple>>>, p: seq<nat>, forward: bool, k: nat, i: nat,
                   j: nat, before: nat)
    requires Stands(file, from, Img3(tsss)) && Rectangles(tsss, p, forward) && k < |tsss|
    requires var m, n := if forward then p[k] else p[k + 1], if forward then p[k + 1] else p[k];
      i < m && j < n && before == i * n
    ensures i < |tsss[k]| && j < |tsss[k][i]|
    ensures Stands(file, from + 24 * (Pairs(p[..k + 1]) + before + j), TripleBytes(tsss[k][i][j]))
  {
    GapLinkStands(tsss, p, forward, k, i, j, before);
    StandsWithin(file, from, Img3(tsss), 24 * (Pairs(p[..k + 1]) + before + j), TripleBytes(tsss[k][i][j]));
  }

  lemma ContentLinkStands(file: seq<Byte>, c: Content, forward: bool, k: nat, i: nat, j: nat, before: nat,
                          from: nat)
    requires Fits(c) && Stands(file, 42, Body(c)) && k + 1 < |c.sizes| && from == LinksFrom(c.sizes, forward)
    requires var m, n := if forward then c.sizes[k] else c.sizes[k + 1], if forward then c.sizes[k + 1] else c.sizes[k];
      i < m && j < n && before == i * n
    ensures var tsss := if forward then c.fwd else c.bwd;
      k < |tsss| && i < |tsss[k]| && j < |tsss[k][i]|
      && Stands(file, from + 24 * (Pairs(c.sizes[..k + 1]) + before + j), TripleBytes(tsss[k][i][j]))
  {
    LinksInFile(file, c, forward, from - 42);
    LinkInside(file, from, if forward then c.fwd else c.bwd, c.sizes, forward, k, i, j, before);
  }

  lemma LinkOfContentAt(file: seq<Byte>, c: Content, forward: bool, k: nat, i: nat, j: nat, at: nat)
    requires Fits(c) && Stands(file, 42, Body(c)) && LinkPlace(c.sizes, forward, k, i, j, at)
    ensures var tsss := if forward then c.fwd else c.bwd;
      k < |tsss| && i < |tsss[k]| && j < |tsss[k][i]| && Stands(file, at, TripleBytes(tsss[k][i][j]))
  {
    var n := if forward then c.sizes[k + 1] else c.sizes[k];
    var before, from := i * n, LinksFrom(c.sizes, forward);
    assert at == from + 24 * (Pairs(c.sizes[..k + 1]) + before + j);
    ContentLinkStands(file, c, forward, k, i, j, before, from);
  }

  /** Weight, saved weight and delta of a link of a network, in its saved file. */
  lemma LinkAt(nn: NN<Double>, file: seq<Byte>, h: Head, c: Content, forward: bool, k: nat, i: nat, j: nat, at: nat)
    returns (l: Link<Double>)
    requires Shows(nn, c) && IsImage(file, h, c) && LinkPlace(c.sizes, forward, k, i, j, at)
    ensures i < |Across(nn.layers, k, forward).neuros|
    ensures var links := LinksOf(Vector(Across(nn.layers, k, forward).neuros[i], forward));
      j < |links| && l == links[j]
    ensures Doubles(file, at, l.weight, l.weightSave, l.deltaWeight)
  {
    BodyStands(file, h, c);
    LinkOfContentAt(file, c, forward, k, i, j, at);
    LinkIsShown(nn, c, forward, k, i, j);
    l := LinksOf(Vector(Across(nn.layers, k, forward).neuros[i], forward))[j];
    DoublesStand(file, at, (if forward then c.fwd else c.bwd)[k][i][j]);
  }

  lemma LinkIsShown(nn: NN<Double>, c: Content, forward: bool, k: nat, i: nat, j: nat)
    requires Shows(nn, c) && Fits(c) && k + 1 < |c.sizes|
    requires if forward then i < c.sizes[k] && j < c.sizes[k + 1] else i < c.sizes[k + 1] && j < c.sizes[k]
    ensures var b, tsss := Vector(Across(nn.layers, k, forward).neuros[i], forward), if forward then c.fwd else c.bwd;
      i < |tsss[k]| && j < |tsss[k][i]| == |LinksOf(b)| && LinkVal(LinksOf(b)[j]) == tsss[k][i][j]
  {
    var ns, tsss := Across(nn.layers, k, forward).neuros, if forward then c.fwd else c.bwd;
    assert VectorsShow(ns, forward, tsss[k]);
    assert LinksShow(Vector(ns[i], forward), tsss[k][i]);
  }
}
