/** save_nn: the nested loops that write a network into one buffer. */
module Save {
  import opened Crc
  import opened Graph
  import opened Image
  import opened Wrappers

  // ---- what a network in memory shows ----

  function NeuroVal(n: Neuro<Double>): Triple
    reads n`state, n`output, n`error
  {
    Triple(n.state, n.output, n.error)
  }

  function LinkVal(l: Link<Double>): Triple {
    Triple(l.weight, l.weightSave, l.deltaWeight)
  }

  ghost predicate LinksShow(b: LinkBlock?<Double>, ts: seq<Triple>)
    reads b
  {
    |ts| == |LinksOf(b)| && forall j | 0 <= j < |ts| :: LinkVal(LinksOf(b)[j]) == ts[j]
  }

  function Vector<D>(n: Neuro<D>, forward: bool): LinkBlock?<D> {
    if forward then n.fpNp else n.bpNp
  }

  ghost predicate NeurosShow(ns: seq<Neuro<Double>>, ts: seq<Triple>)
    reads ns
  {
    |ts| == |ns| && forall i {:trigger ns[i]} | 0 <= i < |ns| :: NeuroVal(ns[i]) == ts[i]
  }

  ghost predicate VectorsShow(ns: seq<Neuro<Double>>, forward: bool, tss: seq<seq<Triple>>)
    reads *
  {
    |tss| == |ns| && forall i {:trigger ns[i]} | 0 <= i < |ns| :: LinksShow(Vector(ns[i], forward), tss[i])
  }

  // ---- writing ----

  /** The buffer of save_nn, and the cursor that moves through it. */
  class Buffer {
    const pnnp: array<Byte>
    var pnn: nat

    ghost predicate Valid()
      reads this
    {
      pnn <= pnnp.Length
    }

    /** What lies before the cursor. */
    ghost function Written(): (w: seq<Byte>)
      requires Valid()
      reads this, pnnp
      ensures |w| == pnn
    {
      pnnp[..pnn]
    }

    /** b_malloc; the first four octets are left for the CRC. */
    constructor (totalsize: nat)
      requires totalsize >= 4
      ensures Valid() && fresh(pnnp) && pnnp.Length == totalsize && pnn == 4
    {
      pnnp := new Byte[totalsize](_ => 0);
      pnn := 4;
    }

    /** COPY_AND_SEEK; what lies behind the copied octets stays. */
    method CopyAndSeek(src: seq<Byte>)
      requires Valid() && pnn + |src| <= pnnp.Length
      modifies this`pnn, pnnp
      ensures Valid() && pnn == old(pnn) + |src| && Written() == old(Written()) + src
      ensures pnnp[pnn..] == old(pnnp[pnn + |src|..])
    {
      forall i | 0 <= i < |src| { pnnp[pnn + i] := src[i]; }
      pnn := pnn + |src|;
    }
  }

  /** Since the old state `bytes` were written at the cursor. */
  twostate predicate Wrote(b: Buffer, bytes: seq<Byte>)
    reads b, b.pnnp
  {
    old(b.Valid()) && b.Valid() && b.Written() == old(b.Written()) + bytes
  }

  predicate Room(b: Buffer, n: nat)
    reads b
  {
    b.pnn + n <= b.pnnp.Length
  }

  lemma Associates(a: seq<Byte>, x: seq<Byte>, y: seq<Byte>)
    ensures (a + x) + y == a + (x + y)
  {
  }

  method SaveNeuro(b: Buffer, n: Neuro<Double>)
    requires Room(b, 24)
    modifies b`pnn, b.pnnp
    ensures Wrote(b, TripleBytes(NeuroVal(n)))
  {
    b.CopyAndSeek(n.state);
    b.CopyAndSeek(n.output);
    b.CopyAndSeek(n.error);
  }

  method SaveLink(b: Buffer, l: Link<Double>)
    requires Room(b, 24)
    modifies b`pnn, b.pnnp
    ensures Wrote(b, TripleBytes(LinkVal(l)))
  {
    b.CopyAndSeek(l.weight);
    b.CopyAndSeek(l.weightSave);
    b.CopyAndSeek(l.deltaWeight);
  }

  lemma Img1Takes(ts: seq<Triple>, i: nat)
    requires i < |ts|
    ensures Img1(ts[..i + 1]) == Img1(ts[..i]) + TripleBytes(ts[i])
  {
    assert ts[..i + 1][..i] == ts[..i];
  }

  lemma Img2Takes(tss: seq<seq<Triple>>, i: nat)
    requires i < |tss|
    ensures Img2(tss[..i + 1]) == Img2(tss[..i]) + Img1(tss[i])
  {
    assert tss[..i + 1][..i] == tss[..i];
  }

  lemma Img3Takes(tsss: seq<seq<seq<Triple>>>, i: nat)
    requires i < |tsss|
    ensures Img3(tsss[..i + 1]) == Img3(tsss[..i]) + Img2(tsss[i])
  {
    assert tsss[..i + 1][..i] == tsss[..i];
  }

  lemma Img2Fits(tss: seq<seq<Triple>>, i: nat)
    requires i <= |tss|
    ensures |Img2(tss[..i])| <= |Img2(tss)|
    decreases |tss| - i
  {
    if i < |tss| {
      Img2Takes(tss, i);
      Img2Fits(tss, i + 1);
    } else {
      assert tss[..i] == tss;
    }
  }

  lemma Img3Fits(tsss: seq<seq<seq<Triple>>>, i: nat)
    requires i <= |tsss|
    ensures |Img3(tsss[..i])| <= |Img3(tsss)|
    decreases |tsss| - i
  {
    if i < |tsss| {
      Img3Takes(tsss, i);
      Img3Fits(tsss, i + 1);
    } else {
      assert tsss[..i] == tsss;
    }
  }

  method SaveNeurons(b: Buffer, ns: seq<Neuro<Double>>, ghost ts: seq<Triple>)
    requires NeurosShow(ns, ts) && Room(b, 24 * |ns|)
    modifies b`pnn, b.pnnp
    ensures Wrote(b, Img1(ts))
  {
    var counter := 0;
    while counter != |ns|
      invariant 0 <= counter <= |ns| && Wrote(b, Img1(ts[..counter]))
    {
      Img1Takes(ts, counter);
      assert old(NeurosShow(ns, ts));
      SaveNeuro(b, ns[counter]);
      Associates(old(b.Written()), Img1(ts[..counter]), TripleBytes(ts[counter]));
      counter := counter + 1;
    }
    assert ts[..counter] == ts;
  }

  method SaveVector(b: Buffer, v: LinkBlock?<Double>, n: nat, ghost ts: seq<Triple>)
    requires |LinksOf(v)| == n && LinksShow(v, ts) && Room(b, 24 * n)
    modifies b`pnn, b.pnnp
    ensures Wrote(b, Img1(ts))
  {
    var counter := 0;
    while counter != n
      invariant 0 <= counter <= n && Wrote(b, Img1(ts[..counter]))
      invariant LinksOf(v) == old(LinksOf(v))
    {
      Img1Takes(ts, counter);
      SaveLink(b, v.links[counter]);
      Associates(old(b.Written()), Img1(ts[..counter]), TripleBytes(ts[counter]));
      counter := counter + 1;
    }
    assert ts[..counter] == ts;
  }

  /** The links of one direction of the neurons of one layer. */
  method SaveVectors(b: Buffer, ns: seq<Neuro<Double>>, forward: bool, n: nat, ghost tss: seq<seq<Triple>>)
    requires VectorsShow(ns, forward, tss) && Rectangle(tss, |ns|, n) && Room(b, |Img2(tss)|)
    modifies b`pnn, b.pnnp
    ensures Wrote(b, Img2(tss))
  {
    var counter := 0;
    while counter != |ns|
      invariant 0 <= counter <= |ns| && Wrote(b, Img2(tss[..counter]))
    {
      Img2Takes(tss, counter);
      Img2Fits(tss, counter + 1);
      assert old(LinksShow(Vector(ns[counter], forward), tss[counter]));
      SaveVector(b, Vector(ns[counter], forward), n, tss[counter]);
      Associates(old(b.Written()), Img2(tss[..counter]), Img1(tss[counter]));
      counter := counter + 1;
    }
    assert tss[..counter] == tss;
  }

  ghost predicate NetNeurosShow(ls: seq<Layer<Double>>, tss: seq<seq<Triple>>)
    reads *
  {
    |tss| == |ls| && forall k {:trigger ls[k]} | 0 <= k < |ls| :: NeurosShow(ls[k].neuros, tss[k])
  }

  method SaveAllNeurons(b: Buffer, ls: seq<Layer<Double>>, ghost tss: seq<seq<Triple>>)
    requires NetNeurosShow(ls, tss) && Room(b, |Img2(tss)|)
    modifies b`pnn, b.pnnp
    ensures Wrote(b, Img2(tss))
  {
    var counter := 0;
    while counter != |ls|
      invariant 0 <= counter <= |ls| && Wrote(b, Img2(tss[..counter]))
    {
      Img2Takes(tss, counter);
      Img2Fits(tss, counter + 1);
      assert old(NeurosShow(ls[counter].neuros, tss[counter]));
      SaveNeurons(b, ls[counter].neuros, tss[counter]);
      Associates(old(b.Written()), Img2(tss[..counter]), Img1(tss[counter]));
      counter := counter + 1;
    }
    assert tss[..counter] == tss;
  }

  /** The layer whose links in the given direction cross the gap after layer `k`. */
  function Across<D>(ls: seq<Layer<D>>, k: nat, forward: bool): Layer<D>
    requires k + 1 < |ls|
  {
    if forward then ls[k] else ls[k + 1]
  }

  ghost predicate NetLinksShow(ls: seq<Layer<Double>>, forward: bool, tsss: seq<seq<seq<Triple>>>)
    reads *
  {
    |tsss| == |ls| - 1 && forall k | 0 <= k < |tsss| :: VectorsShow(Across(ls, k, forward).neuros, forward, tsss[k])
  }

  /** One round over the layers: the vectors still show what they showed when the round before began. */
  method SaveGap(b: Buffer, ls: seq<Layer<Double>>, k: nat, forward: bool, ghost tss: seq<seq<Triple>>)
    requires k + 1 < |ls| && VectorsShow(Across(ls, k, forward).neuros, forward, tss)
    requires Rectangle(tss, |Across(ls, k, forward).neuros|, |Across(ls, k, !forward).neuros|) && Room(b, |Img2(tss)|)
    modifies b`pnn, b.pnnp
    ensures Wrote(b, Img2(tss))
  {
    SaveVectors(b, Across(ls, k, forward).neuros, forward, |Across(ls, k, !forward).neuros|, tss);
  }

  lemma GapFits(ls: seq<Layer<Double>>, p: seq<nat>, forward: bool, tsss: seq<seq<seq<Triple>>>, k: nat)
    requires Rectangles(tsss, p, forward) && k < |tsss|
    requires |p| == |ls| && forall k | 0 <= k < |ls| :: p[k] == |ls[k].neuros|
    ensures Rectangle(tsss[k], |Across(ls, k, forward).neuros|, |Across(ls, k, !forward).neuros|)
    ensures Img3(tsss[..k + 1]) == Img3(tsss[..k]) + Img2(tsss[k]) && |Img3(tsss[..k + 1])| <= |Img3(tsss)|
  {
    Img3Takes(tsss, k);
    Img3Fits(tsss, k + 1);
  }

  /** The forward links of all layers but the last, or the backward links of all layers but the first. */
  method SaveAllLinks(b: Buffer, ls: seq<Layer<Double>>, forward: bool, ghost tsss: seq<seq<seq<Triple>>>,
                      ghost p: seq<nat>)
    requires NetLinksShow(ls, forward, tsss) && Rectangles(tsss, p, forward)
    requires |p| == |ls| && forall k | 0 <= k < |ls| :: p[k] == |ls[k].neuros|
    requires Room(b, |Img3(tsss)|)
    modifies b`pnn, b.pnnp
    ensures Wrote(b, Img3(tsss))
  {
    var counter := 0;
    while counter != |ls| - 1
      invariant 0 <= counter <= |ls| - 1 && Wrote(b, Img3(tsss[..counter]))
    {
      ghost var ns, tss := Across(ls, counter, forward).neuros, tsss[counter];
      assert VectorsShow(ns, forward, tss) by {
        assert old(VectorsShow(ns, forward, tss));
        forall i | 0 <= i < |ns| ensures LinksShow(Vector(ns[i], forward), tss[i]) {
          assert old(LinksShow(Vector(ns[i], forward), tss[i]));
        }
      }
      GapFits(ls, p, forward, tsss, counter);
      SaveGap(b, ls, counter, forward, tss);
      Associates(old(b.Written()), Img3(tsss[..counter]), Img2(tss));
      counter := counter + 1;
    }
    assert tsss[..counter] == tsss;
  }

  ghost predicate Shows(nn: NN<Double>, c: Content)
    reads *
  {
    && |c.sizes| == |nn.layers| && (forall k | 0 <= k < |c.sizes| :: c.sizes[k] == |nn.layers[k].neuros|)
    && NetNeurosShow(nn.layers, c.neurons)
    && NetLinksShow(nn.layers, true, c.fwd) && NetLinksShow(nn.layers, false, c.bwd)
  }

  lemma LinksFit(ls: seq<Layer<Double>>, p: seq<nat>, forward: bool, tsss: seq<seq<seq<Triple>>>)
    requires Wired(ls) && NetLinksShow(ls, forward, tsss)
    requires |p| == |ls| && forall k | 0 <= k < |ls| :: p[k] == |ls[k].neuros|
    ensures Rectangles(tsss, p, forward)
  {
    forall k | 0 <= k < |tsss|
      ensures if forward then Rectangle(tsss[k], p[k], p[k + 1]) else Rectangle(tsss[k], p[k + 1], p[k])
    {
      assert PairWired(ls, k);
      var ns := Across(ls, k, forward).neuros;
      forall i | 0 <= i < |ns| ensures |tsss[k][i]| == |LinksOf(Vector(ns[i], forward))| {
        assert LinksShow(Vector(ns[i], forward), tsss[k][i]);
      }
    }
  }

  lemma ContentFits(nn: NN<Double>, c: Content)
    requires nn.Valid() && Shows(nn, c)
    ensures Fits(c)
  {
    LinksFit(nn.layers, c.sizes, true, c.fwd);
    LinksFit(nn.layers, c.sizes, false, c.bwd);
    forall k | 0 <= k < |c.sizes| ensures |c.neurons[k]| == c.sizes[k] {
      assert NeurosShow(nn.layers[k].neuros, c.neurons[k]);
    }
  }

  /** The numbers of the size are 32 bits wide. */
  method CountNeurons(ls: seq<Layer<Double>>, ghost p: seq<nat>) returns (n: nat)
    requires |p| == |ls| && forall k | 0 <= k < |ls| :: p[k] == |ls[k].neuros|
    ensures n == Sum(p) % WRAP
  {
    n := 0;
    var counter := 0;
    while counter != |ls|
      invariant 0 <= counter <= |ls| && n == Sum(p[..counter]) % WRAP
    {
      SumTakes(p, counter);
      Reduced(Sum(p[..counter]), p[counter]);
      n, counter := (n + |ls[counter].neuros|) % WRAP, counter + 1;
    }
    assert p[..counter] == p;
  }

  method CountPairs(ls: seq<Layer<Double>>, ghost p: seq<nat>) returns (n: nat)
    requires 0 < |p| == |ls| && forall k | 0 <= k < |ls| :: p[k] == |ls[k].neuros|
    ensures n == Pairs(p) % WRAP
  {
    n := 0;
    var counter := 1;
    while counter != |ls|
      invariant 1 <= counter <= |ls| && n == Pairs(p[..counter]) % WRAP
    {
      PairsTake(p, counter);
      var product := |ls[counter - 1].neuros| * |ls[counter].neuros|;
      Reduced(Pairs(p[..counter]), product % WRAP);
      Reduced(product, Pairs(p[..counter]));
      n, counter := (n + product % WRAP) % WRAP, counter + 1;
    }
    assert p[..counter] == p;
  }

  /** Reducing early or late is the same. */
  lemma Reduced(x: int, y: int)
    ensures (x % WRAP + y) % WRAP == (x + y) % WRAP
  {
    Congruent(x % WRAP + y, x / WRAP);
  }

  // ---- every network shows some content ----

  lemma NeuronsContent(ns: seq<Neuro<Double>>) returns (ts: seq<Triple>)
    ensures NeurosShow(ns, ts)
  {
    ts := [];
    for i := 0 to |ns|
      invariant |ts| == i && forall j | 0 <= j < i :: NeuroVal(ns[j]) == ts[j]
    {
      ts := ts + [NeuroVal(ns[i])];
    }
  }

  lemma VectorContent(b: LinkBlock?<Double>) returns (ts: seq<Triple>)
    ensures LinksShow(b, ts)
  {
    ts := [];
    for j := 0 to |LinksOf(b)|
      invariant |ts| == j && forall i | 0 <= i < j :: LinkVal(LinksOf(b)[i]) == ts[i]
    {
      ts := ts + [LinkVal(LinksOf(b)[j])];
    }
  }

  lemma VectorsContent(ns: seq<Neuro<Double>>, forward: bool) returns (tss: seq<seq<Triple>>)
    ensures VectorsShow(ns, forward, tss)
  {
    tss := [];
    for i := 0 to |ns|
      invariant |tss| == i && forall j | 0 <= j < i :: LinksShow(Vector(ns[j], forward), tss[j])
    {
      var ts := VectorContent(Vector(ns[i], forward));
      tss := tss + [ts];
    }
  }

  lemma LinksContent(ls: seq<Layer<Double>>, forward: bool) returns (tsss: seq<seq<seq<Triple>>>)
    requires |ls| > 0
    ensures NetLinksShow(ls, forward, tsss)
  {
    tsss := [];
    for k := 0 to |ls| - 1
      invariant |tsss| == k
      invariant forall j | 0 <= j < k :: VectorsShow(Across(ls, j, forward).neuros, forward, tsss[j])
    {
      var tss := VectorsContent(Across(ls, k, forward).neuros, forward);
      tsss := tsss + [tss];
    }
  }

  lemma ContentOf(nn: NN<Double>) returns (c: Content)
    requires |nn.layers| > 0
    ensures Shows(nn, c)
  {
    var neurons: seq<seq<Triple>>, sizes: seq<nat> := [], [];
    for k := 0 to |nn.layers|
      invariant |neurons| == |sizes| == k
      invariant forall j | 0 <= j < k ::
        sizes[j] == |nn.layers[j].neuros| && NeurosShow(nn.layers[j].neuros, neurons[j])
    {
      var ts := NeuronsContent(nn.layers[k].neuros);
      neurons, sizes := neurons + [ts], sizes + [|nn.layers[k].neuros|];
    }
    var fwd := LinksContent(nn.layers, true);
    var bwd := LinksContent(nn.layers, false);
    c := Content(sizes, neurons, fwd, bwd);
  }

  /** A network shows one content only. */
  lemma SameShown(nn: NN<Double>, c: Content, d: Content)
    requires nn.Valid() && Shows(nn, c) && Shows(nn, d)
    ensures c == d
  {
    forall k | 0 <= k < |nn.layers| ensures c.neurons[k] == d.neurons[k] {
      var ns := nn.layers[k].neuros;
      assert NeurosShow(ns, c.neurons[k]) && NeurosShow(ns, d.neurons[k]);
      forall i | 0 <= i < |ns| ensures c.neurons[k][i] == d.neurons[k][i] { assert NeuroVal(ns[i]) == c.neurons[k][i]; }
    }
    SameLinks(nn.layers, true, c.fwd, d.fwd);
    SameLinks(nn.layers, false, c.bwd, d.bwd);
    assert c.sizes == d.sizes && c.neurons == d.neurons;
  }

  lemma SameLinks(ls: seq<Layer<Double>>, forward: bool, x: seq<seq<seq<Triple>>>, y: seq<seq<seq<Triple>>>)
    requires NetLinksShow(ls, forward, x) && NetLinksShow(ls, forward, y)
    ensures x == y
  {
    forall k | 0 <= k < |x| ensures x[k] == y[k] {
      var ns := Across(ls, k, forward).neuros;
      forall i | 0 <= i < |ns| ensures x[k][i] == y[k][i] {
        assert LinksShow(Vector(ns[i], forward), x[k][i]) && LinksShow(Vector(ns[i], forward), y[k][i]);
      }
    }
  }

  // ---- the whole file ----

  function HeadOf(nn: NN<Double>): Head
    reads nn
  {
    Head(nn.life, nn.alpha, nn.eta, nn.gain, nn.error)
  }

  method SaveHeader(b: Buffer, nn: NN<Double>)
    requires Room(b, 38)
    modifies b`pnn, b.pnnp
    ensures Wrote(b, Header(|nn.layers|, HeadOf(nn)))
  {
    b.CopyAndSeek(U16(|nn.layers|));
    b.CopyAndSeek(U32(nn.life));
    b.CopyAndSeek(nn.alpha);
    b.CopyAndSeek(nn.eta);
    b.CopyAndSeek(nn.gain);
    b.CopyAndSeek(nn.error);
  }

  method SaveTable(b: Buffer, ls: seq<Layer<Double>>, ghost p: seq<nat>)
    requires Room(b, 4 * |ls|)
    requires |p| == |ls| && forall k | 0 <= k < |ls| :: p[k] == |ls[k].neuros|
    modifies b`pnn, b.pnnp
    ensures Wrote(b, Table(p))
  {
    var counter := 0;
    while counter != |ls|
      invariant 0 <= counter <= |ls| && Wrote(b, Table(p[..counter]))
    {
      assert p[..counter + 1][..counter] == p[..counter];
      b.CopyAndSeek(U32(|ls[counter].neuros|));
      Associates(old(b.Written()), Table(p[..counter]), U32(p[counter]));
      counter := counter + 1;
    }
    assert p[..counter] == p;
  }

  /** Header, layer table and neurons. */
  method SaveFront(b: Buffer, nn: NN<Double>, ghost c: Content)
    requires Shows(nn, c) && Room(b, 38 + |Table(c.sizes)| + |Img2(c.neurons)|)
    modifies b`pnn, b.pnnp
    ensures Wrote(b, Header(|nn.layers|, HeadOf(nn)) + Table(c.sizes) + Img2(c.neurons))
  {
    ghost var head := Header(|nn.layers|, HeadOf(nn));
    SaveHeader(b, nn);
    SaveTable(b, nn.layers, c.sizes);
    Associates(old(b.Written()), head, Table(c.sizes));
    forall k | 0 <= k < |nn.layers| ensures NeurosShow(nn.layers[k].neuros, c.neurons[k]) {
      assert old(NeurosShow(nn.layers[k].neuros, c.neurons[k]));
    }
    SaveAllNeurons(b, nn.layers, c.neurons);
    Associates(old(b.Written()), head + Table(c.sizes), Img2(c.neurons));
  }

  /** A pass over the buffer leaves the links alone. */
  method SaveAllLinksOnly(b: Buffer, ls: seq<Layer<Double>>, forward: bool, ghost tsss: seq<seq<seq<Triple>>>,
                          ghost p: seq<nat>, ghost other: seq<seq<seq<Triple>>>)
    requires NetLinksShow(ls, forward, tsss) && Rectangles(tsss, p, forward) && NetLinksShow(ls, !forward, other)
    requires |p| == |ls| && forall k | 0 <= k < |ls| :: p[k] == |ls[k].neuros|
    requires Room(b, |Img3(tsss)|)
    modifies b`pnn, b.pnnp
    ensures Wrote(b, Img3(tsss)) && NetLinksShow(ls, !forward, other)
  {
    SaveAllLinks(b, ls, forward, tsss, p);
    forall k | 0 <= k < |other| ensures VectorsShow(Across(ls, k, !forward).neuros, !forward, other[k]) {
      var ns := Across(ls, k, !forward).neuros;
      assert old(VectorsShow(ns, !forward, other[k]));
      forall i | 0 <= i < |ns| ensures LinksShow(Vector(ns[i], !forward), other[k][i]) {
        assert old(LinksShow(Vector(ns[i], !forward), other[k][i]));
      }
    }
  }

  /** Forward links, backward links. */
  method SaveBack(b: Buffer, nn: NN<Double>, ghost c: Content)
    requires |c.sizes| == |nn.layers| && (forall k | 0 <= k < |c.sizes| :: c.sizes[k] == |nn.layers[k].neuros|)
    requires NetLinksShow(nn.layers, true, c.fwd) && NetLinksShow(nn.layers, false, c.bwd)
    requires Fits(c) && Room(b, |Img3(c.fwd)| + |Img3(c.bwd)|)
    modifies b`pnn, b.pnnp
    ensures Wrote(b, Img3(c.fwd) + Img3(c.bwd))
  {
    SaveAllLinksOnly(b, nn.layers, true, c.fwd, c.sizes, c.bwd);
    SaveAllLinks(b, nn.layers, false, c.bwd, c.sizes);
    Associates(old(b.Written()), Img3(c.fwd), Img3(c.bwd));
  }

  lemma Regroup(head: seq<Byte>, c: Content)
    ensures (head + Table(c.sizes) + Img2(c.neurons)) + (Img3(c.fwd) + Img3(c.bwd)) == head + Body(c)
  {
  }

  /** Writing the front leaves the network alone. */
  method SaveFrontOnly(b: Buffer, nn: NN<Double>, ghost c: Content)
    requires Shows(nn, c) && Room(b, 38 + |Table(c.sizes)| + |Img2(c.neurons)|)
    modifies b`pnn, b.pnnp
    ensures Wrote(b, Header(|nn.layers|, HeadOf(nn)) + Table(c.sizes) + Img2(c.neurons))
    ensures NetLinksShow(nn.layers, true, c.fwd) && NetLinksShow(nn.layers, false, c.bwd)
  {
    SaveFront(b, nn, c);
    var ls := nn.layers;
    forall k, f | 0 <= k < |ls| - 1
      ensures VectorsShow(Across(ls, k, f).neuros, f, if f then c.fwd[k] else c.bwd[k])
    {
      var ns, tss := Across(ls, k, f).neuros, if f then c.fwd[k] else c.bwd[k];
      assert old(VectorsShow(ns, f, tss));
      forall i | 0 <= i < |ns| ensures LinksShow(Vector(ns[i], f), tss[i]) {
        assert old(LinksShow(Vector(ns[i], f), tss[i]));
      }
    }
  }

  /** Everything behind the four octets kept for the CRC; the writes end exactly at the end of the buffer. */
  method SaveBody(b: Buffer, nn: NN<Double>, ghost c: Content)
    requires Shows(nn, c) && Fits(c) && b.pnn == 4 && b.pnnp.Length == ImageSize(c.sizes)
    modifies b`pnn, b.pnnp
    ensures b.pnn == b.pnnp.Length
    ensures b.pnnp[..] == old(b.pnnp[..4]) + (Header(|nn.layers|, HeadOf(nn)) + Body(c))
  {
    BodyLength(c);
    SaveFrontOnly(b, nn, c);
    SaveBack(b, nn, c);
    ghost var head := Header(|nn.layers|, HeadOf(nn));
    Associates(old(b.Written()), head + Table(c.sizes) + Img2(c.neurons), Img3(c.fwd) + Img3(c.bwd));
    Regroup(head, c);
    assert b.pnnp[..b.pnn] == b.pnnp[..];
  }

  /** `file` is a saved network: CRC, header, and the body of the content `c`. */
  ghost predicate IsImage(file: seq<Byte>, h: Head, c: Content) {
    Fits(c) && StartsWith(file, h, c.sizes) && file[42..] == Body(c)
  }

  /** The front of a saved network with the layers `p`. */
  ghost predicate StartsWith(file: seq<Byte>, h: Head, p: seq<nat>) {
    && 0 < |p| < 0x1_0000 && |file| == ImageSize(p)
    && CrcOk(file) && file[4..42] == Header(|p|, h)
  }

  lemma FrontOf(file: seq<Byte>, crc: seq<Byte>, head: seq<Byte>, body: seq<Byte>)
    requires |crc| == 4 && |head| == 38 && file == crc + (head + body)
    ensures file[..4] == crc && file[4..] == head + body && file[4..42] == head && file[42..] == body
  {
  }

  lemma WithCrc(file: seq<Byte>, crc: seq<Byte>, h: Head, c: Content)
    requires Fits(c) && |c.sizes| < 0x1_0000 && |file| == ImageSize(c.sizes) && |crc| == 4
    requires file == crc + (Header(|c.sizes|, h) + Body(c))
    requires Bits(crc) == Crc32(Hashed(Header(|c.sizes|, h) + Body(c)))
    ensures IsImage(file, h, c)
  {
    FrontOf(file, crc, Header(|c.sizes|, h), Body(c));
  }

  method CrcOfRest(buf: array<Byte>, ghost rest: seq<Byte>) returns (crc: Reg)
    requires 4 <= buf.Length && buf[..] == buf[..4] + rest
    ensures crc == Crc32(Hashed(rest))
  {
    var pnn := buf[4..];
    assert pnn == buf[..][4..] == rest;
    crc := EthCrc(AsInt(buf.Length - 4), pnn);
  }

  /** memcpy of the CRC to the front of the buffer. */
  method PutCrc(buf: array<Byte>, sum: seq<Byte>, ghost rest: seq<Byte>)
    requires |sum| == 4 <= buf.Length && buf[..] == buf[..4] + rest
    modifies buf
    ensures buf[..] == sum + rest
  {
    assert buf[4..] == buf[..][4..] == rest;
    forall i | 0 <= i < 4 { buf[i] := sum[i]; }
    assert buf[4..] == rest && buf[..4] == sum;
    assert buf[..] == buf[..4] + buf[4..];
  }

  /** The CRC of all that follows goes to the front of the buffer. */
  method Seal(buf: array<Byte>, ghost h: Head, ghost c: Content)
    requires Fits(c) && |c.sizes| < 0x1_0000 && buf.Length == ImageSize(c.sizes)
    requires buf[..] == buf[..4] + (Header(|c.sizes|, h) + Body(c))
    modifies buf
    ensures IsImage(buf[..], h, c)
  {
    ghost var rest := Header(|c.sizes|, h) + Body(c);
    var crc := CrcOfRest(buf, rest);
    var sum := CrcBytes(crc);
    PutCrc(buf, sum, rest);
    WithCrc(buf[..], sum, h, c);
  }

  /** The size as the program computes it: modulo 2^32. */
  method TotalSize(ls: seq<Layer<Double>>, ghost p: seq<nat>) returns (totalsize: nat)
    requires 0 < |p| == |ls| && forall k | 0 <= k < |ls| :: p[k] == |ls[k].neuros|
    ensures totalsize == ImageSize(p) % WRAP
  {
    var neurons := CountNeurons(ls, p);
    var links := CountPairs(ls, p);
    var sizeoflayers := |ls| * 4 % WRAP;
    var sizeofneurons := neurons * (3 * 8) % WRAP;
    var sizeoflinks := links * (2 * 3 * 8) % WRAP;
    var total := 4 + (2 + 4 + 4 * 8) + sizeoflayers + sizeofneurons + sizeoflinks;
    totalsize := total % WRAP;
    ghost var k := |ls| * 4 / WRAP + neurons * 24 / WRAP + links * 48 / WRAP
                   + 24 * (Sum(p) / WRAP) + 48 * (Pairs(p) / WRAP);
    assert ImageSize(p) == total + WRAP * k;
    Congruent(total, k);
  }

  /** The buffer is as large as computed; what is written, CRC included, stays inside just if the true size is below
    * 2^32. */
  lemma WritesStayInsideIff(c: Content)
    requires Fits(c)
    ensures 42 + |Body(c)| <= ImageSize(c.sizes) % WRAP <==> ImageSize(c.sizes) < WRAP
  {
    BodyLength(c);
  }

  /** Two layers of 9460 neurons: a buffer of a megabyte for four gigabytes. */
  lemma FourGigabytes(c: Content)
    requires Fits(c) && c.sizes == [9460, 9460]
    ensures ImageSize(c.sizes) % WRAP == 1083634 && 42 + |Body(c)| == 4296050930
  {
    BodyLength(c);
    SumsOfTwo(9460, 9460);
  }

  lemma SumsOfTwo(m: nat, n: nat)
    ensures Sum([m, n]) == m + n && Pairs([m, n]) == m * n
  {
    var p := [m, n];
    SumTakes(p, 0);
    SumTakes(p, 1);
    PairsTake(p, 1);
    assert p[..0] == [] && p[..2] == p;
  }

  /** What a valid network shows is one content, of its own widths. */
  lemma OneContent(nn: NN<Double>) returns (c: Content)
    requires nn.Valid()
    ensures Shows(nn, c) && Fits(c) && c.sizes == nn.sizes && forall d | Shows(nn, d) :: d == c
  {
    c := ContentOf(nn);
    assert c.sizes == nn.sizes;
    ContentFits(nn, c);
    forall d | Shows(nn, d) ensures d == c { SameShown(nn, c, d); }
  }

  /** The buffer, filled and sealed. */
  method FillBuffer(b: Buffer, nn: NN<Double>, ghost c: Content)
    requires nn.Valid() && Shows(nn, c) && Fits(c) && b.pnn == 4 && b.pnnp.Length == ImageSize(c.sizes)
    modifies b`pnn, b.pnnp
    ensures IsImage(b.pnnp[..], HeadOf(nn), c)
  {
    SaveBody(b, nn, c);
    assert b.pnnp[..4] == old(b.pnnp[..4]);
    Seal(b.pnnp, HeadOf(nn), c);
  }

  function Widths(ls: seq<Layer<Double>>): (p: seq<nat>)
    ensures |p| == |ls| && forall k | 0 <= k < |ls| :: p[k] == |ls[k].neuros|
  {
    seq(|ls|, k requires 0 <= k < |ls| => |ls[k].neuros|)
  }

  /** A new buffer of the computed size, which is the true one. */
  method WriteOut(nn: NN<Double>, totalsize: nat, ghost c: Content) returns (file: seq<Byte>)
    requires nn.Valid() && Shows(nn, c) && Fits(c) && totalsize == ImageSize(c.sizes)
    ensures IsImage(file, HeadOf(nn), c)
  {
    var b := new Buffer(totalsize);
    FillBuffer(b, nn, c);
    file := b.pnnp[..];
  }

  /** save_nn; None stands for a write outside the buffer, whose effect C does not define. */
  method SaveNN(nn: NN<Double>) returns (file: Option<seq<Byte>>, ghost c: Content)
    requires nn.Valid()
    ensures file.None? <==> ImageSize(nn.sizes) >= WRAP
    ensures c.sizes == nn.sizes && old(Shows(nn, c))
    ensures file.Some? ==> |file.value| == ImageSize(nn.sizes)
    ensures file.Some? ==> forall d | old(Shows(nn, d)) :: IsImage(file.value, HeadOf(nn), d)
  {
    c := OneContent(nn);
    var p := Widths(nn.layers);
    assert p == nn.sizes;
    var totalsize := TotalSize(nn.layers, p);
    NoWrapIff(ImageSize(p));
    if ImageSize(p) != totalsize { return None, c; }
    var f := WriteOut(nn, totalsize, c);
    file := Some(f);
  }
}
