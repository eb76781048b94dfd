/** load_nn: the checks, and the nested loops that refill a new network from the file. */
module Load {
  import opened Arithmetic
  import opened Crc
  import opened Graph
  import opened Image
  import opened Save
  import opened Wrappers

  /** The bytes of `file` between two positions of the cursor. */
  ghost predicate Read(file: seq<Byte>, from: nat, to: nat, bytes: seq<Byte>) {
    from <= to <= |file| && to == from + |bytes| && file[from..to] == bytes
  }

  lemma ReadThen(file: seq<Byte>, a: nat, b: nat, c: nat, x: seq<Byte>, y: seq<Byte>)
    requires Read(file, a, b, x) && Read(file, b, c, y)
    ensures Read(file, a, c, x + y)
  {
    assert file[a..c] == file[a..b] + file[b..c];
  }

  method RestoreAndSeek(file: seq<Byte>, cur: nat) returns (d: Double, next: nat)
    requires cur + 8 <= |file|
    ensures next == cur + 8 && d == file[cur..next]
  {
    d, next := file[cur..cur + 8], cur + 8;
  }

  method RestoreNeuro(n: Neuro<Double>, file: seq<Byte>, cur: nat) returns (next: nat)
    requires cur + 24 <= |file|
    modifies n`state, n`output, n`error
    ensures Read(file, cur, next, TripleBytes(NeuroVal(n)))
  {
    n.state, next := RestoreAndSeek(file, cur);
    n.output, next := RestoreAndSeek(file, next);
    n.error, next := RestoreAndSeek(file, next);
    assert file[cur..next] == file[cur..cur + 8] + file[cur + 8..cur + 16] + file[cur + 16..next];
  }

  method RestoreNeurons(ns: seq<Neuro<Double>>, file: seq<Byte>, cur: nat) returns (next: nat, ghost ts: seq<Triple>)
    requires cur + 24 * |ns| <= |file|
    requires forall i | 0 <= i < |ns| :: ns[i].pos == i
    modifies ns`state, ns`output, ns`error
    ensures NeurosShow(ns, ts) && Read(file, cur, next, Img1(ts))
  {
    next, ts := cur, [];
    var counter := 0;
    while counter != |ns|
      invariant 0 <= counter <= |ns| && |ts| == counter
      invariant forall i {:trigger ns[i]} | 0 <= i < counter :: NeuroVal(ns[i]) == ts[i]
      invariant Read(file, cur, next, Img1(ts))
    {
      ghost var from := next;
      next := RestoreNeuro(ns[counter], file, next);
      ghost var t := NeuroVal(ns[counter]);
      Img1Takes(ts + [t], counter);
      assert (ts + [t])[..counter] == ts && (ts + [t])[..counter + 1] == ts + [t];
      ReadThen(file, cur, from, next, Img1(ts), TripleBytes(t));
      ts, counter := ts + [t], counter + 1;
    }
  }

  /** The links of `b` reach what they reached before. */
  twostate predicate SameTargets(b: LinkBlock?<Double>)
    reads b
  {
    |LinksOf(b)| == |old(LinksOf(b))| &&
    forall j | 0 <= j < |LinksOf(b)| :: LinksOf(b)[j].linkedNeuro == old(LinksOf(b)[j].linkedNeuro)
  }

  method RestoreLink(b: LinkBlock<Double>, j: nat, file: seq<Byte>, cur: nat) returns (next: nat, ghost t: Triple)
    requires j < |b.links| && cur + 24 <= |file|
    modifies b
    ensures |b.links| == |old(b.links)| && b.links == old(b.links)[j := b.links[j]]
    ensures b.links[j].linkedNeuro == old(b.links[j].linkedNeuro)
    ensures LinkVal(b.links[j]) == t && Read(file, cur, next, TripleBytes(t))
  {
    var weight, weightSave, deltaWeight;
    weight, next := RestoreAndSeek(file, cur);
    weightSave, next := RestoreAndSeek(file, next);
    deltaWeight, next := RestoreAndSeek(file, next);
    b.links := b.links[j := b.links[j].(weight := weight, weightSave := weightSave, deltaWeight := deltaWeight)];
    t := Triple(weight, weightSave, deltaWeight);
    assert file[cur..next] == file[cur..cur + 8] + file[cur + 8..cur + 16] + file[cur + 16..next];
  }

  method RestoreVector(b: LinkBlock?<Double>, n: nat, file: seq<Byte>, cur: nat)
    returns (next: nat, ghost ts: seq<Triple>)
    requires |LinksOf(b)| == n && cur + 24 * n <= |file|
    modifies b
    ensures LinksShow(b, ts) && SameTargets(b) && Read(file, cur, next, Img1(ts))
  {
    next, ts := cur, [];
    var counter := 0;
    while counter != n
      invariant 0 <= counter <= n == |LinksOf(b)| && |ts| == counter && SameTargets(b)
      invariant forall j | 0 <= j < counter :: LinkVal(LinksOf(b)[j]) == ts[j]
      invariant Read(file, cur, next, Img1(ts))
    {
      ghost var from, t := next, Triple(ZERO8, ZERO8, ZERO8);
      next, t := RestoreLink(b, counter, file, next);
      Img1Takes(ts + [t], counter);
      assert (ts + [t])[..counter] == ts && (ts + [t])[..counter + 1] == ts + [t];
      ReadThen(file, cur, from, next, Img1(ts), TripleBytes(t));
      ts, counter := ts + [t], counter + 1;
    }
  }

  const ZERO8: Double := [0, 0, 0, 0, 0, 0, 0, 0]

  ghost function VectorBlocks<D>(ns: seq<Neuro<D>>, forward: bool): set<LinkBlock<D>> {
    if forward then FwdBlocks(ns) else BwdBlocks(ns)
  }

  /** Every link vector of the neurons, in one direction, reaches `targets`. */
  ghost predicate AllReach(ns: seq<Neuro<Double>>, forward: bool, targets: seq<Neuro<Double>>)
    reads *
  {
    forall i {:trigger ns[i]} | 0 <= i < |ns| :: Reaches(Vector(ns[i], forward), targets)
  }

  lemma VectorsDiffer(ns: seq<Neuro<Double>>, k: nat, psize: nat, nsize: nat, forward: bool, i: nat, j: nat)
    requires NeurosOk(ns, k, psize, nsize) && i < |ns| && j < |ns| && i != j && Vector(ns[i], forward) != null
    ensures Vector(ns[i], forward) != Vector(ns[j], forward)
  {
    assert NeuroOk(ns[i], k, i, psize, nsize) && NeuroOk(ns[j], k, j, psize, nsize);
  }

  lemma OneMoreRow(i: nat, m: nat, n: nat)
    requires i < m
    ensures (i + 1) * n == i * n + n <= m * n
  {
    assert m * n == (i + 1) * n + (m - i - 1) * n;
  }

  /** The first vectors of the neurons show `tss`. */
  ghost predicate FirstShow(ns: seq<Neuro<Double>>, forward: bool, tss: seq<seq<Triple>>)
    reads *
  {
    |tss| <= |ns| && forall i {:trigger ns[i]} | 0 <= i < |tss| :: LinksShow(Vector(ns[i], forward), tss[i])
  }

  /** One round over the neurons of a layer. */
  method RestoreNext(ns: seq<Neuro<Double>>, i: nat, forward: bool, file: seq<Byte>, cur: nat,
                     targets: seq<Neuro<Double>>, ghost tss: seq<seq<Triple>>,
                     ghost k: nat, ghost psize: nat, ghost nsize: nat)
    returns (next: nat, ghost ts: seq<Triple>)
    requires NeurosOk(ns, k, psize, nsize) && AllReach(ns, forward, targets)
    requires i < |ns| && |tss| == i && FirstShow(ns, forward, tss) && cur + 24 * |targets| <= |file|
    modifies Vector(ns[i], forward)
    ensures AllReach(ns, forward, targets) && FirstShow(ns, forward, tss + [ts])
    ensures Read(file, cur, next, Img1(ts)) && next == cur + 24 * |targets|
  {
    next, ts := RestoreVector(Vector(ns[i], forward), |targets|, file, cur);
    forall j | 0 <= j < |ns| && j != i
      ensures Vector(ns[j], forward) != null ==> Vector(ns[j], forward) != Vector(ns[i], forward)
    {
      if Vector(ns[j], forward) != null { VectorsDiffer(ns, k, psize, nsize, forward, j, i); }
    }
  }

  method RestoreVectors(ns: seq<Neuro<Double>>, forward: bool, file: seq<Byte>, cur: nat, targets: seq<Neuro<Double>>,
                        ghost k: nat, ghost psize: nat, ghost nsize: nat)
    returns (next: nat, ghost tss: seq<seq<Triple>>)
    requires NeurosOk(ns, k, psize, nsize) && AllReach(ns, forward, targets)
    requires cur + 24 * (|ns| * |targets|) <= |file|
    modifies VectorBlocks(ns, forward)
    ensures AllReach(ns, forward, targets) && VectorsShow(ns, forward, tss)
    ensures Read(file, cur, next, Img2(tss)) && next == cur + 24 * (|ns| * |targets|)
  {
    next, tss := cur, [];
    var counter := 0;
    while counter != |ns|
      invariant 0 <= counter <= |ns| && |tss| == counter && next == cur + 24 * (counter * |targets|)
      invariant AllReach(ns, forward, targets) && FirstShow(ns, forward, tss)
      invariant Read(file, cur, next, Img2(tss))
    {
      ghost var from, ts := next, [];
      OneMoreRow(counter, |ns|, |targets|);
      next, ts := RestoreNext(ns, counter, forward, file, next, targets, tss, k, psize, nsize);
      Img2Takes(tss + [ts], counter);
      assert (tss + [ts])[..counter] == tss && (tss + [ts])[..counter + 1] == tss + [ts];
      ReadThen(file, cur, from, next, Img2(tss), Img1(ts));
      tss, counter := tss + [ts], counter + 1;
    }
  }

  // ---- all neurons ----

  lemma PairsFit(p: seq<nat>, i: nat)
    requires i <= |p|
    ensures Pairs(p[..i]) <= Pairs(p)
    decreases |p| - i
  {
    if i == |p| {
      assert p[..i] == p;
    } else {
      if i > 0 {
        PairsTake(p, i);
        var x, y := p[i - 1], p[i];
        assert 0 <= x * y;
      }
      PairsFit(p, i + 1);
    }
  }

  ghost predicate FirstNeurosShow(ls: seq<Layer<Double>>, tss: seq<seq<Triple>>)
    reads *
  {
    |tss| <= |ls| && forall k {:trigger ls[k]} | 0 <= k < |tss| :: NeurosShow(ls[k].neuros, tss[k])
  }

  method RestoreLayer(ls: seq<Layer<Double>>, k: nat, file: seq<Byte>, cur: nat,
                      ghost tss: seq<seq<Triple>>, ghost p: seq<nat>)
    returns (next: nat, ghost ts: seq<Triple>)
    requires Shape(ls, p) && k < |ls| && |tss| == k && FirstNeurosShow(ls, tss) && cur + 24 * p[k] <= |file|
    modifies ls[k].neuros`state, ls[k].neuros`output, ls[k].neuros`error
    ensures FirstNeurosShow(ls, tss + [ts]) && Read(file, cur, next, Img1(ts)) && next == cur + 24 * p[k]
  {
    var ns := ls[k].neuros;
    forall i | 0 <= i < |ns| ensures ns[i].pos == i && ns[i].layerNo == k {
      assert NeuroOk(ns[i], k, i, At(p, k - 1), At(p, k + 1));
    }
    next, ts := RestoreNeurons(ns, file, cur);
    forall j | 0 <= j < k ensures forall n | n in ls[j].neuros :: n.layerNo == j {
      forall i | 0 <= i < |ls[j].neuros| ensures ls[j].neuros[i].layerNo == j {
        assert NeuroOk(ls[j].neuros[i], j, i, At(p, j - 1), At(p, j + 1));
      }
    }
  }

  method RestoreAllNeurons(ls: seq<Layer<Double>>, file: seq<Byte>, cur: nat, ghost p: seq<nat>)
    returns (next: nat, ghost tss: seq<seq<Triple>>)
    requires Shape(ls, p) && |p| == |ls| && cur + 24 * Sum(p) <= |file|
    modifies NetNeuros(ls)`state, NetNeuros(ls)`output, NetNeuros(ls)`error
    ensures NetNeurosShow(ls, tss) && Read(file, cur, next, Img2(tss)) && next == cur + 24 * Sum(p)
  {
    next, tss := cur, [];
    var counter := 0;
    while counter != |ls|
      invariant 0 <= counter <= |ls| && |tss| == counter && next == cur + 24 * Sum(p[..counter])
      invariant FirstNeurosShow(ls, tss) && Read(file, cur, next, Img2(tss))
    {
      ghost var from, ts := next, [];
      SumTakes(p, counter);
      NetNeurosHoldAll(ls, counter);
      next, ts := RestoreLayer(ls, counter, file, next, tss, p);
      Img2Takes(tss + [ts], counter);
      assert (tss + [ts])[..counter] == tss && (tss + [ts])[..counter + 1] == tss + [ts];
      ReadThen(file, cur, from, next, Img2(tss), Img1(ts));
      tss, counter := tss + [ts], counter + 1;
    }
    assert p[..counter] == p;
  }

  // ---- all links ----

  ghost function DirBlocks<D>(ls: seq<Layer<D>>, forward: bool): set<LinkBlock<D>> {
    if ls == [] then {} else DirBlocks(ls[..|ls| - 1], forward) + VectorBlocks(ls[|ls| - 1].neuros, forward)
  }

  lemma DirBlocksHoldAll<D>(ls: seq<Layer<D>>, forward: bool, k: nat)
    requires k < |ls|
    ensures VectorBlocks(ls[k].neuros, forward) <= DirBlocks(ls, forward)
  {
    if k < |ls| - 1 { DirBlocksHoldAll(ls[..|ls| - 1], forward, k); }
  }

  /** The layer at the other end of the links that cross the gap after layer `k`. */
  function Beyond<D>(ls: seq<Layer<D>>, k: nat, forward: bool): Layer<D>
    requires k + 1 < |ls|
  {
    if forward then ls[k + 1] else ls[k]
  }

  /** `Wired`, with both directions said alike. */
  ghost predicate Reaching(ls: seq<Layer<Double>>)
    reads *
  {
    forall k, f | 0 <= k < |ls| - 1 :: GapReached(ls, k, f)
  }

  ghost predicate GapReached(ls: seq<Layer<Double>>, k: nat, f: bool)
    requires k + 1 < |ls|
    reads *
  {
    AllReach(Across(ls, k, f).neuros, f, Beyond(ls, k, f).neuros)
  }

  lemma ReachingIsWired(ls: seq<Layer<Double>>)
    ensures Reaching(ls) <==> Wired(ls)
  {
    if Reaching(ls) {
      forall k | 0 <= k < |ls| - 1 ensures PairWired(ls, k) {
        assert GapReached(ls, k, true) && GapReached(ls, k, false);
      }
    }
    if Wired(ls) {
      forall k, f | 0 <= k < |ls| - 1 ensures GapReached(ls, k, f) { assert PairWired(ls, k); }
    }
  }

  ghost predicate FirstPairsShow(ls: seq<Layer<Double>>, forward: bool, tsss: seq<seq<seq<Triple>>>)
    reads *
  {
    |tsss| < |ls| && forall k {:trigger tsss[k]} | 0 <= k < |tsss| ::
      VectorsShow(Across(ls, k, forward).neuros, forward, tsss[k])
  }

  /** What a pass over the links of one direction leaves alone. */
  ghost predicate Rest(ls: seq<Layer<Double>>, forward: bool, other: seq<seq<seq<Triple>>>, tss: seq<seq<Triple>>)
    reads *
  {
    NetLinksShow(ls, !forward, other) && NetNeurosShow(ls, tss)
  }

  /** The vectors of one direction of one layer are none of another direction or layer. */
  lemma VectorsApart<D>(ls: seq<Layer<D>>, p: seq<nat>, j: nat, f: bool, i: nat, k: nat, g: bool)
    requires Shape(ls, p) && j < |ls| && k < |ls| && (j != k || f != g) && i < |ls[j].neuros|
    ensures Vector(ls[j].neuros[i], f) !in VectorBlocks(ls[k].neuros, g)
  {
    assert NeuroOk(ls[j].neuros[i], j, i, At(p, j - 1), At(p, j + 1));
    BlocksKnowTheirPlace(ls, p, k);
  }

  /** The links of one direction across the gap after layer `k`. */
  method RestoreGap(ls: seq<Layer<Double>>, k: nat, forward: bool, file: seq<Byte>, cur: nat, ghost p: seq<nat>)
    returns (next: nat, ghost tss: seq<seq<Triple>>)
    requires Shape(ls, p) && |p| == |ls| && k + 1 < |ls| && cur + 24 * (p[k] * p[k + 1]) <= |file| && Reaching(ls)
    modifies VectorBlocks(Across(ls, k, forward).neuros, forward)
    ensures Reaching(ls) && VectorsShow(Across(ls, k, forward).neuros, forward, tss)
    ensures Read(file, cur, next, Img2(tss)) && next == cur + 24 * (p[k] * p[k + 1])
  {
    var a, b := Across(ls, k, forward).neuros, Beyond(ls, k, forward).neuros;
    ghost var layerNo := if forward then k else k + 1;
    assert GapReached(ls, k, forward);
    assert p[k] * p[k + 1] == |a| * |b|;
    next, tss := RestoreVectors(a, forward, file, cur, b, layerNo, At(p, layerNo - 1), At(p, layerNo + 1));
    forall j, f | 0 <= j < |ls| - 1 && (j != k || f != forward) ensures GapReached(ls, j, f) {
      assert old(GapReached(ls, j, f));
      var ns := Across(ls, j, f).neuros;
      forall i | 0 <= i < |ns| ensures Reaches(Vector(ns[i], f), Beyond(ls, j, f).neuros) {
        VectorsApart(ls, p, if f then j else j + 1, f, i, layerNo, forward);
      }
    }
  }

  /** One round over the gaps: what the earlier rounds read, and what no round touches, still stands. */
  method RestorePair(ls: seq<Layer<Double>>, k: nat, forward: bool, file: seq<Byte>, cur: nat,
                     ghost tsss: seq<seq<seq<Triple>>>, ghost p: seq<nat>,
                     ghost other: seq<seq<seq<Triple>>>, ghost neurons: seq<seq<Triple>>)
    returns (next: nat, ghost tss: seq<seq<Triple>>)
    requires Shape(ls, p) && |p| == |ls| && k + 1 < |ls| && cur + 24 * (p[k] * p[k + 1]) <= |file|
    requires Reaching(ls) && |tsss| == k && FirstPairsShow(ls, forward, tsss) && Rest(ls, forward, other, neurons)
    modifies VectorBlocks(Across(ls, k, forward).neuros, forward)
    ensures Reaching(ls) && FirstPairsShow(ls, forward, tsss + [tss]) && Rest(ls, forward, other, neurons)
    ensures Read(file, cur, next, Img2(tss)) && next == cur + 24 * (p[k] * p[k + 1])
  {
    next, tss := RestoreGap(ls, k, forward, file, cur, p);
    ghost var layerNo := if forward then k else k + 1;
    forall j | 0 <= j < k ensures VectorsShow(Across(ls, j, forward).neuros, forward, tsss[j]) {
      var ns := Across(ls, j, forward).neuros;
      forall i | 0 <= i < |ns| ensures LinksShow(Vector(ns[i], forward), tsss[j][i]) {
        VectorsApart(ls, p, if forward then j else j + 1, forward, i, layerNo, forward);
      }
    }
    forall j | 0 <= j < |ls| - 1 ensures VectorsShow(Across(ls, j, !forward).neuros, !forward, other[j]) {
      var ns := Across(ls, j, !forward).neuros;
      forall i | 0 <= i < |ns| ensures LinksShow(Vector(ns[i], !forward), other[j][i]) {
        VectorsApart(ls, p, if forward then j + 1 else j, !forward, i, layerNo, forward);
      }
    }
  }

  method RestoreAllLinks(ls: seq<Layer<Double>>, forward: bool, file: seq<Byte>, cur: nat, ghost p: seq<nat>,
                         ghost other: seq<seq<seq<Triple>>>, ghost neurons: seq<seq<Triple>>)
    returns (next: nat, ghost tsss: seq<seq<seq<Triple>>>)
    requires Shape(ls, p) && |p| == |ls| > 0 && cur + 24 * Pairs(p) <= |file|
    requires Reaching(ls) && Rest(ls, forward, other, neurons)
    modifies DirBlocks(ls, forward)
    ensures Reaching(ls) && Rest(ls, forward, other, neurons) && NetLinksShow(ls, forward, tsss)
    ensures Read(file, cur, next, Img3(tsss)) && next == cur + 24 * Pairs(p)
  {
    next, tsss := cur, [];
    var counter := 0;
    while counter != |ls| - 1
      invariant 0 <= counter <= |ls| - 1 && |tsss| == counter && next == cur + 24 * Pairs(p[..counter + 1])
      invariant Reaching(ls) && Rest(ls, forward, other, neurons) && FirstPairsShow(ls, forward, tsss)
      invariant Read(file, cur, next, Img3(tsss))
    {
      ghost var from, tss := next, [];
      PairsTake(p, counter + 1);
      PairsFit(p, counter + 2);
      DirBlocksHoldAll(ls, forward, if forward then counter else counter + 1);
      next, tss := RestorePair(ls, counter, forward, file, next, tsss, p, other, neurons);
      Img3Takes(tsss + [tss], counter);
      assert (tsss + [tss])[..counter] == tsss && (tsss + [tss])[..counter + 1] == tsss + [tss];
      ReadThen(file, cur, from, next, Img3(tsss), Img2(tss));
      tsss, counter := tsss + [tss], counter + 1;
    }
    assert p[..counter + 1] == p;
  }

  // ---- the checks ----

  /** Unsigned 32-bit arithmetic wraps here. */
  function LayersOf(file: seq<Byte>): (n: nat)
    requires |file| >= 6
    ensures n < 0x1_0000
  {
    ReadU16(file[4..6])
  }

  function TableOf(file: seq<Byte>, n: nat): (p: seq<nat>)
    requires 42 + 4 * n <= |file|
    ensures |p| == n && forall k | 0 <= k < n :: p[k] < WRAP
  {
    if n == 0 then [] else TableOf(file, n - 1) + [ReadU32(file[38 + 4 * n..42 + 4 * n])]
  }

  lemma SplitSlice(s: seq<Byte>, a: nat, b: nat, c: nat)
    requires a <= b <= c <= |s|
    ensures s[a..c] == s[a..b] + s[b..c]
  {
  }

  lemma TableGrows(p: seq<nat>, x: nat)
    ensures Table(p + [x]) == Table(p) + U32(x)
  {
    assert (p + [x])[..|p|] == p;
  }

  lemma {:induction false} TableIsRead(file: seq<Byte>, n: nat)
    requires 42 + 4 * n <= |file|
    ensures Table(TableOf(file, n)) == file[42..42 + 4 * n]
    decreases n
  {
    if n > 0 {
      TableIsRead(file, n - 1);
      var last := file[38 + 4 * n..42 + 4 * n];
      WriteReadU32(last);
      TableGrows(TableOf(file, n - 1), ReadU32(last));
      SplitSlice(file, 42, 38 + 4 * n, 42 + 4 * n);
    }
  }

  method ReadTable(file: seq<Byte>, n: nat) returns (p: seq<nat>)
    requires 42 + 4 * n <= |file|
    ensures p == TableOf(file, n)
  {
    p := [];
    var counter, buffer := 0, 42;
    while counter != n
      invariant 0 <= counter <= n && buffer == 42 + 4 * counter && p == TableOf(file, counter)
    {
      p := p + [ReadU32(file[buffer..buffer + 4])];
      counter, buffer := counter + 1, buffer + 4;
    }
  }

  method SumOfSizes(p: seq<nat>) returns (counter: nat, ghost q: nat)
    ensures Sum(p) == counter + WRAP * q && counter < WRAP
  {
    counter, q := 0, 0;
    var counter2 := 0;
    while counter2 != |p|
      invariant 0 <= counter2 <= |p| && Sum(p[..counter2]) == counter + WRAP * q && counter < WRAP
    {
      SumTakes(p, counter2);
      q := q + (counter + p[counter2]) / WRAP;
      counter := (counter + p[counter2]) % WRAP;
      counter2 := counter2 + 1;
    }
    assert p[..counter2] == p;
  }

  method SumOfLinks(p: seq<nat>) returns (counter2: nat, ghost q: nat)
    requires |p| > 0
    ensures 2 * Pairs(p) == counter2 + WRAP * q && counter2 < WRAP
  {
    counter2, q := 0, 0;
    var linkscounter := 0;
    while linkscounter != |p| - 1
      invariant 0 <= linkscounter <= |p| - 1 && counter2 < WRAP
      invariant 2 * Pairs(p[..linkscounter + 1]) == counter2 + WRAP * q
    {
      PairsTake(p, linkscounter + 1);
      var product := p[linkscounter] * p[linkscounter + 1];
      var doubled := product % WRAP * 2 % WRAP;
      q := q + 2 * (product / WRAP) + product % WRAP * 2 / WRAP + (counter2 + doubled) / WRAP;
      counter2 := (counter2 + doubled) % WRAP;
      linkscounter := linkscounter + 1;
    }
    assert p[..linkscounter + 1] == p;
  }

  /** The size the layer table announces, as the program computes it: modulo 2^32. */
  method Guess(p: seq<nat>) returns (smartpeoplecheck: nat)
    requires |p| > 0
    ensures smartpeoplecheck == ImageSize(p) % WRAP
  {
    var counter, counter2;
    ghost var q, r;
    counter, q := SumOfSizes(p);
    counter2, r := SumOfLinks(p);
    var neurons, links := counter * 3 % WRAP, counter2 * 3 % WRAP;
    var total := 4 + 4 * 8 + 2 + 4 + |p| * 4 + neurons * 8 + links * 8;
    smartpeoplecheck := total % WRAP;
    ghost var k := 24 * q + 24 * r + 8 * (counter * 3 / WRAP) + 8 * (counter2 * 3 / WRAP);
    assert ImageSize(p) == total + WRAP * k;
    Congruent(total, k);
  }

  lemma RestoredAreBlocks<D>(ls: seq<Layer<D>>)
    ensures NetNeuros(ls) <= NetBlocks(ls)
    ensures DirBlocks(ls, true) <= NetBlocks(ls) && DirBlocks(ls, false) <= NetBlocks(ls)
  {
    if ls != [] {
      RestoredAreBlocks(ls[..|ls| - 1]);
      BlocksHoldAll(ls[|ls| - 1].neuros);
    }
  }

  /** Refilling the neurons leaves the links alone. */
  method RestoreNeuronsOnly(ls: seq<Layer<Double>>, file: seq<Byte>, cur: nat, ghost p: seq<nat>)
    returns (next: nat, ghost tss: seq<seq<Triple>>)
    requires Shape(ls, p) && |p| == |ls| && cur + 24 * Sum(p) <= |file| && Reaching(ls)
    modifies NetNeuros(ls)`state, NetNeuros(ls)`output, NetNeuros(ls)`error
    ensures Reaching(ls) && NetNeurosShow(ls, tss)
    ensures Read(file, cur, next, Img2(tss)) && next == cur + 24 * Sum(p)
  {
    next, tss := RestoreAllNeurons(ls, file, cur, p);
    forall k, f | 0 <= k < |ls| - 1 ensures GapReached(ls, k, f) {
      assert old(GapReached(ls, k, f));
    }
  }

  /** The forward links, then the backward links. */
  method RestoreLinks(ls: seq<Layer<Double>>, file: seq<Byte>, cur: nat, ghost p: seq<nat>,
                      ghost neurons: seq<seq<Triple>>)
    returns (next: nat, ghost fwd: seq<seq<seq<Triple>>>, ghost bwd: seq<seq<seq<Triple>>>)
    requires Shape(ls, p) && |p| == |ls| > 0 && Reaching(ls) && NetNeurosShow(ls, neurons)
    requires cur + 48 * Pairs(p) <= |file|
    modifies DirBlocks(ls, true), DirBlocks(ls, false)
    ensures Reaching(ls)
    ensures NetNeurosShow(ls, neurons) && NetLinksShow(ls, true, fwd) && NetLinksShow(ls, false, bwd)
    ensures Read(file, cur, next, Img3(fwd) + Img3(bwd)) && next == cur + 48 * Pairs(p)
  {
    var middle;
    ghost var blank := LinksContent(ls, false);
    middle, fwd := RestoreAllLinks(ls, true, file, cur, p, blank, neurons);
    next, bwd := RestoreAllLinks(ls, false, file, middle, p, fwd, neurons);
    ReadThen(file, cur, middle, next, Img3(fwd), Img3(bwd));
  }

  /** The neurons, the forward links, the backward links; the reads end exactly at the end of the file. */
  method RestoreAll(nn: NN<Double>, file: seq<Byte>, cur: nat, ghost p: seq<nat>) returns (ghost c: Content)
    requires nn.Valid() && Shape(nn.layers, p) && |p| == |nn.layers|
    requires cur + 24 * Sum(p) + 48 * Pairs(p) == |file|
    modifies NetNeuros(nn.layers)`state, NetNeuros(nn.layers)`output, NetNeuros(nn.layers)`error
    modifies DirBlocks(nn.layers, true), DirBlocks(nn.layers, false)
    ensures nn.Valid() && Shows(nn, c) && c.sizes == p
    ensures Read(file, cur, |file|, Img2(c.neurons) + (Img3(c.fwd) + Img3(c.bwd)))
  {
    ghost var fwd, bwd, neurons;
    var ls, next, end := nn.layers, cur, cur;
    ReachingIsWired(ls);
    next, neurons := RestoreNeuronsOnly(ls, file, cur, p);
    end, fwd, bwd := RestoreLinks(ls, file, next, p, neurons);
    ReachingIsWired(ls);
    ReadThen(file, cur, next, end, Img2(neurons), Img3(fwd) + Img3(bwd));
    c := Content(p, neurons, fwd, bwd);
  }

  /** ReadsOutside stands for a read outside the file, whose effect C does not define. */
  datatype LoadError = BadCrc | BadSize | TooFewLayers | ReadsOutside

  /** The layer table lies inside the file, and there is a layer. */
  predicate HasTable(file: seq<Byte>) {
    |file| >= 6 && LayersOf(file) >= 1 && |file| >= 42 + 4 * LayersOf(file)
  }

  predicate SizeOk(file: seq<Byte>)
    requires HasTable(file)
  {
    ImageSize(TableOf(file, LayersOf(file))) % WRAP == |file|
  }

  /** load_nn reads nothing outside the file: it holds a CRC; behind a good CRC a layer table; and behind a good size,
    * where a network is built, all the numbers that the table announces. */
  predicate Inside(file: seq<Byte>) {
    && |file| >= 4
    && (CrcOk(file) ==>
         && HasTable(file)
         && (SizeOk(file) && LayersOf(file) >= 2 ==> ImageSize(TableOf(file, LayersOf(file))) == |file|))
  }

  /** The file is accepted. */
  predicate Accepted(file: seq<Byte>) {
    Inside(file) && CrcOk(file) && SizeOk(file) && LayersOf(file) >= 2
  }

  method CheckCrc(file: seq<Byte>) returns (ok: bool)
    requires |file| >= 4
    ensures ok == CrcOk(file)
  {
    var crc := EthCrc(AsInt(|file| - 4), file[4..]);
    ok := Bits(file[..4]) == crc;
  }

  /** The layer table of the file is `p`. */
  ghost predicate TableIs(file: seq<Byte>, p: seq<nat>) {
    42 + 4 * |p| <= |file| && Table(p) == file[42..42 + 4 * |p|]
  }

  /** The checks before a network is built, in the order of the program; where the program would read outside the file
    * an error is returned instead. */
  method Check(file: seq<Byte>) returns (r: Result<seq<nat>, LoadError>)
    ensures r == Err(ReadsOutside) <==> |file| < 4 || (CrcOk(file) && !HasTable(file))
    ensures r == Err(BadCrc) <==> |file| >= 4 && !CrcOk(file)
    ensures r == Err(BadSize) <==> |file| >= 4 && CrcOk(file) && HasTable(file) && !SizeOk(file)
    ensures r.Ok? <==> |file| >= 4 && CrcOk(file) && HasTable(file) && SizeOk(file)
    ensures r.Ok? ==> r.value == TableOf(file, LayersOf(file)) && TableIs(file, r.value)
  {
    if |file| < 4 { return Err(ReadsOutside); }
    var ok := CheckCrc(file);
    if !ok { return Err(BadCrc); }
    if !HasTable(file) { return Err(ReadsOutside); }
    var pInLayers := ReadTable(file, LayersOf(file));
    var smartpeoplecheck := Guess(pInLayers);
    if smartpeoplecheck != |file| { return Err(BadSize); }
    TableIsRead(file, LayersOf(file));
    r := Ok(pInLayers);
  }

  /** Everything that can go wrong, the one test of create_nn included. */
  method CheckAll(file: seq<Byte>) returns (r: Result<seq<nat>, LoadError>)
    ensures r == Err(ReadsOutside) <==> !Inside(file)
    ensures r == Err(BadCrc) <==> |file| >= 4 && !CrcOk(file)
    ensures r == Err(BadSize) <==> Inside(file) && CrcOk(file) && !SizeOk(file)
    ensures r == Err(TooFewLayers) <==> Inside(file) && CrcOk(file) && SizeOk(file) && LayersOf(file) < 2
    ensures r.Ok? <==> Accepted(file)
    ensures r.Ok? ==> r.value == TableOf(file, LayersOf(file)) && TableIs(file, r.value) && ImageSize(r.value) == |file|
  {
    r := Check(file);
    if r.Ok? {
      if |r.value| < 2 { return Err(TooFewLayers); }
      if ImageSize(r.value) != |file| { return Err(ReadsOutside); }
    }
  }

  lemma BodyIsRead(file: seq<Byte>, c: Content)
    requires TableIs(file, c.sizes)
    requires Read(file, 42 + 4 * |c.sizes|, |file|, Img2(c.neurons) + (Img3(c.fwd) + Img3(c.bwd)))
    ensures Body(c) == file[42..]
  {
    var n := 42 + 4 * |c.sizes|;
    assert file[42..] == file[42..n] + file[n..];
    assert Body(c) == Table(c.sizes) + (Img2(c.neurons) + (Img3(c.fwd) + Img3(c.bwd)));
  }

  method Refill(nn: NN<Double>, file: seq<Byte>) returns (ghost c: Content)
    requires nn.Valid() && TableIs(file, nn.sizes) && ImageSize(nn.sizes) == |file|
    modifies NetNeuros(nn.layers)`state, NetNeuros(nn.layers)`output, NetNeuros(nn.layers)`error
    modifies DirBlocks(nn.layers, true), DirBlocks(nn.layers, false)
    ensures nn.Valid() && Shows(nn, c) && c.sizes == nn.sizes && Body(c) == file[42..]
  {
    c := RestoreAll(nn, file, 42 + 4 * |nn.layers|, nn.sizes);
    BodyIsRead(file, c);
  }

  /** The lists of some layers are as they were. */
  twostate predicate ListsSame(ls: seq<Layer<Double>>)
    reads *
  {
    forall l | l in ls ::
      && l.first == old(l.first) && l.next == old(l.next) && l.previous == old(l.previous)
      && forall n | n in l.neuros :: n.next == old(n.next)
  }

  /** It leaves the lists alone, */
  method RefillListed(nn: NN<Double>, file: seq<Byte>) returns (ghost c: Content)
    requires nn.Valid() && TableIs(file, nn.sizes) && ImageSize(nn.sizes) == |file|
    modifies NetNeuros(nn.layers)`state, NetNeuros(nn.layers)`output, NetNeuros(nn.layers)`error
    modifies DirBlocks(nn.layers, true), DirBlocks(nn.layers, false)
    ensures nn.Valid() && Shows(nn, c) && c.sizes == nn.sizes && Body(c) == file[42..]
    ensures ListsSame(nn.layers)
  {
    c := Refill(nn, file);
  }

  /** and so the network stays threaded. */
  method RefillThreaded(nn: NN<Double>, file: seq<Byte>) returns (ghost c: Content)
    requires nn.Valid() && nn.Threaded() && TableIs(file, nn.sizes) && ImageSize(nn.sizes) == |file|
    modifies NetNeuros(nn.layers)`state, NetNeuros(nn.layers)`output, NetNeuros(nn.layers)`error
    modifies DirBlocks(nn.layers, true), DirBlocks(nn.layers, false)
    ensures nn.Valid() && nn.Threaded() && Shows(nn, c) && c.sizes == nn.sizes && Body(c) == file[42..]
  {
    ghost var ls := nn.layers;
    c := RefillListed(nn, file);
    forall k | 0 <= k < |ls| ensures LayerThreaded(ls[k]) && NextOk(ls, k) && BackUpTo(ls, |ls|, k) {
      assert old(LayerThreaded(ls[k])) && old(NextOk(ls, k)) && old(BackUpTo(ls, |ls|, k)) && ls[k] in ls;
      forall i | 0 <= i < |ls[k].neuros| ensures NeuroThread(ls[k].neuros, i) {
        assert old(NeuroThread(ls[k].neuros, i)) && ls[k].neuros[i] in ls[k].neuros;
      }
    }
  }

  /** create_nn on the layer table, then the refill. */
  method Rebuild(p: seq<nat>, file: seq<Byte>, ghost live: set<object>)
    returns (r: Option<NN<Double>>, ghost c: Content, ghost live': set<object>)
    requires 0 < |p| < 0x1_0000 && TableIs(file, p) && ImageSize(p) == |file|
    ensures r.None? <==> |p| < 2
    ensures r.Some? ==>
      && fresh(r.value) && fresh(NetBlocks(r.value.layers)) && r.value.Valid() && r.value.Threaded()
      && r.value.sizes == p && c.sizes == p && Shows(r.value, c) && Body(c) == file[42..]
      && live' == live + {r.value} + NetBlocks(r.value.layers)
  {
    c := Content([], [], [], []);
    var made;
    made, live' := CreateNN(|p|, p, ZERO8, live);
    r := None;
    if made.Ok? {
      assert p[..|p|] == p;
      var nn := made.value;
      assert nn.sizes == p;
      r := Some(nn);
      RestoredAreBlocks(nn.layers);
      c := RefillThreaded(nn, file);
    }
  }

  /** load_nn; life, alpha, eta, gain and error stay as create_nn left them. */
  method LoadNN(file: seq<Byte>, ghost live: set<object>)
    returns (r: Result<NN<Double>, LoadError>, ghost c: Content, ghost live': set<object>)
    ensures r == Err(ReadsOutside) <==> !Inside(file)
    ensures r == Err(BadCrc) <==> |file| >= 4 && !CrcOk(file)
    ensures r == Err(BadSize) <==> Inside(file) && CrcOk(file) && !SizeOk(file)
    ensures r == Err(TooFewLayers) <==> Inside(file) && CrcOk(file) && SizeOk(file) && LayersOf(file) < 2
    ensures r.Ok? <==> Accepted(file)
    ensures r.Ok? ==>
      && fresh(r.value) && fresh(NetBlocks(r.value.layers)) && r.value.Valid() && r.value.Threaded()
      && Shows(r.value, c) && r.value.sizes == c.sizes == TableOf(file, LayersOf(file)) && Body(c) == file[42..]
      && live' == live + {r.value} + NetBlocks(r.value.layers)
  {
    c, live' := Content([], [], [], []), live;
    var table := CheckAll(file);
    if table.Err? { return Err(table.error), c, live; }
    var rebuilt;
    rebuilt, c, live' := Rebuild(table.value, file, live);
    r := Ok(rebuilt.value);
  }
}
