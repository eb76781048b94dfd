/** The layered, fully connected graph of the neural network: construction and release.
  * The lists threaded through `next` and `previous` are also held as sequences by their owner. */
module Graph {
  import opened Wrappers

  datatype Link<D> = Link(linkedNeuro: Neuro?<D>, weight: D, weightSave: D, deltaWeight: D)

  /** Which vector of links: that of neuron `pos` of layer `layerNo`, forward or backward. */
  datatype BlockId = BlockId(layerNo: nat, pos: nat, forward: bool)

  /** One calloc'ed vector of links; its identity is the address of the vector. */
  class LinkBlock<D> {
    var links: seq<Link<D>>
    ghost const id: BlockId

    constructor (n: nat, zero: D, ghost id: BlockId)
      ensures links == seq(n, _ => Link(null, zero, zero, zero)) && this.id == id
    {
      links := seq(n, _ => Link(null, zero, zero, zero));
      this.id := id;
    }
  }

  class Neuro<D> {
    const fpNp: LinkBlock?<D>
    const bpNp: LinkBlock?<D>
    var next: Neuro?<D>
    var state: D
    var output: D
    var error: D
    ghost const layerNo: nat
    ghost const pos: nat

    constructor (zero: D, fpNp: LinkBlock?<D>, bpNp: LinkBlock?<D>, ghost layerNo: nat, ghost pos: nat)
      ensures this.fpNp == fpNp && this.bpNp == bpNp && next == null
      ensures state == zero && output == zero && error == zero
      ensures this.layerNo == layerNo && this.pos == pos
    {
      this.fpNp, this.bpNp, next := fpNp, bpNp, null;
      state, output, error := zero, zero, zero;
      this.layerNo, this.pos := layerNo, pos;
    }
  }

  class Layer<D> {
    /** The neurons in the order of their list. */
    const neuros: seq<Neuro<D>>
    ghost const layerNo: nat
    var first: Neuro?<D>
    var next: Layer?<D>
    var previous: Layer?<D>

    constructor (neuros: seq<Neuro<D>>, first: Neuro?<D>, ghost layerNo: nat)
      ensures this.neuros == neuros && this.layerNo == layerNo
      ensures this.first == first && next == null && previous == null
    {
      this.neuros, this.layerNo := neuros, layerNo;
      this.first, next, previous := first, null, null;
    }
  }

  class NN<D> {
    /** The layers in the order of their list. */
    const layers: seq<Layer<D>>
    /** The sizes of the layers, as a value. */
    ghost const sizes: seq<nat>
    var first: Layer?<D>
    var last: Layer?<D>
    var life: nat
    var alpha: D
    var eta: D
    var gain: D
    var error: D

    constructor (layers: seq<Layer<D>>, first: Layer?<D>, last: Layer?<D>, zero: D, ghost sizes: seq<nat>)
      ensures this.layers == layers && this.sizes == sizes && this.first == first && this.last == last
      ensures life == 0 && alpha == zero && eta == zero && gain == zero && error == zero
    {
      this.layers, this.sizes, this.first, this.last := layers, sizes, first, last;
      life, alpha, eta, gain, error := 0, zero, zero, zero, zero;
    }

    ghost predicate Valid()
      reads *
    {
      0 < |layers| == |sizes| < 0x1_0000 && Shape(layers, sizes) && Wired(layers)
    }

    /** The lists run through the layers and their neurons in order. */
    ghost predicate Threaded()
      reads *
    {
      && 0 < |layers| && first == layers[0] && last == layers[|layers| - 1]
      && Listed(layers, |layers|) && AllThreaded(layers)
    }
  }

  // ---- what never changes once a network is built ----

  ghost predicate BlockOk<D>(b: LinkBlock?<D>, n: nat, id: BlockId) {
    if n == 0 then b == null else b != null && b.id == id
  }

  ghost predicate NeuroOk<D>(n: Neuro<D>, k: nat, i: nat, psize: nat, nsize: nat) {
    && n.layerNo == k && n.pos == i
    && BlockOk(n.fpNp, nsize, BlockId(k, i, true))
    && BlockOk(n.bpNp, psize, BlockId(k, i, false))
  }

  ghost predicate NeurosOk<D>(ns: seq<Neuro<D>>, k: nat, psize: nat, nsize: nat) {
    forall i | 0 <= i < |ns| :: NeuroOk(ns[i], k, i, psize, nsize)
  }

  /** The width of layer `k`, 0 beside the network. */
  function At(p: seq<nat>, k: int): nat {
    if 0 <= k < |p| then p[k] else 0
  }

  /** `ls` are the first layers of a network of the widths `p`. */
  ghost predicate Shape<D>(ls: seq<Layer<D>>, p: seq<nat>) {
    |ls| <= |p| && forall k {:trigger ls[k]} | 0 <= k < |ls| ::
      ls[k].layerNo == k && |ls[k].neuros| == p[k] && NeurosOk(ls[k].neuros, k, At(p, k - 1), At(p, k + 1))
  }

  /** The vectors of forward links of some neurons. */
  ghost function FwdBlocks<D>(ns: seq<Neuro<D>>): set<LinkBlock<D>> {
    set n | n in ns && n.fpNp != null :: n.fpNp
  }

  ghost function BwdBlocks<D>(ns: seq<Neuro<D>>): set<LinkBlock<D>> {
    set n | n in ns && n.bpNp != null :: n.bpNp
  }

  /** All neurons of a network. */
  ghost function NeuroSet<D>(ns: seq<Neuro<D>>): set<Neuro<D>> {
    set n | n in ns
  }

  ghost function NetNeuros<D>(ls: seq<Layer<D>>): set<Neuro<D>> {
    if ls == [] then {} else NetNeuros(ls[..|ls| - 1]) + NeuroSet(ls[|ls| - 1].neuros)
  }

  lemma NetNeurosHoldAll<D>(ls: seq<Layer<D>>, k: nat)
    requires k < |ls|
    ensures forall n | n in ls[k].neuros :: n in NetNeuros(ls)
  {
    if k < |ls| - 1 { NetNeurosHoldAll(ls[..|ls| - 1], k); }
  }

  // ---- the lists ----

  function FirstNeuro<D>(ns: seq<Neuro<D>>): Neuro?<D> {
    if ns == [] then null else ns[0]
  }

  function LastNeuroOf<D>(ns: seq<Neuro<D>>): Neuro?<D> {
    if ns == [] then null else ns[|ns| - 1]
  }

  /** The neuron behind neuron `i`. */
  ghost predicate NeuroThread<D>(ns: seq<Neuro<D>>, i: nat)
    requires i < |ns|
    reads ns`next
  {
    ns[i].next == if i + 1 < |ns| then ns[i + 1] else null
  }

  ghost predicate Chained<D>(ns: seq<Neuro<D>>)
    reads ns`next
  {
    forall i | 0 <= i < |ns| :: NeuroThread(ns, i)
  }

  ghost predicate LayerThreaded<D>(l: Layer<D>)
    reads l`first, l.neuros`next
  {
    l.first == FirstNeuro(l.neuros) && Chained(l.neuros)
  }

  /** The layers beside layer `k`. */
  ghost predicate NextOk<D>(ls: seq<Layer<D>>, k: nat)
    requires k < |ls|
    reads ls`next
  {
    ls[k].next == if k + 1 < |ls| then ls[k + 1] else null
  }

  ghost predicate PreviousOk<D>(ls: seq<Layer<D>>, k: nat)
    requires k < |ls|
    reads ls`previous
  {
    ls[k].previous == if k > 0 then ls[k - 1] else null
  }

  // ---- wiring ----

  ghost function LinksOf<D>(b: LinkBlock?<D>): seq<Link<D>>
    reads b
  {
    if b == null then [] else b.links
  }

  /** The links of `b` reach the neurons `targets`, in order. */
  ghost predicate Reaches<D>(b: LinkBlock?<D>, targets: seq<Neuro<D>>)
    reads b
  {
    |LinksOf(b)| == |targets| && forall j | 0 <= j < |targets| :: LinksOf(b)[j].linkedNeuro == targets[j]
  }

  ghost predicate FwdWired<D>(ns: seq<Neuro<D>>, targets: seq<Neuro<D>>)
    reads FwdBlocks(ns)
  {
    forall n | n in ns :: Reaches(n.fpNp, targets)
  }

  ghost predicate BwdWired<D>(ns: seq<Neuro<D>>, targets: seq<Neuro<D>>)
    reads BwdBlocks(ns)
  {
    forall n | n in ns :: Reaches(n.bpNp, targets)
  }

  /** Layers `k` and `k + 1` are fully connected both ways. */
  ghost predicate PairWired<D>(ls: seq<Layer<D>>, k: nat)
    requires k + 1 < |ls|
    reads FwdBlocks(ls[k].neuros), BwdBlocks(ls[k + 1].neuros)
  {
    FwdWired(ls[k].neuros, ls[k + 1].neuros) && BwdWired(ls[k + 1].neuros, ls[k].neuros)
  }

  ghost predicate Wired<D>(ls: seq<Layer<D>>)
    reads *
  {
    forall k | 0 <= k < |ls| - 1 :: PairWired(ls, k)
  }

  /** Forward link `j` of neuron `i` of layer `k` reaches neuron `j` of the next layer, whose backward link `i`
    * returns. */
  lemma LinksGoThereAndBack<D>(nn: NN<D>, k: nat, i: nat, j: nat)
    requires nn.Valid() && k + 1 < |nn.sizes| && i < nn.sizes[k] && j < nn.sizes[k + 1]
    ensures var n, m := nn.layers[k].neuros[i], nn.layers[k + 1].neuros[j];
      && |LinksOf(n.fpNp)| == nn.sizes[k + 1] && LinksOf(n.fpNp)[j].linkedNeuro == m
      && |LinksOf(m.bpNp)| == nn.sizes[k] && LinksOf(m.bpNp)[i].linkedNeuro == n
  {
    assert PairWired(nn.layers, k);
  }

  // ---- allocation; `live` are the blocks handed out by the allocator and not yet released ----

  ghost function NeuroBlocks<D>(n: Neuro<D>): set<object> {
    {n} + (if n.fpNp == null then {} else {n.fpNp}) + (if n.bpNp == null then {} else {n.bpNp})
  }

  ghost function Blocks<D>(ns: seq<Neuro<D>>): set<object> {
    if ns == [] then {} else Blocks(ns[..|ns| - 1]) + NeuroBlocks(ns[|ns| - 1])
  }

  ghost function LayerBlocks<D>(l: Layer<D>): set<object> {
    {l} + Blocks(l.neuros)
  }

  ghost function NetBlocks<D>(ls: seq<Layer<D>>): set<object> {
    if ls == [] then {} else NetBlocks(ls[..|ls| - 1]) + LayerBlocks(ls[|ls| - 1])
  }

  lemma BlocksGrow<D>(ns: seq<Neuro<D>>, n: Neuro<D>)
    ensures Blocks(ns + [n]) == Blocks(ns) + NeuroBlocks(n)
  {
    assert (ns + [n])[..|ns|] == ns;
  }

  lemma NetBlocksGrow<D>(ls: seq<Layer<D>>, l: Layer<D>)
    ensures NetBlocks(ls + [l]) == NetBlocks(ls) + LayerBlocks(l)
  {
    assert (ls + [l])[..|ls|] == ls;
  }

  lemma BlocksHoldAll<D>(ns: seq<Neuro<D>>)
    ensures forall n | n in ns :: n in Blocks(ns) && NeuroBlocks(n) <= Blocks(ns)
    ensures FwdBlocks(ns) + BwdBlocks(ns) <= Blocks(ns)
  {
    if ns != [] { BlocksHoldAll(ns[..|ns| - 1]); }
  }

  ghost predicate Zeroed<D>(n: Neuro<D>, zero: D)
    reads n`state, n`output, n`error
  {
    n.state == zero && n.output == zero && n.error == zero
  }

  /** A neuron as calloc leaves it: all numbers zero, and link vectors of the asked lengths. */
  ghost predicate Blank<D>(n: Neuro<D>, psize: nat, nsize: nat, zero: D)
    reads n`state, n`output, n`error, n.fpNp, n.bpNp
  {
    Zeroed(n, zero) && BlankLinks(n.fpNp, nsize, zero) && BlankLinks(n.bpNp, psize, zero)
  }

  /** All weights of a vector of links are zero. */
  ghost predicate ZeroLinks<D>(b: LinkBlock?<D>, zero: D)
    reads b
  {
    forall j | 0 <= j < |LinksOf(b)| ::
      LinksOf(b)[j].weight == zero && LinksOf(b)[j].weightSave == zero && LinksOf(b)[j].deltaWeight == zero
  }

  /** A vector of `n` links that weigh nothing. */
  ghost predicate BlankLinks<D>(b: LinkBlock?<D>, n: nat, zero: D)
    reads b
  {
    |LinksOf(b)| == n && ZeroLinks(b, zero)
  }

  /** The vectors between layers `k` and `k + 1` as they leave the allocation. */
  ghost predicate PairBlank<D>(ls: seq<Layer<D>>, k: nat, zero: D)
    requires k + 1 < |ls|
    reads FwdBlocks(ls[k].neuros), BwdBlocks(ls[k + 1].neuros)
  {
    && (forall n | n in ls[k].neuros :: BlankLinks(n.fpNp, |ls[k + 1].neuros|, zero))
    && (forall n | n in ls[k + 1].neuros :: BlankLinks(n.bpNp, |ls[k].neuros|, zero))
  }

  /** The links between layers `k` and `k + 1` weigh nothing. */
  ghost predicate PairZero<D>(ls: seq<Layer<D>>, k: nat, zero: D)
    requires k + 1 < |ls|
    reads FwdBlocks(ls[k].neuros), BwdBlocks(ls[k + 1].neuros)
  {
    && (forall n | n in ls[k].neuros :: ZeroLinks(n.fpNp, zero))
    && (forall n | n in ls[k + 1].neuros :: ZeroLinks(n.bpNp, zero))
  }

  ghost predicate LayerBlank<D>(l: Layer<D>, psize: nat, nsize: nat, zero: D)
    reads *
  {
    forall n | n in l.neuros :: Blank(n, psize, nsize, zero)
  }

  ghost predicate NetBlank<D>(ls: seq<Layer<D>>, p: seq<nat>, zero: D)
    reads *
  {
    forall k {:trigger ls[k]} | 0 <= k < |ls| ::
      LayerBlank(ls[k], At(p, k - 1), At(p, k + 1), zero)
  }

  method AllocNeuro<D>(psize: nat, nsize: nat, zero: D, ghost live: set<object>, ghost k: nat, ghost i: nat)
    returns (n: Neuro<D>, ghost live': set<object>)
    ensures NeuroOk(n, k, i, psize, nsize) && Blank(n, psize, nsize, zero) && n.next == null
    ensures fresh(NeuroBlocks(n)) && live' == live + NeuroBlocks(n)
  {
    var fpNp: LinkBlock?<D>, bpNp: LinkBlock?<D> := null, null;
    if nsize != 0 { fpNp := new LinkBlock(nsize, zero, BlockId(k, i, true)); }
    if psize != 0 { bpNp := new LinkBlock(psize, zero, BlockId(k, i, false)); }
    n := new Neuro(zero, fpNp, bpNp, k, i);
    live' := live + NeuroBlocks(n);
  }

  /** The neuron `n` goes to the end of the list. */
  method Append<D>(oldn: Neuro?<D>, n: Neuro<D>, ghost ns: seq<Neuro<D>>)
    requires (forall i {:trigger ns[i]} | 0 <= i < |ns| :: ns[i].pos == i) && n.pos == |ns|
    requires Chained(ns) && oldn == LastNeuroOf(ns) && n.next == null
    modifies ns`next
    ensures Chained(ns + [n])
  {
    if oldn != null { oldn.next := n; }
    ghost var all := ns + [n];
    forall i | 0 <= i < |all| ensures NeuroThread(all, i) {
      if i < |ns| { assert old(NeuroThread(ns, i)); }
    }
  }

  /** The neurons of a layer, as far as they are allocated. */
  ghost predicate NeuronsNew<D>(ns: seq<Neuro<D>>, k: nat, psize: nat, nsize: nat, zero: D)
    reads *
  {
    NeurosOk(ns, k, psize, nsize) && Chained(ns) && forall n | n in ns :: Blank(n, psize, nsize, zero)
  }

  /** One round of the loop that allocates the neurons. */
  method AllocNextNeuro<D>(oldn: Neuro?<D>, psize: nat, nsize: nat, zero: D,
                           ghost live: set<object>, ghost k: nat, ghost ns: seq<Neuro<D>>)
    returns (n: Neuro<D>, ghost live': set<object>)
    requires NeuronsNew(ns, k, psize, nsize, zero) && oldn == LastNeuroOf(ns)
    modifies ns`next
    ensures NeuronsNew(ns + [n], k, psize, nsize, zero)
    ensures fresh(n) && fresh(NeuroBlocks(n)) && live' == live + NeuroBlocks(n)
  {
    n, live' := AllocNeuro(psize, nsize, zero, live, k, |ns|);
    forall i | 0 <= i < |ns| ensures ns[i].pos == i && NeuroThread(ns, i) {
      assert NeuroOk(ns[i], k, i, psize, nsize) && old(NeuroThread(ns, i));
    }
    forall m | m in ns ensures Blank(m, psize, nsize, zero) { assert old(Blank(m, psize, nsize, zero)); }
    Append(oldn, n, ns);
  }

  /** The loop that allocates the neurons. */
  method AllocNeuros<D>(size: nat, psize: nat, nsize: nat, zero: D, ghost live: set<object>, ghost k: nat)
    returns (ns: seq<Neuro<D>>, first: Neuro?<D>, ghost live': set<object>)
    ensures |ns| == size && NeuronsNew(ns, k, psize, nsize, zero) && first == FirstNeuro(ns)
    ensures fresh(Blocks(ns)) && live' == live + Blocks(ns)
  {
    var csize := 0;
    var oldn: Neuro?<D> := null;
    ns, first, live' := [], null, live;
    while csize != size
      invariant 0 <= csize <= size && |ns| == csize && NeuronsNew(ns, k, psize, nsize, zero)
      invariant first == FirstNeuro(ns) && oldn == LastNeuroOf(ns) && forall i | 0 <= i < |ns| :: fresh(ns[i])
      invariant fresh(Blocks(ns)) && live' == live + Blocks(ns)
    {
      var nTemp: Neuro<D>;
      nTemp, live' := AllocNextNeuro(oldn, psize, nsize, zero, live', k, ns);
      BlocksGrow(ns, nTemp);
      if csize == 0 { first := nTemp; }
      oldn := nTemp;
      ns, csize := ns + [nTemp], csize + 1;
    }
  }

  method AllocLayer<D>(size: nat, psize: nat, nsize: nat, zero: D, ghost live: set<object>, ghost k: nat)
    returns (l: Layer<D>, ghost live': set<object>)
    ensures l.layerNo == k && |l.neuros| == size && NeurosOk(l.neuros, k, psize, nsize)
    ensures LayerBlank(l, psize, nsize, zero)
    ensures LayerThreaded(l) && l.next == null && l.previous == null
    ensures fresh(LayerBlocks(l)) && live' == live + LayerBlocks(l)
  {
    var ns, first;
    ns, first, live' := AllocNeuros(size, psize, nsize, zero, live, k);
    l := new Layer(ns, first, k);
    live' := live' + {l};
  }

  /** Only the first `m` layers are threaded back. */
  ghost predicate BackUpTo<D>(ls: seq<Layer<D>>, m: nat, k: nat)
    requires k < |ls|
    reads ls`previous
  {
    if k < m then PreviousOk(ls, k) else ls[k].previous == null
  }

  /** All layers are threaded, each to the next, and the first `m` back. */
  ghost predicate Listed<D>(ls: seq<Layer<D>>, m: nat)
    reads ls`next, ls`previous
  {
    (forall k | 0 <= k < |ls| :: NextOk(ls, k)) && forall k | 0 <= k < |ls| :: BackUpTo(ls, m, k)
  }

  ghost predicate AllThreaded<D>(ls: seq<Layer<D>>)
    reads *
  {
    forall k | 0 <= k < |ls| :: LayerThreaded(ls[k])
  }

  /** A layer as allocated. */
  ghost predicate LayerNew<D>(l: Layer<D>, k: nat, p: seq<nat>, zero: D)
    reads *
  {
    LayerBlank(l, At(p, k - 1), At(p, k + 1), zero) && LayerThreaded(l)
  }

  /** One round of the loop that allocates the layers. */
  method AllocNextLayer<D>(ls: seq<Layer<D>>, pn: seq<nat>, zero: D, ghost live: set<object>)
    returns (l: Layer<D>, ghost live': set<object>)
    requires |ls| < |pn| && Shape(ls, pn) && NetBlank(ls, pn, zero) && AllThreaded(ls)
    ensures Shape(ls + [l], pn) && NetBlank(ls + [l], pn, zero) && AllThreaded(ls + [l])
    ensures l.next == null && l.previous == null
    ensures fresh(LayerBlocks(l)) && live' == live + LayerBlocks(l)
  {
    var size := |ls|;
    l, live' := AllocLayer(pn[size], At(pn, size - 1), At(pn, size + 1), zero, live, size);
    ghost var all := ls + [l];
    forall k | 0 <= k < |all| ensures LayerNew(all[k], k, pn, zero) {
      if k < size {
        assert old(LayerBlank(ls[k], At(pn, k - 1), At(pn, k + 1), zero)) && old(LayerThreaded(ls[k]));
        assert all[k] == ls[k];
      }
    }
  }

  /** The layer goes to the end of the list. */
  method AppendLayer<D>(ls: seq<Layer<D>>, l: Layer<D>)
    requires forall k {:trigger (ls + [l])[k]} | 0 <= k <= |ls| :: (ls + [l])[k].layerNo == k
    requires Listed(ls, 0) && l.next == null && l.previous == null
    modifies ls`next
    ensures Listed(ls + [l], 0)
  {
    ghost var all := ls + [l];
    assert all[|ls|] == l && forall k | 0 <= k < |all| :: all[k].layerNo == k;
    if |ls| > 0 { ls[|ls| - 1].next := l; }
    forall k | 0 <= k < |all| ensures NextOk(all, k) && BackUpTo(all, 0, k) {
      assert all[k].layerNo == k;
      if k < |ls| { assert old(NextOk(ls, k)) && old(BackUpTo(ls, 0, k)) && all[k] == ls[k]; }
      if k + 1 < |ls| { assert all[k + 1] == ls[k + 1] && ls[|ls| - 1] == all[|ls| - 1]; }
    }
  }

  /** It stays as allocated, and so do the others. */
  method AppendNew<D>(ls: seq<Layer<D>>, l: Layer<D>, ghost pn: seq<nat>, ghost zero: D)
    requires Shape(ls + [l], pn) && NetBlank(ls + [l], pn, zero) && Listed(ls, 0) && AllThreaded(ls + [l])
    requires l.next == null && l.previous == null
    modifies ls`next
    ensures NetBlank(ls + [l], pn, zero) && Listed(ls + [l], 0) && AllThreaded(ls + [l])
  {
    ghost var all := ls + [l];
    AppendLayer(ls, l);
    forall k | 0 <= k < |all| ensures LayerNew(all[k], k, pn, zero) {
      assert old(LayerThreaded(all[k])) && old(LayerBlank(all[k], At(pn, k - 1), At(pn, k + 1), zero));
    }
  }

  /** The layers of a network, as far as they are allocated. */
  ghost predicate LayersNew<D>(ls: seq<Layer<D>>, pn: seq<nat>, zero: D)
    reads *
  {
    Shape(ls, pn) && NetBlank(ls, pn, zero) && Listed(ls, 0) && AllThreaded(ls)
  }

  /** One round of the loop. */
  method AllocRound<D>(ls: seq<Layer<D>>, pn: seq<nat>, zero: D, ghost live: set<object>)
    returns (l: Layer<D>, ghost live': set<object>)
    requires |ls| < |pn| && LayersNew(ls, pn, zero)
    modifies ls`next
    ensures LayersNew(ls + [l], pn, zero)
    ensures fresh(l) && fresh(LayerBlocks(l)) && live' == live + LayerBlocks(l)
  {
    l, live' := AllocNextLayer(ls, pn, zero, live);
    AppendNew(ls, l, pn, zero);
  }

  method AllocLayers<D>(pn: seq<nat>, zero: D, ghost live: set<object>)
    returns (ls: seq<Layer<D>>, ghost live': set<object>)
    ensures |ls| == |pn| && LayersNew(ls, pn, zero) && forall k | 0 <= k < |ls| :: fresh(ls[k])
    ensures fresh(NetBlocks(ls)) && live' == live + NetBlocks(ls)
  {
    ls, live' := [], live;
    while |ls| != |pn|
      invariant |ls| <= |pn| && LayersNew(ls, pn, zero) && forall k | 0 <= k < |ls| :: fresh(ls[k])
      invariant fresh(NetBlocks(ls)) && live' == live + NetBlocks(ls)
      decreases |pn| - |ls|
    {
      var l: Layer<D>;
      l, live' := AllocRound(ls, pn, zero, live');
      NetBlocksGrow(ls, l);
      ls := ls + [l];
    }
  }

  // ---- linking ----

  /** The inner loop of link_layers: link `j` of the vector reaches neuron `j` of `target`. */
  method Aim<D>(b: LinkBlock?<D>, target: Layer<D>, ghost zero: D)
    requires |LinksOf(b)| == |target.neuros|
    modifies b
    ensures Reaches(b, target.neuros)
    ensures old(ZeroLinks(b, zero)) ==> ZeroLinks(b, zero)
  {
    var counter := 0;
    while counter != |target.neuros|
      invariant 0 <= counter <= |target.neuros| == |LinksOf(b)|
      invariant forall j | 0 <= j < counter :: LinksOf(b)[j].linkedNeuro == target.neuros[j]
      invariant old(ZeroLinks(b, zero)) ==> ZeroLinks(b, zero)
    {
      b.links := b.links[counter := b.links[counter].(linkedNeuro := target.neuros[counter])];
      counter := counter + 1;
    }
  }

  method LinkForward<D>(a: Layer<D>, b: Layer<D>, ghost zero: D, ghost k: nat, ghost psize: nat)
    requires NeurosOk(a.neuros, k, psize, |b.neuros|)
    requires forall n | n in a.neuros :: BlankLinks(n.fpNp, |b.neuros|, zero)
    modifies FwdBlocks(a.neuros)
    ensures FwdWired(a.neuros, b.neuros) && forall n | n in a.neuros :: ZeroLinks(n.fpNp, zero)
  {
    var counter := 0;
    while counter != |a.neuros|
      invariant 0 <= counter <= |a.neuros|
      invariant forall i | 0 <= i < counter :: Reaches(a.neuros[i].fpNp, b.neuros)
      invariant forall n | n in a.neuros :: |LinksOf(n.fpNp)| == |b.neuros| && ZeroLinks(n.fpNp, zero)
    {
      Aim(a.neuros[counter].fpNp, b, zero);
      counter := counter + 1;
    }
  }

  method LinkBackward<D>(a: Layer<D>, b: Layer<D>, ghost zero: D, ghost k: nat, ghost nsize: nat)
    requires NeurosOk(b.neuros, k, |a.neuros|, nsize)
    requires forall n | n in b.neuros :: BlankLinks(n.bpNp, |a.neuros|, zero)
    modifies BwdBlocks(b.neuros)
    ensures BwdWired(b.neuros, a.neuros) && forall n | n in b.neuros :: ZeroLinks(n.bpNp, zero)
  {
    var counter := 0;
    while counter != |b.neuros|
      invariant 0 <= counter <= |b.neuros|
      invariant forall i | 0 <= i < counter :: Reaches(b.neuros[i].bpNp, a.neuros)
      invariant forall n | n in b.neuros :: |LinksOf(n.bpNp)| == |a.neuros| && ZeroLinks(n.bpNp, zero)
    {
      Aim(b.neuros[counter].bpNp, a, zero);
      counter := counter + 1;
    }
  }

  /** All link vectors of a network. */
  ghost function LinkBlocks<D>(ls: seq<Layer<D>>): set<LinkBlock<D>> {
    if ls == [] then {} else
      LinkBlocks(ls[..|ls| - 1]) + FwdBlocks(ls[|ls| - 1].neuros) + BwdBlocks(ls[|ls| - 1].neuros)
  }

  lemma LinkBlocksHoldAll<D>(ls: seq<Layer<D>>, k: nat)
    requires k < |ls|
    ensures FwdBlocks(ls[k].neuros) + BwdBlocks(ls[k].neuros) <= LinkBlocks(ls)
  {
    if k < |ls| - 1 { LinkBlocksHoldAll(ls[..|ls| - 1], k); }
  }

  lemma LinkBlocksAreBlocks<D>(ls: seq<Layer<D>>)
    ensures LinkBlocks(ls) <= NetBlocks(ls)
  {
    if ls != [] {
      LinkBlocksAreBlocks(ls[..|ls| - 1]);
      BlocksHoldAll(ls[|ls| - 1].neuros);
    }
  }

  lemma BlocksKnowTheirPlace<D>(ls: seq<Layer<D>>, p: seq<nat>, k: nat)
    requires Shape(ls, p) && k < |ls|
    ensures forall b | b in FwdBlocks(ls[k].neuros) :: b.id.forward && b.id.layerNo == k
    ensures forall b | b in BwdBlocks(ls[k].neuros) :: !b.id.forward && b.id.layerNo == k
  {
  }

  /** The vectors between two pairs of adjacent layers are different vectors. */
  lemma PairsApart<D>(ls: seq<Layer<D>>, p: seq<nat>, j: nat, k: nat)
    requires Shape(ls, p) && j + 1 < |ls| && k + 1 < |ls| && j != k
    ensures FwdBlocks(ls[j].neuros) + BwdBlocks(ls[j + 1].neuros) !!
            FwdBlocks(ls[k].neuros) + BwdBlocks(ls[k + 1].neuros)
  {
    BlocksKnowTheirPlace(ls, p, j);
    BlocksKnowTheirPlace(ls, p, j + 1);
    BlocksKnowTheirPlace(ls, p, k);
    BlocksKnowTheirPlace(ls, p, k + 1);
  }

  /** The two loops of link_layers. */
  method LinkPair<D>(ls: seq<Layer<D>>, k: nat, ghost zero: D, ghost p: seq<nat>)
    requires Shape(ls, p) && |ls| == |p| && k + 1 < |ls| && PairBlank(ls, k, zero)
    modifies FwdBlocks(ls[k].neuros), BwdBlocks(ls[k + 1].neuros)
    ensures PairWired(ls, k) && PairZero(ls, k, zero)
  {
    BlocksKnowTheirPlace(ls, p, k);
    BlocksKnowTheirPlace(ls, p, k + 1);
    LinkForward(ls[k], ls[k + 1], zero, k, At(p, k - 1));
    LinkBackward(ls[k], ls[k + 1], zero, k + 1, At(p, k + 2));
  }

  /** A pair that is linked, with all weights zero. */
  ghost predicate PairReady<D>(ls: seq<Layer<D>>, k: nat, zero: D)
    requires k + 1 < |ls|
    reads FwdBlocks(ls[k].neuros), BwdBlocks(ls[k + 1].neuros)
  {
    PairWired(ls, k) && PairZero(ls, k, zero)
  }

  /** The loops of link_layers: the pairs linked before stay linked, */
  method LinkAmongReady<D>(ls: seq<Layer<D>>, k: nat, ghost zero: D, ghost p: seq<nat>)
    requires Shape(ls, p) && |ls| == |p| && k + 1 < |ls| && PairBlank(ls, k, zero)
    modifies FwdBlocks(ls[k].neuros), BwdBlocks(ls[k + 1].neuros)
    ensures PairReady(ls, k, zero)
    ensures forall j | 0 <= j < |ls| - 1 && j != k && old(PairReady(ls, j, zero)) :: PairReady(ls, j, zero)
  {
    LinkPair(ls, k, zero, p);
    forall j | 0 <= j < |ls| - 1 && j != k && old(PairReady(ls, j, zero)) ensures PairReady(ls, j, zero) {
      PairsApart(ls, p, j, k);
    }
  }

  /** and the pairs not linked yet stay as allocated. */
  method LinkKept<D>(ls: seq<Layer<D>>, k: nat, ghost zero: D, ghost p: seq<nat>)
    requires Shape(ls, p) && |ls| == |p| && k + 1 < |ls| && PairBlank(ls, k, zero)
    modifies FwdBlocks(ls[k].neuros), BwdBlocks(ls[k + 1].neuros)
    ensures PairReady(ls, k, zero)
    ensures forall j | 0 <= j < |ls| - 1 && j != k && old(PairReady(ls, j, zero)) :: PairReady(ls, j, zero)
    ensures forall j | 0 <= j < |ls| - 1 && j != k && old(PairBlank(ls, j, zero)) :: PairBlank(ls, j, zero)
  {
    LinkAmongReady(ls, k, zero, p);
    forall j | 0 <= j < |ls| - 1 && j != k && old(PairBlank(ls, j, zero)) ensures PairBlank(ls, j, zero) {
      PairsApart(ls, p, j, k);
    }
  }

  /** The two stores that thread a pair of layers. */
  method Store<D>(ls: seq<Layer<D>>, k: nat, d: nat, ghost m: nat, ghost p: seq<nat>)
    requires Shape(ls, p) && d == k + 1 < |ls| && m == d + 1 && Listed(ls, d)
    modifies {ls[k]}`next, {ls[d]}`previous
    ensures Listed(ls, m)
  {
    assert NextOk(ls, k) && ls[d].layerNo == d;
    ls[k].next := ls[d];
    ls[d].previous := ls[k];
    forall j | 0 <= j < |ls| ensures NextOk(ls, j) && BackUpTo(ls, m, j) {
      assert old(NextOk(ls, j)) && old(BackUpTo(ls, d, j)) && ls[j].layerNo == j;
    }
  }

  /** The first `m` pairs are linked and threaded, the others as allocated. */
  ghost predicate PairUpTo<D>(ls: seq<Layer<D>>, m: nat, k: nat, zero: D)
    requires k + 1 < |ls|
    reads FwdBlocks(ls[k].neuros), BwdBlocks(ls[k + 1].neuros)
  {
    if k < m then PairReady(ls, k, zero) else PairBlank(ls, k, zero)
  }

  ghost predicate LinkedUpTo<D>(ls: seq<Layer<D>>, m: nat, zero: D)
    reads *
  {
    (forall k | 0 <= k < |ls| - 1 :: PairUpTo(ls, m, k, zero)) && Listed(ls, m + 1)
  }

  /** link_layers: one more pair is threaded and linked, and all others stay as they are. */
  method LinkLayers<D>(ls: seq<Layer<D>>, k: nat, d: nat, ghost zero: D, ghost p: seq<nat>)
    requires Shape(ls, p) && |ls| == |p| && d == k + 1 < |ls| && LinkedUpTo(ls, k, zero)
    modifies {ls[k]}`next, {ls[d]}`previous, FwdBlocks(ls[k].neuros), BwdBlocks(ls[d].neuros)
    ensures LinkedUpTo(ls, d, zero)
  {
    assert PairUpTo(ls, k, k, zero);
    Store(ls, k, d, d + 1, p);
    label Threaded:
    LinkKept(ls, k, zero, p);
    forall j | 0 <= j < |ls| - 1 ensures PairUpTo(ls, d, j, zero) {
      assert old(PairUpTo(ls, k, j, zero)) && old@Threaded(PairUpTo(ls, k, j, zero));
    }
  }

  /** One round of the loop over the pairs. */
  method LinkRound<D>(ls: seq<Layer<D>>, k: nat, ghost zero: D, ghost p: seq<nat>)
    requires Shape(ls, p) && |ls| == |p| && k + 1 < |ls| && LinkedUpTo(ls, k, zero)
    modifies ls`next, ls`previous, LinkBlocks(ls)
    ensures LinkedUpTo(ls, k + 1, zero)
  {
    LinkBlocksHoldAll(ls, k);
    LinkBlocksHoldAll(ls, k + 1);
    LinkLayers(ls, k, k + 1, zero, p);
  }

  method LinkAll<D>(ls: seq<Layer<D>>, ghost zero: D, ghost p: seq<nat>)
    requires Shape(ls, p) && |ls| == |p| > 0 && LinkedUpTo(ls, 0, zero)
    modifies ls`next, ls`previous, LinkBlocks(ls)
    ensures Wired(ls) && (forall k | 0 <= k < |ls| - 1 :: PairZero(ls, k, zero)) && Listed(ls, |ls|)
  {
    var size := 0;
    while size != |ls| - 1
      invariant 0 <= size <= |ls| - 1 && LinkedUpTo(ls, size, zero)
    {
      LinkRound(ls, size, zero, p);
      size := size + 1;
    }
    forall k | 0 <= k < |ls| - 1 ensures PairWired(ls, k) && PairZero(ls, k, zero) {
      assert PairUpTo(ls, |ls| - 1, k, zero);
    }
  }

  /** As the allocation leaves them. */
  lemma NoneIsLinked<D>(ls: seq<Layer<D>>, p: seq<nat>, zero: D)
    requires Shape(ls, p) && |ls| == |p| && NetBlank(ls, p, zero) && Listed(ls, 0)
    ensures LinkedUpTo(ls, 0, zero)
  {
    forall k | 0 <= k < |ls| - 1 ensures PairUpTo(ls, 0, k, zero) {
      assert LayerBlank(ls[k], At(p, k - 1), At(p, k + 1), zero);
      assert LayerBlank(ls[k + 1], At(p, k), At(p, k + 2), zero);
    }
    forall k | 0 <= k < |ls| ensures BackUpTo(ls, 1, k) { assert BackUpTo(ls, 0, k); }
  }

  /** All numbers of a network are zero. */
  ghost predicate NetZero<D>(ls: seq<Layer<D>>, zero: D)
    reads *
  {
    && (forall k | 0 <= k < |ls| :: forall n | n in ls[k].neuros :: Zeroed(n, zero))
    && forall k | 0 <= k < |ls| - 1 :: PairZero(ls, k, zero)
  }

  /** The two loops of create_nn. */
  method Build<D>(p: seq<nat>, zero: D, ghost live: set<object>) returns (ls: seq<Layer<D>>, ghost live': set<object>)
    requires 0 < |p|
    ensures |ls| == |p| && Shape(ls, p) && Wired(ls) && NetZero(ls, zero)
    ensures Listed(ls, |ls|) && AllThreaded(ls)
    ensures fresh(NetBlocks(ls)) && live' == live + NetBlocks(ls)
  {
    ls, live' := AllocLayers(p, zero, live);
    LinkBlocksAreBlocks(ls);
    NoneIsLinked(ls, p, zero);
    label Allocated:
    LinkAll(ls, zero, p);
    forall k | 0 <= k < |ls| ensures LayerThreaded(ls[k]) && forall n | n in ls[k].neuros :: Zeroed(n, zero) {
      assert old@Allocated(LayerThreaded(ls[k]));
      assert old@Allocated(LayerBlank(ls[k], At(p, k - 1), At(p, k + 1), zero));
    }
  }

  /** TooFew stands for the exit of the program, ReadsNull for a read through a null pointer. */
  datatype CreateError = TooFew | ReadsNull

  /** create_nn. The field for the number of layers is 16 bits wide, so the given number is cut to 16 bits; if nothing
    * is left of it, there is no first layer whose next one could be read. */
  method CreateNN<D>(size: nat, pn: seq<nat>, zero: D, ghost live: set<object>)
    returns (r: Result<NN<D>, CreateError>, ghost live': set<object>)
    requires |pn| == size
    ensures r == Err(TooFew) <==> size < 2
    ensures r == Err(ReadsNull) <==> size >= 2 && size % 0x1_0000 == 0
    ensures r.Ok? <==> size >= 2 && size % 0x1_0000 != 0
    ensures r.Err? ==> live' == live
    ensures r.Ok? ==> var nn := r.value;
      && nn.Valid() && nn.Threaded() && nn.sizes == pn[..size % 0x1_0000] && NetZero(nn.layers, zero)
      && fresh(nn) && fresh(NetBlocks(nn.layers)) && live' == live + {nn} + NetBlocks(nn.layers)
  {
    live' := live;
    if size < 2 { return Err(TooFew), live; }
    if size % 0x1_0000 == 0 { return Err(ReadsNull), live; }
    var p := pn[..size % 0x1_0000];
    var ls: seq<Layer<D>>;
    ls, live' := Build(p, zero, live');
    var nn := new NN(ls, ls[0], ls[|ls| - 1], zero, p);
    live' := live' + {nn};
    r := Ok(nn);
  }

  // ---- release ----

  /** free: a null pointer is ignored, any other must be a live block. */
  method Free(b: object?, ghost live: set<object>) returns (ghost live': set<object>)
    requires b != null ==> b in live
    ensures live' == live - (if b == null then {} else {b})
  {
    live' := live - (if b == null then {} else {b});
  }

  lemma BlocksHaveTheirPos<D>(ns: seq<Neuro<D>>, m: nat, k: nat, psize: nat, nsize: nat)
    requires NeurosOk(ns, k, psize, nsize) && m <= |ns|
    ensures forall n: Neuro<D> | n in Blocks(ns[..m]) :: n.pos < m && n.layerNo == k
    ensures forall b: LinkBlock<D> | b in Blocks(ns[..m]) :: b.id.pos < m && b.id.layerNo == k
    ensures forall l: Layer<D> :: l !in Blocks(ns[..m])
    ensures forall nn: NN<D> :: nn !in Blocks(ns[..m])
  {
    if m > 0 {
      BlocksHaveTheirPos(ns, m - 1, k, psize, nsize);
      assert ns[..m][..m - 1] == ns[..m - 1];
      assert NeuroOk(ns[m - 1], k, m - 1, psize, nsize);
    }
  }

  lemma BlocksTake<D>(ns: seq<Neuro<D>>, m: nat)
    requires m < |ns|
    ensures Blocks(ns[..m + 1]) == Blocks(ns[..m]) + NeuroBlocks(ns[m])
  {
    assert ns[..m + 1] == ns[..m] + [ns[m]];
    BlocksGrow(ns[..m], ns[m]);
  }

  lemma BlocksMonotone<D>(ns: seq<Neuro<D>>, m: nat)
    requires m <= |ns|
    ensures Blocks(ns[..m]) <= Blocks(ns)
    decreases |ns| - m
  {
    if m < |ns| {
      BlocksTake(ns, m);
      BlocksMonotone(ns, m + 1);
    } else {
      assert ns[..m] == ns;
    }
  }

  /** The blocks of neuron `m` are not among those of the neurons before it. */
  lemma NextIsNew<D>(ns: seq<Neuro<D>>, m: nat, k: nat, psize: nat, nsize: nat)
    requires NeurosOk(ns, k, psize, nsize) && m < |ns|
    ensures NeuroBlocks(ns[m]) !! Blocks(ns[..m]) && NeuroBlocks(ns[m]) <= Blocks(ns)
  {
    BlocksHaveTheirPos(ns, m, k, psize, nsize);
    assert NeuroOk(ns[m], k, m, psize, nsize);
    BlocksTake(ns, m);
    BlocksMonotone(ns, m + 1);
  }

  /** The list of a layer is read from live blocks only. */
  method NextNeuro<D>(n: Neuro<D>, ghost live: set<object>) returns (next: Neuro?<D>)
    requires n in live
    ensures next == n.next
  {
    next := n.next;
  }

  /** And so is the list of the layers. */
  method NextLayer<D>(l: Layer<D>, ghost live: set<object>) returns (next: Layer?<D>)
    requires l in live
    ensures next == l.next
  {
    next := l.next;
  }

  /** What is released of one neuron. */
  method FreeNeuro<D>(neuro: Neuro<D>, hasNext: bool, hasPrevious: bool, ghost live: set<object>)
    returns (ghost live': set<object>)
    requires (hasNext || neuro.fpNp == null) && (hasPrevious || neuro.bpNp == null)
    requires neuro.fpNp != null && neuro.bpNp != null ==> neuro.fpNp != neuro.bpNp
    requires NeuroBlocks(neuro) <= live
    ensures live' == live - NeuroBlocks(neuro)
  {
    live' := live;
    if hasNext { live' := Free(neuro.fpNp, live'); }
    if hasPrevious { live' := Free(neuro.bpNp, live'); }
    live' := Free(neuro, live');
  }

  /** One round of the loop of free_layer, for neuron `m`. */
  method FreeNextNeuro<D>(l: Layer<D>, neuro: Neuro<D>, ghost m: nat, ghost k: nat, ghost psize: nat,
                          ghost nsize: nat, ghost all: set<object>, ghost live: set<object>)
    returns (neuro2: Neuro?<D>, ghost live': set<object>)
    requires NeurosOk(l.neuros, k, psize, nsize) && LayerThreaded(l) && m < |l.neuros| && neuro == l.neuros[m]
    requires (l.next == null ==> nsize == 0) && (l.previous == null ==> psize == 0)
    requires Blocks(l.neuros) <= all && live == all - Blocks(l.neuros[..m])
    ensures neuro2 == (if m + 1 < |l.neuros| then l.neuros[m + 1] else null)
    ensures live' == all - Blocks(l.neuros[..m + 1])
  {
    NextIsNew(l.neuros, m, k, psize, nsize);
    assert NeuroOk(neuro, k, m, psize, nsize) && NeuroThread(l.neuros, m);
    BlocksTake(l.neuros, m);
    neuro2 := NextNeuro(neuro, live);
    live' := FreeNeuro(neuro, l.next != null, l.previous != null, live);
  }

  lemma LayerIsNoBlock<D>(l: Layer<D>, k: nat, psize: nat, nsize: nat)
    requires NeurosOk(l.neuros, k, psize, nsize)
    ensures l !in Blocks(l.neuros)
  {
    BlocksHaveTheirPos(l.neuros, |l.neuros|, k, psize, nsize);
    assert l.neuros[..|l.neuros|] == l.neuros;
  }

  /** free_layer: the list is followed to its end. The neurons of the first layer have no backward vectors, those of
    * the last no forward ones. */
  method FreeLayer<D>(l: Layer<D>, ghost k: nat, ghost psize: nat, ghost nsize: nat, ghost live: set<object>)
    returns (ghost live': set<object>)
    requires NeurosOk(l.neuros, k, psize, nsize) && LayerThreaded(l)
    requires (l.next == null ==> nsize == 0) && (l.previous == null ==> psize == 0)
    requires LayerBlocks(l) <= live
    ensures live' == live - LayerBlocks(l)
  {
    live' := live;
    ghost var counter := 0;
    var neuro := l.first;
    while neuro != null
      invariant 0 <= counter <= |l.neuros|
      invariant neuro == if counter < |l.neuros| then l.neuros[counter] else null
      invariant live' == live - Blocks(l.neuros[..counter])
      decreases |l.neuros| - counter
    {
      neuro, live' := FreeNextNeuro(l, neuro, counter, k, psize, nsize, live, live');
      counter := counter + 1;
    }
    assert l.neuros[..counter] == l.neuros;
    LayerIsNoBlock(l, k, psize, nsize);
    live' := Free(l, live');
  }

  lemma NetBlocksHaveTheirLayer<D>(ls: seq<Layer<D>>, p: seq<nat>, m: nat)
    requires Shape(ls, p) && m <= |ls|
    ensures forall l: Layer<D> | l in NetBlocks(ls[..m]) :: l.layerNo < m
    ensures forall n: Neuro<D> | n in NetBlocks(ls[..m]) :: n.layerNo < m
    ensures forall b: LinkBlock<D> | b in NetBlocks(ls[..m]) :: b.id.layerNo < m
    ensures forall nn: NN<D> :: nn !in NetBlocks(ls[..m])
  {
    if m > 0 {
      NetBlocksHaveTheirLayer(ls, p, m - 1);
      assert ls[..m][..m - 1] == ls[..m - 1];
      var ns := ls[m - 1].neuros;
      assert ns[..|ns|] == ns;
      BlocksHaveTheirPos(ns, |ns|, m - 1, At(p, m - 2), At(p, m));
    }
  }

  lemma NetBlocksTake<D>(ls: seq<Layer<D>>, m: nat)
    requires m < |ls|
    ensures NetBlocks(ls[..m + 1]) == NetBlocks(ls[..m]) + LayerBlocks(ls[m])
  {
    assert ls[..m + 1] == ls[..m] + [ls[m]];
    NetBlocksGrow(ls[..m], ls[m]);
  }

  lemma NetBlocksMonotone<D>(ls: seq<Layer<D>>, m: nat)
    requires m <= |ls|
    ensures NetBlocks(ls[..m]) <= NetBlocks(ls)
    decreases |ls| - m
  {
    if m < |ls| {
      NetBlocksTake(ls, m);
      NetBlocksMonotone(ls, m + 1);
    } else {
      assert ls[..m] == ls;
    }
  }

  /** A block of the neurons of a layer is a neuron or a link vector. */
  lemma BlocksAreNeuronsOrVectors<D>(ns: seq<Neuro<D>>, o: object)
    requires o in Blocks(ns)
    ensures o is Neuro<D> || o is LinkBlock<D>
  {
    if o !in NeuroBlocks(ns[|ns| - 1]) { BlocksAreNeuronsOrVectors(ns[..|ns| - 1], o); }
  }

  lemma NextLayerIsNew<D>(ls: seq<Layer<D>>, p: seq<nat>, m: nat)
    requires Shape(ls, p) && m < |ls|
    ensures LayerBlocks(ls[m]) !! NetBlocks(ls[..m]) && LayerBlocks(ls[m]) <= NetBlocks(ls)
  {
    NetBlocksHaveTheirLayer(ls, p, m);
    var ns := ls[m].neuros;
    assert ns[..|ns|] == ns;
    BlocksHaveTheirPos(ns, |ns|, m, At(p, m - 1), At(p, m + 1));
    forall o | o in Blocks(ns) ensures o !in NetBlocks(ls[..m]) {
      BlocksAreNeuronsOrVectors(ns, o);
    }
    NetBlocksTake(ls, m);
    NetBlocksMonotone(ls, m + 1);
  }

  /** One round of the loop of free_nn, for layer `m`. */
  method FreeNext<D>(nn: NN<D>, layer: Layer<D>, ghost m: nat, ghost all: set<object>, ghost live: set<object>)
    returns (nLayer: Layer?<D>, ghost live': set<object>)
    requires nn.Valid() && nn.Threaded() && m < |nn.layers| && layer == nn.layers[m]
    requires NetBlocks(nn.layers) <= all && live == all - NetBlocks(nn.layers[..m])
    ensures nLayer == (if m + 1 < |nn.layers| then nn.layers[m + 1] else null)
    ensures live' == all - NetBlocks(nn.layers[..m + 1])
  {
    ghost var p, ls := nn.sizes, nn.layers;
    NextLayerIsNew(ls, p, m);
    NetBlocksTake(ls, m);
    assert NextOk(ls, m) && BackUpTo(ls, |ls|, m) && LayerThreaded(ls[m]);
    nLayer := NextLayer(layer, live);
    live' := FreeLayer(layer, m, At(p, m - 1), At(p, m + 1), live);
  }

  /** free_nn: every block of the network is live before it is released, and all are released; no block is read after
    * its release. */
  method FreeNN<D>(nn: NN<D>, ghost live: set<object>) returns (ghost live': set<object>)
    requires nn.Valid() && nn.Threaded() && {nn} + NetBlocks(nn.layers) <= live
    ensures live' == live - {nn} - NetBlocks(nn.layers)
  {
    live' := live;
    ghost var ls, m := nn.layers, 0;
    var layer, size := nn.first, |nn.layers|;
    while size != 0
      invariant 0 <= size <= |ls| && m == |ls| - size && layer == if m < |ls| then ls[m] else null
      invariant live' == live - NetBlocks(ls[..m])
      decreases size
    {
      layer, live' := FreeNext(nn, layer, m, live, live');
      size, m := size - 1, m + 1;
    }
    assert ls[..m] == ls;
    NetBlocksHaveTheirLayer(ls, nn.sizes, m);
    live' := Free(nn, live');
  }

  /** A network created and then released leaves the allocator as it was. */
  method CreateThenFree<D>(size: nat, pn: seq<nat>, zero: D, ghost live: set<object>)
    returns (ghost live': set<object>)
    requires |pn| == size
    ensures live' == live
  {
    var r: Result<NN<D>, CreateError>;
    r, live' := CreateNN(size, pn, zero, live);
    if r.Ok? { live' := FreeNN(r.value, live'); }
  }

  // ---- going by position is following the lists ----

  /** The neuron that `m` steps along the list lead to. */
  ghost function Steps<D>(n: Neuro?<D>, m: nat): Neuro?<D>
    reads *
    decreases m
  {
    if m == 0 || n == null then n else Steps(n.next, m - 1)
  }

  lemma {:induction false} StepsReach<D>(ns: seq<Neuro<D>>, i: nat, m: nat)
    requires Chained(ns) && i < |ns|
    ensures Steps(ns[i], m) == if i + m < |ns| then ns[i + m] else null
    decreases m
  {
    assert NeuroThread(ns, i);
    if m > 0 && i + 1 < |ns| { StepsReach(ns, i + 1, m - 1); }
  }

  /** `m` steps from the first neuron of a layer lead to neuron `m`, and out of the list behind the last. */
  lemma NeuronsByList<D>(l: Layer<D>, m: nat)
    requires LayerThreaded(l)
    ensures Steps(l.first, m) == if m < |l.neuros| then l.neuros[m] else null
  {
    if l.neuros != [] { StepsReach(l.neuros, 0, m); }
  }

  /** The layer that `m` steps along the list lead to. */
  ghost function LayerSteps<D>(l: Layer?<D>, m: nat): Layer?<D>
    reads *
    decreases m
  {
    if m == 0 || l == null then l else LayerSteps(l.next, m - 1)
  }

  lemma {:induction false} LayerStepsReach<D>(ls: seq<Layer<D>>, k: nat, m: nat)
    requires Listed(ls, |ls|) && k < |ls|
    ensures LayerSteps(ls[k], m) == if k + m < |ls| then ls[k + m] else null
    decreases m
  {
    assert NextOk(ls, k);
    if m > 0 && k + 1 < |ls| { LayerStepsReach(ls, k + 1, m - 1); }
  }

  /** The same for the layers of a network, whose list leads back as well. */
  lemma LayersByList<D>(nn: NN<D>, m: nat)
    requires nn.Threaded()
    ensures LayerSteps(nn.first, m) == if m < |nn.layers| then nn.layers[m] else null
    ensures 0 < m < |nn.layers| ==> nn.layers[m].previous == nn.layers[m - 1]
  {
    LayerStepsReach(nn.layers, 0, m);
    if m < |nn.layers| { assert BackUpTo(nn.layers, |nn.layers|, m); }
  }
}
