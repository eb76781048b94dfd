/** fire_nn, first half, up to one round over the layers. A double is a real number here; the activation is a
  * parameter. */
module Fire {
  import opened Graph

  type Row = seq<real>

  /** What the first `m` neurons of a layer send to neuron `j` of the next: their outputs `o`, weighted by `w`. */
  function Dot(w: seq<Row>, o: Row, j: nat, m: nat): real
    requires m <= |w| && m <= |o| && forall i | 0 <= i < |w| :: j < |w[i]|
  {
    if m == 0 then 0.0 else Dot(w, o, j, m - 1) + w[m - 1][j] * o[m - 1]
  }

  // ---- what a network in memory shows ----

  ghost predicate Outputs(ns: seq<Neuro<real>>, o: Row)
    reads ns`output
  {
    |o| == |ns| && forall i {:trigger ns[i]} | 0 <= i < |ns| :: ns[i].output == o[i]
  }

  ghost predicate States(ns: seq<Neuro<real>>, s: Row)
    reads ns`state
  {
    |s| == |ns| && forall i {:trigger ns[i]} | 0 <= i < |ns| :: ns[i].state == s[i]
  }

  ghost predicate Errors(ns: seq<Neuro<real>>, e: Row)
    reads ns`error
  {
    |e| == |ns| && forall i {:trigger ns[i]} | 0 <= i < |ns| :: ns[i].error == e[i]
  }

  ghost predicate Weights(b: LinkBlock?<real>, w: Row)
    reads b
  {
    |w| == |LinksOf(b)| && forall j | 0 <= j < |w| :: LinksOf(b)[j].weight == w[j]
  }

  ghost predicate WeightRows(ns: seq<Neuro<real>>, w: seq<Row>)
    reads *
  {
    |w| == |ns| && forall i {:trigger ns[i]} | 0 <= i < |ns| :: Weights(ns[i].fpNp, w[i])
  }

  ghost predicate Apart(ns: seq<Neuro<real>>) {
    forall i {:trigger ns[i]} | 0 <= i < |ns| :: ns[i].pos == i
  }

  // ---- the forward pass ----

  /** `s` with the weights `w`, times `x`, added place by place. */
  function AddScaled(s: Row, w: Row, x: real): (t: Row)
    requires |s| == |w|
    ensures |t| == |s| && forall j | 0 <= j < |s| :: t[j] == s[j] + w[j] * x
  {
    if s == [] then [] else AddScaled(s[..|s| - 1], w[..|s| - 1], x) + [s[|s| - 1] + w[|s| - 1] * x]
  }

  /** The loop over the links of one neuron: its output goes, weighted, to the states of the next layer. */
  method Send(n: Neuro<real>, targets: seq<Neuro<real>>, ghost w: Row, ghost s: Row)
    requires Reaches(n.fpNp, targets) && Weights(n.fpNp, w) && States(targets, s) && Apart(targets)
    modifies targets`state
    ensures States(targets, AddScaled(s, w, n.output))
  {
    ghost var t := AddScaled(s, w, n.output);
    var counter3 := 0;
    while counter3 != |targets|
      invariant 0 <= counter3 <= |targets|
      invariant forall j {:trigger targets[j]} | 0 <= j < |targets| ::
        targets[j].state == if j < counter3 then t[j] else s[j]
    {
      var cLink := n.fpNp.links[counter3];
      var target := cLink.linkedNeuro;
      assert target == targets[counter3] && cLink.weight == w[counter3];
      target.state := target.state + cLink.weight * n.output;
      counter3 := counter3 + 1;
    }
  }

  function Zeros(n: nat): (z: Row)
    ensures |z| == n && forall j | 0 <= j < n :: z[j] == 0.0
  {
    if n == 0 then [] else Zeros(n - 1) + [0.0]
  }

  /** The activation of every state. */
  function Activate(act: real -> real, s: Row): (o: Row)
    ensures |o| == |s| && forall j | 0 <= j < |s| :: o[j] == act(s[j])
  {
    if s == [] then [] else Activate(act, s[..|s| - 1]) + [act(s[|s| - 1])]
  }

  /** The rows of `w` are as long as the layer behind them. */
  ghost predicate Fitting(w: seq<Row>, m: nat, n: nat) {
    |w| == m && forall i | 0 <= i < m :: |w[i]| == n
  }

  /** The states of a layer after the first `m` neurons before it have sent their outputs `o`. */
  function Accum(s: Row, w: seq<Row>, o: Row, m: nat): (t: Row)
    requires Fitting(w, |o|, |s|) && m <= |o|
    ensures |t| == |s|
  {
    if m == 0 then s else AddScaled(Accum(s, w, o, m - 1), w[m - 1], o[m - 1])
  }

  /** The outputs and states of layer `k` once fire_nn has passed it; the first layer keeps its own. */
  function OutRow(act: real -> real, k: nat, s: Row, o: Row): (r: Row)
    requires |s| == |o|
    ensures |r| == |s|
  {
    if k == 0 then o else Activate(act, s)
  }

  function StateRow(k: nat, s: Row): (r: Row)
    ensures |r| == |s|
  {
    if k == 0 then s else Zeros(|s|)
  }

  /** The first `m` neurons of layer `k` have fired. */
  ghost predicate Fired(ns: seq<Neuro<real>>, m: nat, s: Row, o: Row, s': Row, o': Row)
    reads ns`state, ns`output
  {
    && |s| == |o| == |s'| == |o'| == |ns|
    && forall i {:trigger ns[i]} | 0 <= i < |ns| ::
         && ns[i].state == (if i < m then s'[i] else s[i])
         && ns[i].output == (if i < m then o'[i] else o[i])
  }

  /** One neuron: it sends its output, and only then computes the next one from its state. */
  method FireNeuro(n: Neuro<real>, targets: seq<Neuro<real>>, k: nat, act: real -> real,
                   ghost t: Row, ghost w: Row)
    requires Apart(targets) && n !in targets
    requires Reaches(n.fpNp, targets) && Weights(n.fpNp, w) && States(targets, t)
    modifies n`state, n`output, targets`state
    ensures States(targets, AddScaled(t, w, old(n.output)))
    ensures k == 0 ==> n.state == old(n.state) && n.output == old(n.output)
    ensures k != 0 ==> n.state == 0.0 && n.output == act(old(n.state))
  {
    Send(n, targets, w, t);
    if k != 0 {
      n.output := act(n.state);
      n.state := 0.0;
    }
  }

  /** One round over the neurons of a layer. */
  method FireNext(ns: seq<Neuro<real>>, i: nat, targets: seq<Neuro<real>>, k: nat, act: real -> real,
                  ghost s: Row, ghost o: Row, ghost t: Row, ghost w: Row)
    requires i < |ns| == |s| == |o| && Apart(ns) && Apart(targets) && (forall j | 0 <= j < |ns| :: ns[j] !in targets)
    requires Reaches(ns[i].fpNp, targets) && Weights(ns[i].fpNp, w) && States(targets, t)
    requires Fired(ns, i, s, o, StateRow(k, s), OutRow(act, k, s, o))
    modifies {ns[i]}`state, {ns[i]}`output, targets`state
    ensures Fired(ns, i + 1, s, o, StateRow(k, s), OutRow(act, k, s, o))
    ensures States(targets, AddScaled(t, w, o[i]))
  {
    FireNeuro(ns[i], targets, k, act, t, w);
  }

  /** The loop over the neurons of one layer. */
  method FireLayer(ns: seq<Neuro<real>>, targets: seq<Neuro<real>>, k: nat, act: real -> real,
                   ghost s: Row, ghost o: Row, ghost t: Row, ghost w: seq<Row>)
    requires Apart(ns) && Apart(targets) && (forall j | 0 <= j < |ns| :: ns[j] !in targets)
    requires WeightRows(ns, w) && Fitting(w, |ns|, |targets|)
    requires forall i | 0 <= i < |ns| :: Reaches(ns[i].fpNp, targets)
    requires States(ns, s) && Outputs(ns, o) && States(targets, t)
    modifies ns`state, ns`output, targets`state
    ensures States(ns, StateRow(k, s)) && Outputs(ns, OutRow(act, k, s, o))
    ensures States(targets, Accum(t, w, o, |ns|))
  {
    ghost var s', o' := StateRow(k, s), OutRow(act, k, s, o);
    var counter2 := 0;
    while counter2 != |ns|
      invariant 0 <= counter2 <= |ns|
      invariant Fired(ns, counter2, s, o, s', o')
      invariant States(targets, Accum(t, w, o, counter2))
    {
      FireNext(ns, counter2, targets, k, act, s, o, Accum(t, w, o, counter2), w[counter2]);
      counter2 := counter2 + 1;
    }
  }

  // ---- the loop over the layers ----

  /** The numbers of a network: states, outputs and forward weights, layer by layer. */
  datatype Values = Values(s: seq<Row>, o: seq<Row>, w: seq<seq<Row>>)

  ghost predicate Consistent(p: seq<nat>, v: Values) {
    && |v.s| == |v.o| == |v.w| == |p|
    && forall k {:trigger v.s[k]} {:trigger v.o[k]} {:trigger v.w[k]} | 0 <= k < |p| ::
         |v.s[k]| == |v.o[k]| == p[k] && Fitting(v.w[k], p[k], At(p, k + 1))
  }

  /** The states of layer `k` when the loop reaches it: the layer before has sent its outputs of the last call. */
  function Fed(p: seq<nat>, v: Values, k: nat): (s: Row)
    requires Consistent(p, v) && k < |p|
    ensures |s| == p[k]
  {
    if k == 0 then v.s[0] else
      assert |v.o[k - 1]| == p[k - 1] && At(p, k) == p[k];
      Accum(v.s[k], v.w[k - 1], v.o[k - 1], p[k - 1])
  }

  /** States and outputs of layer `j` when the loop has done the first `c` layers. */
  function StateNow(p: seq<nat>, v: Values, j: nat, c: nat): (s: Row)
    requires Consistent(p, v) && j < |p|
    ensures |s| == p[j]
  {
    if j < c then StateRow(j, Fed(p, v, j)) else if j == c then Fed(p, v, j) else v.s[j]
  }

  function OutNow(p: seq<nat>, v: Values, act: real -> real, j: nat, c: nat): (o: Row)
    requires Consistent(p, v) && j < |p|
    ensures |o| == p[j]
  {
    if j < c then OutRow(act, j, Fed(p, v, j), v.o[j]) else v.o[j]
  }

  ghost predicate NetWeights(ls: seq<Layer<real>>, w: seq<seq<Row>>)
    reads *
  {
    |w| == |ls| && forall k {:trigger ls[k]} | 0 <= k < |ls| :: WeightRows(ls[k].neuros, w[k])
  }

  /** The neurons behind layer `k`, none behind the last. */
  function Behind<D>(ls: seq<Layer<D>>, k: nat): seq<Neuro<D>> {
    if k + 1 < |ls| then ls[k + 1].neuros else []
  }

  lemma NeuronsKnowTheirPlace<D>(ls: seq<Layer<D>>, p: seq<nat>, k: nat)
    requires Shape(ls, p) && k < |ls|
    ensures forall i {:trigger ls[k].neuros[i]} | 0 <= i < |ls[k].neuros| ::
      ls[k].neuros[i].pos == i && ls[k].neuros[i].layerNo == k
  {
    forall i | 0 <= i < |ls[k].neuros| ensures ls[k].neuros[i].pos == i && ls[k].neuros[i].layerNo == k {
      assert NeuroOk(ls[k].neuros[i], k, i, At(p, k - 1), At(p, k + 1));
    }
  }

  /** The forward links of layer `k` reach the neurons behind it. */
  lemma LinksReachBehind(ls: seq<Layer<real>>, p: seq<nat>, k: nat, i: nat)
    requires Shape(ls, p) && |p| == |ls| && Wired(ls) && k < |ls| && i < |ls[k].neuros|
    ensures Reaches(ls[k].neuros[i].fpNp, Behind(ls, k))
  {
    if k + 1 < |ls| {
      assert PairWired(ls, k);
    } else {
      assert NeuroOk(ls[k].neuros[i], k, i, At(p, k - 1), At(p, k + 1));
    }
  }

  /** The states the loop finds behind layer `c`. */
  function Waiting(v: Values, c: nat): Row {
    if c + 1 < |v.s| then v.s[c + 1] else []
  }

  /** A wired network of the widths `p` with the weights of `v`. */
  ghost predicate Carries(ls: seq<Layer<real>>, p: seq<nat>, v: Values)
    reads *
  {
    Shape(ls, p) && |p| == |ls| && Wired(ls) && Consistent(p, v) && NetWeights(ls, v.w)
  }

  /** The loop has come to layer `c`, */
  ghost predicate Arrived(ls: seq<Layer<real>>, c: nat, p: seq<nat>, v: Values)
    requires Consistent(p, v) && c < |ls| == |p|
    reads *
  {
    && States(ls[c].neuros, Fed(p, v, c)) && Outputs(ls[c].neuros, v.o[c])
    && States(Behind(ls, c), Waiting(v, c))
  }

  /** and has done it. */
  ghost predicate Gone(ls: seq<Layer<real>>, c: nat, act: real -> real, p: seq<nat>, v: Values)
    requires Consistent(p, v) && c < |ls| == |p|
    reads *
  {
    && States(ls[c].neuros, StateRow(c, Fed(p, v, c))) && Outputs(ls[c].neuros, OutRow(act, c, Fed(p, v, c), v.o[c]))
    && (assert Fitting(v.w[c], p[c], At(p, c + 1)) && |v.o[c]| == p[c];
        States(Behind(ls, c), Accum(Waiting(v, c), v.w[c], v.o[c], p[c])))
  }

  /** One round over the layers, at the layer and the one behind. */
  method FireAt(ls: seq<Layer<real>>, c: nat, act: real -> real, ghost p: seq<nat>, ghost v: Values)
    requires Carries(ls, p, v) && c < |ls| && Arrived(ls, c, p, v)
    modifies ls[c].neuros`state, ls[c].neuros`output, Behind(ls, c)`state
    ensures Gone(ls, c, act, p, v)
  {
    var ns, targets := ls[c].neuros, Behind(ls, c);
    NeuronsKnowTheirPlace(ls, p, c);
    if c + 1 < |ls| { NeuronsKnowTheirPlace(ls, p, c + 1); }
    forall i | 0 <= i < |ns| ensures Reaches(ns[i].fpNp, targets) { LinksReachBehind(ls, p, c, i); }
    assert WeightRows(ns, v.w[c]);
    FireLayer(ns, targets, c, act, Fed(p, v, c), v.o[c], Waiting(v, c), v.w[c]);
  }

  /** The links of some neurons are as they were. */
  twostate predicate LinksSame(ns: seq<Neuro<real>>)
    reads *
  {
    forall n | n in ns :: LinksOf(n.fpNp) == old(LinksOf(n.fpNp)) && LinksOf(n.bpNp) == old(LinksOf(n.bpNp))
  }

  /** Where no link is written the wiring and the weights stay. */
  twostate lemma WiringStays(ls: seq<Layer<real>>, new p: seq<nat>, new v: Values)
    requires old(Carries(ls, p, v)) && forall k | 0 <= k < |ls| :: LinksSame(ls[k].neuros)
    ensures Carries(ls, p, v)
  {
    forall k | 0 <= k < |ls| - 1 ensures PairWired(ls, k) {
      assert old(PairWired(ls, k)) && LinksSame(ls[k].neuros) && LinksSame(ls[k + 1].neuros);
    }
    forall k | 0 <= k < |ls| ensures WeightRows(ls[k].neuros, v.w[k]) {
      assert old(WeightRows(ls[k].neuros, v.w[k])) && LinksSame(ls[k].neuros);
    }
  }

  /** It writes no link, */
  method FireAtSame(ls: seq<Layer<real>>, c: nat, act: real -> real, ghost p: seq<nat>, ghost v: Values)
    requires Carries(ls, p, v) && c < |ls| && Arrived(ls, c, p, v)
    modifies ls[c].neuros`state, ls[c].neuros`output, Behind(ls, c)`state
    ensures Gone(ls, c, act, p, v)
    ensures forall k | 0 <= k < |ls| :: LinksSame(ls[k].neuros)
  {
    FireAt(ls, c, act, p, v);
  }

  /** and so keeps the wiring and the weights. */
  method FireAtKept(ls: seq<Layer<real>>, c: nat, act: real -> real, ghost p: seq<nat>, ghost v: Values)
    requires Carries(ls, p, v) && c < |ls| && Arrived(ls, c, p, v)
    modifies ls[c].neuros`state, ls[c].neuros`output, Behind(ls, c)`state
    ensures Gone(ls, c, act, p, v)
    ensures Carries(ls, p, v)
  {
    FireAtSame(ls, c, act, p, v);
    WiringStays(ls, p, v);
  }

  lemma NowBehind(p: seq<nat>, v: Values, act: real -> real, c: nat)
    requires Consistent(p, v) && c + 1 < |p|
    ensures StateNow(p, v, c + 1, c) == Waiting(v, c)
    ensures StateNow(p, v, c + 1, c + 1) == Accum(Waiting(v, c), v.w[c], v.o[c], p[c])
    ensures OutNow(p, v, act, c + 1, c) == OutNow(p, v, act, c + 1, c + 1)
  {
  }

  lemma NowElsewhere(p: seq<nat>, v: Values, act: real -> real, j: nat, c: nat)
    requires Consistent(p, v) && j < |p| && j != c && j != c + 1
    ensures StateNow(p, v, j, c) == StateNow(p, v, j, c + 1)
    ensures OutNow(p, v, act, j, c) == OutNow(p, v, act, j, c + 1)
  {
  }

  ghost predicate LayerNow(ls: seq<Layer<real>>, p: seq<nat>, v: Values, act: real -> real, j: nat, c: nat)
    requires Consistent(p, v) && j < |ls| == |p|
    reads *
  {
    States(ls[j].neuros, StateNow(p, v, j, c)) && Outputs(ls[j].neuros, OutNow(p, v, act, j, c))
  }

  /** The loop has done the first `c` layers. */
  ghost predicate Stage(ls: seq<Layer<real>>, p: seq<nat>, v: Values, act: real -> real, c: nat)
    requires Consistent(p, v) && |ls| == |p|
    reads *
  {
    forall j | 0 <= j < |ls| :: LayerNow(ls, p, v, act, j, c)
  }

  /** The numbers of some neurons are as they were. */
  twostate predicate NumbersSame(ns: seq<Neuro<real>>)
    reads *
  {
    forall n | n in ns :: n.state == old(n.state) && n.output == old(n.output)
  }

  lemma NowArrived(ls: seq<Layer<real>>, p: seq<nat>, v: Values, act: real -> real, c: nat)
    requires Consistent(p, v) && c < |ls| == |p| && Stage(ls, p, v, act, c)
    ensures Arrived(ls, c, p, v)
  {
    assert LayerNow(ls, p, v, act, c, c);
    if c + 1 < |ls| {
      assert LayerNow(ls, p, v, act, c + 1, c);
      NowBehind(p, v, act, c);
    }
  }

  lemma GoneNow(ls: seq<Layer<real>>, p: seq<nat>, v: Values, act: real -> real, c: nat, d: nat)
    requires Consistent(p, v) && c < |ls| == |p| && d == c + 1 && Gone(ls, c, act, p, v)
    requires d < |ls| ==> Outputs(ls[d].neuros, v.o[d])
    ensures LayerNow(ls, p, v, act, c, d) && (d < |ls| ==> LayerNow(ls, p, v, act, d, d))
  {
    if d < |ls| { NowBehind(p, v, act, c); }
  }

  /** The round leaves the outputs behind and the numbers of all other layers alone. */
  method FireAlone(ls: seq<Layer<real>>, c: nat, act: real -> real, ghost p: seq<nat>, ghost v: Values, ghost d: nat)
    requires Carries(ls, p, v) && c < |ls| && Arrived(ls, c, p, v)
    requires d == c + 1 && (d < |ls| ==> Outputs(ls[d].neuros, v.o[d]))
    modifies ls[c].neuros`state, ls[c].neuros`output, Behind(ls, c)`state
    ensures Gone(ls, c, act, p, v) && (d < |ls| ==> Outputs(ls[d].neuros, v.o[d]))
    ensures forall j | 0 <= j < |ls| && j != c && j != d :: NumbersSame(ls[j].neuros)
    ensures Carries(ls, p, v)
  {
    NeuronsKnowTheirPlace(ls, p, c);
    if d < |ls| { NeuronsKnowTheirPlace(ls, p, d); }
    FireAtKept(ls, c, act, p, v);
    forall j | 0 <= j < |ls| && j != c && j != d ensures NumbersSame(ls[j].neuros) {
      NeuronsKnowTheirPlace(ls, p, j);
    }
  }

  /** One round over the layers, in the network as a whole. */
  method FireStage(ls: seq<Layer<real>>, c: nat, act: real -> real, ghost p: seq<nat>, ghost v: Values,
                   ghost d: nat)
    requires Carries(ls, p, v) && c < |ls|
    requires d == c + 1 && Stage(ls, p, v, act, c)
    modifies ls[c].neuros`state, ls[c].neuros`output, Behind(ls, c)`state
    ensures Stage(ls, p, v, act, d) && Carries(ls, p, v)
  {
    NowArrived(ls, p, v, act, c);
    assert d < |ls| ==> LayerNow(ls, p, v, act, d, c);
    FireAlone(ls, c, act, p, v, d);
    GoneNow(ls, p, v, act, c, d);
    forall j | 0 <= j < |ls| ensures LayerNow(ls, p, v, act, j, d) {
      if j != c && j != d {
        NowElsewhere(p, v, act, j, c);
        assert old(LayerNow(ls, p, v, act, j, c)) && NumbersSame(ls[j].neuros);
      }
    }
  }
}
