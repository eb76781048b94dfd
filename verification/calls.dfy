/** fire_nn called again and again on a network in memory, as feed_from_file does it row by row. */
module Calls {
  import opened Graph
  import opened Fire
  import opened Forward
  import opened Settle
  import opened Backward
  import opened Network
  import opened Wrappers

  // ---- every network shows some numbers ----

  lemma {:induction false} RowsOf(ns: seq<Neuro<real>>) returns (s: Row, o: Row)
    ensures States(ns, s) && Outputs(ns, o)
  {
    s, o := [], [];
    for i := 0 to |ns|
      invariant States(ns[..i], s) && Outputs(ns[..i], o)
    {
      s, o := s + [ns[i].state], o + [ns[i].output];
    }
    assert ns[..|ns|] == ns;
  }

  lemma {:induction false} WeightsOf(b: LinkBlock?<real>) returns (w: Row)
    ensures Weights(b, w)
  {
    w := [];
    for j := 0 to |LinksOf(b)|
      invariant |w| == j && forall i | 0 <= i < j :: LinksOf(b)[i].weight == w[i]
    {
      w := w + [LinksOf(b)[j].weight];
    }
  }

  lemma {:induction false} WeightRowsOf(ns: seq<Neuro<real>>) returns (w: seq<Row>)
    ensures WeightRows(ns, w)
  {
    w := [];
    for i := 0 to |ns|
      invariant WeightRows(ns[..i], w)
    {
      var row := WeightsOf(ns[i].fpNp);
      w := w + [row];
    }
    assert ns[..|ns|] == ns;
  }

  lemma {:induction false} NumbersOf(ls: seq<Layer<real>>) returns (v: Values)
    ensures |v.s| == |v.o| == |ls| && NetShows(ls, v) && NetWeights(ls, v.w)
  {
    var s: seq<Row>, o: seq<Row>, w: seq<seq<Row>> := [], [], [];
    for k := 0 to |ls|
      invariant |s| == |o| == |w| == k
      invariant forall i {:trigger ls[i]} | 0 <= i < k ::
        States(ls[i].neuros, s[i]) && Outputs(ls[i].neuros, o[i]) && WeightRows(ls[i].neuros, w[i])
    {
      var sk, ok := RowsOf(ls[k].neuros);
      var wk := WeightRowsOf(ls[k].neuros);
      s, o, w := s + [sk], o + [ok], w + [wk];
    }
    v := Values(s, o, w);
  }

  /** Every network that create_nn or load_nn gives shows some numbers, so fire_nn can be called on it. */
  lemma ReadyAtOnce(nn: NN<real>) returns (v: Values)
    requires nn.Valid()
    ensures Ready(nn.layers, nn.sizes, v)
  {
    v := NumbersOf(nn.layers);
    var ls, p := nn.layers, nn.sizes;
    forall k | 0 <= k < |p| ensures |v.s[k]| == |v.o[k]| == p[k] && Fitting(v.w[k], p[k], At(p, k + 1)) {
      var ns := ls[k].neuros;
      assert States(ns, v.s[k]) && Outputs(ns, v.o[k]) && WeightRows(ns, v.w[k]);
      forall i | 0 <= i < p[k] ensures |v.w[k][i]| == At(p, k + 1) {
        LinksReachBehind(ls, p, k, i);
        assert Weights(ns[i].fpNp, v.w[k][i]);
      }
    }
  }

  // ---- the loop of feed_from_file ----

  /** A row of the file: numbers for the first layer, and those expected of the last. */
  datatype Sample = Sample(input: seq<real>, expected: seq<real>)

  /** What the calls give out are the outputs of the last layer, call by call. */
  ghost predicate Given(p: seq<nat>, act: real -> real, r: seq<Values>, outputs: seq<seq<real>>)
    requires 0 < |p|
  {
    Run(p, act, r) && |r| == |outputs| + 1 && forall i | 0 <= i < |outputs| :: Gives(p, r[i + 1], outputs[i])
  }

  ghost predicate Gives(p: seq<nat>, v: Values, output: seq<real>)
    requires 0 < |p|
  {
    |v.o| == |p| && output == v.o[|p| - 1]
  }

  /** The errors are those of an answer `v` where `e` is expected. */
  ghost predicate ErrorsOf(nn: NN<real>, v: Values, e: Row)
    requires 0 < |nn.sizes| == |nn.layers| && Consistent(nn.sizes, v) && |e| == nn.sizes[|nn.sizes| - 1]
    reads *
  {
    var p := nn.sizes;
    nn.error == HalfSquares(v.o[|p| - 1], e, p[|p| - 1]) && ErrorsFrom(nn.layers, 0, p, v, nn.gain, e)
  }

  ghost predicate RowsFit(p: seq<nat>, rows: seq<Sample>) {
    0 < |p| && forall i | 0 <= i < |rows| :: |rows[i].expected| == p[|p| - 1]
  }

  /** As many rows have been fed as there are `outputs`: the numbers have gone through the run `r`, and the errors are
    * those of the last answer. */
  ghost predicate FedSoFar(nn: NN<real>, act: real -> real, rows: seq<Sample>, r: seq<Values>, outputs: seq<seq<real>>)
    requires RowsFit(nn.sizes, rows)
    reads *
  {
    var m := |outputs|;
    && m <= |rows| && |nn.layers| == |nn.sizes| && Given(nn.sizes, act, r, outputs)
    && Ready(nn.layers, nn.sizes, r[m]) && (m > 0 ==> ErrorsOf(nn, r[m], rows[m - 1].expected))
  }

  /** One row. */
  method FeedRow(nn: NN<real>, exp: real -> real, row: Sample, ghost u: Values)
    returns (output: seq<real>, ghost v: Values)
    requires forall y :: exp(y) > 0.0
    requires nn.Valid() && Ready(nn.layers, nn.sizes, u) && |row.expected| == nn.sizes[|nn.sizes| - 1]
    modifies nn`error, NetNeuros(nn.layers)`state, NetNeuros(nn.layers)`output, NetNeuros(nn.layers)`error
    ensures nn.Valid() && Ready(nn.layers, nn.sizes, v) && IsNext(nn.sizes, u, Activation(exp, nn.gain), v)
    ensures Gives(nn.sizes, v, output) && ErrorsOf(nn, v, row.expected)
  {
    output := FireNN(nn, exp, row.input, Some(row.expected), u);
    v := Next(nn.sizes, u, Activation(exp, nn.gain));
    NextIsNext(nn.sizes, u, Activation(exp, nn.gain));
  }

  /** The run goes on, and so does what is given out. */
  lemma GivenGoesOn(p: seq<nat>, act: real -> real, r: seq<Values>, outputs: seq<seq<real>>, v: Values,
                    output: seq<real>)
    requires |p| > 0 && Given(p, act, r, outputs)
    requires Consistent(p, v) && IsNext(p, r[|outputs|], act, v) && Gives(p, v, output)
    ensures Given(p, act, r + [v], outputs + [output])
  {
    RunGoesOn(p, act, r, v);
    var q, given := r + [v], outputs + [output];
    forall i | 0 <= i < |given| ensures Gives(p, q[i + 1], given[i]) {
      if i < |outputs| { assert Gives(p, r[i + 1], outputs[i]); }
    }
  }

  method FeedNext(nn: NN<real>, exp: real -> real, rows: seq<Sample>, outputs: seq<seq<real>>, ghost r: seq<Values>)
    returns (output: seq<real>, ghost v: Values)
    requires forall y :: exp(y) > 0.0
    requires nn.Valid() && RowsFit(nn.sizes, rows)
    requires FedSoFar(nn, Activation(exp, nn.gain), rows, r, outputs) && |outputs| < |rows|
    modifies nn`error, NetNeuros(nn.layers)`state, NetNeuros(nn.layers)`output, NetNeuros(nn.layers)`error
    ensures nn.Valid() && FedSoFar(nn, Activation(exp, nn.gain), rows, r + [v], outputs + [output])
  {
    output, v := FeedRow(nn, exp, rows[|outputs|], r[|outputs|]);
    GivenGoesOn(nn.sizes, Activation(exp, nn.gain), r, outputs, v, output);
  }

  /** The loop over the rows; `outputs` are what the callback is given. */
  method FeedRows(nn: NN<real>, exp: real -> real, rows: seq<Sample>, ghost v: Values)
    returns (outputs: seq<seq<real>>, ghost r: seq<Values>)
    requires forall y :: exp(y) > 0.0
    requires nn.Valid() && Ready(nn.layers, nn.sizes, v) && RowsFit(nn.sizes, rows)
    modifies nn`error, NetNeuros(nn.layers)`state, NetNeuros(nn.layers)`output, NetNeuros(nn.layers)`error
    ensures nn.Valid() && |outputs| == |rows| && |r| == |rows| + 1 && r[0] == v
    ensures FedSoFar(nn, Activation(exp, nn.gain), rows, r, outputs)
  {
    outputs, r := [], [v];
    while |outputs| != |rows|
      invariant nn.Valid() && |r| > 0 && r[0] == v && FedSoFar(nn, Activation(exp, nn.gain), rows, r, outputs)
      decreases |rows| - |outputs|
    {
      var output; ghost var next;
      output, next := FeedNext(nn, exp, rows, outputs, r);
      outputs, r := outputs + [output], r + [next];
    }
  }

  /** What the callback is given does not depend on the rows: from the row on whose number is the number of layers, or
    * one row earlier from zero states, it is the formula applied to what the first layer showed before the loop. */
  lemma RowsDoNotMatter(p: seq<nat>, act: real -> real, r: seq<Values>, outputs: seq<seq<real>>, i: nat, j: nat)
    requires |p| > 0 && Given(p, act, r, outputs)
    requires i < |outputs| && j < p[|p| - 1] && (|p| <= i + 1 || (|p| == i + 2 && Quiet(p, r[0])))
    ensures WeightsFit(p, r[0].w) && |r[0].o[0]| == p[0] && |outputs[i]| == p[|p| - 1]
    ensures outputs[i][j] == Eval(p, r[0].w, act, r[0].o[0], |p| - 1, j)
  {
    assert Gives(p, r[i + 1], outputs[i]);
    LastLayerSettles(p, act, r, i + 1, j);
  }
}
