/** What the network computes over several calls of fire_nn, against the evaluation of a network without memory. */
module Settle {
  import opened Graph
  import opened Fire
  import opened Forward

  ghost predicate WeightsFit(p: seq<nat>, w: seq<seq<Row>>) {
    |w| == |p| && forall i {:trigger w[i]} | 0 <= i < |p| :: Fitting(w[i], p[i], At(p, i + 1))
  }

  /** The output of neuron `j` of layer `k` when the first layer shows `x`: the network as a formula. */
  function Eval(p: seq<nat>, w: seq<seq<Row>>, act: real -> real, x: Row, k: nat, j: nat): real
    requires WeightsFit(p, w)
    requires k < |p| && j < p[k] && |x| == p[0]
    decreases k, 0
  {
    if k == 0 then x[j] else act(Sum(p, w, act, x, k, j, p[k - 1]))
  }

  /** The weighted sum of the first `m` neurons of the layer before. */
  function Sum(p: seq<nat>, w: seq<seq<Row>>, act: real -> real, x: Row, k: nat, j: nat, m: nat): real
    requires WeightsFit(p, w)
    requires 0 < k < |p| && j < p[k] && |x| == p[0] && m <= p[k - 1]
    decreases k - 1, m + 1
  {
    if m == 0 then 0.0 else
      Sum(p, w, act, x, k, j, m - 1) + w[k - 1][m - 1][j] * Eval(p, w, act, x, k - 1, m - 1)
  }

  /** Sending neuron by neuron adds up to the weighted sum, place by place. */
  lemma {:induction false} AccumIsDot(s: Row, w: seq<Row>, o: Row, m: nat, j: nat)
    requires Fitting(w, |o|, |s|) && m <= |o| && j < |s|
    ensures Accum(s, w, o, m)[j] == s[j] + Dot(w, o, j, m)
  {
    if m > 0 { AccumIsDot(s, w, o, m - 1, j); }
  }

  /** Nothing is waiting in the state of any neuron behind the first layer. */
  ghost predicate Quiet(p: seq<nat>, v: Values)
    requires Consistent(p, v)
  {
    forall k {:trigger v.s[k]} | 0 < k < |p| :: v.s[k] == Zeros(p[k])
  }

  /** One call from any states leaves nothing waiting, and the first layer alone. */
  lemma QuietAgain(p: seq<nat>, v: Values, act: real -> real, r: Values)
    requires Consistent(p, v) && Consistent(p, r) && IsNext(p, v, act, r)
    ensures Quiet(p, r)
    ensures |p| > 0 ==> r.o[0] == v.o[0] && r.s[0] == v.s[0]
  {
    forall k | 0 < k < |p| ensures r.s[k] == Zeros(p[k]) { assert LayerNext(p, v, act, r, k); }
    if |p| > 0 { assert LayerNext(p, v, act, r, 0); }
  }

  lemma OneOutput(p: seq<nat>, v: Values, act: real -> real, k: nat, j: nat)
    requires Consistent(p, v) && 0 < k < |p| && j < p[k]
    ensures |v.s[k]| == p[k] && |v.o[k - 1]| == p[k - 1] && Fitting(v.w[k - 1], p[k - 1], p[k])
    ensures NextOutput(p, v, act, k)[j] == act(v.s[k][j] + Dot(v.w[k - 1], v.o[k - 1], j, p[k - 1]))
  {
    assert |v.s[k]| == p[k] && |v.o[k - 1]| == p[k - 1];
    assert Fitting(v.w[k - 1], p[k - 1], At(p, k));
    AccumIsDot(v.s[k], v.w[k - 1], v.o[k - 1], p[k - 1], j);
  }

  /** One call from any states: every neuron behind the first layer computes its output from its state and the outputs
    * that the layer before had before the call. */
  lemma OneCall(p: seq<nat>, v: Values, act: real -> real, r: Values, k: nat, j: nat)
    requires Consistent(p, v) && Consistent(p, r) && IsNext(p, v, act, r)
    requires 0 < k < |p| && j < p[k]
    ensures |v.s[k]| == p[k] == |r.o[k]| && |v.o[k - 1]| == p[k - 1] && Fitting(v.w[k - 1], p[k - 1], p[k])
    ensures r.o[k][j] == act(v.s[k][j] + Dot(v.w[k - 1], v.o[k - 1], j, p[k - 1]))
  {
    OneOutput(p, v, act, k, j);
    assert LayerNext(p, v, act, r, k);
  }

  /** An activation that tells any two sums apart. */
  ghost predicate Injective(act: real -> real) {
    forall x, y :: act(x) == act(y) ==> x == y
  }

  /** So one call gives a neuron its value of the formula just if its sum was that of the formula before. */
  lemma OneCallShowsIff(p: seq<nat>, v: Values, act: real -> real, r: Values, k: nat, j: nat)
    requires Consistent(p, v) && Consistent(p, r) && IsNext(p, v, act, r) && Injective(act)
    requires 0 < k < |p| && j < p[k]
    ensures WeightsFit(p, v.w) && |v.o[0]| == p[0]
    ensures |v.s[k]| == p[k] == |r.o[k]| && |v.o[k - 1]| == p[k - 1] && Fitting(v.w[k - 1], p[k - 1], p[k])
    ensures r.o[k][j] == Eval(p, v.w, act, v.o[0], k, j) <==>
      v.s[k][j] + Dot(v.w[k - 1], v.o[k - 1], j, p[k - 1]) == Sum(p, v.w, act, v.o[0], k, j, p[k - 1])
  {
    OneCall(p, v, act, r, k, j);
    assert |v.o[0]| == p[0];
  }

  /** Once the layer before shows its values, its weighted sum is the sum of the formula. */
  lemma {:induction false} DotIsSum(p: seq<nat>, w: seq<seq<Row>>, act: real -> real, x: Row, o: Row, k: nat, j: nat,
                                    m: nat)
    requires WeightsFit(p, w)
    requires 0 < k < |p| && j < p[k] && |x| == p[0] && m <= p[k - 1] == |o|
    requires forall i | 0 <= i < p[k - 1] :: o[i] == Eval(p, w, act, x, k - 1, i)
    ensures Fitting(w[k - 1], p[k - 1], p[k]) && Dot(w[k - 1], o, j, m) == Sum(p, w, act, x, k, j, m)
  {
    assert Fitting(w[k - 1], p[k - 1], At(p, k));
    if m > 0 { DotIsSum(p, w, act, x, o, k, j, m - 1); }
  }

  /** Layer `k` shows the values of the formula. */
  ghost predicate Settled(p: seq<nat>, v: Values, act: real -> real, x: Row, k: nat)
    requires Consistent(p, v) && k < |p| && |x| == p[0]
  {
    WeightsFit(p, v.w) && |v.o[k]| == p[k] && forall j | 0 <= j < p[k] :: v.o[k][j] == Eval(p, v.w, act, x, k, j)
  }

  /** One call settles one more layer. */
  lemma OneMore(p: seq<nat>, u: Values, act: real -> real, v: Values, x: Row, k: nat)
    requires Consistent(p, u) && Quiet(p, u) && Consistent(p, v) && IsNext(p, u, act, v)
    requires 0 < k < |p| && |x| == p[0] && Settled(p, u, act, x, k - 1)
    ensures Settled(p, v, act, x, k)
  {
    assert |v.o[k]| == p[k] && u.s[k] == Zeros(p[k]);
    forall j | 0 <= j < p[k] ensures v.o[k][j] == Eval(p, u.w, act, x, k, j) {
      OneCall(p, u, act, v, k, j);
      DotIsSum(p, u.w, act, x, u.o[k - 1], k, j, p[k - 1]);
    }
  }

  /** What a network shows before the first call, after it, after the second and so on. */
  ghost predicate Run(p: seq<nat>, act: real -> real, r: seq<Values>) {
    && |r| > 0 && (forall i | 0 <= i < |r| :: Consistent(p, r[i]))
    && (forall i | 0 <= i < |r| :: Follows(p, act, r, i))
  }

  ghost predicate Follows(p: seq<nat>, act: real -> real, r: seq<Values>, i: nat)
    requires i < |r| && forall i | 0 <= i < |r| :: Consistent(p, r[i])
  {
    i > 0 ==> IsNext(p, r[i - 1], act, r[i])
  }

  /** There is a run of every length from every start. */
  lemma {:induction false} RunExists(p: seq<nat>, act: real -> real, v: Values, t: nat)
    returns (r: seq<Values>)
    requires Consistent(p, v)
    ensures Run(p, act, r) && |r| == t + 1 && r[0] == v
  {
    if t == 0 { return [v]; }
    var q := RunExists(p, act, v, t - 1);
    r := OneCallMore(p, act, q);
  }

  /** A run can go on. */
  lemma OneCallMore(p: seq<nat>, act: real -> real, q: seq<Values>) returns (r: seq<Values>)
    requires Run(p, act, q)
    ensures Run(p, act, r) && |r| == |q| + 1 && r[0] == q[0]
  {
    var v := q[|q| - 1];
    NextIsNext(p, v, act);
    RunGoesOn(p, act, q, Next(p, v, act));
    r := q + [Next(p, v, act)];
  }

  /** One call more goes on with a run. */
  lemma RunGoesOn(p: seq<nat>, act: real -> real, r: seq<Values>, v: Values)
    requires Run(p, act, r) && Consistent(p, v) && IsNext(p, r[|r| - 1], act, v)
    ensures Run(p, act, r + [v])
  {
    var q := r + [v];
    forall i | 0 <= i < |q| ensures Follows(p, act, q, i) {
      if i < |r| { assert Follows(p, act, r, i); }
    }
  }

  /** The first layer and the weights stay throughout a run, and nothing is waiting after the first call. */
  lemma {:induction false} RunKeeps(p: seq<nat>, act: real -> real, r: seq<Values>, t: nat)
    requires Run(p, act, r) && t < |r| && |p| > 0
    ensures r[t].o[0] == r[0].o[0] && r[t].w == r[0].w && |r[0].o[0]| == p[0]
    ensures t > 0 ==> Quiet(p, r[t])
  {
    assert |r[0].o[0]| == p[0];
    if t > 0 {
      RunKeeps(p, act, r, t - 1);
      assert Follows(p, act, r, t);
      QuietAgain(p, r[t - 1], act, r[t]);
    }
  }

  /** After `t` calls from any states the first `t` layers show the values of the formula, and one more if nothing was
    * waiting before the first call. The input layer always does. */
  lemma {:induction false} Settles(p: seq<nat>, act: real -> real, r: seq<Values>, t: nat, k: nat)
    requires Run(p, act, r) && t < |r| && k < |p|
    requires k == 0 || k < t || (k == t && Quiet(p, r[0]))
    ensures |r[0].o[0]| == p[0] && Settled(p, r[t], act, r[0].o[0], k)
  {
    RunKeeps(p, act, r, t);
    assert |r[t].o[k]| == p[k] && WeightsFit(p, r[t].w);
    if k > 0 {
      Settles(p, act, r, t - 1, k - 1);
      RunKeeps(p, act, r, t - 1);
      assert Follows(p, act, r, t);
      OneMore(p, r[t - 1], act, r[t], r[0].o[0], k);
    }
  }

  /** As many calls as there are layers, or one less from zero states, give the last layer what the network as a
    * formula gives, and it goes on showing it. */
  lemma LastLayerSettles(p: seq<nat>, act: real -> real, r: seq<Values>, t: nat, j: nat)
    requires Run(p, act, r) && t < |r| && |p| > 0 && j < p[|p| - 1]
    requires |p| <= t || (|p| - 1 <= t && Quiet(p, r[0]))
    ensures WeightsFit(p, r[0].w) && |r[0].o[0]| == p[0] && |r[t].o[|p| - 1]| == p[|p| - 1]
    ensures r[t].o[|p| - 1][j] == Eval(p, r[0].w, act, r[0].o[0], |p| - 1, j)
  {
    RunKeeps(p, act, r, t);
    Settles(p, act, r, t, |p| - 1);
  }
}
