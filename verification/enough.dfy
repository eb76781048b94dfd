/** How many calls of fire_nn are enough, for every network of a given number of layers. */
module Enough {
  import opened Graph
  import opened Fire
  import opened Forward
  import opened Settle
  import opened Network

  ghost predicate Positive(act: real -> real) {
    forall x :: act(x) > 0.0
  }

  /** At the end of the run the last layer shows what the network as a formula gives. */
  ghost predicate EndsSettled(p: seq<nat>, act: real -> real, r: seq<Values>)
    requires Run(p, act, r) && |p| > 0
  {
    |r[0].o[0]| == p[0] && Settled(p, r[|r| - 1], act, r[0].o[0], |p| - 1)
  }

  /** `t` calls are enough for every network of `n` layers, or for every such network from zero states. */
  ghost predicate Suffice(act: real -> real, n: nat, t: nat, quiet: bool)
    requires n > 0
  {
    forall p, r | |p| == n && |r| == t + 1 && Run(p, act, r) && (quiet ==> Quiet(p, r[0])) :: EndsSettled(p, act, r)
  }

  // ---- a chain of neurons ----

  /** The activation `k` times over. */
  function Iter(act: real -> real, k: nat, x: real): real {
    if k == 0 then x else act(Iter(act, k - 1, x))
  }

  lemma {:induction false} IterAdds(act: real -> real, k: nat, m: nat, x: real)
    ensures Iter(act, k + m, x) == Iter(act, k, Iter(act, m, x))
  {
    if k > 0 { IterAdds(act, k - 1, m, x); }
  }

  lemma {:induction false} IterTellsApart(act: real -> real, k: nat, x: real, y: real)
    requires Injective(act) && x != y
    ensures Iter(act, k, x) != Iter(act, k, y)
  {
    if k > 0 { IterTellsApart(act, k - 1, x, y); }
  }

  /** `n` layers of one neuron each. */
  ghost function Ones(n: nat): (p: seq<nat>)
    ensures |p| == n && forall k | 0 <= k < n :: p[k] == 1
  {
    seq(n, _ => 1)
  }

  /** A chain of neurons with weights one. Only the first shows an output, and `z` waits in the state of the second. */
  ghost function Chain(n: nat, z: real): (v: Values)
    ensures |v.s| == |v.o| == |v.w| == n
    ensures forall k | 0 <= k < n :: v.s[k] == [if k == 1 then z else 0.0]
    ensures forall k | 0 <= k < n :: v.o[k] == [if k == 0 then 1.0 else 0.0]
    ensures forall k | 0 <= k < n :: v.w[k] == [if k == n - 1 then [] else [1.0]]
  {
    Values(seq(n, k => [if k == 1 then z else 0.0]), seq(n, k => [if k == 0 then 1.0 else 0.0]),
           seq(n, k => [if k == n - 1 then [] else [1.0]]))
  }

  lemma ChainIsConsistent(n: nat, z: real)
    ensures Consistent(Ones(n), Chain(n, z)) && (z == 0.0 ==> Quiet(Ones(n), Chain(n, z)))
  {
    var p, v := Ones(n), Chain(n, z);
    forall k | 0 <= k < n ensures |v.s[k]| == |v.o[k]| == 1 && Fitting(v.w[k], 1, At(p, k + 1)) {
      assert At(p, k + 1) == if k == n - 1 then 0 else 1;
    }
    if z == 0.0 {
      forall k | 0 < k < n ensures v.s[k] == Zeros(1) { assert v.s[k] == [0.0] && Zeros(1) == [0.0]; }
    }
  }

  /** The formula of the chain is the activation over and over. */
  lemma {:induction false} ChainValue(n: nat, w: seq<seq<Row>>, act: real -> real, x: Row, k: nat)
    requires WeightsFit(Ones(n), w) && (forall i | 0 <= i < n - 1 :: w[i] == [[1.0]]) && k < n && |x| == 1
    ensures Eval(Ones(n), w, act, x, k, 0) == Iter(act, k, x[0])
  {
    if k > 0 {
      ChainValue(n, w, act, x, k - 1);
      var p := Ones(n);
      assert Sum(p, w, act, x, k, 0, 1) == Sum(p, w, act, x, k, 0, 0) + w[k - 1][0][0] * Eval(p, w, act, x, k - 1, 0);
    }
  }

  /** One call sends every output of the chain one neuron on. */
  lemma ChainCall(n: nat, act: real -> real, u: Values, v: Values, k: nat)
    requires Consistent(Ones(n), u) && Consistent(Ones(n), v) && IsNext(Ones(n), u, act, v)
    requires 0 < k < n && u.w[k - 1] == [[1.0]]
    ensures |u.s[k]| == |u.o[k - 1]| == |v.o[k]| == 1 && v.o[k][0] == act(u.s[k][0] + u.o[k - 1][0])
  {
    OneCall(Ones(n), u, act, v, k, 0);
    var w, o := u.w[k - 1], u.o[k - 1];
    assert Dot(w, o, 0, 1) == Dot(w, o, 0, 0) + w[0][0] * o[0];
  }

  /** So after `t` calls a neuron shows what stood `t` neurons before it. */
  lemma {:induction false} ChainRun(n: nat, act: real -> real, r: seq<Values>, z: real, t: nat, k: nat)
    requires Run(Ones(n), act, r) && r[0] == Chain(n, z) && 0 < t < |r| && t <= k < n
    ensures |r[t].o[k]| == 1 && r[t].o[k][0] == Iter(act, t, if t == k then z + 1.0 else 0.0)
  {
    RunKeeps(Ones(n), act, r, t - 1);
    assert r[t - 1].w[k - 1] == [[1.0]];
    assert Follows(Ones(n), act, r, t);
    ChainCall(n, act, r[t - 1], r[t], k);
    if t > 1 {
      assert r[t - 1].s[k] == Zeros(1);
      ChainRun(n, act, r, z, t - 1, k - 1);
    }
  }

  /** With too few calls the last neuron of the chain shows another value than the formula has. */
  lemma ChainIsLate(n: nat, act: real -> real, r: seq<Values>, t: nat, quiet: bool)
    requires Injective(act) && Positive(act) && 1 < n && t < (if quiet then n - 1 else n)
    requires Run(Ones(n), act, r) && |r| == t + 1 && r[0] == Chain(n, if quiet || t < n - 1 then 0.0 else 1.0)
    ensures !EndsSettled(Ones(n), act, r)
  {
    var p, v := Ones(n), r[0];
    RunKeeps(p, act, r, t);
    if EndsSettled(p, act, r) {
      ChainValue(n, v.w, act, v.o[0], n - 1);
      assert r[t].o[n - 1][0] == Iter(act, n - 1, 1.0);
      IterAdds(act, t, n - 1 - t, 1.0);
      var y := if t == n - 1 then 2.0 else 0.0;
      IterTellsApart(act, t, y, Iter(act, n - 1 - t, 1.0));
      if t > 0 { ChainRun(n, act, r, if t == n - 1 then 1.0 else 0.0, t, n - 1); }
      assert false;
    }
  }

  lemma RunIsEnough(act: real -> real, p: seq<nat>, r: seq<Values>)
    requires Run(p, act, r) && |p| > 0
    requires |p| == 1 || |r| > |p| || (|r| == |p| && Quiet(p, r[0]))
    ensures EndsSettled(p, act, r)
  {
    Settles(p, act, r, |r| - 1, |p| - 1);
  }

  lemma EnoughCalls(act: real -> real, n: nat, t: nat, quiet: bool)
    requires n > 0 && (n == 1 || t >= if quiet then n - 1 else n)
    ensures Suffice(act, n, t, quiet)
  {
    forall p, r | |p| == n && |r| == t + 1 && Run(p, act, r) && (quiet ==> Quiet(p, r[0]))
      ensures EndsSettled(p, act, r)
    {
      RunIsEnough(act, p, r);
    }
  }

  /** If the activation is positive and tells sums apart, a network of `n` layers takes exactly `n` calls, and exactly
    * one less if it starts from zero states. */
  lemma SufficeIff(act: real -> real, n: nat, t: nat, quiet: bool)
    requires Injective(act) && Positive(act) && n > 0
    ensures Suffice(act, n, t, quiet) <==> n == 1 || t >= if quiet then n - 1 else n
  {
    if n == 1 || t >= if quiet then n - 1 else n {
      EnoughCalls(act, n, t, quiet);
    } else {
      var z := if quiet || t < n - 1 then 0.0 else 1.0;
      ChainIsConsistent(n, z);
      var r := RunExists(Ones(n), act, Chain(n, z), t);
      ChainIsLate(n, act, r, t, quiet);
    }
  }

  // ---- the activation of fire_nn ----

  lemma ActivationIsPositive(exp: real -> real, gain: real)
    requires forall y :: exp(y) > 0.0
    ensures Positive(Activation(exp, gain))
  {
    forall x ensures Activation(exp, gain)(x) > 0.0 { SigmoidIsBetween(exp, gain, x); }
  }

  /** The activation tells sums apart, unless the gain is 0. */
  lemma ActivationTellsApart(exp: real -> real, gain: real)
    requires (forall y :: exp(y) > 0.0) && Injective(exp) && gain != 0.0
    ensures Injective(Activation(exp, gain))
  {
    var act := Activation(exp, gain);
    forall x, y | act(x) == act(y) ensures x == y {
      SameInverse(1.0 + exp(-gain * x), 1.0 + exp(-gain * y), act(x));
      SameFactor(-gain, x, y, -gain * x);
    }
  }

  lemma SameInverse(x: real, y: real, z: real)
    requires x > 0.0 && y > 0.0 && z == 1.0 / x && z == 1.0 / y
    ensures x == y
  {
    assert z * x == 1.0 && z * y == 1.0;
    assert x == x * (z * y);
  }

  lemma SameFactor(g: real, x: real, y: real, z: real)
    requires g != 0.0 && z == g * x && z == g * y
    ensures x == y
  {
    assert x == z / g && y == z / g;
  }

  /** With gain 0 every sum gives the same output, so the first call settles all layers. */
  lemma FlatSettles(exp: real -> real, p: seq<nat>, r: seq<Values>, k: nat)
    requires (forall y :: exp(y) > 0.0) && Run(p, Activation(exp, 0.0), r) && |r| > 1 && k < |p|
    ensures |r[0].o[0]| == p[0] && Settled(p, r[|r| - 1], Activation(exp, 0.0), r[0].o[0], k)
  {
    var act, t := Activation(exp, 0.0), |r| - 1;
    RunKeeps(p, act, r, t);
    assert |r[t].o[k]| == p[k] && WeightsFit(p, r[t].w);
    if k > 0 {
      assert Follows(p, act, r, t);
      forall j | 0 <= j < p[k] ensures r[t].o[k][j] == Eval(p, r[t].w, act, r[0].o[0], k, j) {
        OneCall(p, r[t - 1], act, r[t], k, j);
      }
    }
  }

  /** fire_nn itself: the gain that create_nn leaves, 0, is the one exception. */
  lemma CallsSufficeIff(exp: real -> real, gain: real, n: nat, t: nat, quiet: bool)
    requires (forall y :: exp(y) > 0.0) && Injective(exp) && n > 0
    ensures Suffice(Activation(exp, gain), n, t, quiet) <==>
      n == 1 || t >= (if quiet then n - 1 else n) || (gain == 0.0 && t > 0)
  {
    ActivationIsPositive(exp, gain);
    if gain != 0.0 {
      ActivationTellsApart(exp, gain);
      SufficeIff(Activation(exp, gain), n, t, quiet);
    } else if n == 1 || t >= if quiet then n - 1 else n {
      EnoughCalls(Activation(exp, gain), n, t, quiet);
    } else if t > 0 {
      forall p, r | |p| == n && |r| == t + 1 && Run(p, Activation(exp, gain), r) && (quiet ==> Quiet(p, r[0]))
        ensures EndsSettled(p, Activation(exp, gain), r)
      {
        FlatSettles(exp, p, r, n - 1);
      }
    } else {
      NoCallIsTooFew(Activation(exp, gain), n, quiet);
    }
  }

  lemma NoCallIsTooFew(act: real -> real, n: nat, quiet: bool)
    requires Positive(act) && n > 1
    ensures !Suffice(act, n, 0, quiet)
  {
    var p, v := Ones(n), Chain(n, 0.0);
    ChainIsConsistent(n, 0.0);
    var r := RunExists(p, act, v, 0);
    assert WeightsFit(p, v.w);
    ChainValue(n, v.w, act, v.o[0], n - 1);
    assert !EndsSettled(p, act, r);
  }
}
