/** fire_nn over the whole network: the forward pass as a function of the numbers, and what repeated calls settle to. */
module Forward {
  import opened Graph
  import opened Fire

  /** The network shows the states and outputs of `v`. */
  ghost predicate NetShows(ls: seq<Layer<real>>, v: Values)
    requires |v.s| == |v.o| == |ls|
    reads *
  {
    forall k {:trigger ls[k]} | 0 <= k < |ls| :: States(ls[k].neuros, v.s[k]) && Outputs(ls[k].neuros, v.o[k])
  }

  /** States and outputs of layer `k` after one call. */
  function NextState(p: seq<nat>, v: Values, k: nat): (s: Row)
    requires Consistent(p, v) && k < |p|
    ensures |s| == p[k]
  {
    StateRow(k, Fed(p, v, k))
  }

  function NextOutput(p: seq<nat>, v: Values, act: real -> real, k: nat): (o: Row)
    requires Consistent(p, v) && k < |p|
    ensures |o| == p[k]
  {
    OutRow(act, k, Fed(p, v, k), v.o[k])
  }

  function NextStates(p: seq<nat>, v: Values, m: nat): (s: seq<Row>)
    requires Consistent(p, v) && m <= |p|
    ensures |s| == m && forall k {:trigger s[k]} | 0 <= k < m :: s[k] == NextState(p, v, k)
  {
    if m == 0 then [] else NextStates(p, v, m - 1) + [NextState(p, v, m - 1)]
  }

  function NextOutputs(p: seq<nat>, v: Values, act: real -> real, m: nat): (o: seq<Row>)
    requires Consistent(p, v) && m <= |p|
    ensures |o| == m && forall k {:trigger o[k]} | 0 <= k < m :: o[k] == NextOutput(p, v, act, k)
  {
    if m == 0 then [] else NextOutputs(p, v, act, m - 1) + [NextOutput(p, v, act, m - 1)]
  }

  /** The network after one call. */
  function Next(p: seq<nat>, v: Values, act: real -> real): (r: Values)
    requires Consistent(p, v)
    ensures Consistent(p, r) && r.w == v.w
  {
    var r := Values(NextStates(p, v, |p|), NextOutputs(p, v, act, |p|), v.w);
    assert forall k | 0 <= k < |p| :: |v.s[k]| == p[k] && |r.s[k]| == p[k] && |r.o[k]| == p[k];
    r
  }

  /** Layer `k` of `r` is what one call makes of `v`. */
  ghost predicate LayerNext(p: seq<nat>, v: Values, act: real -> real, r: Values, k: nat)
    requires Consistent(p, v) && Consistent(p, r) && k < |p|
  {
    r.s[k] == NextState(p, v, k) && r.o[k] == NextOutput(p, v, act, k)
  }

  /** One call leads from `v` to `r`. */
  ghost predicate IsNext(p: seq<nat>, v: Values, act: real -> real, r: Values)
    requires Consistent(p, v) && Consistent(p, r)
  {
    r.w == v.w && forall k | 0 <= k < |p| :: LayerNext(p, v, act, r, k)
  }

  lemma NextIsNext(p: seq<nat>, v: Values, act: real -> real)
    requires Consistent(p, v)
    ensures IsNext(p, v, act, Next(p, v, act))
  {
  }

  lemma StageStarts(ls: seq<Layer<real>>, p: seq<nat>, v: Values, act: real -> real)
    requires Consistent(p, v) && |ls| == |p| && NetShows(ls, v)
    ensures Stage(ls, p, v, act, 0)
  {
    forall j | 0 <= j < |ls| ensures LayerNow(ls, p, v, act, j, 0) {
      assert States(ls[j].neuros, v.s[j]);
    }
  }

  lemma StageEnds(ls: seq<Layer<real>>, p: seq<nat>, v: Values, act: real -> real)
    requires Consistent(p, v) && |ls| == |p| && Stage(ls, p, v, act, |p|)
    ensures NetShows(ls, Next(p, v, act))
  {
    var r := Next(p, v, act);
    forall k | 0 <= k < |ls| ensures States(ls[k].neuros, r.s[k]) && Outputs(ls[k].neuros, r.o[k]) {
      assert LayerNow(ls, p, v, act, k, |p|);
    }
  }

  /** One round over the layers; it writes no link. */
  method FireRound(ls: seq<Layer<real>>, c: nat, act: real -> real, ghost p: seq<nat>, ghost v: Values, ghost d: nat)
    requires Carries(ls, p, v) && c < |ls|
    requires d == c + 1 && Stage(ls, p, v, act, c)
    modifies NetNeuros(ls)`state, NetNeuros(ls)`output
    ensures Stage(ls, p, v, act, d) && Carries(ls, p, v)
  {
    NetNeurosHoldAll(ls, c);
    if d < |ls| { NetNeurosHoldAll(ls, d); }
    FireStage(ls, c, act, p, v, d);
  }

  /** The forward pass. */
  method FireForward(ls: seq<Layer<real>>, act: real -> real, ghost p: seq<nat>, ghost v: Values)
    requires Carries(ls, p, v) && NetShows(ls, v)
    modifies NetNeuros(ls)`state, NetNeuros(ls)`output
    ensures NetShows(ls, Next(p, v, act)) && Carries(ls, p, v)
  {
    StageStarts(ls, p, v, act);
    var counter := 0;
    while counter != |ls|
      invariant 0 <= counter <= |ls|
      invariant Carries(ls, p, v) && Stage(ls, p, v, act, counter)
    {
      FireRound(ls, counter, act, p, v, counter + 1);
      counter := counter + 1;
    }
    StageEnds(ls, p, v, act);
  }
}
