/** The operator E of statistic.c: means and mean squares kept in a direct-mapped table of tagged counters. */
module Expectation {
  import opened Machine
  import opened Wrappers

  const P_SIZE := 4096
  const K_SIZE := 16384

  /** The table index: bits 2 to 13 of the address of the target. */
  function Ind(addr: nat): nat {
    addr / 4 % P_SIZE
  }

  /** The tag: the bits from 14 up. */
  function Key(addr: nat): nat {
    addr / K_SIZE
  }

  /** One entry: the sum, and the word that holds the tag above a 14-bit counter. */
  datatype Slot = Slot(sum: int, word: nat)

  /** The new entry and what is stored through the pointer; `ret` is -1 at an overflow. Fatal ends the program. */
  datatype Outcome = Fatal | Done(slot: Slot, ret: int, target: int)

  /** Division of C. */
  function Quotient(a: int, d: nat): int
    requires d > 0
  {
    if a >= 0 then a / d else -(-a / d)
  }

  /** It truncates toward zero. */
  lemma QuotientTruncates(a: int, d: nat)
    requires d > 0
    ensures var q := Quotient(a, d); var r := a - q * d;
      r < d && -r < d && if a >= 0 then q >= 0 && r >= 0 else q <= 0 && r <= 0
  {
    var b := if a >= 0 then a else -a;
    assert b == b / d * d + b % d;
  }

  function Power(x: int, n: int): int {
    if n == 1 then x else x * x
  }

  /** E on one entry, for n = 1 and n = 2; the sum is a long long. */
  function Added(s: Slot, addr: nat, data: int, n: int): Outcome {
    if s.sum != 0 && s.word / K_SIZE != Key(addr) then Fatal else
      var counter := s.word % K_SIZE + 1;
      if counter >= K_SIZE then Done(Slot(0, 0), -1, 0) else
        var sum := Long(s.sum + Power(data, n));
        Done(Slot(sum, Key(addr) * K_SIZE + counter), 0, Quotient(sum, counter))
  }

  class Table {
    const sum: array2<int>
    const cnt: array2<nat>

    ghost predicate Valid() {
      sum.Length0 == cnt.Length0 == 2 && sum.Length1 == cnt.Length1 == P_SIZE
    }

    ghost function At(n: int, i: nat): Slot
      requires Valid() && 1 <= n <= 2 && i < P_SIZE
      reads sum, cnt
    {
      Slot(sum[n - 1, i], cnt[n - 1, i])
    }

    constructor ()
      ensures Valid() && fresh(sum) && fresh(cnt)
      ensures forall n, i | 1 <= n <= 2 && 0 <= i < P_SIZE :: At(n, i) == Slot(0, 0)
    {
      sum := new int[2, P_SIZE]((i, j) => 0);
      cnt := new nat[2, P_SIZE]((i, j) => 0);
    }

    /** E; the pointed-to value is handed back instead of stored. */
    method E(addr: nat, data: int, n: int) returns (fatal: bool, ret: int, target: int)
      requires Valid()
      modifies sum, cnt
      ensures fatal ==> forall m, i | 1 <= m <= 2 && 0 <= i < P_SIZE :: At(m, i) == old(At(m, i))
      ensures n !in {-1, -2, 1, 2} ==> fatal
      ensures n in {-1, -2} ==> !fatal && At(-n, Ind(addr)) == Slot(0, 0) && ret == target == 0
      ensures n in {1, 2} ==> var o := Added(old(At(n, Ind(addr))), addr, data, n);
        fatal == o.Fatal? && (o.Done? ==> At(n, Ind(addr)) == o.slot && ret == o.ret && target == o.target)
      ensures forall m, i | 1 <= m <= 2 && 0 <= i < P_SIZE && (m != (if n < 0 then -n else n) || i != Ind(addr)) ::
        At(m, i) == old(At(m, i))
    {
      fatal, ret, target := false, 0, 0;
      if n != -1 && n != -2 && n != 1 && n != 2 { return true, 0, 0; }
      var ind := Ind(addr);
      if n < 0 {
        sum[-n - 1, ind] := 0;
        cnt[-n - 1, ind] := 0;
        return;
      }
      if sum[n - 1, ind] != 0 && cnt[n - 1, ind] / K_SIZE != Key(addr) { return true, 0, 0; }
      var counter := cnt[n - 1, ind] % K_SIZE;
      counter := counter + 1;
      if counter >= K_SIZE {
        sum[n - 1, ind] := 0;
        cnt[n - 1, ind] := 0;
        return false, -1, 0;
      }
      if n == 1 {
        sum[n - 1, ind] := Long(sum[n - 1, ind] + data);
      } else {
        LongAbsorbs(data * data, sum[n - 1, ind]);
        sum[n - 1, ind] := Long(sum[n - 1, ind] + Long(data * data));
      }
      cnt[n - 1, ind] := Key(addr) * K_SIZE + counter;
      target := Quotient(sum[n - 1, ind], counter);
    }
  }

  // ---- an entry stands for a plain history ----

  /** Sum of the samples, or of their squares. */
  function Powers(h: seq<int>, n: int): int {
    if h == [] then 0 else Powers(h[..|h| - 1], n) + Power(h[|h| - 1], n)
  }

  /** The truncated mean, or mean square. */
  function Mean(h: seq<int>, n: int): int {
    if h == [] then 0 else Quotient(Powers(h, n), |h|)
  }

  /** What E shows of it: the sum is cut to 64 bits. */
  function Shown(h: seq<int>, n: int): int {
    if h == [] then 0 else Quotient(Long(Powers(h, n)), |h|)
  }

  lemma QuotientsApart(a: int, b: int, d: nat)
    requires 0 < d < K_SIZE && a - b >= 2 * LONG
    ensures Quotient(a, d) > Quotient(b, d)
  {
    QuotientTruncates(a, d);
    QuotientTruncates(b, d);
    if Quotient(a, d) <= Quotient(b, d) { Ordered(Quotient(a, d), Quotient(b, d), d); }
  }

  lemma Ordered(p: int, q: int, d: nat)
    requires p <= q
    ensures p * d <= q * d
  {
  }

  /** The mean is shown just if the sum of the powers is a long: a sum that has wrapped around shows another number. */
  lemma MeanIsShownIff(h: seq<int>, n: int)
    requires |h| < K_SIZE
    ensures Shown(h, n) == Mean(h, n) <==> IsLong(Powers(h, n))
  {
    var p := Powers(h, n);
    LongFits(p);
    var k := LongTurns(p);
    if k > 0 { QuotientsApart(p, Long(p), |h|); }
    if k < 0 { QuotientsApart(Long(p), p, |h|); }
  }

  /** Two samples that a host can bring about with timestamp replies: their mean is still shown, their mean square is
    * not. */
  lemma OverflowShows()
    ensures var h := [0xFFFF_FFFF, 0];
      Shown(h, 1) == Mean(h, 1) == 2147483647 && Shown(h, 2) == -4294967295 && Mean(h, 2) == 9223372032559808512
  {
    var h := [0xFFFF_FFFF, 0];
    assert h[..1] == [0xFFFF_FFFF] && h[..1][..0] == [];
    assert Powers(h[..1], 1) == 0xFFFF_FFFF && Powers(h, 1) == 0xFFFF_FFFF;
    assert Powers(h[..1], 2) == 0xFFFF_FFFF * 0xFFFF_FFFF && Powers(h, 2) == 18446744065119617025;
    LongIs(18446744065119617025, 1);
    LongFits(0xFFFF_FFFF);
  }

  /** Entry `s` holds the samples `h` of the accumulator at `addr`, their sum cut to 64 bits. */
  ghost predicate Holds(s: Slot, addr: nat, n: int, h: seq<int>) {
    |h| < K_SIZE && s == Slot(Long(Powers(h, n)), if h == [] then 0 else Key(addr) * K_SIZE + |h|)
  }

  /** The history after one more sample: the one that would be number 16384 is dropped with all before it. */
  function Grown(h: seq<int>, data: int): seq<int> {
    if |h| + 1 >= K_SIZE then [] else h + [data]
  }

  /** The word splits back into tag and counter. */
  lemma WordSplits(key: nat, counter: nat)
    requires counter < K_SIZE
    ensures (key * K_SIZE + counter) / K_SIZE == key && (key * K_SIZE + counter) % K_SIZE == counter
  {
  }

  /** On its own entry E never fails, keeps the history and hands back what is shown of it; -1 tells of a lost history.
    * That is the mean just if the next power still fits in. */
  lemma AddedExtends(s: Slot, addr: nat, data: int, n: int, h: seq<int>)
    requires Holds(s, addr, n, h)
    ensures var o := Added(s, addr, data, n);
      && o.Done? && Holds(o.slot, addr, n, Grown(h, data)) && o.target == Shown(Grown(h, data), n)
      && (o.ret == -1 <==> |h| == K_SIZE - 1)
      && (o.target == Mean(Grown(h, data), n) <==> o.ret == -1 || IsLong(Powers(h, n) + Power(data, n)))
  {
    if h != [] { WordSplits(Key(addr), |h|); }
    assert (h + [data])[..|h|] == h;
    LongAbsorbs(Powers(h, n), Power(data, n));
    MeanIsShownIff(Grown(h, data), n);
  }

  /** What a foreign address does to an entry in use: it is refused just if the sum kept there is not 0. */
  lemma CollisionIsSeenIff(s: Slot, addr: nat, other: nat, data: int, n: int, h: seq<int>)
    requires Holds(s, addr, n, h) && h != [] && Key(other) != Key(addr)
    ensures Added(s, other, data, n).Fatal? <==> Long(Powers(h, n)) != 0
  {
    WordSplits(Key(addr), |h|);
  }

  /** So samples that add up to 0 are counted for the other accumulator: its mean comes out too small. */
  lemma MissedCollision(addr: nat, other: nat)
    requires Ind(other) == Ind(addr) && Key(other) != Key(addr)
    ensures Mean([0], 1) == 0 && Added(Slot(0, Key(addr) * K_SIZE + 1), other, 10, 1).target == 5 != Mean([10], 1)
    ensures Holds(Slot(0, Key(addr) * K_SIZE + 1), addr, 1, [0])
  {
    WordSplits(Key(addr), 1);
    assert Powers([0], 1) == 0 && Powers([10], 1) == 10;
  }

  /** Index and tag together are the address of an aligned variable, so two that share both are the same. */
  lemma IndexAndKeyDetermine(a: nat, b: nat)
    requires a % 4 == b % 4 == 0 && Ind(a) == Ind(b) && Key(a) == Key(b)
    ensures a == b
  {
  }

  /** Samples below 2^24 keep the sum, even of squares, far inside a long. */
  lemma {:induction false} SumFits(h: seq<int>, n: int)
    requires |h| < K_SIZE && forall i | 0 <= i < |h| :: -0x100_0000 < h[i] < 0x100_0000
    ensures -0x4000_0000_0000_0000 < Powers(h, n) < 0x4000_0000_0000_0000
    ensures -0x1_0000_0000_0000 * |h| <= Powers(h, n) <= 0x1_0000_0000_0000 * |h|
  {
    if h != [] {
      SumFits(h[..|h| - 1], n);
      PowerFits(h[|h| - 1], n);
    }
  }

  lemma PowerFits(x: int, n: int)
    requires -0x100_0000 < x < 0x100_0000
    ensures -0x1_0000_0000_0000 <= Power(x, n) <= 0x1_0000_0000_0000
  {
    if n != 1 { SquareFits(x, 0x100_0000); }
  }

  lemma SquareFits(x: int, b: int)
    requires -b < x < b
    ensures 0 <= x * x <= b * b
  {
    assert (b - x) * (b + x) == b * b - x * x;
  }

  // ---- over every run ----

  datatype Op = Add(addr: nat, n: int, data: int) | Clear(addr: nat, n: int)

  /** The entries that have been written, and the variables behind the addresses. */
  datatype World = World(table: map<(int, nat), Slot>, memory: map<nat, int>)

  function Entry(w: World, n: int, i: nat): Slot {
    if (n, i) in w.table then w.table[(n, i)] else Slot(0, 0)
  }

  function Step(w: World, op: Op): Option<World> {
    match op
    case Clear(a, n) => Some(World(w.table[(n, Ind(a)) := Slot(0, 0)], w.memory[a := 0]))
    case Add(a, n, d) =>
      match Added(Entry(w, n, Ind(a)), a, d, n)
      case Fatal => None
      case Done(s, _, t) => Some(World(w.table[(n, Ind(a)) := s], w.memory[a := t]))
  }

  function Run(ops: seq<Op>): Option<World> {
    if ops == [] then Some(World(map[], map[])) else
      match Run(ops[..|ops| - 1])
      case None => None
      case Some(w) => Step(w, ops[|ops| - 1])
  }

  /** The samples of accumulator `a` since it was last cleared or lost. */
  function History(ops: seq<Op>, a: nat, n: int): seq<int> {
    if ops == [] then [] else
      var h, op := History(ops[..|ops| - 1], a, n), ops[|ops| - 1];
      if op.addr != a || op.n != n then h else if op.Clear? then [] else Grown(h, op.data)
  }

  /** The accumulators of a program, each with its own n; no two of the same n share an index. */
  ghost predicate Apart(use: map<nat, int>) {
    && (forall a | a in use :: use[a] == 1 || use[a] == 2)
    && forall a, b | a in use && b in use && use[a] == use[b] && Ind(a) == Ind(b) :: a == b
  }

  /** The operations are on accumulators in use. */
  ghost predicate Uses(use: map<nat, int>, ops: seq<Op>) {
    forall k | 0 <= k < |ops| :: ops[k].addr in use && ops[k].n == use[ops[k].addr]
  }

  /** Entry and variable of accumulator `a` show its history. */
  ghost predicate Shows(w: World, a: nat, n: int, h: seq<int>) {
    && Holds(Entry(w, n, Ind(a)), a, n, h)
    && (if a in w.memory then w.memory[a] == Shown(h, n) else h == [])
  }

  ghost predicate Refined(use: map<nat, int>, ops: seq<Op>, w: World) {
    forall a | a in use :: Shows(w, a, use[a], History(ops, a, use[a]))
  }

  /** What an operation does to its own accumulator, */
  lemma StepShows(op: Op, w: World, h: seq<int>)
    requires 1 <= op.n <= 2 && Shows(w, op.addr, op.n, h)
    ensures Step(w, op).Some? && op.addr in Step(w, op).value.memory
    ensures Shows(Step(w, op).value, op.addr, op.n, if op.Clear? then [] else Grown(h, op.data))
  {
    if op.Add? { AddedExtends(Entry(w, op.n, Ind(op.addr)), op.addr, op.data, op.n, h); }
  }

  /** and to the others. */
  lemma StepLeaves(op: Op, w: World, a: nat, n: int, h: seq<int>)
    requires Step(w, op).Some? && a != op.addr && (n != op.n || Ind(a) != Ind(op.addr)) && Shows(w, a, n, h)
    ensures Shows(Step(w, op).value, a, n, h)
  {
  }

  lemma {:induction false} StepRefines(use: map<nat, int>, ops: seq<Op>, op: Op, w: World)
    requires Apart(use) && op.addr in use && op.n == use[op.addr] && Refined(use, ops, w)
    ensures Step(w, op).Some? && Refined(use, ops + [op], Step(w, op).value)
    ensures op.addr in Step(w, op).value.memory
  {
    var next := ops + [op];
    assert next[..|next| - 1] == ops && next[|next| - 1] == op;
    StepShows(op, w, History(ops, op.addr, op.n));
    forall a | a in use ensures Shows(Step(w, op).value, a, use[a], History(next, a, use[a])) {
      if a != op.addr { StepLeaves(op, w, a, use[a], History(ops, a, use[a])); }
    }
  }

  /** Over any mix of samples and resets of accumulators with indices of their own, the program never stops, every
    * entry holds exactly the samples since the last reset or lost history, and every variable that was ever written
    * what is shown of these samples. */
  lemma {:induction false} EveryRunIsRefined(use: map<nat, int>, ops: seq<Op>)
    requires Apart(use) && Uses(use, ops)
    ensures Run(ops).Some? && Refined(use, ops, Run(ops).value)
    ensures ops != [] ==> ops[|ops| - 1].addr in Run(ops).value.memory
  {
    if ops != [] {
      var before, op := ops[..|ops| - 1], ops[|ops| - 1];
      assert ops == before + [op];
      EveryRunIsRefined(use, before);
      StepRefines(use, before, op, Run(before).value);
    }
  }

  /** And that is their truncated mean, or mean square, just if the sum of the powers is a long. */
  lemma MeansAreShownIff(use: map<nat, int>, ops: seq<Op>, a: nat)
    requires Apart(use) && Uses(use, ops) && a in use && Run(ops).Some? && a in Run(ops).value.memory
    ensures var h := History(ops, a, use[a]);
      Run(ops).value.memory[a] == Mean(h, use[a]) <==> IsLong(Powers(h, use[a]))
  {
    EveryRunIsRefined(use, ops);
    assert Shows(Run(ops).value, a, use[a], History(ops, a, use[a]));
    MeanIsShownIff(History(ops, a, use[a]), use[a]);
  }
}
