/** The state that receiver.c and statistic.c keep between packets. */
module Receiver {
  import opened Agents
  import opened Checksum
  import opened Clock
  import opened Expectation
  import opened Machine
  import opened Rounding
  import opened Statistic

  /** The packets the host has sent in between, of `length` bytes each, and this one, in bits. */
  function Bits(diff: IdDiff, length: Word, ipSize: Word): nat {
    Max(0, diff - 1) * length * 8 + ipSize * 8
  }

  /** The burst in kbit/s. */
  function Burst(diff: IdDiff, length: Word, ipSize: Word, pending: int): int
    requires pending != 0
  {
    var bits := Bits(diff, length, ipSize);
    if pending > 0 then Quotient(bits, pending) else -Quotient(bits, -pending)
  }

  lemma QuotientIsRate(bits: nat, time: nat)
    requires time > 0
    ensures var q := Quotient(bits, time); q >= 0 && q * time <= bits < (q + 1) * time
  {
    assert bits == bits / time * time + bits % time;
  }

  /** The rate is that of the packets between the last one and this, taken to have the average size, and of this one;
    * the packets are one fewer than the ids. A negative time gives the rate of its length, negated. */
  lemma BurstIsRate(diff: IdDiff, length: Word, ipSize: Word, pending: int)
    requires pending != 0
    ensures var packets: nat, time := if diff > 1 then diff - 1 else 0, Abs(pending);
      var b := Burst(diff, length, ipSize, pending);
      && Abs(b) * time <= 8 * (packets * length + ipSize) < (Abs(b) + 1) * time
      && (pending > 0 ==> b >= 0) && (pending < 0 ==> b <= 0)
  {
    QuotientIsRate(Bits(diff, length, ipSize), if pending > 0 then pending else -pending);
  }

  const BITS := 0x10_0000_0000

  /** So many ids and so long packets make less than 2^36 bits. */
  lemma BurstIsSmall(diff: IdDiff, length: Word, ipSize: Word, pending: int)
    requires pending != 0
    ensures -BITS < Burst(diff, length, ipSize, pending) < BITS
  {
    var packets: nat := Max(0, diff - 1);
    ProductFits(packets, length, packets * length);
    QuotientIsSmaller(Bits(diff, length, ipSize), if pending > 0 then pending else -pending);
  }

  lemma ProductFits(a: nat, b: nat, c: nat)
    requires a <= 65535 && b <= 65535 && c == a * b
    ensures c <= 65535 * 65535
  {
    assert (65535 - a) * b >= 0;
  }

  lemma QuotientIsSmaller(a: nat, d: nat)
    requires d > 0
    ensures 0 <= Quotient(a, d) <= a
  {
    QuotientIsRate(a, d);
    NotSmaller(Quotient(a, d), d - 1, Quotient(a, d) * (d - 1));
  }

  lemma NotSmaller(a: nat, b: nat, c: int)
    requires c == a * b
    ensures c >= 0
  {
  }

  /** The accumulator at `addr` holds the samples `h`, and `value` is what its variable shows. */
  ghost predicate Keeps(table: Table, addr: nat, n: int, h: seq<int>, value: int)
    requires table.Valid() && 1 <= n <= 2
    reads table.sum, table.cnt
  {
    Holds(table.At(n, Ind(addr)), addr, n, h) && value == Shown(h, n)
  }

  /** One sample for one accumulator. */
  method Sample(table: Table, addr: nat, data: int, n: int, ghost h: seq<int>, ghost was: int) returns (value: int)
    requires table.Valid() && 1 <= n <= 2 && Keeps(table, addr, n, h, was)
    modifies table.sum, table.cnt
    ensures Keeps(table, addr, n, Grown(h, data), value)
    ensures forall m, i | 1 <= m <= 2 && 0 <= i < P_SIZE && (m != n || i != Ind(addr)) ::
      table.At(m, i) == old(table.At(m, i))
  {
    AddedExtends(table.At(n, Ind(addr)), addr, data, n, h);
    var fatal, ret;
    fatal, ret, value := table.E(addr, data, n);
  }

  /** A sample is an absolute value and not below `lo`, and the number behind it, cut to a long, not above `hi`. */
  predicate Inside(x: int, lo: int, hi: int) {
    IsAbs(x) && lo <= x && Long(x + 1) <= hi
  }

  ghost predicate Bounds(h: seq<int>, lo: int, hi: int) {
    forall i | 0 <= i < |h| :: Inside(h[i], lo, hi)
  }

  lemma GrownBounds(h: seq<int>, x: int, lo: int, hi: int, lo': int, hi': int)
    requires Bounds(h, lo, hi) && IsAbs(x) && lo' == Min(lo, x) && hi' == Max(hi, Long(x + 1))
    ensures Bounds(Grown(h, x), lo', hi')
  {
    forall i | 0 <= i < |Grown(h, x)| ensures Inside(Grown(h, x)[i], lo', hi') {
      if i < |h| { assert Inside(h[i], lo, hi); }
    }
  }

  lemma GrownIsBetween(h: seq<int>, x: int, lo: int, hi: int, lo': int, hi': int)
    requires Between(h, lo, hi) && lo' <= lo && hi <= hi' && lo' <= x < hi'
    ensures Between(Grown(h, x), lo', hi')
  {
  }

  /** What is known about the ids of the remote host. */
  class Ids {
    var slowStart: bool
    var ipidFailure: nat
    var randIpid: int
    var diffId: IdDiff
    var currId: Word
    var lastId: LastId
    var endianBug: nat
    var diffIpid: bool

    ghost function Shown(): Agent
      reads this
    {
      Agent(slowStart, ipidFailure, randIpid, diffId, currId, lastId, endianBug)
    }

    constructor ()
      ensures Shown() == Initial() && !diffIpid
    {
      slowStart, ipidFailure, randIpid, diffId, currId, lastId, endianBug := true, 0, 0, 0, 0, -1, 0;
      diffIpid := false;
    }

    /** agent_dyn_id */
    method AgentDynId(id: Word)
      modifies this
      ensures Shown() == DynId(old(Shown()), id) && diffIpid == old(diffIpid)
    {
      currId := Ntohss(endianBug, id);
      var diff: int := 0;
      if slowStart {
        slowStart := false;
      } else {
        diff := currId - lastId;
      }
      if diff < 0 { diff := diff + 65535; }
      diffId := diff;
      if diffId > 32768 { randIpid := diffId; }
    }

    /** reset_ipid */
    method ResetIpid()
      modifies this
      ensures Shown() == Agents.ResetIpid(old(Shown())) && diffIpid == old(diffIpid)
    {
      randIpid, ipidFailure, slowStart := 0, 0, true;
    }
  }

  /** Round trips and bursts. */
  class Statistics {
    /** The period, and the table of E with the addresses of the three variables kept by it. */
    const tau: CLong
    const table: Table
    const rttMeanAt: nat
    const rttSqreAt: nat
    const meanBurstAt: nat

    var rttMin: CLong
    var rttMax: CLong
    var rttMean: int
    var rttSqre: int

    var pendingTime: int
    var realTau: int
    var outBurst: int
    var maxBurst: int
    var meanBurst: int

    /** The round trips, and the bursts, since the last reset or overflow of their accumulators. */
    ghost var samples: seq<int>
    ghost var bursts: seq<int>

    /** The three variables show what their accumulators were given. */
    ghost predicate Kept()
      reads this`rttMean, this`rttSqre, this`meanBurst, this`samples, this`bursts, table.sum, table.cnt
    {
      && table.Valid() && Ind(rttMeanAt) != Ind(meanBurstAt)
      && Keeps(table, rttMeanAt, 1, samples, rttMean) && Keeps(table, rttSqreAt, 2, samples, rttSqre)
      && Keeps(table, meanBurstAt, 1, bursts, meanBurst)
    }

    /** Minimum and maximum bound the round trips, as far as they can, and no burst is above the largest; if the period
      * is not negative, no burst is. */
    ghost predicate Bounded()
      reads this`rttMin, this`rttMax, this`maxBurst, this`samples, this`bursts
    {
      && 0 <= rttMax && Bounds(samples, rttMin, rttMax)
      && 0 <= maxBurst && AtMost(bursts, maxBurst) && Between(bursts, -BITS, BITS)
      && (tau >= 0 ==> Between(bursts, 0, maxBurst + 1))
    }

    ghost predicate Valid()
      reads this, table.sum, table.cnt
    {
      Kept() && Bounded()
    }

    /** The initial values of global.h. */
    constructor (tau: CLong, table: Table, rttMeanAt: nat, rttSqreAt: nat, meanBurstAt: nat)
      requires table.Valid() && Ind(rttMeanAt) != Ind(meanBurstAt)
      requires forall n, i | 1 <= n <= 2 && 0 <= i < P_SIZE :: table.At(n, i) == Slot(0, 0)
      ensures Valid() && samples == [] && bursts == [] && rttMin == 99999999 && rttMax == 0
      ensures this.table == table && this.tau == tau
    {
      this.tau := tau;
      this.table, this.rttMeanAt, this.rttSqreAt, this.meanBurstAt := table, rttMeanAt, rttSqreAt, meanBurstAt;
      rttMin, rttMax, rttMean, rttSqre, pendingTime, realTau := 99999999, 0, 0, 0, 0, 0;
      outBurst, maxBurst, meanBurst, samples, bursts := 0, 0, 0, [], [];
    }

    /** What is shown of the round trips are their mean and mean square. */
    ghost predicate MeansTrue()
      reads this`rttMean, this`rttSqre, this`samples
    {
      rttMean == Mean(samples, 1) && rttSqre == Mean(samples, 2)
    }

    /** So it is just if the sum of the squares is a long. */
    lemma MeansTrueIff()
      requires Kept()
      ensures MeansTrue() <==> IsLong(Powers(samples, 2))
    {
      MeanIsShownIff(samples, 1);
      MeanIsShownIff(samples, 2);
      if IsLong(Powers(samples, 2)) { SquaresFit(samples); }
    }

    /** Round trips below four and a half hours leave them true. */
    lemma ShortRoundsAreTrue()
      requires Kept() && forall i | 0 <= i < |samples| :: -0x100_0000 < samples[i] < 0x100_0000
      ensures MeansTrue()
    {
      SumFits(samples, 2);
      MeansTrueIff();
    }

    /** The two calls of E for a round trip keep mean and mean square in step. They are true just if the squares so far
      * and that of the round trip add up to a long. */
    method TakeRtt(ms: int)
      requires Kept()
      modifies this`rttMean, this`rttSqre, this`samples, table.sum, table.cnt
      ensures Kept() && samples == Grown(old(samples), ms)
      ensures MeansTrue() <==> StillFits(old(samples), ms)
    {
      rttMean := Sample(table, rttMeanAt, ms, 1, samples, rttMean);
      rttSqre := Sample(table, rttSqreAt, ms, 2, samples, rttSqre);
      samples := Grown(samples, ms);
      MeansTrueIff();
      GrownFitsIff(old(samples), ms);
    }

    /** Minimum and maximum take in the next round trip. */
    method TakeBounds(ms: int)
      requires Bounded() && IsAbs(ms)
      modifies this`rttMin, this`rttMax
      ensures rttMin == Min(old(rttMin), ms) && rttMax == Max(old(rttMax), Long(ms + 1))
      ensures 0 <= rttMax && Bounds(Grown(samples, ms), rttMin, rttMax)
    {
      rttMax := Max(rttMax, Long(ms + 1));
      rttMin := Min(rttMin, ms);
      GrownBounds(samples, ms, old(rttMin), old(rttMax), rttMin, rttMax);
    }

    method TakeBurst()
      requires Kept()
      modifies this`meanBurst, this`bursts, table.sum, table.cnt
      ensures Kept() && bursts == Grown(old(bursts), outBurst)
    {
      meanBurst := Sample(table, meanBurstAt, outBurst, 1, bursts, meanBurst);
      bursts := Grown(bursts, outBurst);
    }

    method DropBursts()
      requires Kept()
      modifies this`meanBurst, this`bursts, table.sum, table.cnt
      ensures Kept() && bursts == []
    {
      var fatal, ret;
      fatal, ret, meanBurst := table.E(meanBurstAt, 0, -1);
      bursts := [];
    }

    /** What agent_timestamp does with a round trip of `ms`. */
    method TakeRound(ms: int)
      requires Valid() && IsAbs(ms)
      modifies this`rttMin, this`rttMax, this`rttMean, this`rttSqre, this`samples, table.sum, table.cnt
      ensures Valid() && samples == Grown(old(samples), ms)
      ensures MeansTrue() <==> StillFits(old(samples), ms)
      ensures rttMin == Min(old(rttMin), ms) && rttMax == Max(old(rttMax), Long(ms + 1))
    {
      TakeBounds(ms);
      assert Kept();
      TakeRtt(ms);
      assert Bounded();
    }

    /** The time the host has had for its burst. */
    method ComputePending(watch: Watch)
      requires Computed(tau, watch.Shown())
      modifies this`pendingTime, this`realTau
      ensures pendingTime == PendingOf(tau, watch.Shown())
    {
      if watch.currTstamp != 0 {
        pendingTime := Max(0, watch.currTstamp - watch.lastTstamp);
      } else {
        realTau := Long(watch.lastRtt + watch.waitingTime);
        realTau := MagicRound(tau, realTau);
        pendingTime := Max(Quotient(tau, 2), Long(realTau + Quotient(watch.jitter, 2)));
      }
    }

    /** And when it is 0. */
    method Pending(watch: Watch)
      requires Valid() && Computed(tau, watch.Shown())
      modifies this`pendingTime, this`realTau
      ensures Valid() && pendingTime == PendingOf(tau, watch.Shown())
      ensures pendingTime == 0 <==> IsZero(tau, watch.Shown())
      ensures tau >= 0 ==> pendingTime >= 0
    {
      PendingIsZeroIff(tau, watch.Shown());
      ComputePending(watch);
    }

    /** The largest burst takes in the next one. */
    method BoundBurst(burst: int)
      requires Bounded() && -BITS < burst < BITS && (tau >= 0 ==> burst >= 0)
      modifies this`outBurst, this`maxBurst
      ensures outBurst == burst && maxBurst == Max(old(maxBurst), burst) && 0 <= maxBurst
      ensures AtMost(Grown(bursts, burst), maxBurst) && Between(Grown(bursts, burst), -BITS, BITS)
      ensures tau >= 0 ==> Between(Grown(bursts, burst), 0, maxBurst + 1)
    {
      GrownIsBetween(bursts, burst, -BITS, BITS, -BITS, BITS);
      outBurst := burst;
      maxBurst := Max(maxBurst, outBurst);
      if tau >= 0 { GrownIsBetween(bursts, burst, 0, old(maxBurst) + 1, 0, maxBurst + 1); }
    }

    /** The burst that is reported, and its mean and maximum. */
    method CountBurst(diff: IdDiff, length: Word, ipSize: Word)
      requires Valid() && pendingTime != 0 && (tau >= 0 ==> pendingTime > 0)
      modifies this`outBurst, this`maxBurst, this`meanBurst, this`bursts, table.sum, table.cnt
      ensures Valid() && outBurst == Burst(diff, length, ipSize, pendingTime)
      ensures bursts == Grown(old(bursts), outBurst) && maxBurst == Max(old(maxBurst), outBurst)
    {
      var burst := Burst(diff, length, ipSize, pendingTime);
      BurstIsRate(diff, length, ipSize, pendingTime);
      BurstIsSmall(diff, length, ipSize, pendingTime);
      BoundBurst(burst);
      assert Kept();
      TakeBurst();
      assert Bounded();
    }

    /** In every state the mean burst is the mean of the bursts, not above the largest, and not below 0 if the period is
      * not. */
    lemma MeanOfBursts()
      requires Valid()
      ensures meanBurst == Mean(bursts, 1) <= maxBurst && (tau >= 0 ==> 0 <= meanBurst)
    {
      SumOfBursts(bursts);
      MeanIsShownIff(bursts, 1);
      MeanIsAtMost(bursts, maxBurst);
      if tau >= 0 && bursts != [] { MeanIsBetween(bursts, 0, maxBurst + 1); }
    }

    /** What report prints. If the squares add up to a long, the variance it takes the root of is that of the round
      * trips and never negative, and mean and deviation lie where they should. */
    method Report() returns (variance: int, sigma: nat)
      requires Valid()
      ensures variance == Long(rttSqre - rttMean * rttMean)
      ensures MeansTrue() <==> IsLong(Powers(samples, 2))
      ensures IsLong(Powers(samples, 2)) ==>
        && variance == Mean(samples, 2) - Mean(samples, 1) * Mean(samples, 1) >= 0 && sigma * sigma <= variance
        && (variance < 0x1_0000_0000 ==> variance < (sigma + 1) * (sigma + 1))
        && (samples != [] ==> rttMin <= rttMean < rttMax && sigma < rttMax)
      ensures variance < 0 ==> sigma == 65535
    {
      MeansTrueIff();
      variance := Long(rttSqre - Long(rttMean * rttMean));
      CutVariance(rttSqre, rttMean);
      sigma := Isqrt(variance);
      if IsLong(Powers(samples, 2)) {
        forall i | 0 <= i < |samples| ensures IsAbs(samples[i]) { assert Inside(samples[i], rttMin, rttMax); }
        TrueVariance(samples);
        if samples != [] { InsideBounds(samples, rttMin, rttMax, sigma); }
      }
    }
  }

  /** The squares of the samples and of the next one add up to a long, or the history is lost. */
  predicate StillFits(h: seq<int>, ms: int) {
    |h| + 1 >= K_SIZE || IsLong(Powers(h, 2) + ms * ms)
  }

  lemma GrownFitsIff(h: seq<int>, ms: int)
    ensures StillFits(h, ms) <==> IsLong(Powers(Grown(h, ms), 2))
  {
    assert (h + [ms])[..|h|] == h;
  }

  lemma {:induction false} SumOfBursts(h: seq<int>)
    requires |h| < K_SIZE && Between(h, -BITS, BITS)
    ensures IsLong(Powers(h, 1)) && -BITS * |h| <= Powers(h, 1) <= BITS * |h|
  {
    if h != [] { SumOfBursts(h[..|h| - 1]); }
  }

  lemma CutVariance(sqre: int, mean: int)
    ensures Long(sqre - Long(mean * mean)) == Long(sqre - mean * mean)
  {
    var k := LongTurns(mean * mean);
    var m := LongTurns(sqre - mean * mean);
    LongIs(sqre - Long(mean * mean), m + k);
  }

  /** The true variance is a long. */
  lemma TrueVariance(h: seq<int>)
    requires IsLong(Powers(h, 2)) && |h| < K_SIZE
    requires forall i | 0 <= i < |h| :: IsAbs(h[i])
    ensures var v := Mean(h, 2) - Mean(h, 1) * Mean(h, 1); v >= 0 && Long(v) == v
  {
    SquaresFit(h);
    VarianceIsPositive(h);
    SquareIsPositive(Mean(h, 1));
    SquaresAreGreater(h, 0);
    MeanIsBelowSum(h);
    LongFits(Mean(h, 2) - Mean(h, 1) * Mean(h, 1));
  }

  lemma MeanIsBelowSum(h: seq<int>)
    requires Powers(h, 2) >= 0
    ensures 0 <= Mean(h, 2) <= Powers(h, 2)
  {
    if h != [] { QuotientIsSmaller(Powers(h, 2), |h|); }
  }

  /** Where the squares add up to a long, minimum and maximum are true bounds. */
  lemma InsideBounds(h: seq<int>, lo: int, hi: int, sigma: nat)
    requires h != [] && IsLong(Powers(h, 2)) && Bounds(h, lo, hi)
    requires sigma * sigma <= Mean(h, 2) - Mean(h, 1) * Mean(h, 1)
    ensures lo <= Mean(h, 1) < hi && sigma < hi
  {
    SquaresFit(h);
    var low := Max(lo, 0);
    forall i | 0 <= i < |h| ensures low <= h[i] < hi {
      assert Inside(h[i], lo, hi);
      LongFits(h[i] + 1);
    }
    MeanIsBetween(h, low, hi);
    DeviationIsBelow(h, hi, sigma);
  }

  /** reset_stat */
  method ResetStat(ids: Ids, st: Statistics)
    requires st.Valid()
    modifies ids, st`outBurst, st`maxBurst, st`meanBurst, st`bursts, st.table.sum, st.table.cnt
    ensures st.Valid() && st.bursts == [] && st.maxBurst == 0 && st.outBurst == 0
    ensures ids.Shown() == Agents.ResetIpid(old(ids.Shown())) && ids.diffIpid == old(ids.diffIpid)
  {
    st.outBurst, st.maxBurst := 0, 0;
    ids.ResetIpid();
    st.DropBursts();
  }

  /** agent_ipid; `shown` is false where it returns -1. */
  method AgentIpid(ids: Ids, st: Statistics) returns (shown: bool)
    requires st.Valid()
    modifies ids, st`outBurst, st`maxBurst, st`meanBurst, st`bursts, st.table.sum, st.table.cnt
    ensures st.Valid() && (ids.Shown(), shown) == IpId(old(ids.Shown())) && ids.diffIpid == old(ids.diffIpid)
    ensures st.bursts == if Suspicious(old(ids.diffId)) && old(ids.ipidFailure) == 3 then [] else old(st.bursts)
  {
    shown := true;
    if ids.diffId != 0 && ids.diffId % 256 == 0 {
      ids.ipidFailure := ids.ipidFailure + 1;
      if ids.ipidFailure == 2 || ids.ipidFailure == 3 {
        shown := false;
      } else if ids.ipidFailure == 4 {
        ResetStat(ids, st);
        ids.endianBug := Switch(ids.endianBug);
        shown := false;
      }
    } else {
      ids.ipidFailure := 0;
    }
  }

  /** bandwidth_predictor gets past its two tests. */
  predicate Asked(sniff: bool, diffIpid: bool, randIpid: int) {
    !sniff && diffIpid && randIpid == 0
  }

  /** The second half of bandwidth_predictor; `crash` tells of a division by zero. */
  method Predict(watch: Watch, st: Statistics, diff: IdDiff, length: Word, ipSize: Word) returns (crash: bool)
    requires st.Valid() && Computed(st.tau, watch.Shown())
    modifies st`pendingTime, st`realTau, st`outBurst, st`maxBurst, st`meanBurst, st`bursts
    modifies st.table.sum, st.table.cnt
    ensures st.Valid() && (crash <==> IsZero(st.tau, watch.Shown()))
    ensures crash ==> st.bursts == old(st.bursts) && st.maxBurst == old(st.maxBurst)
    ensures !crash ==>
      && st.outBurst == Burst(diff, length, ipSize, PendingOf(st.tau, watch.Shown()))
      && st.bursts == Grown(old(st.bursts), st.outBurst) && st.maxBurst == Max(old(st.maxBurst), st.outBurst)
  {
    st.Pending(watch);
    crash := st.pendingTime == 0;
    if !crash { st.CountBurst(diff, length, ipSize); }
  }

  /** bandwidth_predictor; `crash` tells of a division by zero. */
  method BandwidthPredictor(ids: Ids, watch: Watch, st: Statistics, sniff: bool, length: Word, ipSize: Word)
    returns (crash: bool)
    requires st.Valid()
    requires Asked(sniff, ids.diffIpid, ids.randIpid) ==> Computed(st.tau, watch.Shown())
    modifies st`pendingTime, st`realTau, st`outBurst, st`maxBurst, st`meanBurst, st`bursts
    modifies st.table.sum, st.table.cnt
    ensures st.Valid()
    ensures crash <==> Asked(sniff, ids.diffIpid, ids.randIpid) && IsZero(st.tau, watch.Shown())
    ensures Asked(sniff, ids.diffIpid, ids.randIpid) && !crash ==>
      && st.outBurst == Burst(ids.diffId, length, ipSize, PendingOf(st.tau, watch.Shown()))
      && st.bursts == Grown(old(st.bursts), st.outBurst) && st.maxBurst == Max(old(st.maxBurst), st.outBurst)
    ensures !Asked(sniff, ids.diffIpid, ids.randIpid) || crash ==>
      st.bursts == old(st.bursts) && st.maxBurst == old(st.maxBurst)
  {
    crash := false;
    if sniff || !ids.diffIpid { return; }
    if ids.randIpid != 0 { return; }
    crash := Predict(watch, st, ids.diffId, length, ipSize);
  }

  /** A round trip of `ms` has been taken in: as a sample, by minimum and maximum, and by mean and mean square, which
    * are true just if the squares add up to a long. */
  twostate predicate Measured(st: Statistics, ms: int)
    reads *
  {
    && st.samples == Grown(old(st.samples), ms)
    && st.rttMin == Min(old(st.rttMin), ms) && st.rttMax == Max(old(st.rttMax), Long(ms + 1))
    && (st.MeansTrue() <==> StillFits(old(st.samples), ms))
  }

  /** agent_timestamp */
  method AgentTimestamp(watch: Watch, st: Statistics, now: Time, lastSent: Time, reply: Reply)
    requires st.Valid()
    modifies watch, st`rttMin, st`rttMax, st`rttMean, st`rttSqre, st`samples, st.table.sum, st.table.cnt
    ensures st.Valid() && watch.Shown() == Stamped(old(watch.Shown()), now, lastSent, reply)
    ensures Measured(st, watch.rtt.ms)
  {
    watch.Read(now, lastSent, reply);
    st.TakeRound(watch.rtt.ms);
  }

  /** agent_dyn_id and agent_ipid: `shown` is false where the packet is hidden. */
  method WatchIds(ids: Ids, st: Statistics, id: Word) returns (shown: bool)
    requires st.Valid()
    modifies ids, st`outBurst, st`maxBurst, st`meanBurst, st`bursts, st.table.sum, st.table.cnt
    ensures st.Valid() && (ids.Shown(), shown) == IpId(DynId(old(ids.Shown()), id)) && ids.diffIpid == old(ids.diffIpid)
    ensures st.bursts == if Flips(old(ids.Shown()), id) then [] else old(st.bursts)
  {
    ids.AgentDynId(id);
    shown := AgentIpid(ids, st);
  }

  /** A packet with the id `id` is shown, and its difference is not random. */
  predicate Counted(a: Agent, id: Word) {
    var (b, shown) := IpId(DynId(a, id)); shown && b.randIpid == 0
  }

  /** The packet brings a burst. */
  predicate Bursts(a: Agent, id: Word, sniff: bool, detail: bool, diffIpid: bool) {
    !sniff && detail && diffIpid && Counted(a, id)
  }

  /** The bursts after a packet: dropped at a revert of the byte order, and extended where the packet brings one. */
  function Heard(a: Agent, id: Word, bursts: seq<int>, length: Word, ipSize: Word, pending: int): seq<int> {
    var kept := if Flips(a, id) then [] else bursts;
    if pending == 0 then kept else Grown(kept, Burst(DynId(a, id).diffId, length, ipSize, pending))
  }

  /** The pending time of a packet that brings a burst, 0 of any other. */
  ghost function PendingIf(bursting: bool, tau: CLong, t: Times): int
    requires bursting ==> Computed(tau, t)
  {
    if bursting then PendingOf(tau, t) else 0
  }

  /** A packet while not sniffing, from agent_dyn_id to the predictor. */
  method Answered(ids: Ids, watch: Watch, st: Statistics, id: Word, detail: bool, length: Word, ipSize: Word)
    returns (crash: bool)
    requires st.Valid()
    requires Bursts(ids.Shown(), id, false, detail, ids.diffIpid) ==> Computed(st.tau, watch.Shown())
    modifies ids, st`pendingTime, st`realTau, st`outBurst, st`maxBurst, st`meanBurst, st`bursts
    modifies st.table.sum, st.table.cnt
    ensures st.Valid() && ids.diffIpid == old(ids.diffIpid)
    ensures ids.Shown() == IpId(DynId(old(ids.Shown()), id)).0
    ensures var r := Bursts(old(ids.Shown()), id, false, detail, ids.diffIpid);
      && (crash <==> r && IsZero(st.tau, watch.Shown()))
      && st.bursts == Heard(old(ids.Shown()), id, old(st.bursts), length, ipSize, PendingIf(r, st.tau, watch.Shown()))
  {
    crash := false;
    var shown := WatchIds(ids, st, id);
    if shown && detail {
      if Asked(false, ids.diffIpid, ids.randIpid) { PendingIsZeroIff(st.tau, watch.Shown()); }
      crash := BandwidthPredictor(ids, watch, st, false, length, ipSize);
    }
  }

  /** A packet shown with the times `t` has been handled. The division by zero comes just where it brings a burst and
    * these times leave it none. */
  twostate predicate Handled(ids: Ids, watch: Watch, st: Statistics, sniff: bool, id: Word, detail: bool, length: Word,
                             ipSize: Word, t: Times, crash: bool)
    requires old(Bursts(ids.Shown(), id, sniff, detail, ids.diffIpid)) ==> Computed(st.tau, t)
    reads *
  {
    var a, r := old(ids.Shown()), old(Bursts(ids.Shown(), id, sniff, detail, ids.diffIpid));
    && st.Valid() && ids.diffIpid == old(ids.diffIpid) && watch.Shown() == (if crash then t else Passed(t))
    && (crash <==> r && IsZero(st.tau, t))
    && (!sniff ==>
         && st.bursts == Heard(a, id, old(st.bursts), length, ipSize, PendingIf(r, st.tau, t))
         && (!crash ==> ids.Shown() == Packet(a, id)))
    && (sniff ==> st.bursts == old(st.bursts) && ids.Shown() == a.(lastId := a.currId))
  }

  /** What the loop does behind agent_timestamp. */
  method Handle(ids: Ids, watch: Watch, st: Statistics, sniff: bool, id: Word, detail: bool, length: Word,
                ipSize: Word)
    returns (crash: bool)
    requires st.Valid()
    requires Bursts(ids.Shown(), id, sniff, detail, ids.diffIpid) ==> Computed(st.tau, watch.Shown())
    modifies ids, watch, st`pendingTime, st`realTau, st`outBurst, st`maxBurst, st`meanBurst, st`bursts
    modifies st.table.sum, st.table.cnt
    ensures Handled(ids, watch, st, sniff, id, detail, length, ipSize, old(watch.Shown()), crash)
  {
    if !sniff {
      crash := Answered(ids, watch, st, id, detail, length, ipSize);
    } else {
      crash := false;
      if detail { crash := BandwidthPredictor(ids, watch, st, sniff, length, ipSize); }
    }
    if !crash {
      ids.lastId := ids.currId;
      watch.Keep();
    }
  }

  /** What the loop does with one packet that passed the filters. With `detail` the packet's dissector calls
    * bandwidth_predictor, which divides by zero just where the times before the call say so. */
  method Receive(ids: Ids, watch: Watch, st: Statistics, sniff: bool, now: Time, lastSent: Time, reply: Reply, id: Word,
                 detail: bool, length: Word, ipSize: Word, ghost t: Times)
    returns (crash: bool)
    requires st.Valid() && t == Observed(watch.Shown(), sniff, now, lastSent, reply)
    requires Bursts(ids.Shown(), id, sniff, detail, ids.diffIpid) ==> Computed(st.tau, t)
    modifies ids, watch, st, st.table.sum, st.table.cnt
    ensures Handled(ids, watch, st, sniff, id, detail, length, ipSize, t, crash)
    ensures if sniff then st.samples == old(st.samples) else Measured(st, t.rtt.ms)
  {
    watch.Wait(now, lastSent, reply);
    if !sniff { AgentTimestamp(watch, st, now, lastSent, reply); }
    crash := Handle(ids, watch, st, sniff, id, detail, length, ipSize);
  }

  /** Once a packet with a time stamp has become the last, the next one that brings a burst crashes, unless it has a
    * later time stamp: two timestamp replies in the same millisecond do. */
  method SecondReplyCrashes(ids: Ids, watch: Watch, st: Statistics, now: Time, lastSent: Time, stamp: CUint,
                            otime: CUint, id: Word, now': Time, lastSent': Time, reply: Reply, id': Word,
                            length: Word, ipSize: Word)
    returns (crash: bool)
    requires st.Valid() && ids.diffIpid && stamp != 0 && (reply.Stamp? ==> 0 < reply.rtime <= stamp)
    requires Bursts(Packet(ids.Shown(), id), id', false, true, true)
    modifies ids, watch, st, st.table.sum, st.table.cnt
    ensures st.Valid() && crash
  {
    ghost var t := Observed(watch.Shown(), false, now, lastSent, Stamp(otime, stamp));
    crash := Receive(ids, watch, st, false, now, lastSent, Stamp(otime, stamp), id, true, length, ipSize, t);
    if !crash {
      ghost var u := Observed(Passed(t), false, now', lastSent', reply);
      NextIsZero(st.tau, t, now', lastSent', reply);
      PendingIsZeroIff(st.tau, u);
      crash := Receive(ids, watch, st, false, now', lastSent', reply, id', true, length, ipSize, u);
    }
  }

  lemma MidnightStamp(t: Times, now: Time, lastSent: Time, otime: CUint, rtime: CUint)
    requires Remainder(now.sec, 24 * 60 * 60) == 0 && 0 <= now.usec < 1000
    ensures Observed(t, false, now, lastSent, Stamp(otime, rtime)).rtt.ms == otime
  {
    LongFits(0 - otime);
  }

  /** One timestamp reply of a first run of packets, at midnight. */
  method AtMidnight(ids: Ids, watch: Watch, st: Statistics, now: Time, lastSent: Time, otime: CUint, rtime: CUint,
                    id: Word)
    requires st.Valid() && |st.samples| < 2 && Remainder(now.sec, 24 * 60 * 60) == 0 && 0 <= now.usec < 1000
    modifies ids, watch, st, st.table.sum, st.table.cnt
    ensures st.Valid() && st.samples == old(st.samples) + [otime as int]
  {
    MidnightStamp(watch.Shown(), now, lastSent, otime, rtime);
    ghost var t := Observed(watch.Shown(), false, now, lastSent, Stamp(otime, rtime));
    var crash := Receive(ids, watch, st, false, now, lastSent, Stamp(otime, rtime), id, false, 0, 0, t);
  }

  method ReportOfOverflow(st: Statistics) returns (variance: int, sigma: nat)
    requires st.Valid() && st.samples == [0xFFFF_FFFF, 0]
    ensures variance == -0x4000_0000_0000_0000 && sigma == 65535
  {
    OverflowShows();
    variance, sigma := st.Report();
    assert st.rttSqre - st.rttMean * st.rttMean == -0x4000_0000_0000_0000;
    LongFits(-0x4000_0000_0000_0000);
  }

  /** Two timestamp replies at midnight, of which the first carries 0xFFFFFFFF and the second 0, and report takes the
    * root of a negative variance. */
  method TwoStampsOverflow(ids: Ids, watch: Watch, st: Statistics, now: Time, lastSent: Time, rtime: CUint, id: Word,
                           now': Time, lastSent': Time, rtime': CUint, id': Word)
    returns (variance: int, sigma: nat)
    requires st.Valid() && st.samples == []
    requires Remainder(now.sec, 24 * 60 * 60) == 0 && 0 <= now.usec < 1000
    requires Remainder(now'.sec, 24 * 60 * 60) == 0 && 0 <= now'.usec < 1000
    modifies ids, watch, st, st.table.sum, st.table.cnt
    ensures variance == -0x4000_0000_0000_0000 && sigma == 65535
  {
    AtMidnight(ids, watch, st, now, lastSent, 0xFFFF_FFFF, rtime, id);
    AtMidnight(ids, watch, st, now', lastSent', 0, rtime', id');
    variance, sigma := ReportOfOverflow(st);
  }

  /** The keys that reset the agents. */
  method Key(ids: Ids, st: Statistics, e: Event)
    requires st.Valid() && !e.Received?
    modifies ids, st, st.table.sum, st.table.cnt
    ensures st.Valid() && st.samples == old(st.samples)
    ensures st.bursts == if e.Traffic? then old(st.bursts) else []
    ensures ids.Shown() == Agents.Step(old(ids.Shown()), e)
    ensures ids.diffIpid == (if e.Diff? then !old(ids.diffIpid) else old(ids.diffIpid))
  {
    match e
    case Traffic => ids.ResetIpid();
    case Endian =>
      ResetStat(ids, st);
      ids.endianBug := Switch(ids.endianBug);
    case Diff =>
      ResetStat(ids, st);
      ids.diffIpid := !ids.diffIpid;
  }
}
