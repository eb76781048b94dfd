/** What the times between packets mean: round trips, the time between two sendings, and the pending time. */
module Pending {
  import opened Arithmetic
  import opened Clock
  import opened Expectation
  import opened Machine
  import opened Rounding

  // ---- round trips ----

  /** When the packet was sent, as the host that sent it saw it. */
  function SentAt(lastSent: Time, reply: Reply): Time {
    if reply.Echo? then reply.sent else lastSent
  }

  /** The round trip of an echo reply counts from the time in it, that of any other packet but a timestamp reply from
    * the last sending: it is the time since then, if that is not negative, fits in and needs no borrowing. */
  lemma RoundTripIsTimeSince(t: Times, now: Time, lastSent: Time, reply: Reply)
    requires !reply.Stamp?
    requires var sent := SentAt(lastSent, reply);
      InRange(now, sent) && Borrowless(now, sent) && Micros(sent) <= Micros(now)
    ensures var u := Stamped(t, now, lastSent, reply);
      u.rtt.ms * 1000 + u.rtt.frc == Micros(now) - Micros(SentAt(lastSent, reply)) && 0 <= u.rtt.frc < 1000
  {
    AdjustedIsExactIff(now, SentAt(lastSent, reply));
  }

  /** The milliseconds since midnight. */
  function SinceMidnight(now: Time): int {
    now.sec % (24 * 60 * 60) * 1000 + now.usec / 1000
  }

  predicate OnClock(now: Time) {
    now.sec >= 0 && 0 <= now.usec < 1000000
  }

  /** The round trip of a timestamp reply is the time since midnight less the one it was sent with. */
  lemma StampedSinceMidnight(now: Time, lastSent: Time, otime: CUint, rtime: CUint)
    requires OnClock(now)
    ensures RoundTrip(now, lastSent, Stamp(otime, rtime)) == Span(SinceMidnight(now) - otime, 0)
  {
    var day := 24 * 60 * 60;
    assert now.sec == now.sec / day * day + now.sec % day;
    LongFits(SinceMidnight(now) - otime);
  }

  /** So two of them on one day have round trips that differ by the time between them, less the difference of the times
    * they were sent with. */
  lemma StampsOfOneDay(now: Time, otime: CUint, rtime: CUint, now': Time, otime': CUint, rtime': CUint, lastSent: Time)
    requires OnClock(now) && OnClock(now') && now.sec / (24 * 60 * 60) == now'.sec / (24 * 60 * 60)
    ensures RoundTrip(now', lastSent, Stamp(otime', rtime')).ms - RoundTrip(now, lastSent, Stamp(otime, rtime)).ms
      == (now'.sec - now.sec) * 1000 + (now'.usec / 1000 - now.usec / 1000) - (otime' - otime)
  {
    StampedSinceMidnight(now, lastSent, otime, rtime);
    StampedSinceMidnight(now', lastSent, otime', rtime');
    var day := 24 * 60 * 60;
    assert now.sec == now.sec / day * day + now.sec % day && now'.sec == now'.sec / day * day + now'.sec % day;
  }

  /** The jitter is how much longer this round trip was than the last one. */
  lemma JitterIsGrowth(t: Times, now: Time, lastSent: Time, reply: Reply)
    requires t.lastRtt >= 0
    ensures var u := Stamped(t, now, lastSent, reply); u.rtt.ms >= 0 ==> u.jitter == u.rtt.ms - t.lastRtt
  {
    LongFits(Stamped(t, now, lastSent, reply).rtt.ms - t.lastRtt);
  }

  // ---- the time between two sendings ----

  predicate Whole(t: Time) {
    t.usec % 1000 == 0
  }

  lemma WholeDifference(a: Time, b: Time)
    requires InRange(a, b) && Whole(a) && Whole(b)
    ensures Difference(a, b).frc == 0 && Borrowless(a, b)
  {
    var d := a.usec - b.usec;
    var m := a.usec / 1000 - b.usec / 1000;
    assert d == 1000 * m;
    LongFits(d);
    QuotientIs(d, m, 0, 1000);
    QuotientIs(-d, -m, 0, 1000);
  }

  /** Two echo replies in a row: whatever the network does, the last round trip and the waiting time make up the time
    * between the two sendings, to less than two milliseconds, and exactly if all times are whole milliseconds. */
  lemma SendingsApart(t: Times, now: Time, sent: Time, now': Time, sent': Time, lastSent: Time)
    requires InRange(now, sent) && Borrowless(now, sent) && Micros(sent) <= Micros(now) && InRange(sent', now)
    ensures var first := Observed(t, false, now, lastSent, Echo(sent));
      var u := Observed(Passed(first), false, now', lastSent, Echo(sent'));
      var off := (u.lastRtt + u.waitingTime) * 1000 - (Micros(sent') - Micros(sent));
      -2000 < off < 1000 && (Whole(now) && Whole(sent) && Whole(sent') ==> off == 0)
  {
    var first := Observed(t, false, now, lastSent, Echo(sent));
    RoundTripIsTimeSince(Waited(t, now, lastSent, Echo(sent)), now, lastSent, Echo(sent));
    DifferenceIsExactIff(sent', now);
    if Whole(now) && Whole(sent) && Whole(sent') {
      WholeDifference(now, sent);
      WholeDifference(sent', now);
    }
  }

  // ---- the pending time ----

  lemma OnlyMultiple(a: int, x: int, y: int)
    requires a > 0 && x % a == 0 && y % a == 0 && -a < x - y < a
    ensures x == y
  {
    var p, q := x / a, y / a;
    assert x == p * a && y == q * a;
    assert x - y == (p - q) * a;
    if p != q { MultipleIsFar(p - q, a); }
  }

  /** Nearest to `k` periods. */
  predicate NearPeriods(tau: int, b: int, k: int) {
    -tau <= 2 * (k * tau - b) < tau
  }

  lemma NearestIs(tau: int, b: int, k: int)
    requires tau > 0 && b >= 0 && NearPeriods(tau, b, k)
    ensures Nearest(tau, b) == k * tau
  {
    QuotientIs(k * tau, k, 0, tau);
    OnlyMultiple(tau, Nearest(tau, b), k * tau);
  }

  /** A packet without a time stamp, for a period of two milliseconds or more, whose last round trip and waiting time
    * lie nearest to `k` periods: it has been pending for `k` periods and half the jitter, but not for less than half a
    * period; without jitter for `k` periods, if `k` is not 0. */
  lemma PeriodsArePending(tau: CLong, t: Times, k: nat)
    requires tau >= 2 && t.currTstamp == 0 && 0 <= t.lastRtt + t.waitingTime && Fits(tau, t.lastRtt + t.waitingTime)
    requires NearPeriods(tau, t.lastRtt + t.waitingTime, k)
    ensures Computed(tau, t)
    ensures var n := k * tau + Quotient(t.jitter, 2); PendingOf(tau, t) == if n >= tau / 2 then n else tau / 2
    ensures t.jitter == 0 && k > 0 ==> PendingOf(tau, t) == k * tau
  {
    NearestIs(tau, t.lastRtt + t.waitingTime, k);
    NearestIsPending(tau, t, k * tau);
    if k > 0 { MultipleIsFar(k, tau); }
  }

  lemma NearestIsPending(tau: CLong, t: Times, n: int)
    requires tau >= 2 && t.currTstamp == 0 && 0 <= t.lastRtt + t.waitingTime && Fits(tau, t.lastRtt + t.waitingTime)
    requires n == Nearest(tau, t.lastRtt + t.waitingTime)
    ensures Computed(tau, t) && PendingOf(tau, t) == Max(tau / 2, n + Quotient(t.jitter, 2))
  {
    var b := t.lastRtt + t.waitingTime;
    LongFits(b);
    RoundedIsNearest(tau, b);
    HalfIsSmall(t.jitter);
    LongFits(n + Quotient(t.jitter, 2));
  }

  /** A ping sent, and a reply that came `r` milliseconds later. */
  predicate Ping(sent: Time, now: Time, r: nat) {
    Whole(sent) && Whole(now) && InRange(now, sent) && Micros(now) - Micros(sent) == 1000 * r
  }

  /** All of it together, for two pings of which the second was sent `n` milliseconds after the first, `n` being a
    * number of periods: the host has had this time for its burst, and half of what the second reply took longer. */
  lemma EchoesArePending(tau: CLong, t: Times, sent: Time, now: Time, r: nat, sent': Time, now': Time, r': nat,
                         lastSent: Time, n: nat)
    requires tau >= 2 && t.currTstamp == 0 && Ping(sent, now, r) && Ping(sent', now', r') && InRange(sent', now)
    requires Micros(sent') - Micros(sent) == 1000 * n && n % tau == 0 && n + tau < INT
    ensures var first := Observed(t, false, now, lastSent, Echo(sent));
      var u := Observed(Passed(first), false, now', lastSent, Echo(sent'));
      Computed(tau, u) && PendingOf(tau, u) == Max(tau / 2, n + Quotient(r' - r, 2))
  {
    var w := Waited(t, now, lastSent, Echo(sent));
    var first := Stamped(w, now, lastSent, Echo(sent));
    var w' := Waited(Passed(first), now', lastSent, Echo(sent'));
    var u := Stamped(w', now', lastSent, Echo(sent'));
    PingIs(w, sent, now, r, lastSent);
    PingIs(w', sent', now', r', lastSent);
    SendingsApart(t, now, sent, now', sent', lastSent);
    JitterIsGrowth(w', now', lastSent, Echo(sent'));
    MultipleIsNearest(tau, n);
    NearestIsPending(tau, u, n);
  }

  lemma PingIs(t: Times, sent: Time, now: Time, r: nat, lastSent: Time)
    requires Ping(sent, now, r)
    ensures Borrowless(now, sent) && Stamped(t, now, lastSent, Echo(sent)).rtt.ms == r
    ensures Stamped(t, now, lastSent, Echo(sent)).rtt.frc == 0
  {
    WholeDifference(now, sent);
    RoundTripIsTimeSince(t, now, lastSent, Echo(sent));
  }

  lemma MultipleIsNearest(tau: int, n: nat)
    requires tau > 0 && n % tau == 0 && n + tau < INT
    ensures Fits(tau, n) && Nearest(tau, n) == n
  {
  }

  /** A negative sum is rounded to 0: half the period, or half the jitter if that is more. */
  lemma NegativeSumIsPending(tau: CLong, t: Times)
    requires 2 <= tau < INT && t.currTstamp == 0 && -0x4000_0000_0000_0000 <= t.lastRtt + t.waitingTime < 0
    ensures Computed(tau, t) && PendingOf(tau, t) == Max(tau / 2, Quotient(t.jitter, 2))
  {
    LongFits(t.lastRtt + t.waitingTime);
    AtOnce(tau, t.lastRtt + t.waitingTime);
    HalfIsSmall(t.jitter);
    LongFits(Quotient(t.jitter, 2));
  }

  // ---- runs of time stamps ----

  datatype Packet = Packet(now: Time, lastSent: Time, reply: Reply)

  /** The times a packet is shown with. */
  function Shown(t: Times, p: Packet): Times {
    Observed(t, false, p.now, p.lastSent, p.reply)
  }

  function After(t: Times, ps: seq<Packet>): Times {
    if ps == [] then t else Passed(Shown(After(t, ps[..|ps| - 1]), ps[|ps| - 1]))
  }

  /** The time stamp of the last packet, `from` if there is none. */
  function LastStamp(from: nat, ps: seq<Packet>): nat {
    if ps != [] && ps[|ps| - 1].reply.Stamp? then ps[|ps| - 1].reply.rtime else from
  }

  /** Timestamp replies, each later than the one before. */
  ghost predicate Later(from: nat, ps: seq<Packet>) {
    ps == [] || (
      && Later(from, ps[..|ps| - 1])
      && ps[|ps| - 1].reply.Stamp? && LastStamp(from, ps[..|ps| - 1]) < ps[|ps| - 1].reply.rtime)
  }

  /** The pending times of the packets, added up. */
  ghost function PendingSum(tau: CLong, t: Times, ps: seq<Packet>): int {
    if ps == [] then 0 else
      var u := Shown(After(t, ps[..|ps| - 1]), ps[|ps| - 1]);
      PendingSum(tau, t, ps[..|ps| - 1]) + if Computed(tau, u) then PendingOf(tau, u) else 0
  }

  lemma OneStamp(tau: CLong, t: Times, p: Packet)
    requires p.reply.Stamp? && t.currTstamp == t.lastTstamp < p.reply.rtime
    ensures var u := Shown(t, p);
      && Computed(tau, u) && PendingOf(tau, u) == p.reply.rtime - t.currTstamp
      && Passed(u).currTstamp == Passed(u).lastTstamp == p.reply.rtime
  {
  }

  /** Over a run of later and later time stamps every pending time is computed, and they add up to the last time stamp
    * less the one before the run. */
  lemma {:induction false} StampsAddUp(tau: CLong, t: Times, ps: seq<Packet>)
    requires t.currTstamp == t.lastTstamp && Later(t.currTstamp, ps)
    ensures After(t, ps).currTstamp == After(t, ps).lastTstamp == LastStamp(t.currTstamp, ps)
    ensures PendingSum(tau, t, ps) == LastStamp(t.currTstamp, ps) - t.currTstamp
  {
    if ps != [] {
      var m := |ps| - 1;
      StampsAddUp(tau, t, ps[..m]);
      OneStamp(tau, After(t, ps[..m]), ps[m]);
    }
  }
}
