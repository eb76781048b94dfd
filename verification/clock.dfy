/** The times that receiver.c keeps between packets, and the pending time that statistic.c makes of them. */
module Clock {
  import opened Expectation
  import opened Machine
  import opened Rounding

  function Max(a: int, b: int): int {
    if a > b then a else b
  }

  function Min(a: int, b: int): int {
    if a < b then a else b
  }

  /** Remainder of C. */
  function Remainder(a: int, d: nat): int
    requires d > 0
  {
    a - Quotient(a, d) * d
  }

  // ---- differences of times ----

  datatype Time = Time(sec: CLong, usec: CLong)

  function Micros(t: Time): int {
    t.sec * 1000000 + t.usec
  }

  /** A span in milliseconds and microseconds. */
  datatype Span = Span(ms: CLong, frc: int)

  /** Each result is cut to a long. */
  function InSteps(sec: int, ms: int): CLong {
    Long(Long(Long(sec) * 1000) + ms)
  }

  /** DIFFTIME_int and DIFFTIME_frc */
  function Difference(a: Time, b: Time): Span {
    var usec := Long(a.usec - b.usec);
    Span(InSteps(a.sec - b.sec, Quotient(usec, 1000)), Remainder(usec, 1000))
  }

  /** TIME_ADJUST */
  function Adjusted(s: Span): Span {
    if s.frc < 0 then Span(Long(s.ms + 1), s.frc + 1000) else s
  }

  /** The milliseconds before they are cut to a long. */
  function Milliseconds(a: Time, b: Time): int {
    (a.sec - b.sec) * 1000 + Quotient(Long(a.usec - b.usec), 1000)
  }

  lemma CutTwice(x: int, q: int, y: int)
    requires y == x * 1000 + q
    ensures InSteps(x, q) == Long(y)
  {
    LongTimes(x, 1000);
    LongAbsorbs(x * 1000, q);
  }

  /** The intermediate results may be cut, the last one is all that matters. */
  lemma CutOnce(a: Time, b: Time)
    ensures Difference(a, b).ms == Long(Milliseconds(a, b))
  {
    CutTwice(a.sec - b.sec, Quotient(Long(a.usec - b.usec), 1000), Milliseconds(a, b));
  }

  /** The difference fits in: that of the microseconds, and then that of the times in milliseconds. */
  predicate InRange(a: Time, b: Time) {
    IsLong(a.usec - b.usec) && IsLong(Milliseconds(a, b))
  }

  lemma RemainderIsRest(u: int)
    ensures Quotient(u, 1000) * 1000 + Remainder(u, 1000) == u && -1000 < Remainder(u, 1000) < 1000
  {
    QuotientTruncates(u, 1000);
  }

  lemma FewTurns(x: int, j: int)
    requires -2 * LONG < x < 2 * LONG && Long(x) == x - 2 * LONG * j
    ensures -1 <= j <= 1 && (j == 0 <==> IsLong(x))
  {
    LongFits(x);
  }

  lemma NoTurns(x: int, k: int)
    requires Long(x) == x - 2 * LONG * k
    ensures k == 0 <==> IsLong(x)
  {
    LongFits(x);
  }

  /** How far a span is off. */
  lemma DifferenceTurns(a: Time, b: Time) returns (j: int, k: int)
    ensures var s := Difference(a, b);
      s.ms * 1000 + s.frc == Micros(a) - Micros(b) - 2 * LONG * (j + 1000 * k) && -1000 < s.frc < 1000
    ensures -1 <= j <= 1 && (j == 0 && k == 0 <==> InRange(a, b))
  {
    CutOnce(a, b);
    j := LongTurns(a.usec - b.usec);
    k := LongTurns(Milliseconds(a, b));
    FewTurns(a.usec - b.usec, j);
    NoTurns(Milliseconds(a, b), k);
    RemainderIsRest(Long(a.usec - b.usec));
  }

  lemma OffByTurns(t: int, total: int, j: int, k: int, m: int, borrowed: bool)
    requires -1 <= j <= 1
    requires total == t - 2 * LONG * (j + 1000 * k) + if borrowed then 2000 - 2 * LONG * (1000 * m) else 0
    ensures total == t <==> j == 0 && k == 0 && !borrowed
    ensures j == 0 && k == 0 && m == 0 && borrowed ==> total == t + 2000
  {
  }

  /** Before the adjustment the span is exact just if it fits in, but its parts may differ in sign. */
  lemma DifferenceIsExactIff(a: Time, b: Time)
    ensures var s := Difference(a, b);
      (s.ms * 1000 + s.frc == Micros(a) - Micros(b) <==> InRange(a, b)) && -1000 < s.frc < 1000
  {
    var s := Difference(a, b);
    var j, k := DifferenceTurns(a, b);
    OffByTurns(Micros(a) - Micros(b), s.ms * 1000 + s.frc, j, k, 0, false);
  }

  /** A negative remainder is borrowed the wrong way. */
  lemma AdjustedSpan(s: Span) returns (m: int)
    requires -1000 < s.frc < 1000
    ensures var r := Adjusted(s);
      && 0 <= r.frc < 1000
      && r.ms * 1000 + r.frc == s.ms * 1000 + s.frc + (if s.frc < 0 then 2000 - 2 * LONG * (1000 * m) else 0)
      && (s.ms < LONG - 1 ==> m == 0)
  {
    m := LongTurns(s.ms + 1);
    NoTurns(s.ms + 1, m);
  }

  /** The microseconds of `a` are not below those of `b`, or below them by whole milliseconds. */
  predicate Borrowless(a: Time, b: Time) {
    a.usec >= b.usec || (b.usec - a.usec) % 1000 == 0
  }

  /** The adjustment borrows the wrong way: the span stays exact just if it fits in and needs no borrowing; where it
    * does, a span that fits in comes out two milliseconds too great. */
  lemma AdjustedIsExactIff(a: Time, b: Time)
    ensures var s := Adjusted(Difference(a, b));
      && (s.ms * 1000 + s.frc == Micros(a) - Micros(b) <==> InRange(a, b) && Borrowless(a, b))
      && (InRange(a, b) && !Borrowless(a, b) && Difference(a, b).ms < LONG - 1 ==>
           s.ms * 1000 + s.frc == Micros(a) - Micros(b) + 2000)
    ensures 0 <= Adjusted(Difference(a, b)).frc < 1000
  {
    var s := Difference(a, b);
    var j, k := DifferenceTurns(a, b);
    var m := AdjustedSpan(s);
    var r := Adjusted(s);
    OffByTurns(Micros(a) - Micros(b), r.ms * 1000 + r.frc, j, k, m, s.frc < 0);
    SignOfRemainder(a.usec - b.usec);
  }

  lemma SignOfRemainder(d: int)
    ensures IsLong(d) ==> (Remainder(Long(d), 1000) < 0 <==> d < 0 && -d % 1000 != 0)
  {
    LongFits(d);
    Borrowed(Long(d));
  }

  /** Only there the remainder is negative. */
  lemma Borrowed(d: int)
    ensures Remainder(d, 1000) < 0 <==> d < 0 && -d % 1000 != 0
  {
    QuotientTruncates(d, 1000);
    if d < 0 { assert -d == -d / 1000 * 1000 + -d % 1000; }
  }

  // ---- what is kept between packets ----

  /** A reply to an echo with the time it was sent at, a reply to a timestamp, and every other packet. */
  datatype Reply = Echo(sent: Time) | Stamp(otime: CUint, rtime: CUint) | Other

  datatype Times = Times(rtt: Span, lastRtt: CLong, jitter: CLong, waitingTime: CLong, currTstamp: CUint,
                         lastTstamp: CUint, lastAck: Time)

  /** What the loop does first. */
  function Waited(t: Times, now: Time, lastSent: Time, reply: Reply): Times {
    var sent := if reply.Echo? then reply.sent else lastSent;
    t.(waitingTime := Difference(sent, t.lastAck).ms, lastAck := now)
  }

  /** The round trip: that of a timestamp counts from midnight. */
  function RoundTrip(now: Time, lastSent: Time, reply: Reply): Span {
    match reply
    case Echo(sent) => Adjusted(Difference(now, sent))
    case Stamp(otime, _) =>
      Span(Long(Remainder(now.sec, 24 * 60 * 60) * 1000 + Quotient(now.usec, 1000) - otime), 0)
    case Other => Adjusted(Difference(now, lastSent))
  }

  /** agent_timestamp, as far as times go. */
  function Stamped(t: Times, now: Time, lastSent: Time, reply: Reply): Times {
    var s := RoundTrip(now, lastSent, reply);
    t.(rtt := Span(AbsLong(s.ms), s.frc), currTstamp := if reply.Stamp? then reply.rtime else t.currTstamp,
       jitter := Long(AbsLong(s.ms) - t.lastRtt))
  }

  /** The end of the loop. */
  function Passed(t: Times): Times {
    t.(lastRtt := t.rtt.ms, lastTstamp := t.currTstamp)
  }

  /** The times when the packet is shown. */
  function Observed(t: Times, sniff: bool, now: Time, lastSent: Time, reply: Reply): Times {
    var w := Waited(t, now, lastSent, reply);
    if sniff then w else Stamped(w, now, lastSent, reply)
  }

  // ---- the pending time of bandwidth_predictor ----

  /** What magic_round is asked to round. */
  function LastRound(t: Times): CLong {
    Long(t.lastRtt + t.waitingTime)
  }

  /** It is computed at all: with no time stamp, magic_round has to end. */
  predicate Computed(tau: CLong, t: Times) {
    t.currTstamp != 0 || Ends(tau, LastRound(t))
  }

  /** The estimate without a time stamp. */
  ghost function Estimate(tau: CLong, t: Times): CLong
    requires Ends(tau, LastRound(t))
  {
    Long(Rounded(tau, LastRound(t)) + Quotient(t.jitter, 2))
  }

  /** The time the host has had for its burst; option -i sets the period to any number. */
  ghost function PendingOf(tau: CLong, t: Times): int
    requires Computed(tau, t)
  {
    if t.currTstamp != 0 then Max(0, t.currTstamp - t.lastTstamp) else Max(Quotient(tau, 2), Estimate(tau, t))
  }

  /** The pending time is 0, and the burst is divided by zero, just here: with a time stamp, if it is not later than the
    * last; with none, never for a period of two milliseconds or more, and for shorter ones and for negative ones by the
    * estimate. */
  ghost predicate IsZero(tau: CLong, t: Times)
    requires Computed(tau, t)
  {
    if t.currTstamp != 0 then t.currTstamp <= t.lastTstamp
    else tau < 2 && (Estimate(tau, t) == 0 || (tau > -2 && Estimate(tau, t) < 0))
  }

  lemma PendingIsZeroIff(tau: CLong, t: Times)
    requires Computed(tau, t)
    ensures PendingOf(tau, t) == 0 <==> IsZero(tau, t)
    ensures t.currTstamp != 0 || tau >= 0 ==> PendingOf(tau, t) >= 0
  {
  }

  /** The estimate spelt out for short and for negative periods, if the time to be rounded is an int above or below the
    * period. */
  lemma ShortPeriodIsZeroIff(tau: CLong, t: Times)
    requires t.currTstamp == 0 && -INT <= tau < 2 && -INT <= LastRound(t) < INT - 1
    requires tau == 1 || LastRound(t) < tau
    ensures Computed(tau, t)
    ensures var j := Quotient(t.jitter, 2);
      IsZero(tau, t) <==>
        if tau == 1 then Max(0, LastRound(t)) + j <= 0
        else if tau >= -1 then tau + j <= 0
        else tau + j == 0
  {
    ShortRound(tau, LastRound(t));
    HalfIsSmall(t.jitter);
    LongFits(Rounded(tau, LastRound(t)) + Quotient(t.jitter, 2));
  }

  lemma ShortRound(tau: int, b: int)
    requires -INT <= tau < 2 && -INT <= b < INT - 1 && (tau == 1 || b < tau)
    ensures Ends(tau, b) && Rounded(tau, b) == if tau == 1 then Max(0, b) else tau
  {
    if tau == 1 && b >= 0 {
      RoundedIsNearest(1, b);
    } else {
      AtOnce(tau, b);
    }
  }

  lemma HalfIsSmall(x: CLong)
    ensures -0x4000_0000_0000_0000 <= Quotient(x, 2) < 0x4000_0000_0000_0000
  {
    QuotientTruncates(x, 2);
  }

  /** With a period below 0 the pending time can be negative: one second between the packets, given as -1000. */
  lemma NegativePeriodIsNegative()
    ensures var t := Times(Span(5, 0), 5, 0, -1006, 0, 0, Time(0, 0)); Computed(-1000, t) && PendingOf(-1000, t) == -500
  {
    LongFits(-1001);
    LongFits(-1000);
    AtOnce(-1000, -1001);
  }

  /** Two echo replies in a row: if the first carries a time that lies 2^31 milliseconds back or more, the second one
    * makes magic_round loop for ever, whatever the period. */
  lemma OldEchoHangs(tau: CLong, t: Times, now: Time, sent: Time, now': Time, sent': Time, lastSent: Time)
    requires t.currTstamp == 0 && InRange(now, sent) && InRange(sent', now)
    requires INT <= Milliseconds(now, sent) + Milliseconds(sent', now) < LONG - 1
    requires 0 <= Milliseconds(now, sent) < LONG - 1
    ensures var first := Observed(t, false, now, lastSent, Echo(sent));
      !Computed(tau, Observed(Passed(first), false, now', lastSent, Echo(sent')))
  {
    CutOnce(now, sent);
    CutOnce(sent', now);
    LongFits(Milliseconds(now, sent));
    LongFits(Milliseconds(now, sent) + 1);
    LongFits(Milliseconds(sent', now));
    var u := Observed(Passed(Observed(t, false, now, lastSent, Echo(sent))), false, now', lastSent, Echo(sent'));
    LongFits(u.lastRtt + u.waitingTime);
    LongNeverEnds(tau, LastRound(u));
  }

  /** The time stamp is never taken back: once a packet with one has become the last, the next packet has no pending
    * time, unless it brings a later time stamp, or a time stamp of 0. */
  lemma NextIsZero(tau: CLong, t: Times, now: Time, lastSent: Time, reply: Reply)
    requires t.currTstamp != 0 && (reply.Stamp? ==> 0 < reply.rtime <= t.currTstamp)
    ensures var u := Observed(Passed(t), false, now, lastSent, reply); Computed(tau, u) && PendingOf(tau, u) == 0
  {
  }

  class Watch {
    var rtt: Span
    var lastRtt: CLong
    var jitter: CLong
    var waitingTime: CLong
    var currTstamp: CUint
    var lastTstamp: CUint
    var lastAck: Time

    function Shown(): Times
      reads this
    {
      Times(rtt, lastRtt, jitter, waitingTime, currTstamp, lastTstamp, lastAck)
    }

    /** The initial values of global.h. */
    constructor ()
      ensures Shown() == Times(Span(0, 0), 0, 0, 0, 0, 0, Time(0, 0))
    {
      rtt, lastRtt, jitter, waitingTime, currTstamp, lastTstamp, lastAck := Span(0, 0), 0, 0, 0, 0, 0, Time(0, 0);
    }

    /** The start of the loop. */
    method Wait(now: Time, lastSent: Time, reply: Reply)
      modifies this
      ensures Shown() == Waited(old(Shown()), now, lastSent, reply)
    {
      match reply {
        case Echo(sent) => waitingTime := Difference(sent, lastAck).ms;
        case _ => waitingTime := Difference(lastSent, lastAck).ms;
      }
      lastAck := now;
    }

    /** What agent_timestamp does with the times. */
    method Read(now: Time, lastSent: Time, reply: Reply)
      modifies this
      ensures Shown() == Stamped(old(Shown()), now, lastSent, reply)
    {
      match reply {
        case Echo(sent) => rtt := Difference(now, sent);
        case Stamp(otime, rtime) =>
          rtt := Span(Long(Remainder(now.sec, 24 * 60 * 60) * 1000 + Quotient(now.usec, 1000) - otime), 0);
          currTstamp := rtime;
        case Other => rtt := Difference(now, lastSent);
      }
      if rtt.frc < 0 { rtt := Span(Long(rtt.ms + 1), rtt.frc + 1000); }
      rtt := Span(AbsLong(rtt.ms), rtt.frc);
      jitter := Long(rtt.ms - lastRtt);
    }

    /** The end of the loop: this packet becomes the last one. */
    method Keep()
      modifies this
      ensures Shown() == Passed(old(Shown()))
    {
      lastRtt := rtt.ms;
      lastTstamp := currTstamp;
    }
  }
}
