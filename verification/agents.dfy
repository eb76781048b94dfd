/** The agents of receiver.c that watch the ip_id of the remote host, over whole runs of packets and key strokes. */
module Agents {
  import opened Checksum
  import opened OnesComplement
  import opened Arithmetic

  /** An id, or -1 before the first one. */
  type LastId = x: int | -1 <= x <= 65535

  /** The difference of two ids. */
  type IdDiff = x: int | 0 <= x <= 65536

  /** The globals the agents share. */
  datatype Agent = Agent(slowStart: bool, ipidFailure: nat, randIpid: int, diffId: IdDiff, currId: Word,
                         lastId: LastId, endianBug: nat)

  function Initial(): Agent {
    Agent(true, 0, 0, 0, 0, -1, 0)
  }

  /** SWITCH: the lowest bit is inverted. */
  function Switch(x: nat): nat {
    if x % 2 == 0 then x + 1 else x - 1
  }

  /** ntohss */
  function Ntohss(endianBug: nat, s: Word): Word {
    if endianBug / 2 % 2 == 1 then s else Swap(s)
  }

  /** reset_ipid */
  function ResetIpid(a: Agent): Agent {
    a.(randIpid := 0, ipidFailure := 0, slowStart := true)
  }

  /** agent_dyn_id, for a packet with the ip_id `id`. */
  function DynId(a: Agent, id: Word): Agent {
    var curr := Ntohss(a.endianBug, id);
    var raw := if a.slowStart then 0 else curr - a.lastId;
    var diff := if raw < 0 then raw + 65535 else raw;
    a.(currId := curr, slowStart := false, diffId := diff, randIpid := if diff > 32768 then diff else a.randIpid)
  }

  /** A difference that would be small in the other byte order. */
  predicate Suspicious(diff: int) {
    diff != 0 && diff % 256 == 0
  }

  /** agent_ipid; false tells that the packet is not shown. */
  function IpId(a: Agent): (Agent, bool) {
    if !Suspicious(a.diffId) then (a.(ipidFailure := 0), true) else
      var failure := a.ipidFailure + 1;
      if failure == 4 then (ResetIpid(a).(endianBug := Switch(a.endianBug)), false)
      else (a.(ipidFailure := failure), failure != 2 && failure != 3)
  }

  /** What the loop of the receiver does with one packet. */
  function Packet(a: Agent, id: Word): Agent {
    var b := IpId(DynId(a, id)).0;
    b.(lastId := b.currId)
  }

  /** The byte order is reverted by itself. */
  predicate Flips(a: Agent, id: Word) {
    Suspicious(DynId(a, id).diffId) && a.ipidFailure == 3
  }

  // ---- over every run ----

  /** A packet, the keys `+` and `-`, the key `e` or the key `d`. */
  datatype Event = Received(id: Word) | Traffic | Endian | Diff

  function Step(a: Agent, e: Event): Agent {
    match e
    case Received(id) => Packet(a, id)
    case Traffic => ResetIpid(a)
    case Endian => ResetIpid(a).(endianBug := Switch(a.endianBug))
    case Diff => ResetIpid(a)
  }

  function Run(es: seq<Event>): Agent {
    if es == [] then Initial() else Step(Run(es[..|es| - 1]), es[|es| - 1])
  }

  function Packets(es: seq<Event>): nat {
    if es == [] then 0 else Packets(es[..|es| - 1]) + if es[|es| - 1].Received? then 1 else 0
  }

  /** The last event is a packet with a suspicious difference. */
  predicate LastSuspicious(es: seq<Event>)
    requires es != []
  {
    var e := es[|es| - 1];
    e.Received? && Suspicious(DynId(Run(es[..|es| - 1]), e.id).diffId)
  }

  /** The last event makes the receiver revert the byte order. */
  predicate LastFlips(es: seq<Event>)
    requires es != []
  {
    var e := es[|es| - 1];
    e.Received? && Flips(Run(es[..|es| - 1]), e.id)
  }

  function FlipCount(es: seq<Event>): nat {
    if es == [] then 0 else FlipCount(es[..|es| - 1]) + if LastFlips(es) then 1 else 0
  }

  /** The number of suspicious packets in a row at the end of the run. */
  function Streak(es: seq<Event>): nat {
    if es == [] then 0 else if LastSuspicious(es) then Streak(es[..|es| - 1]) + 1 else 0
  }

  /** One packet, seen from outside. */
  lemma OnePacket(a: Agent, id: Word)
    requires a.ipidFailure <= 3 && a.endianBug in {0, 1}
    ensures var b, s := Packet(a, id), Suspicious(DynId(a, id).diffId);
      && b.ipidFailure == (if !s || a.ipidFailure == 3 then 0 else a.ipidFailure + 1)
      && b.slowStart == Flips(a, id) && b.endianBug in {0, 1}
      && b.lastId == Ntohss(a.endianBug, id) && (a.slowStart ==> !s)
  {
  }

  lemma {:induction false} BugIsOneBit(es: seq<Event>)
    ensures Run(es).endianBug in {0, 1}
  {
    if es != [] { BugIsOneBit(es[..|es| - 1]); }
  }

  /** Over every run: the counter of failures counts the suspicious packets in a row, at most three of them; the
    * fourth, and only the fourth, reverts the byte order, after which the difference starts afresh. */
  lemma {:induction false} FourthInARowFlips(es: seq<Event>)
    ensures Streak(es) <= 4 && Run(es).ipidFailure == if Streak(es) == 4 then 0 else Streak(es)
    ensures Streak(es) == 4 ==> Run(es).slowStart
    ensures es != [] ==> (LastFlips(es) <==> Streak(es) == 4)
  {
    if es != [] {
      var a, e := Run(es[..|es| - 1]), es[|es| - 1];
      FourthInARowFlips(es[..|es| - 1]);
      BugIsOneBit(es[..|es| - 1]);
      assert Run(es) == Step(a, e);
      if e.Received? { OnePacket(a, e.id); }
    }
  }

  /** Every revert costs at least five packets: one to start afresh and four suspicious ones. */
  lemma {:induction false} FivePacketsAFlip(es: seq<Event>)
    ensures Packets(es) >= 5 * FlipCount(es) + Run(es).ipidFailure + if Run(es).slowStart then 0 else 1
  {
    if es != [] {
      FivePacketsAFlip(es[..|es| - 1]);
      FourthInARowFlips(es[..|es| - 1]);
    }
  }

  /** Only bit 0 of endian_bug is ever inverted and only bit 1 is ever tested: in every run every ip_id is read with its
    * bytes swapped. */
  lemma {:induction false} ReadingNeverChanges(es: seq<Event>, id: Word)
    ensures Ntohss(Run(es).endianBug, id) == Swap(id)
  {
    BugIsOneBit(es);
  }

  /** The difference that the last event brought, none unless it is a packet. */
  function LastDiff(es: seq<Event>): int {
    if es == [] || !es[|es| - 1].Received? then 0 else DynId(Run(es[..|es| - 1]), es[|es| - 1].id).diffId
  }

  /** The last difference above 32768 since the last revert or reset, 0 if there is none. */
  function LastJump(es: seq<Event>): int {
    if es == [] || !es[|es| - 1].Received? || LastFlips(es) then 0
    else if LastDiff(es) > 32768 then LastDiff(es)
    else LastJump(es[..|es| - 1])
  }

  /** In every run rand_ipid is that difference: it is 0 just if none was above 32768 since then. */
  lemma {:induction false} RandomIsLastJump(es: seq<Event>)
    ensures Run(es).randIpid == LastJump(es) && (LastJump(es) == 0 || LastJump(es) > 32768)
  {
    if es != [] {
      var before := es[..|es| - 1];
      RandomIsLastJump(before);
      BugIsOneBit(before);
      assert Run(es) == Step(Run(before), es[|es| - 1]);
    }
  }

  /** In every run a packet is shown unless it is the second, third or fourth suspicious one in a row. */
  lemma ShownIff(es: seq<Event>, id: Word)
    ensures var more := es + [Received(id)];
      IpId(DynId(Run(es), id)).1 <==> Streak(more) == 0 || Streak(more) == 1
  {
    var more := es + [Received(id)];
    assert more[..|more| - 1] == es;
    FourthInARowFlips(es);
    FourthInARowFlips(more);
  }

  /** In slow start there is no difference, and the packet ends it. */
  lemma SlowStartHasNoDifference(a: Agent, id: Word)
    requires a.slowStart
    ensures DynId(a, id).diffId == 0 && !DynId(a, id).slowStart && DynId(a, id).randIpid == a.randIpid
  {
  }

  // ---- a host that counts the other byte up ----

  /** The ids 0, 1, 2, ... come in, round and round. */
  ghost predicate Counting(es: seq<Event>) {
    forall i | 0 <= i < |es| :: es[i] == Received(i % 65536)
  }

  lemma SwapSteps(k: Word)
    requires k > 0
    ensures Swap(k) - Swap(k - 1) == if k % 256 == 0 then -65279 else 256
  {
    if k % 256 == 0 {
      QuotientIs(k - 1, k / 256 - 1, 255, 256);
    } else {
      QuotientIs(k - 1, k / 256, k % 256 - 1, 256);
    }
  }

  /** Read in the wrong order, each id is 256 above the one before, also where a byte runs over: there the 65535 that is
    * added makes up for the carry. Only the step from 65535 to 0 is no difference at all. */
  lemma WrongSteps(a: Agent, k: Word)
    requires a.endianBug in {0, 1} && !a.slowStart && a.lastId == Swap(if k == 0 then 65535 else k - 1)
    ensures DynId(a, k).diffId == if k == 0 then 0 else 256
  {
    if k > 0 { SwapSteps(k); } else { assert Swap(65535) == 65535; }
  }

  /** The agent after `r` packets of a round; 1 <= r <= 65536. */
  ghost predicate InFives(a: Agent, r: nat) {
    && 0 < r <= 65536 && a.lastId == Swap(r - 1)
    && (a.slowStart <==> r % 5 == 0) && a.ipidFailure == if r % 5 == 0 then 0 else r % 5 - 1
  }

  /** One more packet of the round; the last packet of a round leaves the counter at 0 and slow start off, and so does
    * the first of the next. */
  lemma CountsUp(a: Agent, r: nat, k: Word, s: nat)
    requires a.endianBug in {0, 1} && InFives(a, r) && k == (if r == 65536 then 0 else r) && s == k + 1
    ensures InFives(Packet(a, k), s) && (Flips(a, k) <==> s % 5 == 0)
  {
    OnePacket(a, k);
    if !a.slowStart { WrongSteps(a, k); }
    NextOfFive(r, k, s);
    var f := a.ipidFailure;
    assert f == if a.slowStart then 0 else r % 5 - 1;
    assert Suspicious(DynId(a, k).diffId) == (!a.slowStart && k != 0);
  }

  lemma NextOfFive(r: nat, k: nat, s: nat)
    requires r <= 65536 && k == (if r == 65536 then 0 else r) && s == k + 1
    ensures s % 5 == if k == 0 then 1 else if r % 5 == 4 then 0 else r % 5 + 1
  {
  }

  lemma FirstCounts()
    ensures InFives(Packet(Initial(), 0), 1) && !Flips(Initial(), 0)
  {
  }

  /** The last packet of the run, for itself. */
  lemma RunGoesOn(es: seq<Event>, k: Word)
    requires es != [] && es[|es| - 1] == Received(k)
    ensures var a := Run(es[..|es| - 1]);
      Run(es) == Packet(a, k) && FlipCount(es) == FlipCount(es[..|es| - 1]) + if Flips(a, k) then 1 else 0
  {
  }

  lemma FifthIsOneMore(r: nat)
    ensures (r + 1) / 5 == r / 5 + if (r + 1) % 5 == 0 then 1 else 0
  {
  }

  /** The last packet of the run, in its round, and the packets before it. */
  lemma LastOfRound(es: seq<Event>, b: nat, r: nat)
    requires Counting(es) && 0 < r <= 65536 && |es| == 65536 * b + r
    ensures es[|es| - 1] == Received(r - 1) && Counting(es[..|es| - 1])
  {
    QuotientIs(|es| - 1, b, r - 1, 65536);
  }

  lemma CountsOn(es: seq<Event>, r: nat, k: Word, s: nat)
    requires es != [] && es[|es| - 1] == Received(k) && InFives(Run(es[..|es| - 1]), r)
    requires k == (if r == 65536 then 0 else r) && s == k + 1
    ensures InFives(Run(es), s) && FlipCount(es) == FlipCount(es[..|es| - 1]) + if s % 5 == 0 then 1 else 0
  {
    var before := es[..|es| - 1];
    RunGoesOn(es, k);
    BugIsOneBit(before);
    CountsUp(Run(before), r, k, s);
  }

  /** After `b` full rounds and `r` packets there have been `f` reverts. */
  ghost predicate After(es: seq<Event>, r: nat, f: int) {
    InFives(Run(es), r) && FlipCount(es) == f
  }

  lemma AfterOneMore(es: seq<Event>, r: nat, k: Word, s: nat, f: int, g: int)
    requires es != [] && es[|es| - 1] == Received(k) && After(es[..|es| - 1], r, f)
    requires k == (if r == 65536 then 0 else r) && s == k + 1 && g == f + if s % 5 == 0 then 1 else 0
    ensures After(es, s, g)
  {
    CountsOn(es, r, k, s);
  }

  lemma {:induction false} CountsInFives(es: seq<Event>, b: nat, r: nat, f: int)
    requires Counting(es) && 0 < r <= 65536 && |es| == 65536 * b + r && f == 13107 * b + r / 5
    ensures After(es, r, f)
    decreases |es|, 1
  {
    LastOfRound(es, b, r);
    if r > 1 {
      CountsWithin(es, b, r, f);
    } else if b > 0 {
      CountsInFives(es[..|es| - 1], b - 1, 65536, f);
      AfterOneMore(es, 65536, 0, 1, f, f);
    } else {
      RunGoesOn(es, 0);
      FirstCounts();
    }
  }

  lemma {:induction false} CountsWithin(es: seq<Event>, b: nat, r: nat, f: int)
    requires Counting(es) && 1 < r <= 65536 && |es| == 65536 * b + r && f == 13107 * b + r / 5
    ensures After(es, r, f)
    decreases |es|, 0
  {
    LastOfRound(es, b, r);
    FifthIsOneMore(r - 1);
    var g := f - if r % 5 == 0 then 1 else 0;
    CountsInFives(es[..|es| - 1], b, r - 1, g);
    AfterOneMore(es, r - 1, r - 1, r, g, f);
  }

  /** So reverting does not help: a host that counts the other byte up is suspected again and again, and every fifth
    * packet reverts the byte order, except that the count starts afresh where the id passes from 65535 to 0. */
  lemma RevertingDoesNotHelp(es: seq<Event>)
    requires Counting(es)
    ensures FlipCount(es) == 13107 * (|es| / 65536) + |es| % 65536 / 5
  {
    var b, r := |es| / 65536, |es| % 65536;
    if r > 0 {
      CountsInFives(es, b, r, 13107 * b + r / 5);
    } else if b > 0 {
      CountsInFives(es, b - 1, 65536, 13107 * b);
    }
  }

  /** A host whose id grows by less than a byte's worth, read in the wrong order, is suspected. */
  lemma SmallStepsAreSuspicious(id: Word, step: nat)
    requires 0 < step && id % 256 + step < 256
    ensures Swap(id + step) - Swap(id) == 256 * step && Suspicious(Swap(id + step) - Swap(id))
  {
    assert (id + step) / 256 == id / 256;
    assert Suspicious(256 * step);
  }

  /** The difference of two ids is their distance modulo 65536, except that it is one too small where the id has passed
    * 65535: there 65535 is added and not 65536. */
  lemma DifferenceIsModularIff(a: Agent, id: Word)
    requires !a.slowStart && 0 <= a.lastId <= 65535
    ensures var curr := Ntohss(a.endianBug, id);
      && (DynId(a, id).diffId == (curr - a.lastId) % 65536 <==> a.lastId <= curr)
      && (curr < a.lastId ==> DynId(a, id).diffId == (curr - a.lastId) % 65536 - 1)
      && 0 <= DynId(a, id).diffId <= 65535
  {
  }
}
