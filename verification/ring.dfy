/** The shared-memory ring: one writer, any number of readers that poll. Every memcpy of a bucket is one step. */
module Ring {
  import opened Crc
  import opened Wrappers

  const ARENA_SIZE := 12

  type Buffer = s: seq<Byte> | |s| == 1024 witness seq(1024, _ => 0)

  type Length = n: nat | n <= 1024

  datatype Bucket = Bucket(id: nat, wrote: nat, crc: Reg, len: Length, buffer: Buffer)

  /** A bucket as memset leaves it. */
  function Blank(): Bucket {
    Bucket(0, 0, All(false), 0, seq(1024, _ => 0))
  }

  /** One call of watermark_push: the bytes handed in, and what happens to be on the stack behind them. */
  datatype Push = Push(data: seq<Byte>, junk: Buffer)

  /** No more than ARENA_SIZE bytes are kept. */
  function Cut(data: seq<Byte>): (t: seq<Byte>)
    ensures |t| == (if |data| < 12 then |data| else 12) && t <= data
  {
    if |data| > ARENA_SIZE then data[..ARENA_SIZE] else data
  }

  /** The bucket that push `p` publishes under `id`. */
  function Published(id: nat, p: Push): (b: Bucket)
    ensures b.buffer[..b.len] == Cut(p.data)
  {
    var t := Cut(p.data);
    Bucket(id, id, Crc32(t), |t|, t + p.junk[|t|..])
  }

  /** The test of the reader that waits for message `wanted`. */
  predicate Accepts(b: Bucket, wanted: nat) {
    b.id == b.wrote && b.id >= wanted && b.crc == Crc32(b.buffer[..b.len])
  }

  /** The test as watermark_pop makes it. */
  method Test(b: Bucket, wanted: nat) returns (ok: bool)
    ensures ok == Accepts(b, wanted)
  {
    if b.id == b.wrote && b.id >= wanted {
      var crc := EthCrcOfChars(b.len, b.buffer);
      return b.crc == crc;
    }
    ok := false;
  }

  type Slots = s: seq<Bucket> | |s| == 12 witness seq(12, _ => Blank())

  /** First half of a push: the old bucket gets the new id and so no longer passes. */
  function Flagged(s: Slots, id: nat): Slots {
    s[id % ARENA_SIZE := s[id % ARENA_SIZE].(id := id)]
  }

  /** Second half: the finished bucket. */
  function Stored(s: Slots, id: nat, p: Push): Slots {
    s[id % ARENA_SIZE := Published(id, p)]
  }

  // ---- the arena in memory ----

  class Arena {
    const buckets: array<Bucket>

    ghost predicate Valid()
      reads this
    {
      buckets.Length == ARENA_SIZE
    }

    ghost function Shown(): Slots
      requires Valid()
      reads this, buckets
    {
      buckets[..]
    }

    /** watermark_init at the server; its last loop compares and does not assign, so the ids stay 0. */
    constructor ()
      ensures Valid() && fresh(buckets) && forall i | 0 <= i < ARENA_SIZE :: Shown()[i] == Blank()
    {
      buckets := new Bucket[ARENA_SIZE](_ => Blank());
    }

    method Flag(id: nat)
      requires Valid()
      modifies buckets
      ensures Shown() == Flagged(old(Shown()), id)
    {
      buckets[id % ARENA_SIZE] := buckets[id % ARENA_SIZE].(id := id);
    }

    method Publish(id: nat, p: Push)
      requires Valid()
      modifies buckets
      ensures Shown() == Stored(old(Shown()), id, p) && Delivers(Shown()[id % ARENA_SIZE], p.data)
    {
      PublishedDelivers(id, p);
      var tlen := if |p.data| > ARENA_SIZE then ARENA_SIZE else |p.data|;
      var crcval := EthCrcOfChars(tlen, p.data);
      var bucketTmp := Bucket(id, id, crcval, tlen, p.data[..tlen] + p.junk[tlen..]);
      assert p.data[..tlen] == Cut(p.data);
      buckets[id % ARENA_SIZE] := bucketTmp;
    }

    /** watermark_push without a reader in between; `oldid` is -1 for the first message. */
    method WatermarkPush(oldid: int, p: Push)
      requires Valid() && oldid >= -1
      modifies buckets
      ensures Shown() == Stored(old(Shown()), oldid + 1, p) && Delivers(Shown()[(oldid + 1) % ARENA_SIZE], p.data)
    {
      Flag(oldid + 1);
      Publish(oldid + 1, p);
    }

    /** One turn of the loop of watermark_pop. */
    method Poll(wanted: nat) returns (r: Option<Bucket>)
      requires Valid()
      ensures r == var b := Shown()[wanted % ARENA_SIZE]; if Accepts(b, wanted) then Some(b) else None
    {
      var b := buckets[wanted % ARENA_SIZE];
      var ok := Test(b, wanted);
      r := if ok then Some(b) else None;
    }
  }

  // ---- writer and readers interleaved ----

  /** `from` is the message the reader asks for first, `wanted` the one it asks for next, `got` what it was given. */
  datatype Reader = Reader(from: nat, wanted: nat, got: seq<Bucket>)

  /** `log` are the finished pushes, with the ids 0, 1, 2, ...; `pending` the one that has flagged its bucket. */
  datatype World = World(slots: Slots, log: seq<Push>, pending: Option<Push>, readers: seq<Reader>)

  datatype Event = BeginPush(push: Push) | EndPush | Poll(reader: nat)

  /** The next state; the writer flags and stores in turn, so a step out of turn does nothing. */
  function Step(w: World, e: Event): World {
    match e
    case BeginPush(p) =>
      if w.pending.Some? then w else w.(slots := Flagged(w.slots, |w.log|), pending := Some(p))
    case EndPush =>
      if w.pending.None? then w else
        w.(slots := Stored(w.slots, |w.log|, w.pending.value), log := w.log + [w.pending.value], pending := None)
    case Poll(i) =>
      if i >= |w.readers| then w else w.(readers := w.readers[i := Polled(w.slots, w.readers[i])])
  }

  function Given(r: Reader, b: Bucket): Reader {
    r.(wanted := b.id + 1, got := r.got + [b])
  }

  function Polled(s: Slots, r: Reader): Reader {
    var b := s[r.wanted % ARENA_SIZE];
    if Accepts(b, r.wanted) then Given(r, b) else r
  }

  /** Readers that start with the messages `from`. */
  function Start(from: seq<nat>): World {
    World(seq(12, _ => Blank()), [], None, seq(|from|, i requires 0 <= i < |from| => Reader(from[i], from[i], [])))
  }

  function Run(from: seq<nat>, es: seq<Event>): World {
    if es == [] then Start(from) else Step(Run(from, es[..|es| - 1]), es[|es| - 1])
  }

  // ---- what the slots hold, in closed form ----

  /** The last of the ids 0 .. n - 1 that goes to slot `i`. */
  function LastId(n: nat, i: nat): (id: nat)
    requires i < n && i < 12
    ensures id < n && id % 12 == i && n <= id + 12
  {
    i + 12 * ((n - 1 - i) / 12)
  }

  function Settled(log: seq<Push>, i: nat): Bucket
    requires i < 12
  {
    if i < |log| then var id := LastId(|log|, i); Published(id, log[id]) else Blank()
  }

  function View(log: seq<Push>, pending: bool, i: nat): Bucket
    requires i < 12
  {
    if pending && |log| % 12 == i then Settled(log, i).(id := |log|) else Settled(log, i)
  }

  ghost predicate SlotsOk(w: World) {
    forall i {:trigger w.slots[i]} | 0 <= i < 12 :: w.slots[i] == View(w.log, w.pending.Some?, i)
  }

  /** Another push changes only its own slot. */
  lemma OneMorePush(log: seq<Push>, p: Push, i: nat)
    requires i < 12
    ensures Settled(log + [p], i) == if i == |log| % 12 then Published(|log|, p) else Settled(log, i)
  {
    var n, all := |log|, log + [p];
    LastIdMoves(n, i);
    if i == n % 12 {
      assert all[n] == p;
    } else if i < n {
      var id := LastId(n, i);
      assert all[id] == log[id];
    }
  }

  /** The quotient by 12 grows just at the multiples of 12. */
  lemma Twelfths(d: int)
    requires d > 0
    ensures d / 12 == (d - 1) / 12 + if d % 12 == 0 then 1 else 0
  {
  }

  lemma SameSlot(n: nat, i: nat)
    requires i < 12 && i <= n
    ensures n % 12 == i <==> (n - i) % 12 == 0
  {
    var q, r := (n - i) / 12, (n - i) % 12;
    assert n == 12 * q + (r + i);
  }

  lemma LastIdMoves(n: nat, i: nat)
    requires i < 12
    ensures i == n % 12 ==> i < n + 1 && LastId(n + 1, i) == n
    ensures i < n && i != n % 12 ==> LastId(n + 1, i) == LastId(n, i)
    ensures i >= n && i != n % 12 ==> i >= n + 1
  {
    if i <= n { SameSlot(n, i); }
    if i < n { Twelfths(n - i); }
  }

  /** Every bucket is what was pushed under its id. */
  ghost predicate Pushed(log: seq<Push>, got: seq<Bucket>) {
    forall j {:trigger got[j]} | 0 <= j < |got| :: got[j].id < |log| && got[j] == Published(got[j].id, log[got[j].id])
  }

  ghost predicate Ascending(got: seq<Bucket>) {
    forall j, k | 0 <= j < k < |got| :: got[j].id < got[k].id
  }

  /** A reader holds what was pushed under the ids it is told, in ascending order from the first it asked for, and waits
    * for the next. */
  ghost predicate ReaderOk(log: seq<Push>, r: Reader) {
    && Pushed(log, r.got) && Ascending(r.got)
    && (forall j | 0 <= j < |r.got| :: r.from <= r.got[j].id)
    && r.wanted == (if r.got == [] then r.from else r.got[|r.got| - 1].id + 1)
  }

  ghost predicate Ok(w: World) {
    SlotsOk(w) && forall i | 0 <= i < |w.readers| :: ReaderOk(w.log, w.readers[i])
  }

  // ---- when a reader is served ----

  /** With `n` messages published, a reader that asks for `m` is served just if message `m` has been published and
    * its slot is not flagged for the next one; it then gets the last message of the slot, which is the one it asked
    * for just if it is at most 12 behind. */
  lemma ServedIff(w: World, m: nat)
    requires SlotsOk(w)
    ensures var b, n := w.slots[m % 12], |w.log|;
      && (Accepts(b, m) <==> m < n && !(w.pending.Some? && n % 12 == m % 12))
      && (Accepts(b, m) ==>
            && b.id == m + 12 * ((n - 1 - m) / 12)
            && b.id < n && b == Published(b.id, w.log[b.id])
            && (b.id == m <==> n - m <= 12))
  {
    var i, n := m % 12, |w.log|;
    var b := w.slots[i];
    assert b == View(w.log, w.pending.Some?, i);
    if i < n {
      var id := LastId(n, i);
      assert Settled(w.log, i) == Published(id, w.log[id]);
      LastIdFrom(n, m);
    } else {
      BlankFails(b);
    }
  }

  lemma LastIdFrom(n: nat, m: nat)
    requires m % 12 < n
    ensures LastId(n, m % 12) >= m <==> m < n
    ensures m < n ==> LastId(n, m % 12) == m + 12 * ((n - 1 - m) / 12)
  {
    var i := m % 12;
    var q := m / 12;
    if m < n { assert (n - 1 - i) / 12 == q + (n - 1 - m) / 12; }
  }

  /** The check value of no bytes is not 0, so a bucket never written fails. */
  lemma BlankFails(b: Bucket)
    requires b == Blank().(id := b.id)
    ensures !Accepts(b, 0) && forall m | Accepts(b, m) :: false
  {
    assert b.buffer[..0] == [];
    assert Crc32([])[0] != All(false)[0];
  }

  // ---- over every run ----

  lemma StepKeepsSlots(w: World, e: Event)
    requires SlotsOk(w)
    ensures SlotsOk(Step(w, e))
  {
    if e.EndPush? && w.pending.Some? {
      forall i | 0 <= i < 12 ensures Step(w, e).slots[i] == View(w.log + [w.pending.value], false, i) {
        OneMorePush(w.log, w.pending.value, i);
        assert w.slots[i] == View(w.log, true, i);
      }
    }
  }

  lemma StaysAscending(got: seq<Bucket>, b: Bucket)
    requires Ascending(got) && (got != [] ==> got[|got| - 1].id < b.id)
    ensures Ascending(got + [b])
  {
    forall j | 0 <= j < |got| ensures got[j].id < b.id {
      assert j == |got| - 1 || got[j].id < got[|got| - 1].id;
    }
  }

  /** A reader that is given a later message stays in order. */
  lemma GivenNext(log: seq<Push>, r: Reader, b: Bucket)
    requires ReaderOk(log, r) && r.wanted <= b.id < |log| && b == Published(b.id, log[b.id])
    ensures ReaderOk(log, Given(r, b))
  {
    StaysAscending(r.got, b);
    assert Pushed(log, r.got + [b]);
  }

  lemma PollKeepsReader(w: World, r: Reader)
    requires SlotsOk(w) && ReaderOk(w.log, r)
    ensures ReaderOk(w.log, Polled(w.slots, r))
  {
    ServedIff(w, r.wanted);
    var b := w.slots[r.wanted % 12];
    if Accepts(b, r.wanted) { GivenNext(w.log, r, b); }
  }

  /** What a reader holds stays in the log. */
  lemma LogGrows(log: seq<Push>, p: Push, r: Reader)
    requires ReaderOk(log, r)
    ensures ReaderOk(log + [p], r)
  {
  }

  lemma StepLeavesOther(w: World, e: Event, i: nat)
    requires i < |w.readers| && e != Poll(i)
    ensures |Step(w, e).readers| == |w.readers| && Step(w, e).readers[i] == w.readers[i]
  {
  }

  lemma StepOfLog(w: World, e: Event)
    ensures Step(w, e).log == if e.EndPush? && w.pending.Some? then w.log + [w.pending.value] else w.log
  {
  }

  lemma StepKeepsReaders(w: World, e: Event, i: nat)
    requires Ok(w) && i < |w.readers|
    ensures |Step(w, e).readers| == |w.readers| && ReaderOk(Step(w, e).log, Step(w, e).readers[i])
  {
    var r := w.readers[i];
    assert ReaderOk(w.log, r);
    StepOfLog(w, e);
    if e == Poll(i) {
      PollKeepsReader(w, r);
      assert Step(w, e).readers[i] == Polled(w.slots, r);
    } else {
      StepLeavesOther(w, e, i);
      if e.EndPush? && w.pending.Some? { LogGrows(w.log, w.pending.value, r); }
    }
  }

  lemma StepKeepsOk(w: World, e: Event)
    requires Ok(w)
    ensures Ok(Step(w, e)) && |Step(w, e).readers| == |w.readers|
  {
    StepKeepsSlots(w, e);
    var v := Step(w, e);
    assert |v.readers| == |w.readers|;
    forall i | 0 <= i < |v.readers| ensures ReaderOk(v.log, v.readers[i]) { StepKeepsReaders(w, e, i); }
  }

  lemma StartIsOk(from: seq<nat>)
    ensures Ok(Start(from))
  {
  }

  /** For every interleaving: whatever a reader was given is exactly one finished push, under the id of that push and
    * with its first 12 bytes, and its ids strictly increase. */
  lemma {:induction false} EveryRunIsOk(from: seq<nat>, es: seq<Event>)
    ensures Ok(Run(from, es)) && |Run(from, es).readers| == |from|
  {
    if es != [] {
      var w, e := Run(from, es[..|es| - 1]), es[|es| - 1];
      EveryRunIsOk(from, es[..|es| - 1]);
      StepKeepsOk(w, e);
      assert Run(from, es) == Step(w, e);
    } else {
      StartIsOk(from);
    }
  }

  lemma StepKeepsFrom(w: World, e: Event, i: nat)
    requires i < |w.readers|
    ensures |Step(w, e).readers| == |w.readers| && Step(w, e).readers[i].from == w.readers[i].from
  {
  }

  /** The reader goes on from the message it asked for first. */
  lemma {:induction false} FirstAsked(from: seq<nat>, es: seq<Event>, i: nat)
    requires i < |from|
    ensures |Run(from, es).readers| == |from| && Run(from, es).readers[i].from == from[i]
  {
    if es != [] {
      FirstAsked(from, es[..|es| - 1], i);
      StepKeepsFrom(Run(from, es[..|es| - 1]), es[|es| - 1], i);
    }
  }

  /** Reader `i` is never more than 12 messages behind in the run. */
  ghost predicate KeepsUp(from: seq<nat>, es: seq<Event>, i: nat)
    requires i < |from|
  {
    && |Run(from, es).readers| == |from|
    && |Run(from, es).log| - Run(from, es).readers[i].wanted <= 12
    && (es == [] || KeepsUp(from, es[..|es| - 1], i))
  }

  /** The messages from the first one asked for, without a gap. */
  ghost predicate Gapless(r: Reader) {
    r.wanted == r.from + |r.got| && forall j | 0 <= j < |r.got| :: r.got[j].id == r.from + j
  }

  lemma StepKeepsGapless(w: World, e: Event, i: nat)
    requires SlotsOk(w) && i < |w.readers| && Gapless(w.readers[i]) && |w.log| - w.readers[i].wanted <= 12
    ensures |Step(w, e).readers| == |w.readers| && Gapless(Step(w, e).readers[i])
  {
    if e == Poll(i) { PollKeepsGapless(w, w.readers[i]); }
  }

  lemma PollKeepsGapless(w: World, r: Reader)
    requires SlotsOk(w) && Gapless(r) && |w.log| - r.wanted <= 12
    ensures Gapless(Polled(w.slots, r))
  {
    ServedIff(w, r.wanted);
  }

  /** A reader that keeps up misses nothing. */
  lemma {:induction false} NothingIsSkipped(from: seq<nat>, es: seq<Event>, i: nat)
    requires i < |from| && KeepsUp(from, es, i)
    ensures Run(from, es).readers[i].from == from[i] && Gapless(Run(from, es).readers[i])
  {
    FirstAsked(from, es, i);
    if es != [] {
      NothingIsSkipped(from, es[..|es| - 1], i);
      EveryRunIsOk(from, es[..|es| - 1]);
      StepKeepsGapless(Run(from, es[..|es| - 1]), es[|es| - 1], i);
    }
  }

  /** What a bucket delivers of the message that was pushed: its first 12 octets, or all of a shorter one, and under the
    * head of the bucket the length and the octets. */
  ghost predicate Delivers(b: Bucket, data: seq<Byte>) {
    b.len == (if |data| < 12 then |data| else 12) && forall j | 0 <= j < b.len :: b.buffer[j] == data[j]
  }

  lemma PublishedDelivers(id: nat, p: Push)
    ensures Delivers(Published(id, p), p.data) && Published(id, p).id == id
  {
    var b := Published(id, p);
    forall j | 0 <= j < b.len ensures b.buffer[j] == p.data[j] {
      assert b.buffer[..b.len][j] == Cut(p.data)[j];
    }
  }

  /** In every run every bucket a reader has been given delivers the message pushed under its id. */
  lemma EveryRunDelivers(from: seq<nat>, es: seq<Event>, i: nat, j: nat)
    requires i < |from| && |Run(from, es).readers| == |from| && j < |Run(from, es).readers[i].got|
    ensures var w, b := Run(from, es), Run(from, es).readers[i].got[j];
      b.id < |w.log| && Delivers(b, w.log[b.id].data)
  {
    EveryRunIsOk(from, es);
    var w := Run(from, es);
    assert ReaderOk(w.log, w.readers[i]);
    var b := w.readers[i].got[j];
    PublishedDelivers(b.id, w.log[b.id]);
  }

  // ---- the loop of a reader within a run ----

  /** Message `m` has been published, and its slot is not flagged for the next one. */
  predicate Ready(w: World, m: nat) {
    m < |w.log| && !(w.pending.Some? && |w.log| % 12 == m % 12)
  }

  /** `b` is what was pushed under its id, and answers message `m`; it is message `m` itself if that is not too old. */
  ghost predicate Answers(w: World, m: nat, b: Bucket) {
    m <= b.id < |w.log| && b == Published(b.id, w.log[b.id]) && (b.id == m <==> |w.log| - m <= 12)
  }

  /** Reader `i` is `me` when it looks. */
  ghost predicate Looks(w: World, i: nat, me: Reader) {
    SlotsOk(w) && i < |w.readers| && w.readers[i] == me
  }

  /** Its turn makes `me` of reader `i`. */
  ghost predicate Leaves(w: World, i: nat, me: Reader) {
    i < |w.readers| && Polled(w.slots, w.readers[i]) == me
  }

  /** In between the reader stays what its turn has made of it. */
  ghost predicate Stays(w: World, i: nat, v: World) {
    forall me | Leaves(w, i, me) :: Looks(v, i, me)
  }

  /** `seen` is what the arena and its readers are at each turn of the loop of reader `i`, which is `me` at first. */
  ghost predicate Watched(seen: seq<World>, i: nat, me: Reader) {
    (seen != [] ==> Looks(seen[0], i, me)) && forall k | 0 < k < |seen| :: Stays(seen[k - 1], i, seen[k])
  }

  /** One turn: the reader stays as it is, or is given what answers its message. */
  method PopTurn(w: World, i: nat, ghost me: Reader, wanted: nat) returns (r: Option<Bucket>)
    requires Looks(w, i, me) && wanted == me.wanted
    ensures r.None? ==> !Ready(w, wanted) && Leaves(w, i, me)
    ensures r.Some? ==>
      Ready(w, wanted) && Answers(w, wanted, r.value) && Leaves(w, i, Given(me, r.value))
  {
    ServedIff(w, wanted);
    var b := w.slots[wanted % ARENA_SIZE];
    var ok := Test(b, wanted);
    r := if ok then Some(b) else None;
  }

  /** The loop of watermark_pop, for as many turns as one cares to watch. It ends at the first turn that finds its
    * message ready, and gives what was pushed under the id it returns less one. */
  method WatermarkPop(seen: seq<World>, i: nat, ghost me: Reader, wanted: nat)
    returns (r: Option<Bucket>, next: nat, turns: nat)
    requires Watched(seen, i, me) && wanted == me.wanted
    ensures turns <= |seen| && (r.None? <==> turns == |seen|)
    ensures forall k | 0 <= k < turns :: !Ready(seen[k], wanted)
    ensures r.Some? ==>
      && Ready(seen[turns], wanted) && Answers(seen[turns], wanted, r.value) && next == r.value.id + 1
      && Delivers(r.value, seen[turns].log[r.value.id].data)
      && Leaves(seen[turns], i, Given(me, r.value))
  {
    r, next, turns := None, wanted, 0;
    while turns < |seen|
      invariant r.None? && turns <= |seen|
      invariant turns < |seen| ==> Looks(seen[turns], i, me)
      invariant forall k | 0 <= k < turns :: !Ready(seen[k], wanted)
    {
      r := PopTurn(seen[turns], i, me, wanted);
      if r.Some? {
        PublishedDelivers(r.value.id, seen[turns].log[r.value.id]);
        return r, r.value.id + 1, turns;
      }
      turns := turns + 1;
      assert turns < |seen| ==> Stays(seen[turns - 1], i, seen[turns]);
    }
  }

  /** The run goes on with other events, and then reader `i` polls: `between` are the others before each turn. */
  function Turned(es: seq<Event>, between: seq<seq<Event>>, i: nat, k: nat): seq<Event>
    requires k <= |between|
  {
    if k == 0 then es else Turned(es, between, i, k - 1) + between[k - 1] + [Poll(i)]
  }

  /** The worlds that reader `i` looks at in the first `m` turns. */
  function Seen(from: seq<nat>, es: seq<Event>, between: seq<seq<Event>>, i: nat, m: nat): (seen: seq<World>)
    requires m <= |between|
    ensures |seen| == m
  {
    if m == 0 then [] else
      Seen(from, es, between, i, m - 1) + [Run(from, Turned(es, between, i, m - 1) + between[m - 1])]
  }

  lemma LastOfRun(from: seq<nat>, es: seq<Event>, more: seq<Event>, e: Event)
    ensures Run(from, es + (more + [e])) == Step(Run(from, es + more), e)
  {
    var all := es + (more + [e]);
    assert all[..|all| - 1] == es + more;
  }

  lemma {:induction false} OthersLeaveReader(from: seq<nat>, es: seq<Event>, more: seq<Event>, i: nat)
    requires i < |Run(from, es).readers| == |from| && Poll(i) !in more
    ensures |Run(from, es + more).readers| == |from|
    ensures Run(from, es + more).readers[i] == Run(from, es).readers[i]
  {
    if more == [] {
      assert es + more == es;
    } else {
      var m := |more| - 1;
      OthersLeaveReader(from, es, more[..m], i);
      assert more == more[..m] + [more[m]];
      LastOfRun(from, es, more[..m], more[m]);
      StepLeavesOther(Run(from, es + more[..m]), more[m], i);
    }
  }

  lemma RunPolls(from: seq<nat>, es: seq<Event>, i: nat)
    requires i < |from|
    ensures i < |Run(from, es).readers| == |Run(from, es + [Poll(i)]).readers| == |from|
    ensures Run(from, es + [Poll(i)]).readers[i] == Polled(Run(from, es).slots, Run(from, es).readers[i])
  {
    EveryRunIsOk(from, es);
    assert (es + [Poll(i)])[..|es|] == es;
  }

  /** Only its own turn changes a reader. */
  lemma RunStays(from: seq<nat>, es: seq<Event>, more: seq<Event>, i: nat)
    requires i < |from| && Poll(i) !in more
    ensures Stays(Run(from, es), i, Run(from, es + [Poll(i)] + more))
  {
    RunPolls(from, es, i);
    EveryRunIsOk(from, es + [Poll(i)] + more);
    OthersLeaveReader(from, es + [Poll(i)], more, i);
  }

  /** In every run, whatever the others do, the loop of a reader is watched in this way. */
  lemma {:induction false} RunIsWatched(from: seq<nat>, es: seq<Event>, between: seq<seq<Event>>, i: nat, m: nat)
    requires i < |from| && m <= |between| && forall k | 0 <= k < |between| :: Poll(i) !in between[k]
    ensures |Run(from, es).readers| == |from|
    ensures Watched(Seen(from, es, between, i, m), i, Run(from, es).readers[i])
  {
    EveryRunIsOk(from, es);
    if m == 1 {
      EveryRunIsOk(from, es + between[0]);
      OthersLeaveReader(from, es, between[0], i);
    } else if m > 1 {
      RunIsWatched(from, es, between, i, m - 1);
      var before := Turned(es, between, i, m - 2) + between[m - 2];
      RunStays(from, before, between[m - 1], i);
    }
  }
}
