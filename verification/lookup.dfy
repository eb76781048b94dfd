/** The two name tables as values: what a direct-mapped cache answers, given the insertions so far. */
module Lookup {
  import opened Wrappers

  const EXPIRE_DAY := 2
  const HASH_TABSIZE := 4096

  /** One insertion, on a day of the year. */
  datatype Insertion<K, V> = Insertion(key: K, value: V, day: nat)

  /** The slot of a key; the hash may be any function. */
  function Slot<K>(hash: K -> nat, key: K): nat {
    hash(key) % HASH_TABSIZE
  }

  /** What slot `i` holds: the last insertion that went there. */
  function Latest<K, V>(log: seq<Insertion<K, V>>, hash: K -> nat, i: nat): (e: Option<Insertion<K, V>>)
    ensures e.Some? ==> e.value in log && Slot(hash, e.value.key) == i
  {
    if log == [] then None else
      var e := log[|log| - 1];
      if Slot(hash, e.key) == i then Some(e) else Latest(log[..|log| - 1], hash, i)
  }

  predicate Expired(day: nat, today: nat) {
    day + EXPIRE_DAY <= today
  }

  /** The cache answers. */
  predicate Hit<K(==), V>(log: seq<Insertion<K, V>>, hash: K -> nat, key: K, today: nat) {
    var e := Latest(log, hash, Slot(hash, key));
    e.Some? && e.value.key == key && !Expired(e.value.day, today)
  }

  function Answer<K(==), V>(log: seq<Insertion<K, V>>, hash: K -> nat, key: K, today: nat): V
    requires Hit(log, hash, key, today)
  {
    Latest(log, hash, Slot(hash, key)).value.value
  }

  /** The last insertion of exactly this key, whatever slot it went to: a cache that loses nothing. */
  function LastOf<K(==), V>(log: seq<Insertion<K, V>>, key: K): Option<Insertion<K, V>> {
    if log == [] then None else
      var e := log[|log| - 1];
      if e.key == key then Some(e) else LastOf(log[..|log| - 1], key)
  }

  /** A hit gives the value of the most recent insertion for exactly that key. */
  lemma {:induction false} HitIsMostRecent<K, V>(log: seq<Insertion<K, V>>, hash: K -> nat, key: K, today: nat)
    requires Hit(log, hash, key, today)
    ensures LastOf(log, key) == Latest(log, hash, Slot(hash, key))
    ensures LastOf(log, key).Some? && LastOf(log, key).value.value == Answer(log, hash, key, today)
  {
    if log[|log| - 1].key != key { HitIsMostRecent(log[..|log| - 1], hash, key, today); }
  }

  /** Insertion `n` is of this key, not expired, and nothing has gone to its slot since. */
  ghost predicate Survives<K, V>(log: seq<Insertion<K, V>>, hash: K -> nat, key: K, today: nat, n: nat)
    requires n < |log|
  {
    && log[n].key == key && !Expired(log[n].day, today)
    && forall m | n < m < |log| :: Slot(hash, log[m].key) != Slot(hash, key)
  }

  /** The cache answers just if an insertion of the key survives. */
  lemma {:induction false} HitIff<K, V>(log: seq<Insertion<K, V>>, hash: K -> nat, key: K, today: nat)
    ensures Hit(log, hash, key, today) <==> exists n | 0 <= n < |log| :: Survives(log, hash, key, today, n)
  {
    if log != [] {
      var last, before := log[|log| - 1], log[..|log| - 1];
      if Slot(hash, last.key) == Slot(hash, key) {
        if Hit(log, hash, key, today) { assert Survives(log, hash, key, today, |log| - 1); }
      } else {
        HitIff(before, hash, key, today);
        forall n | 0 <= n < |before|
          ensures Survives(before, hash, key, today, n) <==> Survives(log, hash, key, today, n)
        {
          assert forall m | n < m < |before| :: before[m] == log[m];
        }
      }
    }
  }

  // ---- over every run ----

  /** One lookup: the answer of the cache, or else of the resolver, whose answer, if any, is inserted. */
  function Ask<K(==), V>(log: seq<Insertion<K, V>>, hash: K -> nat, resolve: K -> Option<V>, cached: bool,
                         key: K, today: nat): (Option<V>, seq<Insertion<K, V>>) {
    if cached && Hit(log, hash, key, today) then (Some(Answer(log, hash, key, today)), log)
    else match resolve(key)
      case None => (None, log)
      case Some(v) => (Some(v), log + [Insertion(key, v, today)])
  }

  datatype Query<K> = Query(key: K, today: nat)

  /** The insertions after some lookups. */
  function Asked<K(==), V>(qs: seq<Query<K>>, hash: K -> nat, resolve: K -> Option<V>, cached: bool)
    : seq<Insertion<K, V>> {
    if qs == [] then [] else
      var q := qs[|qs| - 1];
      Ask(Asked(qs[..|qs| - 1], hash, resolve, cached), hash, resolve, cached, q.key, q.today).1
  }

  /** Every value in the tables is what the resolver says. */
  ghost predicate Agrees<K, V>(log: seq<Insertion<K, V>>, resolve: K -> Option<V>) {
    forall n | 0 <= n < |log| :: resolve(log[n].key) == Some(log[n].value)
  }

  lemma {:induction false} TablesAgree<K, V>(qs: seq<Query<K>>, hash: K -> nat, resolve: K -> Option<V>, cached: bool)
    ensures Agrees(Asked(qs, hash, resolve, cached), resolve)
  {
    if qs != [] { TablesAgree(qs[..|qs| - 1], hash, resolve, cached); }
  }

  /** With a resolver that does not change its mind the cached lookup always returns what the resolver would. */
  lemma {:induction false} CacheIsTransparent<K, V>(qs: seq<Query<K>>, q: Query<K>, hash: K -> nat,
                                                    resolve: K -> Option<V>, cached: bool)
    ensures Ask(Asked(qs, hash, resolve, cached), hash, resolve, cached, q.key, q.today).0 == resolve(q.key)
  {
    TablesAgree(qs, hash, resolve, cached);
  }

  /** The days of the lookups do not decrease, as they do not within one year. */
  ghost predicate InOrder<K>(qs: seq<Query<K>>) {
    forall i, j | 0 <= i < j < |qs| :: qs[i].today <= qs[j].today
  }

  lemma {:induction false} DaysOfInsertions<K, V>(qs: seq<Query<K>>, hash: K -> nat, resolve: K -> Option<V>,
                                                   cached: bool, today: nat)
    requires forall i | 0 <= i < |qs| :: qs[i].today <= today
    ensures forall e | e in Asked(qs, hash, resolve, cached) :: e.day <= today
  {
    if qs != [] { DaysOfInsertions(qs[..|qs| - 1], hash, resolve, cached, today); }
  }

  /** A hit is at most one day old. */
  lemma HitIsFresh<K, V>(qs: seq<Query<K>>, q: Query<K>, hash: K -> nat, resolve: K -> Option<V>, cached: bool)
    requires InOrder(qs + [q]) && Hit(Asked(qs, hash, resolve, cached), hash, q.key, q.today)
    ensures var e := LastOf(Asked(qs, hash, resolve, cached), q.key);
      e.Some? && q.today - 1 <= e.value.day <= q.today
  {
    var all := qs + [q];
    assert forall i | 0 <= i < |qs| :: all[i] == qs[i] && all[i].today <= all[|qs|].today;
    DaysOfInsertions(qs, hash, resolve, cached, q.today);
    HitIsMostRecent(Asked(qs, hash, resolve, cached), hash, q.key, q.today);
  }

  /** An insertion that was the last of its slot answers today and tomorrow, and no longer. */
  lemma AnswersForTwoDays<K, V>(log: seq<Insertion<K, V>>, hash: K -> nat, n: nat, today: nat)
    requires n < |log| && forall m | n < m < |log| :: hash(log[m].key) % 4096 != hash(log[n].key) % 4096
    ensures Hit(log, hash, log[n].key, today) <==> today <= log[n].day + 1
    ensures today <= log[n].day + 1 ==> Answer(log, hash, log[n].key, today) == log[n].value
  {
    LastOfSlot(log, hash, n);
  }

  lemma {:induction false} LastOfSlot<K, V>(log: seq<Insertion<K, V>>, hash: K -> nat, n: nat)
    requires n < |log| && forall m | n < m < |log| :: hash(log[m].key) % 4096 != hash(log[n].key) % 4096
    ensures Latest(log, hash, Slot(hash, log[n].key)) == Some(log[n])
  {
    if n < |log| - 1 {
      var before := log[..|log| - 1];
      assert forall m | n < m < |before| :: before[m] == log[m];
      LastOfSlot(before, hash, n);
    }
  }

  // ---- a resolver with a switch: allow_reverse ----

  /** A lookup, and whether allow_reverse was on. */
  datatype Switched<K> = Switched(key: K, today: nat, reverse: bool)

  /** With the switch on the name of a key is given, with the switch off its numeric form. */
  function Resolver<K, V>(named: K -> V, numeric: K -> V, reverse: bool): K -> Option<V> {
    key => Some(if reverse then named(key) else numeric(key))
  }

  /** The insertions after some lookups, and for each whether the switch was on. */
  function AskedBy<K(==), V>(qs: seq<Switched<K>>, hash: K -> nat, named: K -> V, numeric: K -> V)
    : (r: (seq<Insertion<K, V>>, seq<bool>))
  {
    if qs == [] then ([], []) else
      var q := qs[|qs| - 1];
      var (log, made) := AskedBy(qs[..|qs| - 1], hash, named, numeric);
      var after := Ask(log, hash, Resolver(named, numeric, q.reverse), q.reverse, q.key, q.today).1;
      (after, if |after| == |log| then made else made + [q.reverse])
  }

  /** The answer to lookup `q` after the lookups `qs`. */
  function AnswerBy<K(==), V>(qs: seq<Switched<K>>, q: Switched<K>, hash: K -> nat, named: K -> V, numeric: K -> V)
    : Option<V> {
    Ask(AskedBy(qs, hash, named, numeric).0, hash, Resolver(named, numeric, q.reverse), q.reverse, q.key, q.today).0
  }

  /** Every insertion holds what its own switch made of the key. */
  ghost predicate MadeBy<K, V>(log: seq<Insertion<K, V>>, made: seq<bool>, named: K -> V, numeric: K -> V) {
    |made| == |log| && forall n | 0 <= n < |log| ::
      log[n].value == if made[n] then named(log[n].key) else numeric(log[n].key)
  }

  lemma {:induction false} TablesAreMade<K, V>(qs: seq<Switched<K>>, hash: K -> nat, named: K -> V, numeric: K -> V)
    ensures var (log, made) := AskedBy(qs, hash, named, numeric); MadeBy(log, made, named, numeric)
  {
    if qs != [] { TablesAreMade(qs[..|qs| - 1], hash, named, numeric); }
  }

  /** The insertion that survives is the one that answers. */
  lemma {:induction false} SurvivorIsLatest<K, V>(log: seq<Insertion<K, V>>, hash: K -> nat, key: K, today: nat, n: nat)
    requires n < |log| && Survives(log, hash, key, today, n)
    ensures Hit(log, hash, key, today) && Answer(log, hash, key, today) == log[n].value
    ensures Latest(log, hash, Slot(hash, key)) == Some(log[n])
  {
    if n < |log| - 1 {
      var before := log[..|log| - 1];
      assert forall m | n < m < |before| :: before[m] == log[m];
      SurvivorIsLatest(before, hash, key, today, n);
    }
  }

  /** With the switch off the answer is always the numeric form. With it on, after every run of lookups, the answer is
    * the name just if no insertion of the key survives that was made with the switch off, or the two are the same. */
  lemma NameIsGivenIff<K, V>(qs: seq<Switched<K>>, q: Switched<K>, hash: K -> nat, named: K -> V, numeric: K -> V)
    ensures !q.reverse ==> AnswerBy(qs, q, hash, named, numeric) == Some(numeric(q.key))
    ensures q.reverse ==>
      var (log, made) := AskedBy(qs, hash, named, numeric);
      && |made| == |log|
      && (AnswerBy(qs, q, hash, named, numeric) == Some(named(q.key)) <==>
          named(q.key) == numeric(q.key) ||
          forall n | 0 <= n < |log| && Survives(log, hash, q.key, q.today, n) :: made[n])
  {
    TablesAreMade(qs, hash, named, numeric);
    var (log, made) := AskedBy(qs, hash, named, numeric);
    HitIff(log, hash, q.key, q.today);
    forall n | 0 <= n < |log| && Survives(log, hash, q.key, q.today, n)
      ensures Hit(log, hash, q.key, q.today) && Answer(log, hash, q.key, q.today) == log[n].value
    {
      SurvivorIsLatest(log, hash, q.key, q.today, n);
    }
  }

  /** The switch is never turned on again, as option -n only turns it off. */
  ghost predicate NeverTurnedOn<K>(qs: seq<Switched<K>>) {
    forall i, j | 0 <= i < j < |qs| :: qs[j].reverse ==> qs[i].reverse
  }

  lemma {:induction false} AllMadeOn<K, V>(qs: seq<Switched<K>>, hash: K -> nat, named: K -> V, numeric: K -> V)
    requires forall i | 0 <= i < |qs| :: qs[i].reverse
    ensures forall b | b in AskedBy(qs, hash, named, numeric).1 :: b
  {
    if qs != [] { AllMadeOn(qs[..|qs| - 1], hash, named, numeric); }
  }

  /** So in this program every answer is what the resolver says for the switch at that moment. */
  lemma SwitchIsTransparent<K, V>(qs: seq<Switched<K>>, q: Switched<K>, hash: K -> nat, named: K -> V, numeric: K -> V)
    requires NeverTurnedOn(qs + [q])
    ensures AnswerBy(qs, q, hash, named, numeric) == Resolver(named, numeric, q.reverse)(q.key)
  {
    NameIsGivenIff(qs, q, hash, named, numeric);
    if q.reverse {
      var all := qs + [q];
      assert forall i | 0 <= i < |qs| :: all[i] == qs[i] && (all[|qs|].reverse ==> all[i].reverse);
      AllMadeOn(qs, hash, named, numeric);
      var (log, made) := AskedBy(qs, hash, named, numeric);
      assert forall n | 0 <= n < |made| :: made[n] in made;
    }
  }

  /** Turned on again it would not be: within a day of a lookup with the switch off, whatever came before, the numeric
    * form is still given. */
  lemma TurningOnShows<K, V>(qs: seq<Switched<K>>, key: K, today: nat, later: nat, hash: K -> nat,
                             named: K -> V, numeric: K -> V)
    requires later < today + EXPIRE_DAY
    ensures AnswerBy(qs + [Switched(key, today, false)], Switched(key, later, true), hash, named, numeric)
      == Some(numeric(key))
  {
    var off := Switched(key, today, false);
    var all := qs + [off];
    assert all[..|all| - 1] == qs;
    var log := AskedBy(all, hash, named, numeric).0;
    assert log == AskedBy(qs, hash, named, numeric).0 + [Insertion(key, numeric(key), today)];
  }
}
