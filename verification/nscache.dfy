/** ns-cache.c in memory: the two tables, the ring of returned strings, and the mutex around them. */
module NsCache {
  import opened Lookup
  import opened Wrappers

  const SAFE_BUFFERS := 256

  /** What inet_addr returns for anything but a dotted address. */
  const INADDR_NONE := 0xFFFF_FFFF

  /** What the resolver says for a name: the dotted form, or else the name server. */
  function ByName(inet: string -> nat, dns: string -> Option<nat>, host: string): Option<nat> {
    if inet(host) != INADDR_NONE then Some(inet(host)) else dns(host)
  }

  /** And for an address, where names are allowed: its name if that is known, or else its dotted form. */
  function ByAddress(ntoa: nat -> string, dns: nat -> Option<string>, addr: nat): string {
    if dns(addr).Some? then dns(addr).value else ntoa(addr)
  }

  /** Over every run of lookups, cached or not, a dotted address is answered by itself, whatever the name server would
    * say; only where inet_addr finds none, which is also where it finds 255.255.255.255, the name server is asked. */
  lemma DottedIsAnswered(qs: seq<Query<string>>, q: Query<string>, hash: string -> nat, inet: string -> nat,
                         dns: string -> Option<nat>)
    ensures var resolve := h => ByName(inet, dns, h);
      var answer := Ask(Asked(qs, hash, resolve, true), hash, resolve, true, q.key, q.today).0;
      && (inet(q.key) != 0xFFFF_FFFF ==> answer == Some(inet(q.key)))
      && (inet(q.key) == 0xFFFF_FFFF ==> answer == dns(q.key))
  {
    CacheIsTransparent(qs, q, hash, h => ByName(inet, dns, h), true);
  }

  /** And where names are allowed a known name is given, and the dotted form only where none is known. */
  lemma KnownNameIsGiven(qs: seq<Query<nat>>, q: Query<nat>, hash: nat -> nat, ntoa: nat -> string,
                         dns: nat -> Option<string>)
    ensures var resolve := a => Some(ByAddress(ntoa, dns, a));
      var answer := Ask(Asked(qs, hash, resolve, true), hash, resolve, true, q.key, q.today).0;
      && (dns(q.key).Some? ==> answer == dns(q.key))
      && (dns(q.key).None? ==> answer == Some(ntoa(q.key)))
  {
    CacheIsTransparent(qs, q, hash, a => Some(ByAddress(ntoa, dns, a)), true);
  }

  /** Where a string that strdup made is kept. */
  datatype Place = Name(i: nat) | Address(i: nat) | Ring(i: nat)

  class CString {
    const text: string
    ghost const place: Place

    constructor (text: string, ghost place: Place)
      ensures this.text == text && this.place == place
    {
      this.text, this.place := text, place;
    }
  }

  datatype Entry = Entry(addr: nat, host: CString?, yday: nat)

  /** The entry of the table by name that stands for what was inserted last. */
  ghost predicate ShowsName(e: Entry, last: Option<Insertion<string, nat>>) {
    match last
    case None => e == Entry(0, null, 0)
    case Some(x) => e.host != null && e.host.text == x.key && e.addr == x.value && e.yday == x.day
  }

  /** The entry of the table by address. */
  ghost predicate ShowsAddress(e: Entry, last: Option<Insertion<nat, string>>) {
    match last
    case None => e == Entry(0, null, 0)
    case Some(x) => e.host != null && e.host.text == x.value && e.addr == x.key && e.yday == x.day
  }

  /** The ring slot that call number `j` fills. */
  ghost function RingSlot(j: nat): (i: nat)
    ensures i < SAFE_BUFFERS
  {
    (j + 1) % SAFE_BUFFERS
  }

  /** The first call that fills ring slot `i`. */
  ghost function FirstCall(i: nat): nat {
    (i + SAFE_BUFFERS - 1) % SAFE_BUFFERS
  }

  /** The ring holds the last 256 strings returned, all of them different. */
  ghost predicate RingShows(ring: seq<CString?>, returned: seq<CString>) {
    && |ring| == SAFE_BUFFERS
    && (forall j | 0 <= j < |returned| && |returned| - SAFE_BUFFERS <= j :: ring[RingSlot(j)] == returned[j])
    && (forall j | 0 <= j < |returned| :: returned[j].place == Ring(RingSlot(j)))
    && (forall i, j | 0 <= i < j < |returned| :: returned[i] != returned[j])
    && forall i | 0 <= i < SAFE_BUFFERS :: ring[i] != null ==> FirstCall(i) < |returned|
  }

  /** One more call. */
  lemma RingTurns(ring: seq<CString?>, returned: seq<CString>, s: CString)
    requires RingShows(ring, returned) && s !in returned && s.place == Ring(RingSlot(|returned|))
    ensures RingShows(ring[RingSlot(|returned|) := s], returned + [s])
  {
    var next, all := ring[RingSlot(|returned|) := s], returned + [s];
    forall j | 0 <= j < |all| && |all| - SAFE_BUFFERS <= j ensures next[RingSlot(j)] == all[j] {
      if j < |returned| { assert RingSlot(j) != RingSlot(|returned|); }
    }
    forall i | 0 <= i < SAFE_BUFFERS && next[i] != null ensures FirstCall(i) < |all| {
      if i == RingSlot(|returned|) { assert FirstCall(i) == |returned| % SAFE_BUFFERS; }
    }
  }

  /** The last call that fills ring slot `i`, of `k` calls. */
  lemma LastCall(ring: seq<CString?>, returned: seq<CString>, i: nat) returns (j: nat)
    requires RingShows(ring, returned) && i < SAFE_BUFFERS && ring[i] != null
    ensures j < |returned| <= j + SAFE_BUFFERS && RingSlot(j) == i && ring[i] == returned[j]
  {
    var f := FirstCall(i);
    j := f + (|returned| - 1 - f) / SAFE_BUFFERS * SAFE_BUFFERS;
    assert RingSlot(f) == i;
  }

  class Cache {
    const hostbyname: array<Entry>
    const hostbyaddr: array<Entry>
    const sf: array<CString?>
    var index: nat
    const hashName: string -> nat
    const hashAddr: nat -> nat

    /** The insertions so far, and the strings returned so far. */
    ghost var names: seq<Insertion<string, nat>>
    ghost var addrs: seq<Insertion<nat, string>>
    ghost var returned: seq<CString>

    /** The strings allocated and not freed, each by its place. */
    ghost var heap: map<Place, CString>

    /** The mutex, and how often it was taken and released. */
    ghost var held: bool
    ghost var taken: nat
    ghost var released: nat

    ghost predicate TablesOk()
      reads this, hostbyname, hostbyaddr
    {
      && hostbyname.Length == hostbyaddr.Length == HASH_TABSIZE && hostbyname != hostbyaddr
      && (forall i | 0 <= i < HASH_TABSIZE :: ShowsName(hostbyname[i], Latest(names, hashName, i)))
      && (forall i | 0 <= i < HASH_TABSIZE :: ShowsAddress(hostbyaddr[i], Latest(addrs, hashAddr, i)))
      && forall n | 0 <= n < |addrs| :: addrs[n].key != 0
    }

    ghost predicate RingOk()
      reads this, sf
    {
      sf.Length == SAFE_BUFFERS && index == |returned| && RingShows(sf[..], returned)
    }

    /** The live string of a place, if any. */
    ghost function LiveAt(p: Place): CString?
      reads this`heap
    {
      if p in heap then heap[p] else null
    }

    ghost predicate Live(s: CString)
      reads this`heap
    {
      LiveAt(s.place) == s
    }

    /** The pointers of the tables and of the ring are exactly the live strings: none leaks, none is freed early. */
    ghost predicate HeapOk()
      requires hostbyname.Length == hostbyaddr.Length == HASH_TABSIZE && sf.Length == SAFE_BUFFERS
      reads this`heap, hostbyname, hostbyaddr, sf
    {
      && TablesLive() && (forall i | 0 <= i < SAFE_BUFFERS :: sf[i] == LiveAt(Ring(i)))
      && forall p | p in heap :: heap[p].place == p && p.i < if p.Ring? then SAFE_BUFFERS else HASH_TABSIZE
    }

    ghost predicate TablesLive()
      requires hostbyname.Length == hostbyaddr.Length == HASH_TABSIZE
      reads this`heap, hostbyname, hostbyaddr
    {
      && (forall i | 0 <= i < HASH_TABSIZE :: hostbyname[i].host == LiveAt(Name(i)))
      && forall i | 0 <= i < HASH_TABSIZE :: hostbyaddr[i].host == LiveAt(Address(i))
    }

    ghost predicate Valid()
      reads this, hostbyname, hostbyaddr, sf
    {
      TablesOk() && RingOk() && HeapOk() && taken == released + if held then 1 else 0
    }

    /** The zeroed static tables. */
    constructor (hashName: string -> nat, hashAddr: nat -> nat)
      ensures Valid() && !held && names == [] && addrs == [] && returned == [] && taken == 0
      ensures this.hashName == hashName && this.hashAddr == hashAddr
    {
      hostbyname := new Entry[HASH_TABSIZE](_ => Entry(0, null, 0));
      hostbyaddr := new Entry[HASH_TABSIZE](_ => Entry(0, null, 0));
      sf := new CString?[SAFE_BUFFERS](_ => null);
      index := 0;
      this.hashName, this.hashAddr := hashName, hashAddr;
      names, addrs, returned, heap := [], [], [], map[];
      held, taken, released := false, 0, 0;
    }

    /** __prolog_pth: waits until the mutex is free and takes it. */
    method Lock()
      requires Valid() && !held
      modifies this`held, this`taken
      ensures Valid() && held && taken == old(taken) + 1
    {
      held, taken := true, taken + 1;
    }

    /** __epilog_pth */
    method Unlock()
      requires Valid() && held
      modifies this`held, this`released
      ensures Valid() && !held && released == old(released) + 1
    {
      held, released := false, released + 1;
    }

    /** strdup, for a string to be kept at `place`, where no other may be left. */
    method Strdup(text: string, ghost place: Place) returns (s: CString)
      requires place !in heap
      modifies this`heap
      ensures fresh(s) && s.text == text && s.place == place && heap == old(heap)[place := s]
    {
      s := new CString(text, place);
      heap := heap[place := s];
    }

    /** free: a null pointer is ignored, any other must be live. */
    method Free(s: CString?, ghost place: Place)
      requires s == LiveAt(place)
      modifies this`heap
      ensures heap == old(heap) - {place}
    {
      heap := heap - {place};
    }

    /** __cache_hostbyname */
    method CacheHostByName(host: string, today: nat) returns (r: Option<nat>)
      requires Valid() && held
      ensures r == if Hit(names, hashName, host, today) then Some(Answer(names, hashName, host, today)) else None
    {
      var i := Slot(hashName, host);
      assert ShowsName(hostbyname[i], Latest(names, hashName, i));
      if hostbyname[i].yday + EXPIRE_DAY <= today { return None; }
      if hostbyname[i].host == null { return None; }
      if host == hostbyname[i].host.text { return Some(hostbyname[i].addr); }
      r := None;
    }

    /** __cache_hostbyaddr */
    method CacheHostByAddr(address: nat, today: nat) returns (r: CString?)
      requires Valid() && held
      ensures r != null <==> address != 0 && Hit(addrs, hashAddr, address, today)
      ensures r != null ==> r.text == Answer(addrs, hashAddr, address, today)
    {
      if address == 0 { return null; }
      var i := Slot(hashAddr, address);
      assert ShowsAddress(hostbyaddr[i], Latest(addrs, hashAddr, i));
      if hostbyaddr[i].yday + EXPIRE_DAY <= today { return null; }
      if hostbyaddr[i].addr == address { return hostbyaddr[i].host; }
      r := null;
    }

    /** __insert_hostbyname */
    method InsertHostByName(h: string, addr: nat, today: nat)
      requires Valid() && held
      modifies this`names, this`heap, hostbyname
      ensures Valid() && names == old(names) + [Insertion(h, addr, today)]
    {
      var i := Slot(hashName, h);
      Free(hostbyname[i].host, Name(i));
      var s := Strdup(h, Name(i));
      hostbyname[i] := Entry(addr, s, today);
      names := names + [Insertion(h, addr, today)];
    }

    /** __insert_hostbyaddr */
    method InsertHostByAddr(h: string, addr: nat, today: nat)
      requires Valid() && held && addr != 0
      modifies this`addrs, this`heap, hostbyaddr
      ensures Valid() && addrs == old(addrs) + [Insertion(addr, h, today)]
    {
      var i := Slot(hashAddr, addr);
      Free(hostbyaddr[i].host, Address(i));
      var s := Strdup(h, Address(i));
      hostbyaddr[i] := Entry(addr, s, today);
      addrs := addrs + [Insertion(addr, h, today)];
    }

    /** One ring slot is freed and filled again. */
    method FillSlot(slot: nat, text: string) returns (ret: CString)
      requires hostbyname.Length == hostbyaddr.Length == HASH_TABSIZE && sf.Length == SAFE_BUFFERS && HeapOk()
      requires slot < SAFE_BUFFERS
      modifies this`heap, sf
      ensures HeapOk() && fresh(ret) && ret.text == text
      ensures sf[slot] == ret && forall i | 0 <= i < SAFE_BUFFERS && i != slot :: sf[i] == old(sf[i])
    {
      Free(sf[slot], Ring(slot));
      ret := Strdup(text, Ring(slot));
      sf[slot] := ret;
      assert TablesLive();
    }

    /** The ring slot of 256 calls ago is freed and filled again. */
    method TurnRing(text: string) returns (ret: CString)
      requires hostbyname.Length == hostbyaddr.Length == HASH_TABSIZE && RingOk() && HeapOk()
      modifies this`index, this`returned, this`heap, sf
      ensures RingOk() && HeapOk() && fresh(ret) && ret.text == text && returned == old(returned) + [ret]
    {
      index := index + 1;
      var slot := index % SAFE_BUFFERS;
      ret := FillSlot(slot, text);
      assert sf[..] == old(sf[..])[slot := ret];
      RingTurns(old(sf[..]), returned, ret);
      returned := returned + [ret];
    }

    method FillRing(text: string) returns (ret: CString)
      requires Valid() && held
      modifies this`index, this`returned, this`heap, sf
      ensures Valid() && fresh(ret) && ret.text == text && returned == old(returned) + [ret]
    {
      ret := TurnRing(text);
    }

    /** __safe_buffer: it also releases the mutex. */
    method SafeBuffer(text: string) returns (ret: CString)
      requires Valid() && held
      modifies this`index, this`returned, this`heap, this`held, this`released, sf
      ensures Valid() && !held && released == old(released) + 1
      ensures fresh(ret) && ret.text == text && returned == old(returned) + [ret]
    {
      ret := FillRing(text);
      Unlock();
    }

    // ---- the public entry points; each takes the mutex once and releases it once ----

    /** gethostbyname_cache; None stands for -1. The dotted form is read first, the name server `asked` after. */
    method GetHostByNameCache(host: Option<string>, today: nat, inet: string -> nat, dns: string -> Option<nat>)
      returns (r: Option<nat>, ghost asked: bool)
      requires Valid() && !held
      modifies this`names, this`heap, this`held, this`taken, this`released, hostbyname
      ensures Valid() && !held && taken == old(taken) + 1 && released == old(released) + 1
      ensures host.None? ==> r == None && names == old(names)
      ensures host.Some? ==>
        (r, names) == Ask(old(names), hashName, h => ByName(inet, dns, h), true, host.value, today)
      ensures asked <==> host.Some? && !Hit(old(names), hashName, host.value, today) && inet(host.value) == INADDR_NONE
    {
      asked := false;
      Lock();
      if host.None? {
        Unlock();
        return None, asked;
      }
      r := CacheHostByName(host.value, today);
      if r.Some? {
        Unlock();
        return r, asked;
      }
      var addr := inet(host.value);
      if addr == INADDR_NONE {
        asked := true;
        var hostEnt := dns(host.value);
        if hostEnt.None? {
          Unlock();
          return None, asked;
        }
        addr := hostEnt.value;
      }
      InsertHostByName(host.value, addr, today);
      Unlock();
      r := Some(addr);
    }

    /** gethostbyaddr_cache */
    method GetHostByAddrCache(addr: nat, allowReverse: bool, today: nat,
                              ntoa: nat -> string, dns: nat -> Option<string>)
      returns (s: CString, ghost asked: bool)
      requires Valid() && !held
      modifies this`addrs, this`heap, this`index, this`returned, this`held, this`taken, this`released, hostbyaddr, sf
      ensures Valid() && !held && taken == old(taken) + 1 && released == old(released) + 1
      ensures fresh(s) && returned == old(returned) + [s]
      ensures addr == 0 ==> s.text == "0.0.0.0" && addrs == old(addrs)
      ensures addr != 0 ==>
        (Some(s.text), addrs) ==
        Ask(old(addrs), hashAddr, Resolver(a => ByAddress(ntoa, dns, a), ntoa, allowReverse), allowReverse, addr, today)
      ensures asked <==> addr != 0 && allowReverse && !Hit(old(addrs), hashAddr, addr, today)
    {
      asked := false;
      Lock();
      if addr == 0 {
        s := SafeBuffer("0.0.0.0");
        return;
      }
      var ret := "";
      if allowReverse {
        var hit := CacheHostByAddr(addr, today);
        if hit != null {
          s := SafeBuffer(hit.text);
          return;
        }
        asked := true;
        var hostname := dns(addr);
        ret := if hostname.Some? then hostname.value else ntoa(addr);
      } else {
        ret := ntoa(addr);
      }
      InsertHostByAddr(ret, addr, today);
      s := SafeBuffer(ret);
    }

    /** safe_inet_ntoa */
    method SafeInetNtoa(address: nat, ntoa: nat -> string) returns (s: CString)
      requires Valid() && !held
      modifies this`heap, this`index, this`returned, this`held, this`taken, this`released, sf
      ensures Valid() && !held && taken == old(taken) + 1 && released == old(released) + 1
      ensures fresh(s) && s.text == ntoa(address) && returned == old(returned) + [s]
    {
      Lock();
      s := SafeBuffer(ntoa(address));
    }

    /** A returned string is live up to and including the 255th later call, and no longer; of all ring strings exactly
      * these are live. */
    lemma LastCallsAreLive()
      requires Valid()
      ensures forall j | 0 <= j < |returned| :: Live(returned[j]) <==> |returned| - j <= 256
      ensures forall p | p in heap && p.Ring? ::
        exists j | 0 <= j < |returned| && |returned| - j <= SAFE_BUFFERS :: heap[p] == returned[j]
    {
      forall j | 0 <= j < |returned| ensures Live(returned[j]) <==> |returned| - j <= SAFE_BUFFERS {
        var i := RingSlot(j);
        assert returned[j].place == Ring(i) && sf[..][i] == LiveAt(Ring(i));
        if |returned| - j > SAFE_BUFFERS && sf[i] != null {
          var l := LastCall(sf[..], returned, i);
          assert returned[j] != returned[l];
        }
      }
      forall p | p in heap && p.Ring?
        ensures exists j | 0 <= j < |returned| && |returned| - j <= SAFE_BUFFERS :: heap[p] == returned[j]
      {
        assert sf[..][p.i] == LiveAt(p);
        var l := LastCall(sf[..], returned, p.i);
        assert heap[p] == returned[l];
      }
    }
  }
}
