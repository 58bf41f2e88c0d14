/**
 * The redundant structures of the address manager as values: the id-to-entry
 * map, the address-to-id map, the randomly ordered id vector, and the two
 * bucket tables.  Hashes are arbitrary functions, reduced to the ranges the
 * manager uses.
 */
module AddrTables {

  const NEW_BUCKETS := 1024
  const TRIED_BUCKETS := 256
  const BUCKET_SIZE := 64
  const TRIED_BUCKETS_PER_GROUP := 8
  const NEW_BUCKETS_PER_SOURCE_GROUP := 64
  const NEW_BUCKETS_PER_ADDRESS := 8
  const EMPTY := -1

  /** A network address, known by a number. */
  type Ip = nat

  datatype Service = Service(ip: Ip, port: nat)

  /** CAddress: a service with what a peer said about it. The flag word of what it offers is the set of its bits. */
  datatype Address = Address(service: Service, services: set<nat>, time: int)

  datatype Info = Info(
    address: Address,
    source: Ip,
    lastTry: int,
    lastCountAttempt: int,
    lastSuccess: int,
    attempts: int,
    refCount: int,
    inTried: bool,
    randomPos: int)
  {
    function Service(): Service { address.service }
  }

  /** CAddrInfo(addr, source). */
  function NewInfo(address: Address, source: Ip): Info {
    Info(address, source, 0, 0, 0, 0, 0, false, -1)
  }

  /** The hash functions behind the bucket choice; the first argument is the secret key. */
  datatype Hasher = Hasher(
    group: Ip -> nat,
    service: (nat, Service) -> nat,
    triedGroup: (nat, nat, nat) -> nat,
    groups: (nat, nat, nat) -> nat,
    sourceGroup: (nat, nat, nat) -> nat,
    position: (nat, bool, nat, Service) -> nat)

  function TriedBucket(h: Hasher, key: nat, s: Service): (b: nat)
    ensures b < TRIED_BUCKETS
  {
    var hash1 := h.service(key, s);
    h.triedGroup(key, h.group(s.ip), hash1 % TRIED_BUCKETS_PER_GROUP) % TRIED_BUCKETS
  }

  function NewBucket(h: Hasher, key: nat, s: Service, source: Ip): (b: nat)
    ensures b < NEW_BUCKETS
  {
    var hash1 := h.groups(key, h.group(s.ip), h.group(source));
    h.sourceGroup(key, h.group(source), hash1 % NEW_BUCKETS_PER_SOURCE_GROUP) % NEW_BUCKETS
  }

  function Position(h: Hasher, key: nat, isNew: bool, bucket: nat, s: Service): (p: nat)
    ensures p < BUCKET_SIZE
  {
    h.position(key, isNew, bucket, s) % BUCKET_SIZE
  }

  // ---------------------------------------------------------------- tables

  type Table = seq<seq<int>>

  predicate IsTable(t: Table, buckets: nat) {
    |t| == buckets && forall b :: 0 <= b < buckets ==> |t[b]| == BUCKET_SIZE
  }

  predicate InTable(t: Table, b: int, p: int) {
    0 <= b < |t| && 0 <= p < |t[b]|
  }

  function At(t: Table, b: int, p: int): int
    requires InTable(t, b, p)
  {
    t[b][p]
  }

  function Put(t: Table, b: int, p: int, x: int): (t': Table)
    requires InTable(t, b, p)
    ensures |t'| == |t| && forall c :: 0 <= c < |t| ==> |t'[c]| == |t[c]|
    ensures forall c, q :: InTable(t, c, q) ==> At(t', c, q) == if c == b && q == p then x else At(t, c, q)
  {
    t[b := t[b][p := x]]
  }

  // ---------------------------------------------------------------- the invariant, part by part

  function NewIds(info: map<int, Info>): set<int> { set id | id in info && !info[id].inTried }

  function TriedIds(info: map<int, Info>): set<int> { set id | id in info && info[id].inTried }

  ghost predicate IdsOk(info: map<int, Info>, idCount: int) {
    0 <= idCount && forall id :: id in info ==> 0 <= id < idCount
  }

  /** mapAddr is the inverse of mapInfo. */
  ghost predicate AddrOk(info: map<int, Info>, addr: map<Ip, int>) {
    && (forall id :: id in info ==> info[id].Service().ip in addr && addr[info[id].Service().ip] == id)
    && (forall ip :: ip in addr ==> addr[ip] in info && info[addr[ip]].Service().ip == ip)
  }

  /** vRandom and nRandomPos are inverse to each other. */
  ghost predicate RandomOk(info: map<int, Info>, random: seq<int>) {
    && (forall id {:trigger info[id].randomPos} :: id in info ==>
         0 <= info[id].randomPos < |random| && random[info[id].randomPos] == id)
    && (forall k :: 0 <= k < |random| ==> random[k] in info && info[random[k]].randomPos == k)
  }

  /** The new buckets in which an id stands where its hash puts it. */
  function Refs(h: Hasher, key: nat, t: Table, id: int, s: Service): set<int>
    requires IsTable(t, NEW_BUCKETS)
  {
    set b | 0 <= b < NEW_BUCKETS && At(t, b, Position(h, key, true, b, s)) == id
  }

  /** New-table entries are known and stand only in their hashed slots. */
  ghost predicate NewOk(h: Hasher, key: nat, info: map<int, Info>, t: Table) {
    && IsTable(t, NEW_BUCKETS)
    && forall b, p :: InTable(t, b, p) && At(t, b, p) != EMPTY ==>
         && At(t, b, p) in info
         && Position(h, key, true, b, info[At(t, b, p)].Service()) == p
  }

  /**
   * The reference count of an entry is the number of its new-table slots.  That
   * is 1 to 8 for a new entry and 0 for a tried one, and for the entries in
   * `transit`, which are about to be placed or deleted.
   */
  ghost predicate RefsOk(h: Hasher, key: nat, info: map<int, Info>, t: Table, transit: set<int>)
    requires IsTable(t, NEW_BUCKETS)
  {
    forall id :: id in info ==>
      && info[id].refCount == |Refs(h, key, t, id, info[id].Service())|
      && if id in transit || info[id].inTried then info[id].refCount == 0
         else 1 <= info[id].refCount <= NEW_BUCKETS_PER_ADDRESS
  }

  /** The tried table holds exactly the tried entries, each in its hashed slot. */
  ghost predicate TriedOk(h: Hasher, key: nat, info: map<int, Info>, t: Table) {
    && IsTable(t, TRIED_BUCKETS)
    && (forall b, p :: InTable(t, b, p) && At(t, b, p) != EMPTY ==>
         && At(t, b, p) in info
         && info[At(t, b, p)].inTried
         && TriedBucket(h, key, info[At(t, b, p)].Service()) == b
         && Position(h, key, false, b, info[At(t, b, p)].Service()) == p)
    && (forall id :: id in info && info[id].inTried ==>
         At(t, TriedSlot(h, key, info[id].Service()).0, TriedSlot(h, key, info[id].Service()).1) == id)
  }

  function TriedSlot(h: Hasher, key: nat, s: Service): (slot: (nat, nat))
    ensures slot.0 < TRIED_BUCKETS && slot.1 < BUCKET_SIZE
  {
    var b := TriedBucket(h, key, s);
    (b, Position(h, key, false, b, s))
  }

  /** The structures of the manager in one value. */
  datatype Core = Core(
    idCount: int,
    info: map<int, Info>,
    addr: map<Ip, int>,
    random: seq<int>,
    nTried: int,
    tried: Table,
    nNew: int,
    newT: Table)

  /**
   * The invariant, with the entries `transit` on their way into or out of the
   * tables, and `uncounted` unfinished entries that nNew leaves out.
   */
  ghost predicate Inv(h: Hasher, key: nat, c: Core, transit: set<int>, uncounted: int) {
    && IdsOk(c.info, c.idCount) && AddrOk(c.info, c.addr) && RandomOk(c.info, c.random)
    && NewOk(h, key, c.info, c.newT) && RefsOk(h, key, c.info, c.newT, transit)
    && TriedOk(h, key, c.info, c.tried)
    && c.nNew == |NewIds(c.info)| - uncounted && c.nTried == |TriedIds(c.info)|
  }

  // ---------------------------------------------------------------- entries that stay put

  /** The same entries, up to their place in vRandom. */
  ghost predicate SameEntries(info: map<int, Info>, info': map<int, Info>) {
    && (forall id :: id in info <==> id in info')
    && forall id :: id in info ==> info'[id] == info[id].(randomPos := info'[id].randomPos)
  }

  /** The same entries as far as the tables and the address map are concerned. */
  ghost predicate SameShape(info: map<int, Info>, info': map<int, Info>) {
    && (forall id :: id in info <==> id in info')
    && forall id :: id in info ==>
         && info'[id].Service() == info[id].Service() && info'[id].refCount == info[id].refCount
         && info'[id].inTried == info[id].inTried
  }

  lemma ShapeKeeps(h: Hasher, key: nat, c: Core, info': map<int, Info>, random': seq<int>, transit: set<int>,
                   uncounted: int)
    requires Inv(h, key, c, transit, uncounted) && SameShape(c.info, info') && RandomOk(info', random')
    ensures Inv(h, key, c.(info := info', random := random'), transit, uncounted)
  {
    ShapeKeepsIndexes(c.info, info', c.idCount, c.addr);
    ShapeKeepsTables(h, key, c.info, info', c.newT, c.tried, transit);
  }

  lemma ShapeKeepsIndexes(info: map<int, Info>, info': map<int, Info>, idCount: int, addr: map<Ip, int>)
    requires SameShape(info, info') && IdsOk(info, idCount) && AddrOk(info, addr)
    ensures IdsOk(info', idCount) && AddrOk(info', addr)
    ensures NewIds(info') == NewIds(info) && TriedIds(info') == TriedIds(info)
  {
    forall ip | ip in addr ensures addr[ip] in info' && info'[addr[ip]].Service().ip == ip {
      var id := addr[ip];
      assert id in info && info[id].Service().ip == ip;
    }
    forall id ensures id in NewIds(info') <==> id in NewIds(info) {}
    forall id ensures id in TriedIds(info') <==> id in TriedIds(info) {}
  }

  lemma ShapeKeepsTables(h: Hasher, key: nat, info: map<int, Info>, info': map<int, Info>, newT: Table, tried: Table,
                         transit: set<int>)
    requires SameShape(info, info')
    requires NewOk(h, key, info, newT) && RefsOk(h, key, info, newT, transit) && TriedOk(h, key, info, tried)
    ensures NewOk(h, key, info', newT) && RefsOk(h, key, info', newT, transit) && TriedOk(h, key, info', tried)
  {}

  /** Changing what is remembered about an entry. */
  function Touched(c: Core, id: int, e: Info): Core { c.(info := c.info[id := e]) }

  lemma TouchKeeps(h: Hasher, key: nat, c: Core, id: int, e: Info, transit: set<int>, uncounted: int)
    requires Inv(h, key, c, transit, uncounted) && id in c.info
    requires e.Service() == c.info[id].Service() && e.refCount == c.info[id].refCount
    requires e.inTried == c.info[id].inTried && e.randomPos == c.info[id].randomPos
    ensures Inv(h, key, Touched(c, id, e), transit, uncounted)
  {
    ShapeKeeps(h, key, c, c.info[id := e], c.random, transit, uncounted);
  }

  // ---------------------------------------------------------------- vRandom

  /** SwapRandom. */
  function Swapped(c: Core, p1: nat, p2: nat): Core
    requires RandomOk(c.info, c.random) && p1 < |c.random| && p2 < |c.random|
  {
    var id1, id2 := c.random[p1], c.random[p2];
    if p1 == p2 then c
    else c.(info := c.info[id1 := c.info[id1].(randomPos := p2)][id2 := c.info[id2].(randomPos := p1)],
            random := c.random[p1 := id2][p2 := id1])
  }

  lemma SwapKeepsRandom(c: Core, p1: nat, p2: nat)
    requires RandomOk(c.info, c.random) && p1 < |c.random| && p2 < |c.random|
    ensures RandomOk(Swapped(c, p1, p2).info, Swapped(c, p1, p2).random)
    ensures SameEntries(c.info, Swapped(c, p1, p2).info)
    ensures multiset(Swapped(c, p1, p2).random) == multiset(c.random)
  {
    SwapKeepsEntries(c, p1, p2);
    SwapKeepsPlaces(c, p1, p2);
    SwapKeepsMembers(c, p1, p2);
  }

  lemma SwapKeepsPlaces(c: Core, p1: nat, p2: nat)
    requires RandomOk(c.info, c.random) && p1 < |c.random| && p2 < |c.random|
    ensures RandomOk(Swapped(c, p1, p2).info, Swapped(c, p1, p2).random)
  {}

  lemma SwapKeepsMembers(c: Core, p1: nat, p2: nat)
    requires RandomOk(c.info, c.random) && p1 < |c.random| && p2 < |c.random|
    ensures multiset(Swapped(c, p1, p2).random) == multiset(c.random)
  {}

  lemma SwapKeepsEntries(c: Core, p1: nat, p2: nat)
    requires RandomOk(c.info, c.random) && p1 < |c.random| && p2 < |c.random|
    ensures SameEntries(c.info, Swapped(c, p1, p2).info)
  {}

  /** `s` is `c` with vRandom in another order. */
  ghost predicate Reordered(c: Core, s: Core) {
    s == c.(info := s.info, random := s.random) && SameEntries(c.info, s.info) && RandomOk(s.info, s.random)
  }

  lemma SwapReorders(c: Core, p1: nat, p2: nat) returns (s: Core)
    requires RandomOk(c.info, c.random) && p1 < |c.random| && p2 < |c.random|
    ensures s == Swapped(c, p1, p2) && Reordered(c, s) && |s.random| == |c.random|
  {
    SwapKeepsRandom(c, p1, p2);
    s := Swapped(c, p1, p2);
  }

  lemma SwapKeeps(h: Hasher, key: nat, c: Core, p1: nat, p2: nat, transit: set<int>, uncounted: int)
    requires Inv(h, key, c, transit, uncounted) && p1 < |c.random| && p2 < |c.random|
    ensures Inv(h, key, Swapped(c, p1, p2), transit, uncounted)
  {
    var s := SwapReorders(c, p1, p2);
    ReorderKeeps(h, key, c, s, transit, uncounted);
  }

  lemma ReorderKeeps(h: Hasher, key: nat, c: Core, s: Core, transit: set<int>, uncounted: int)
    requires Inv(h, key, c, transit, uncounted) && Reordered(c, s)
    ensures Inv(h, key, s, transit, uncounted)
  {
    SameEntriesSameShape(c.info, s.info);
    ShapeKeeps(h, key, c, s.info, s.random, transit, uncounted);
  }

  lemma SameEntriesSameShape(info: map<int, Info>, info': map<int, Info>)
    requires SameEntries(info, info')
    ensures SameShape(info, info')
  {}

  // ---------------------------------------------------------------- Create

  /** One more entry, with the next id. */
  function Appended(c: Core, e: Info): Core {
    c.(idCount := c.idCount + 1,
       info := c.info[c.idCount := e.(randomPos := |c.random|)],
       addr := c.addr[e.Service().ip := c.idCount],
       random := c.random + [c.idCount])
  }

  /** Create. */
  function Created(c: Core, address: Address, source: Ip): Core { Appended(c, NewInfo(address, source)) }

  /** A new address gets an entry that is indexed, but not yet in a table. */
  lemma CreateKeeps(h: Hasher, key: nat, c: Core, address: Address, source: Ip)
    requires Inv(h, key, c, {}, 0) && address.service.ip !in c.addr
    ensures Inv(h, key, Created(c, address, source), {c.idCount}, 1)
  {
    AppendKeeps(h, key, c, NewInfo(address, source), {}, 0);
    assert {} + {c.idCount} == {c.idCount};
  }

  lemma AppendKeeps(h: Hasher, key: nat, c: Core, e: Info, transit: set<int>, uncounted: int)
    requires Inv(h, key, c, transit, uncounted) && e.Service().ip !in c.addr && !e.inTried && e.refCount == 0
    ensures Inv(h, key, Appended(c, e), transit + {c.idCount}, uncounted + 1)
  {
    AppendKeepsIndexes(c, e);
    AppendKeepsTables(h, key, c, e, transit);
  }

  lemma AppendKeepsIndexes(c: Core, e: Info)
    requires IdsOk(c.info, c.idCount) && AddrOk(c.info, c.addr) && RandomOk(c.info, c.random)
    requires e.Service().ip !in c.addr
    ensures var c' := Appended(c, e);
      && IdsOk(c'.info, c'.idCount) && AddrOk(c'.info, c'.addr) && RandomOk(c'.info, c'.random)
      && NewIds(c'.info) == (if e.inTried then NewIds(c.info) else NewIds(c.info) + {c.idCount})
      && TriedIds(c'.info) == (if e.inTried then TriedIds(c.info) + {c.idCount} else TriedIds(c.info))
  {
    AppendRandom(c, e);
    AppendAddr(c, e);
    AppendIds(c, e);
  }

  lemma AppendRandom(c: Core, e: Info)
    requires IdsOk(c.info, c.idCount) && RandomOk(c.info, c.random)
    ensures RandomOk(Appended(c, e).info, Appended(c, e).random)
  {}

  lemma AppendAddr(c: Core, e: Info)
    requires c.idCount !in c.info && AddrOk(c.info, c.addr) && e.Service().ip !in c.addr
    ensures AddrOk(Appended(c, e).info, Appended(c, e).addr)
  {}

  lemma AppendIds(c: Core, e: Info)
    requires c.idCount !in c.info
    ensures var info := Appended(c, e).info;
      && NewIds(info) == (if e.inTried then NewIds(c.info) else NewIds(c.info) + {c.idCount})
      && TriedIds(info) == (if e.inTried then TriedIds(c.info) + {c.idCount} else TriedIds(c.info))
  {
    var info := Appended(c, e).info;
    forall id ensures id in NewIds(info) <==> id in NewIds(c.info) || (id == c.idCount && !e.inTried) {}
    forall id ensures id in TriedIds(info) <==> id in TriedIds(c.info) || (id == c.idCount && e.inTried) {}
  }

  /** An id that is not in use stands nowhere. */
  lemma NoRefsYet(h: Hasher, key: nat, c: Core, sv: Service)
    requires IdsOk(c.info, c.idCount) && NewOk(h, key, c.info, c.newT)
    ensures Refs(h, key, c.newT, c.idCount, sv) == {}
  {
    forall b | 0 <= b < NEW_BUCKETS ensures At(c.newT, b, Position(h, key, true, b, sv)) != c.idCount {
      assert InTable(c.newT, b, Position(h, key, true, b, sv));
    }
  }

  lemma AppendKeepsTables(h: Hasher, key: nat, c: Core, e: Info, transit: set<int>)
    requires IdsOk(c.info, c.idCount) && !e.inTried && e.refCount == 0
    requires NewOk(h, key, c.info, c.newT) && RefsOk(h, key, c.info, c.newT, transit)
    requires TriedOk(h, key, c.info, c.tried)
    ensures var c' := Appended(c, e);
      && NewOk(h, key, c'.info, c'.newT) && RefsOk(h, key, c'.info, c'.newT, transit + {c.idCount})
      && TriedOk(h, key, c'.info, c'.tried)
  {
    NoRefsYet(h, key, c, e.Service());
  }

  // ---------------------------------------------------------------- Delete

  /** An entry without references stands nowhere in the new table. */
  lemma Unreferenced(h: Hasher, key: nat, info: map<int, Info>, t: Table, id: int, b: int, p: int)
    requires NewOk(h, key, info, t) && id in info && id != EMPTY && InTable(t, b, p)
    requires |Refs(h, key, t, id, info[id].Service())| == 0
    ensures At(t, b, p) != id
  {
    assert b !in Refs(h, key, t, id, info[id].Service());
  }

  /** Dropping an entry that stands at the end of vRandom. */
  function Dropped(s: Core, id: int): Core
    requires id in s.info && s.random != []
  {
    s.(random := s.random[..|s.random| - 1], addr := s.addr - {s.info[id].Service().ip},
       info := s.info - {id}, nNew := s.nNew - 1)
  }

  /** Delete. */
  function Deleted(c: Core, id: int): Core
    requires RandomOk(c.info, c.random) && id in c.info
  {
    Dropped(Swapped(c, c.info[id].randomPos, |c.random| - 1), id)
  }

  lemma DeleteKeeps(h: Hasher, key: nat, c: Core, id: int, transit: set<int>, uncounted: int)
    requires Inv(h, key, c, transit, uncounted) && id in c.info && id in transit && !c.info[id].inTried
    ensures Inv(h, key, Deleted(c, id), transit - {id}, uncounted)
  {
    DeleteKeepsIndexes(c, id);
    DeleteKeepsTables(h, key, c, id, transit);
  }

  /** The same, and entry `id` at its end. */
  ghost predicate SwappedOut(c: Core, s: Core, id: int) {
    Reordered(c, s) && id in s.info && s.info[id].randomPos == |s.random| - 1
  }

  lemma SwapOut(c: Core, id: int) returns (s: Core)
    requires RandomOk(c.info, c.random) && id in c.info
    ensures SwappedOut(c, s, id) && s.random != [] && Deleted(c, id) == Dropped(s, id)
  {
    SwapToEnd(c, id);
    s := SwapReorders(c, c.info[id].randomPos, |c.random| - 1);
  }

  lemma DeleteKeepsIndexes(c: Core, id: int)
    requires IdsOk(c.info, c.idCount) && AddrOk(c.info, c.addr) && RandomOk(c.info, c.random)
    requires id in c.info && !c.info[id].inTried
    ensures var c' := Deleted(c, id);
      && IdsOk(c'.info, c'.idCount) && AddrOk(c'.info, c'.addr) && RandomOk(c'.info, c'.random)
      && NewIds(c'.info) == NewIds(c.info) - {id} && id in NewIds(c.info) && TriedIds(c'.info) == TriedIds(c.info)
      && c'.nNew == c.nNew - 1 && c'.nTried == c.nTried
  {
    var s := SwapOut(c, id);
    DropKeepsIndexes(c, s, id);
  }

  lemma DropKeepsIndexes(c: Core, s: Core, id: int)
    requires IdsOk(c.info, c.idCount) && AddrOk(c.info, c.addr) && SwappedOut(c, s, id) && id in c.info
    requires !c.info[id].inTried
    requires s.random != []
    ensures var c' := Dropped(s, id);
      && IdsOk(c'.info, c'.idCount) && AddrOk(c'.info, c'.addr) && RandomOk(c'.info, c'.random)
      && NewIds(c'.info) == NewIds(c.info) - {id} && id in NewIds(c.info) && TriedIds(c'.info) == TriedIds(c.info)
      && c'.nNew == c.nNew - 1 && c'.nTried == c.nTried
  {
    SameEntriesIndexes(c.info, s.info, c.idCount, c.addr);
    DropIndexes(s, id);
  }

  lemma SameEntriesIndexes(info: map<int, Info>, info': map<int, Info>, idCount: int, addr: map<Ip, int>)
    requires SameEntries(info, info') && IdsOk(info, idCount) && AddrOk(info, addr)
    ensures IdsOk(info', idCount) && AddrOk(info', addr)
    ensures NewIds(info') == NewIds(info) && TriedIds(info') == TriedIds(info)
  {
    SameEntriesSameShape(info, info');
    ShapeKeepsIndexes(info, info', idCount, addr);
  }

  lemma DeleteKeepsTables(h: Hasher, key: nat, c: Core, id: int, transit: set<int>)
    requires NewOk(h, key, c.info, c.newT) && RefsOk(h, key, c.info, c.newT, transit)
    requires TriedOk(h, key, c.info, c.tried)
    requires RandomOk(c.info, c.random) && id in c.info && id in transit && id != EMPTY && !c.info[id].inTried
    ensures var c' := Deleted(c, id);
      && NewOk(h, key, c'.info, c'.newT) && RefsOk(h, key, c'.info, c'.newT, transit - {id})
      && TriedOk(h, key, c'.info, c'.tried)
  {
    var s := SwapOut(c, id);
    DropKeepsTables(h, key, c, s, id, transit);
  }

  lemma DropKeepsTables(h: Hasher, key: nat, c: Core, s: Core, id: int, transit: set<int>)
    requires NewOk(h, key, c.info, c.newT) && RefsOk(h, key, c.info, c.newT, transit)
    requires TriedOk(h, key, c.info, c.tried)
    requires SwappedOut(c, s, id) && s.random != [] && id in c.info && id in transit && id != EMPTY
    requires !c.info[id].inTried
    ensures var c' := Dropped(s, id);
      && NewOk(h, key, c'.info, c'.newT) && RefsOk(h, key, c'.info, c'.newT, transit - {id})
      && TriedOk(h, key, c'.info, c'.tried)
  {
    SameEntriesSameShape(c.info, s.info);
    ShapeKeepsTables(h, key, c.info, s.info, c.newT, c.tried, transit);
    DropTables(h, key, s, id, transit);
  }

  lemma DeleteLeaves(c: Core, id: int)
    requires RandomOk(c.info, c.random) && id in c.info
    ensures SameEntries(c.info - {id}, Deleted(c, id).info)
    ensures Deleted(c, id).addr == c.addr - {c.info[id].Service().ip} && Deleted(c, id).nNew == c.nNew - 1
    ensures Deleted(c, id).tried == c.tried && Deleted(c, id).newT == c.newT && Deleted(c, id).nTried == c.nTried
    ensures Deleted(c, id).idCount == c.idCount
  {
    var s := SwapOut(c, id);
    SameWithoutOne(c.info, s.info, id);
  }

  lemma SameWithoutOne(info: map<int, Info>, info': map<int, Info>, id: int)
    requires SameEntries(info, info')
    ensures SameEntries(info - {id}, info' - {id})
  {}

  lemma SwapToEnd(c: Core, id: int)
    requires RandomOk(c.info, c.random) && id in c.info
    ensures var s := Swapped(c, c.info[id].randomPos, |c.random| - 1);
      id in s.info && s.info[id] == c.info[id].(randomPos := |c.random| - 1) && |s.random| == |c.random|
  {}

  lemma DropIndexes(s: Core, id: int)
    requires IdsOk(s.info, s.idCount) && AddrOk(s.info, s.addr) && RandomOk(s.info, s.random)
    requires id in s.info && !s.info[id].inTried && s.info[id].randomPos == |s.random| - 1
    ensures IdsOk(s.info - {id}, s.idCount) && AddrOk(s.info - {id}, s.addr - {s.info[id].Service().ip})
    ensures RandomOk(s.info - {id}, s.random[..|s.random| - 1])
    ensures NewIds(s.info - {id}) == NewIds(s.info) - {id} && id in NewIds(s.info)
    ensures TriedIds(s.info - {id}) == TriedIds(s.info)
  {}

  lemma DropTables(h: Hasher, key: nat, s: Core, id: int, transit: set<int>)
    requires NewOk(h, key, s.info, s.newT) && RefsOk(h, key, s.info, s.newT, transit)
    requires TriedOk(h, key, s.info, s.tried)
    requires id in s.info && id in transit && id != EMPTY && !s.info[id].inTried
    ensures NewOk(h, key, s.info - {id}, s.newT) && RefsOk(h, key, s.info - {id}, s.newT, transit - {id})
    ensures TriedOk(h, key, s.info - {id}, s.tried)
  {
    forall b, p | InTable(s.newT, b, p) ensures At(s.newT, b, p) != id {
      Unreferenced(h, key, s.info, s.newT, id, b, p);
    }
  }

  // ---------------------------------------------------------------- ClearNew

  /** Changing counts and flags of an entry leaves the indexes alone. */
  lemma UpdateKeepsIndexes(c: Core, id: int, e: Info)
    requires IdsOk(c.info, c.idCount) && AddrOk(c.info, c.addr) && RandomOk(c.info, c.random) && id in c.info
    requires e.Service() == c.info[id].Service() && e.randomPos == c.info[id].randomPos
    ensures IdsOk(c.info[id := e], c.idCount) && AddrOk(c.info[id := e], c.addr) && RandomOk(c.info[id := e], c.random)
    ensures e.inTried == c.info[id].inTried ==>
      NewIds(c.info[id := e]) == NewIds(c.info) && TriedIds(c.info[id := e]) == TriedIds(c.info)
    ensures NewIds(c.info[id := e]) == if e.inTried then NewIds(c.info) - {id} else NewIds(c.info) + {id}
    ensures TriedIds(c.info[id := e]) == if e.inTried then TriedIds(c.info) + {id} else TriedIds(c.info) - {id}
  {
    UpdateAddr(c.info, c.addr, id, e);
    UpdateRandom(c.info, c.random, id, e);
    UpdateIds(c.info, id, e);
  }

  lemma UpdateAddr(info: map<int, Info>, addr: map<Ip, int>, id: int, e: Info)
    requires AddrOk(info, addr) && id in info && e.Service() == info[id].Service()
    ensures AddrOk(info[id := e], addr)
  {
    var info' := info[id := e];
    forall ip | ip in addr ensures addr[ip] in info' && info'[addr[ip]].Service().ip == ip {
      var i := addr[ip];
      assert i in info && info[i].Service().ip == ip;
    }
  }

  lemma UpdateRandom(info: map<int, Info>, random: seq<int>, id: int, e: Info)
    requires RandomOk(info, random) && id in info && e.randomPos == info[id].randomPos
    ensures RandomOk(info[id := e], random)
  {}

  lemma UpdateIds(info: map<int, Info>, id: int, e: Info)
    requires id in info
    ensures var info' := info[id := e];
      && (e.inTried == info[id].inTried ==> NewIds(info') == NewIds(info) && TriedIds(info') == TriedIds(info))
      && NewIds(info') == (if e.inTried then NewIds(info) - {id} else NewIds(info) + {id})
      && TriedIds(info') == (if e.inTried then TriedIds(info) + {id} else TriedIds(info) - {id})
  {
    var info' := info[id := e];
    forall i ensures i in NewIds(info') <==> (i in NewIds(info) && i != id) || (i == id && !e.inTried) {}
    forall i ensures i in TriedIds(info') <==> (i in TriedIds(info) && i != id) || (i == id && e.inTried) {}
  }

  /** Putting one id into one slot changes the references of the ids involved, and of no other. */
  lemma RefsAfterPut(h: Hasher, key: nat, t: Table, b: int, p: int, x: int, id: int, s: Service)
    requires IsTable(t, NEW_BUCKETS) && InTable(t, b, p)
    ensures IsTable(Put(t, b, p, x), NEW_BUCKETS)
    ensures Position(h, key, true, b, s) != p ==> Refs(h, key, Put(t, b, p, x), id, s) == Refs(h, key, t, id, s)
    ensures Position(h, key, true, b, s) == p ==>
      Refs(h, key, Put(t, b, p, x), id, s) ==
        if x == id then Refs(h, key, t, id, s) + {b} else Refs(h, key, t, id, s) - {b}
  {}

  /** Taking the occupant out of one slot of the new table. */
  function Released(c: Core, b: int, p: int): Core
    requires InTable(c.newT, b, p) && At(c.newT, b, p) in c.info
  {
    var id := At(c.newT, b, p);
    c.(info := c.info[id := c.info[id].(refCount := c.info[id].refCount - 1)], newT := Put(c.newT, b, p, EMPTY))
  }

  /** Whatever stands in the new table is a new entry, and not in transit. */
  lemma OccupantIsNew(h: Hasher, key: nat, c: Core, b: int, p: int, transit: set<int>)
    requires NewOk(h, key, c.info, c.newT) && RefsOk(h, key, c.info, c.newT, transit)
    requires InTable(c.newT, b, p) && At(c.newT, b, p) != EMPTY
    ensures var id := At(c.newT, b, p);
      id in c.info && id !in transit && !c.info[id].inTried && c.info[id].refCount > 0
  {
    var id := At(c.newT, b, p);
    assert b in Refs(h, key, c.newT, id, c.info[id].Service());
  }

  lemma ReleaseKeeps(h: Hasher, key: nat, c: Core, b: int, p: int, transit: set<int>, uncounted: int)
    requires Inv(h, key, c, transit, uncounted) && InTable(c.newT, b, p) && At(c.newT, b, p) != EMPTY
    ensures At(c.newT, b, p) in c.info
    ensures var id, c1 := At(c.newT, b, p), Released(c, b, p);
      Inv(h, key, c1, if c1.info[id].refCount == 0 then transit + {id} else transit, uncounted)
  {
    var id := At(c.newT, b, p);
    UpdateKeepsIndexes(c, id, c.info[id].(refCount := c.info[id].refCount - 1));
    ReleaseKeepsTables(h, key, c, b, p, transit);
  }

  lemma ReleaseKeepsTables(h: Hasher, key: nat, c: Core, b: int, p: int, transit: set<int>)
    requires NewOk(h, key, c.info, c.newT) && RefsOk(h, key, c.info, c.newT, transit)
    requires TriedOk(h, key, c.info, c.tried)
    requires InTable(c.newT, b, p) && At(c.newT, b, p) != EMPTY && EMPTY !in c.info
    ensures At(c.newT, b, p) in c.info
    ensures var id, c1 := At(c.newT, b, p), Released(c, b, p);
      && NewOk(h, key, c1.info, c1.newT) && TriedOk(h, key, c1.info, c1.tried)
      && RefsOk(h, key, c1.info, c1.newT, if c1.info[id].refCount == 0 then transit + {id} else transit)
  {
    OccupantIsNew(h, key, c, b, p, transit);
    ReleaseRefs(h, key, c, b, p);
  }

  lemma ReleaseRefs(h: Hasher, key: nat, c: Core, b: int, p: int)
    requires NewOk(h, key, c.info, c.newT)
    requires InTable(c.newT, b, p) && At(c.newT, b, p) != EMPTY && EMPTY !in c.info
    ensures IsTable(Put(c.newT, b, p, EMPTY), NEW_BUCKETS)
    ensures forall i :: i in c.info ==>
      |Refs(h, key, Put(c.newT, b, p, EMPTY), i, c.info[i].Service())|
        == |Refs(h, key, c.newT, i, c.info[i].Service())| - if i == At(c.newT, b, p) then 1 else 0
  {
    var id := At(c.newT, b, p);
    forall i | i in c.info
      ensures |Refs(h, key, Put(c.newT, b, p, EMPTY), i, c.info[i].Service())|
        == |Refs(h, key, c.newT, i, c.info[i].Service())| - if i == id then 1 else 0
    {
      var s := c.info[i].Service();
      RefsAfterPut(h, key, c.newT, b, p, EMPTY, i, s);
      if i == id {
        assert b in Refs(h, key, c.newT, i, s);
      } else {
        assert b !in Refs(h, key, c.newT, i, s) || Position(h, key, true, b, s) != p;
      }
    }
  }
}
