/**
 * What the calls of the address manager do to the entry they are about, and how its tables spread addresses, in terms
 * of the arguments and not of the functions that the methods are proved against.
 */
module AddrEffects {
  import opened AddrTables
  import opened AddrMoves
  import opened AddrMan
  import opened AddrCheck

  const HOUR := 60 * 60
  const DAY := 24 * 60 * 60

  // ---------------------------------------------------------------- Add_ on a known address

  /** What an announcement makes of the time that an entry shows. */
  ghost predicate TimeRenewed(t: int, t': int, announced: int, penalty: int, now: int) {
    var interval := if now - announced < DAY then HOUR else DAY;
    && t <= t' && (t' <= t || t' <= announced)
    && (t' != t ==> t' == announced - penalty)
    && (t' != t <==> if t == 0 then announced > penalty else t + interval + penalty < announced)
  }

  /** It shows a service exactly if it did or the announcement has it; else only its references and its place change. */
  ghost predicate EntryRenewed(e: Info, e': Info, addr: Address, penalty: int, now: int) {
    && TimeRenewed(e.address.time, e'.address.time, addr.time, penalty, now)
    && (forall s :: s in e'.address.services <==> s in e.address.services || s in addr.services)
    && e' == e.(address := e.address.(time := e'.address.time, services := e'.address.services),
                refCount := e'.refCount, randomPos := e'.randomPos)
  }

  lemma {:induction false} RefreshRenews(e: Info, addr: Address, penalty: int, now: int)
    requires e.address.time >= 0 && addr.time >= 0 && penalty >= 0
    ensures EntryRenewed(e, RefreshedEntry(e, addr, penalty, now), addr, penalty, now)
  {}

  /** The entry stands where the announcement's source would put it, or something better than terrible does. */
  ghost predicate NoRoom(h: Hasher, key: nat, c: Core, id: int, source: Ip, now: int)
    requires IsTable(c.newT, NEW_BUCKETS) && id in c.info
  {
    var b := NewBucket(h, key, c.info[id].Service(), source);
    var x := At(c.newT, b, Position(h, key, true, b, c.info[id].Service()));
    x == id || (x != EMPTY && x in c.info && !IsTerrible(c.info[x], now))
  }

  /** Inserting an entry that has references already. */
  lemma {:induction false} InsertedEntry(h: Hasher, key: nat, c: Core, id: int, b: nat, p: nat, now: int)
    requires id in c.info && Inv(h, key, c, {}, 0) && InTable(c.newT, b, p)
    requires !c.info[id].inTried && 0 < c.info[id].refCount < NEW_BUCKETS_PER_ADDRESS
    requires Position(h, key, true, b, c.info[id].Service()) == p
    ensures Unplaced(c, id) == {}
    ensures var c', x := Inserted(h, key, c, id, b, p, now), At(c.newT, b, p);
      && Inv(h, key, c', {}, 0) && id in c'.info && (x == EMPTY || x in c.info)
      && c'.info[id] == c.info[id].(randomPos := c'.info[id].randomPos, refCount := c'.info[id].refCount)
      && c'.info[id].refCount ==
        c.info[id].refCount + if x != id && (x == EMPTY || IsTerrible(c.info[x], now)) then 1 else 0
  {
    InsertKeeps(h, key, c, id, b, p, now);
    var x := At(c.newT, b, p);
    if x != id && MayTake(c, id, b, p, now) { ClearSpares(h, key, c, b, p, id, {}, 0); }
  }

  /** The reference that the entry gains. */
  ghost predicate Gains(h: Hasher, key: nat, c: Core, id: int, shown: int, addr: Address, source: Ip, now: int,
                        random: nat -> nat)
    requires IsTable(c.newT, NEW_BUCKETS) && id in c.info && c.info[id].refCount >= 0
  {
    && addr.time > shown && !c.info[id].inTried && c.info[id].refCount < NEW_BUCKETS_PER_ADDRESS
    && Lucky(c.info[id].refCount, random) && !NoRoom(h, key, c, id, source, now)
  }

  /** The entry of a known address after Add_. */
  lemma {:induction false} RepeatedEntry(h: Hasher, key: nat, c: Core, addr: Address, source: Ip, penalty: int,
                                         now: int, random: nat -> nat)
    requires Inv(h, key, c, {}, 0) && addr.service.ip in c.addr && addr.time >= 0
    requires c.info[c.addr[addr.service.ip]].address.time >= 0
    ensures var c', id := Repeated(h, key, c, addr, source, penalty, now, random), c.addr[addr.service.ip];
      && Inv(h, key, c', {}, 0) && id in c'.info && c.info[id].refCount >= 0
      && var e1 := RefreshedEntry(c.info[id], addr, penalty, now);
      && c'.info[id] == e1.(randomPos := c'.info[id].randomPos, refCount := c'.info[id].refCount)
      && c'.info[id].refCount ==
        c.info[id].refCount + if Gains(h, key, c, id, e1.address.time, addr, source, now, random) then 1 else 0
  {
    var id := c.addr[addr.service.ip];
    var e := c.info[id];
    RefreshKeeps(h, key, c, addr, penalty, now);
    if MayGainReference(c, addr, penalty, now) && Lucky(e.refCount, random) {
      MultipliedEntry(h, key, c, addr, source, penalty, now);
    }
  }

  /** The entry after an attempt to give it one more reference. */
  lemma {:induction false} MultipliedEntry(h: Hasher, key: nat, c: Core, addr: Address, source: Ip, penalty: int,
                                           now: int)
    requires Inv(h, key, c, {}, 0) && addr.service.ip in c.addr && MayGainReference(c, addr, penalty, now)
    ensures var c', id := Multiplied(h, key, c, addr, source, penalty, now), c.addr[addr.service.ip];
      && Inv(h, key, c', {}, 0) && id in c'.info && c.info[id].refCount >= 0
      && var e1 := RefreshedEntry(c.info[id], addr, penalty, now);
      && c'.info[id] == e1.(randomPos := c'.info[id].randomPos, refCount := c'.info[id].refCount)
      && c.info[id].refCount < NEW_BUCKETS_PER_ADDRESS
      && c'.info[id].refCount == c.info[id].refCount + if NoRoom(h, key, c, id, source, now) then 0 else 1
  {
    var id := c.addr[addr.service.ip];
    var s := c.info[id].Service();
    var b := NewBucket(h, key, s, source);
    var p := Position(h, key, true, b, s);
    var c1 := RefreshedCore(h, key, c, addr, penalty, now, b, p);
    InsertedAfter(h, key, c, c1, id, source, now, b, p);
  }

  /** The same for an entry that has just been refreshed. */
  lemma {:induction false} InsertedAfter(h: Hasher, key: nat, c: Core, c1: Core, id: int, source: Ip, now: int, b: nat,
                                         p: nat)
    requires Inv(h, key, c1, {}, 0) && id in c1.info && id in c.info && c1.newT == c.newT && InTable(c1.newT, b, p)
    requires c1.info[id].Service() == c.info[id].Service() && b == NewBucket(h, key, c.info[id].Service(), source)
    requires p == Position(h, key, true, b, c.info[id].Service())
    requires !c1.info[id].inTried && 0 < c1.info[id].refCount == c.info[id].refCount < NEW_BUCKETS_PER_ADDRESS
    requires var x := At(c.newT, b, p);
      x == EMPTY || (x in c.info && (x != id ==> x in c1.info && c1.info[x] == c.info[x]))
    ensures Unplaced(c1, id) == {}
    ensures var c' := Inserted(h, key, c1, id, b, p, now);
      && Inv(h, key, c', {}, 0) && id in c'.info
      && c'.info[id] == c1.info[id].(randomPos := c'.info[id].randomPos, refCount := c'.info[id].refCount)
      && c'.info[id].refCount == c.info[id].refCount + if NoRoom(h, key, c, id, source, now) then 0 else 1
  {
    InsertedEntry(h, key, c1, id, b, p, now);
  }

  /** Refreshing an entry leaves its references, and who stands where. */
  lemma {:induction false} RefreshedCore(h: Hasher, key: nat, c: Core, addr: Address, penalty: int, now: int, b: nat,
                                         p: nat)
    returns (c1: Core)
    requires Inv(h, key, c, {}, 0) && addr.service.ip in c.addr && InTable(c.newT, b, p)
    ensures c1 == Refreshed(c, addr, penalty, now) && Inv(h, key, c1, {}, 0)
    ensures var id := c.addr[addr.service.ip];
      && c1.newT == c.newT && id in c1.info && c1.info[id] == RefreshedEntry(c.info[id], addr, penalty, now)
      && (!c.info[id].inTried ==> c.info[id].refCount > 0)
      && var x := At(c.newT, b, p); x == EMPTY || (x in c.info && (x != id ==> x in c1.info && c1.info[x] == c.info[x]))
  {
    RefreshKeeps(h, key, c, addr, penalty, now);
    c1 := Refreshed(c, addr, penalty, now);
  }

  /**
   * Add_ on a known address: the time it shows never goes down nor beyond what was announced, and changes exactly when
   * it lags behind by more than the interval and the penalty, which a self-announcement does not carry. It gains a
   * reference exactly if the announcement is newer than what it shows then, it is not tried, has fewer than 8, the draw
   * admits it, and there is room at the slot.
   */
  lemma {:induction false} KnownAfterAdd(h: Hasher, key: nat, c: Core, addr: Address, source: Ip, timePenalty: int,
                                         now: int, random: nat -> nat)
    requires Inv(h, key, c, {}, 0) && addr.service.ip in c.addr && timePenalty >= 0 && addr.time >= 0
    requires c.info[c.addr[addr.service.ip]].address.time >= 0
    ensures var c' := Repeated(h, key, c, addr, source, Penalty(addr, source, timePenalty), now, random);
      var id, penalty := c.addr[addr.service.ip], if addr.service.ip == source then 0 else timePenalty;
      && id in c'.info && addr.service.ip in c'.addr && c'.addr[addr.service.ip] == id && c.info[id].refCount >= 0
      && EntryRenewed(c.info[id], c'.info[id], addr, penalty, now)
      && c'.info[id].refCount == c.info[id].refCount +
        if Gains(h, key, c, id, c'.info[id].address.time, addr, source, now, random) then 1 else 0
  {
    var id, penalty := c.addr[addr.service.ip], Penalty(addr, source, timePenalty);
    RepeatedEntry(h, key, c, addr, source, penalty, now, random);
    RefreshRenews(c.info[id], addr, penalty, now);
  }

  // ---------------------------------------------------------------- Add_ on an unknown address

  /** If an unknown address is kept, its entry shows what was announced, and stands once, where its source puts it. */
  lemma {:induction false} UnknownAfterAdd(h: Hasher, key: nat, c: Core, addr: Address, source: Ip, timePenalty: int,
                                           now: int)
    requires Inv(h, key, c, {}, 0) && addr.service.ip !in c.addr && addr.time >= 0 && timePenalty >= 0
    ensures var c' := Welcomed(h, key, c, addr, source, Penalty(addr, source, timePenalty), now);
      var penalty := if addr.service.ip == source then 0 else timePenalty;
      var b := NewBucket(h, key, addr.service, source);
      addr.service.ip in c'.addr ==>
        var id := c'.addr[addr.service.ip];
        && id !in c.info && id in c'.info && IsTable(c'.newT, NEW_BUCKETS)
        && At(c'.newT, b, Position(h, key, true, b, addr.service)) == id
        && c'.info[id] == Info(addr.(time := if addr.time < penalty then 0 else addr.time - penalty), source,
                               0, 0, 0, 0, 1, false, c'.info[id].randomPos)
  {
    var penalty := Penalty(addr, source, timePenalty);
    var c1, b := Introduced(c, addr, source, penalty), NewBucket(h, key, addr.service, source);
    var p := Position(h, key, true, b, addr.service);
    IntroduceKeeps(h, key, c, addr, source, penalty);
    IntroducedMayTake(h, key, c, addr, source, penalty, now);
    WelcomeStays(h, key, c, addr, source, penalty, now);
    if MayTake(c1, c.idCount, b, p, now) {
      WelcomeKeeps(h, key, c, addr, source, penalty, now);
      FirstPlace(h, key, c1, c.idCount, b, p, now);
      var c' := Welcomed(h, key, c, addr, source, penalty, now);
      assert c'.addr[c'.info[c.idCount].Service().ip] == c.idCount;
    }
  }

  /** An entry without references that may take its slot stands there. */
  lemma {:induction false} FirstPlace(h: Hasher, key: nat, c: Core, id: int, b: nat, p: nat, now: int)
    requires id in c.info && c.info[id].refCount == 0 && Inv(h, key, c, {id}, 0) && InTable(c.newT, b, p)
    requires (At(c.newT, b, p) == EMPTY || At(c.newT, b, p) in c.info) && MayTake(c, id, b, p, now)
    requires At(c.newT, b, p) != id
    ensures Unplaced(c, id) == {id}
    ensures var c' := Inserted(h, key, c, id, b, p, now);
      && id in c'.info && InTable(c'.newT, b, p) && At(c'.newT, b, p) == id
      && c'.info[id] == c.info[id].(refCount := 1, randomPos := c'.info[id].randomPos)
  {
    ClearSpares(h, key, c, b, p, id, {id}, 0);
  }

  // ---------------------------------------------------------------- Good_

  /**
   * After Good_ on a known service its entry is tried, in its own slot, without references, with both times set and no
   * failed attempts; other entries only move between the tables. Any other service leaves everything as it is.
   */
  lemma {:induction false} AfterGood(h: Hasher, key: nat, c: Core, s: Service, time: int)
    requires Inv(h, key, c, {}, 0)
    ensures var c' := Commended(h, key, c, s, time);
      && (!Knows(c, s) ==> c' == c)
      && (Knows(c, s) ==>
           var id, slot := c.addr[s.ip], TriedSlot(h, key, s);
           && id in c'.info && IsTable(c'.tried, TRIED_BUCKETS) && At(c'.tried, slot.0, slot.1) == id
           && c'.info[id] == c.info[id].(lastSuccess := time, lastTry := time, attempts := 0, inTried := true,
                                         refCount := 0, randomPos := c'.info[id].randomPos)
           && forall i :: i in c'.info && i != id ==> i in c.info && Moved(c.info[i], c'.info[i]))
  {
    if Knows(c, s) {
      var id := c.addr[s.ip];
      var e := c.info[id].(lastSuccess := time, lastTry := time, attempts := 0);
      TouchKeeps(h, key, c, id, e, {}, 0);
      var c1 := Touched(c, id, e);
      CommendKeeps(h, key, c, s, time);
      if !e.inTried {
        MakeTriedEffect(h, key, c1, id);
        MakeTriedMoves(h, key, c1, id);
      }
    }
  }

  /** Whoever held the tried slot goes back to the new table, to the slot that its first source gives it. */
  lemma {:induction false} EvictedGoesHome(h: Hasher, key: nat, c: Core, id: int)
    requires Inv(h, key, c, {}, 0) && id in c.info && !c.info[id].inTried
    ensures var c', slot := MadeTried(h, key, c, id), TriedSlot(h, key, c.info[id].Service());
      var x := At(c.tried, slot.0, slot.1);
      x != EMPTY ==>
        && x in c.info && x in c'.info && !c'.info[x].inTried && c'.info[x].refCount == 1
        && var b := NewBucket(h, key, c.info[x].Service(), c.info[x].source);
           var p := Position(h, key, true, b, c.info[x].Service());
           InTable(c'.newT, b, p) && At(c'.newT, b, p) == x
  {
    var slot := TriedSlot(h, key, c.info[id].Service());
    var x := At(c.tried, slot.0, slot.1);
    if x != EMPTY {
      PurgeKeeps(h, key, c, id);
      PurgedIsNotTried(h, key, c, id, slot.0, slot.1);
      VacatedGoesHome(h, key, Purged(c, id), slot.0, slot.1, {id}, 1);
      VacateLeaves(h, key, Purged(c, id), slot.0, slot.1, id, {id}, 1);
    }
  }

  lemma {:induction false} VacatedGoesHome(h: Hasher, key: nat, c: Core, b: int, p: int, transit: set<int>, n: int)
    requires Inv(h, key, c, transit, n) && InTable(c.tried, b, p) && At(c.tried, b, p) != EMPTY
    ensures var c', x := Vacated(h, key, c, b, p, transit, n), At(c.tried, b, p);
      && x in c.info && x in c'.info && !c'.info[x].inTried && c'.info[x].refCount == 1
      && var home := NewBucket(h, key, c.info[x].Service(), c.info[x].source);
         var q := Position(h, key, true, home, c.info[x].Service());
         InTable(c'.newT, home, q) && At(c'.newT, home, q) == x
  {
    var x := At(c.tried, b, p);
    DemoteKeeps(h, key, c, b, p, transit, n);
    var c1 := Demoted(c, b, p);
    var slot := HomeSlot(h, key, c1.info[x]);
    ClearSpares(h, key, c1, slot.0, slot.1, x, transit + {x}, n + 1);
  }

  // ---------------------------------------------------------------- when an entry is terrible

  /** In seconds: not tried for a minute, and from the future, unseen for a week, or failing too often. */
  lemma {:induction false} TerribleIff(e: Info, now: int)
    ensures IsTerrible(e, now) <==>
      && (e.lastTry == 0 || now - e.lastTry > 60)
      && (|| e.address.time == 0 || e.address.time - now > 600 || now - e.address.time > 604800
          || (e.lastSuccess == 0 && e.attempts >= 3) || (now - e.lastSuccess > 172800 && e.attempts >= 10))
  {}

  /** Unless it only lies in the future, or is tried again, a terrible entry does not get better with time. */
  lemma {:induction false} TerribleStays(e: Info, now: int, later: int)
    requires IsTerrible(e, now) && now <= later && e.address.time <= now + 10 * 60
    ensures IsTerrible(e, later)
  {}

  /** An entry reached in the last two days and seen in the last seven is not terrible, whatever failed since. */
  lemma {:induction false} ReachedIsNotTerrible(e: Info, now: int)
    requires 0 < e.address.time && now - 7 * DAY <= e.address.time <= now + 10 * 60
    requires e.lastSuccess != 0 && now - e.lastSuccess <= 2 * DAY
    ensures !IsTerrible(e, now)
  {}

  /** Exactly the addresses of the first n entries of vRandom that are not terrible are handed out. */
  lemma {:induction false} HandedOutIff(info: map<int, Info>, random: seq<int>, n: nat, now: int, a: Address)
    requires n <= |random| && forall k :: 0 <= k < |random| ==> random[k] in info
    ensures a in Worthwhile(info, random, n, now) <==>
      exists k :: 0 <= k < n && info[random[k]].address == a && !IsTerrible(info[random[k]], now)
  {
    if n > 0 { HandedOutIff(info, random, n - 1, now, a); }
  }

  // ---------------------------------------------------------------- how the tables spread addresses

  function Image(f: nat -> nat, n: nat): set<nat> { set k | 0 <= k < n :: f(k) }

  lemma {:induction false} InImage(f: nat -> nat, n: nat, k: nat)
    requires k < n
    ensures f(k) in Image(f, n)
  {}

  lemma {:induction false} ImageSize(f: nat -> nat, n: nat)
    ensures |Image(f, n)| <= n
  {
    if n == 0 {
      assert Image(f, n) == {};
    } else {
      ImageSize(f, n - 1);
      assert Image(f, n) == Image(f, n - 1) + {f(n - 1)};
    }
  }

  lemma {:induction false} SubsetSize(a: set<nat>, b: set<nat>)
    requires a <= b
    ensures |a| <= |b|
  {
    assert b == a + (b - a);
  }

  function TriedBuckets(h: Hasher, key: nat, services: set<Service>): set<nat> {
    set s | s in services :: TriedBucket(h, key, s)
  }

  function NewBuckets(h: Hasher, key: nat, announced: set<(Service, Ip)>): set<nat> {
    set a | a in announced :: NewBucket(h, key, a.0, a.1)
  }

  /** However many services of one group there are, they go to 8 tried buckets at most. */
  lemma {:induction false} GroupTriedBuckets(h: Hasher, key: nat, group: nat, services: set<Service>)
    requires forall s :: s in services ==> h.group(s.ip) == group
    ensures |TriedBuckets(h, key, services)| <= 8
  {
    var f := (k: nat) => h.triedGroup(key, group, k) % 256;
    forall s | s in services ensures TriedBucket(h, key, s) in Image(f, 8) {
      InImage(f, 8, h.service(key, s) % 8);
    }
    ImageSize(f, 8);
    SubsetSize(TriedBuckets(h, key, services), Image(f, 8));
  }

  /** However many addresses the sources of one group announce, they go to 64 new buckets at most. */
  lemma {:induction false} GroupNewBuckets(h: Hasher, key: nat, group: nat, announced: set<(Service, Ip)>)
    requires forall a :: a in announced ==> h.group(a.1) == group
    ensures |NewBuckets(h, key, announced)| <= 64
  {
    var f := (k: nat) => h.sourceGroup(key, group, k) % 1024;
    forall a | a in announced ensures NewBucket(h, key, a.0, a.1) in Image(f, 64) {
      InImage(f, 64, h.groups(key, h.group(a.0.ip), group) % 64);
    }
    ImageSize(f, 64);
    SubsetSize(NewBuckets(h, key, announced), Image(f, 64));
  }

  /** Addresses of one group from sources of one group share a new bucket. */
  lemma {:induction false} GroupsShareBucket(h: Hasher, key: nat, s: Service, source: Ip, s': Service, source': Ip)
    requires h.group(s.ip) == h.group(s'.ip) && h.group(source) == h.group(source')
    ensures NewBucket(h, key, s, source) == NewBucket(h, key, s', source')
  {}

  /** The bounds are met, and no bucket and no position is out of reach. */
  lemma {:induction false} EveryPlaceIsReached(key: nat, source: Ip) returns (h: Hasher)
    ensures forall n: nat {:trigger NewBucket(h, key, Service(n, 0), source)} ::
      n < 64 ==> NewBucket(h, key, Service(n, 0), source) == n
    ensures forall n: nat {:trigger TriedBucket(h, key, Service(n, 0))} ::
      n < 8 ==> TriedBucket(h, key, Service(n, 0)) == n
    ensures forall isNew, b: nat, n: nat {:trigger Position(h, key, isNew, b, Service(n, 0))} ::
      n < 64 ==> Position(h, key, isNew, b, Service(n, 0)) == n
  {
    h := Hasher(ip => ip, (_, s: Service) => s.ip, (_, _, k) => k, (_, g, _) => g, (_, _, k) => k,
                (_, _, _, s: Service) => s.ip);
  }

  lemma {:induction false} EveryBucketIsReached(key: nat, s: Service, source: Ip, b: nat, t: nat) returns (h: Hasher)
    requires b < 1024 && t < 256
    ensures NewBucket(h, key, s, source) == b && TriedBucket(h, key, s) == t
  {
    h := Hasher(ip => ip, (_, _) => 0, (_, _, _) => t, (_, _, _) => 0, (_, _, _) => b, (_, _, _, _) => 0);
  }
}
