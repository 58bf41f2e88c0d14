/** The stochastic address manager: its methods, each proved against the functions on its structures. */
module AddrMan {
  import opened Wrappers
  import opened AddrTables
  import opened AddrMoves
  import Bits

  const GETADDR_MAX_PCT := 23
  const GETADDR_MAX := 2500

  class AddrMan {
    const h: Hasher
    const isRoutable: Ip -> bool
    var nKey: nat
    var nIdCount: int
    var mapInfo: map<int, Info>
    var mapAddr: map<Ip, int>
    var vRandom: seq<int>
    var nTried: int
    var vvTried: Table
    var nNew: int
    var vvNew: Table
    var nLastGood: int

    function Core(): AddrTables.Core
      reads this
    {
      AddrTables.Core(nIdCount, mapInfo, mapAddr, vRandom, nTried, vvTried, nNew, vvNew)
    }

    /** The structural conditions of Check_. */
    ghost predicate Valid()
      reads this
    {
      Inv(h, nKey, Core(), {}, 0)
    }

    /** A new manager: Clear on fresh fields. */
    constructor (h: Hasher, isRoutable: Ip -> bool, key: nat)
      ensures Valid() && this.h == h && this.isRoutable == isRoutable && nKey == key
      ensures mapInfo == map[] && mapAddr == map[] && nIdCount == 0 && vRandom == []
      ensures vvNew == EmptyTable(NEW_BUCKETS) && vvTried == EmptyTable(TRIED_BUCKETS)
    {
      this.h, this.isRoutable := h, isRoutable;
      nKey, nIdCount, nTried, nNew, nLastGood := key, 0, 0, 0, 1;
      mapInfo, mapAddr, vRandom := map[], map[], [];
      vvNew, vvTried := EmptyTable(NEW_BUCKETS), EmptyTable(TRIED_BUCKETS);
    }

    /** Find: the id of a network address, if it is known. */
    function Find(ip: Ip): (r: Option<int>)
      reads this
      ensures AddrOk(mapInfo, mapAddr) ==> match r
        case None => forall id :: id in mapInfo ==> mapInfo[id].Service().ip != ip
        case Some(id) => id in mapInfo && mapInfo[id].Service().ip == ip
    {
      if ip in mapAddr && mapAddr[ip] in mapInfo then Some(mapAddr[ip]) else None
    }

    method SwapRandom(p1: nat, p2: nat)
      requires RandomOk(mapInfo, vRandom) && p1 < |vRandom| && p2 < |vRandom|
      modifies this`mapInfo, this`vRandom
      ensures Core() == Swapped(old(Core()), p1, p2)
    {
      if p1 == p2 { return; }
      var nId1, nId2 := vRandom[p1], vRandom[p2];
      assert nId1 in mapInfo && nId2 in mapInfo;
      mapInfo := mapInfo[nId1 := mapInfo[nId1].(randomPos := p2)];
      mapInfo := mapInfo[nId2 := mapInfo[nId2].(randomPos := p1)];
      vRandom := vRandom[p1 := nId2];
      vRandom := vRandom[p2 := nId1];
    }

    method Create(address: Address, source: Ip) returns (nId: int)
      modifies this`nIdCount, this`mapInfo, this`mapAddr, this`vRandom
      ensures Core() == Created(old(Core()), address, source) && nId == old(nIdCount)
    {
      nId := nIdCount;
      nIdCount := nIdCount + 1;
      mapInfo := mapInfo[nId := NewInfo(address, source)];
      mapAddr := mapAddr[address.service.ip := nId];
      mapInfo := mapInfo[nId := mapInfo[nId].(randomPos := |vRandom|)];
      vRandom := vRandom + [nId];
    }

    /**
     * An entry that stands in no table is forgotten: it trades places with the last one in vRandom, which is then cut
     * off.
     */
    method Delete(nId: int)
      requires RandomOk(mapInfo, vRandom) && nId in mapInfo && !mapInfo[nId].inTried && mapInfo[nId].refCount == 0
      modifies this`mapInfo, this`mapAddr, this`vRandom, this`nNew
      ensures Core() == Deleted(old(Core()), nId)
    {
      var info := mapInfo[nId];
      SwapToEnd(Core(), nId);
      SwapRandom(info.randomPos, |vRandom| - 1);
      vRandom := vRandom[..|vRandom| - 1];
      mapAddr := mapAddr - {info.Service().ip};
      mapInfo := mapInfo - {nId};
      nNew := nNew - 1;
    }

    method ClearNew(b: nat, p: nat, ghost transit: set<int>, ghost uncounted: int)
      requires Inv(h, nKey, Core(), transit, uncounted) && InTable(vvNew, b, p)
      modifies this`mapInfo, this`mapAddr, this`vRandom, this`nNew, this`vvNew
      ensures Core() == Cleared(h, nKey, old(Core()), b, p, transit, uncounted)
    {
      if At(vvNew, b, p) != EMPTY {
        OccupantIsNew(h, nKey, Core(), b, p, transit);
        ReleaseKeeps(h, nKey, Core(), b, p, transit, uncounted);
        var nIdDelete := At(vvNew, b, p);
        Release(nIdDelete, b, p);
        if mapInfo[nIdDelete].refCount == 0 { Delete(nIdDelete); }
      }
    }

    /** The occupant of a slot loses the reference. */
    method Release(nId: int, b: nat, p: nat)
      requires InTable(vvNew, b, p) && nId == At(vvNew, b, p) && nId in mapInfo && mapInfo[nId].refCount > 0
      modifies this`mapInfo, this`vvNew
      ensures Core() == Released(old(Core()), b, p)
    {
      mapInfo := mapInfo[nId := mapInfo[nId].(refCount := mapInfo[nId].refCount - 1)];
      vvNew := Put(vvNew, b, p, EMPTY);
    }

    /** The first loop of MakeTried: no new bucket refers to the entry any more. */
    method RemoveFromNew(nId: int)
      requires NewOk(h, nKey, mapInfo, vvNew) && nId in mapInfo && nId != EMPTY
      requires mapInfo[nId].refCount == |Refs(h, nKey, vvNew, nId, mapInfo[nId].Service())|
      modifies this`mapInfo, this`vvNew
      ensures vvNew == Purge(old(vvNew), nId, NEW_BUCKETS)
      ensures mapInfo == old(mapInfo)[nId := old(mapInfo)[nId].(refCount := 0)]
    {
      ghost var t, info := vvNew, mapInfo[nId];
      PurgeNothing(t, nId);
      var bucket := 0;
      while bucket < NEW_BUCKETS
        invariant 0 <= bucket <= NEW_BUCKETS
        invariant vvNew == Purge(t, nId, bucket) && IsTable(vvNew, NEW_BUCKETS)
        invariant mapInfo == old(mapInfo)[nId := info.(refCount := |Refs(h, nKey, vvNew, nId, info.Service())|)]
      {
        PurgeStep(h, nKey, old(mapInfo), t, nId, bucket);
        RemoveFromBucket(nId, bucket);
        bucket := bucket + 1;
      }
      PurgeRefs(h, nKey, t, nId, nId, info.Service());
    }

    method RemoveFromBucket(nId: int, bucket: nat)
      requires IsTable(vvNew, NEW_BUCKETS) && bucket < NEW_BUCKETS && nId in mapInfo
      modifies this`mapInfo, this`vvNew
      ensures var pos := Position(h, nKey, true, bucket, old(mapInfo)[nId].Service());
        if At(old(vvNew), bucket, pos) == nId then
          && vvNew == Put(old(vvNew), bucket, pos, EMPTY)
          && mapInfo == old(mapInfo)[nId := old(mapInfo)[nId].(refCount := old(mapInfo)[nId].refCount - 1)]
        else vvNew == old(vvNew) && mapInfo == old(mapInfo)
    {
      var pos := Position(h, nKey, true, bucket, mapInfo[nId].Service());
      if At(vvNew, bucket, pos) == nId {
        vvNew := Put(vvNew, bucket, pos, EMPTY);
        mapInfo := mapInfo[nId := mapInfo[nId].(refCount := mapInfo[nId].refCount - 1)];
      }
    }

    /** An evicted entry enters the new set again. */
    method Rehome(nIdEvict: int, ghost transit: set<int>, ghost uncounted: int)
      requires Inv(h, nKey, Core(), transit, uncounted) && nIdEvict in mapInfo && nIdEvict in transit
      modifies this`mapInfo, this`mapAddr, this`vRandom, this`nNew, this`vvNew
      ensures Core() == Rehomed(h, nKey, old(Core()), nIdEvict, transit, uncounted)
    {
      assert mapInfo[nIdEvict].refCount == 0;
      var slot := HomeSlot(h, nKey, mapInfo[nIdEvict]);
      ClearSpares(h, nKey, Core(), slot.0, slot.1, nIdEvict, transit, uncounted);
      ClearNew(slot.0, slot.1, transit, uncounted);
      assert At(vvNew, slot.0, slot.1) == EMPTY && mapInfo[nIdEvict].refCount == 0;
      PutInto(nIdEvict, slot.0, slot.1);
      nNew := nNew + 1;
    }

    /** One more reference to an entry. */
    method PutInto(nId: int, b: nat, p: nat)
      requires nId in mapInfo && InTable(vvNew, b, p)
      modifies this`mapInfo, this`vvNew
      ensures Core() == Placed(old(Core()), nId, b, p)
    {
      mapInfo := mapInfo[nId := mapInfo[nId].(refCount := mapInfo[nId].refCount + 1)];
      vvNew := Put(vvNew, b, p, nId);
    }

    /** Making room in a tried slot: its occupant goes back to the new table. */
    method VacateTried(b: nat, p: nat, ghost transit: set<int>, ghost uncounted: int)
      requires Inv(h, nKey, Core(), transit, uncounted) && InTable(vvTried, b, p) && At(vvTried, b, p) !in transit
      modifies this`mapInfo, this`mapAddr, this`vRandom, this`nNew, this`vvNew, this`vvTried, this`nTried
      ensures Core() == Vacated(h, nKey, old(Core()), b, p, transit, uncounted)
    {
      if At(vvTried, b, p) != EMPTY {
        var nIdEvict := At(vvTried, b, p);
        DemoteKeeps(h, nKey, Core(), b, p, transit, uncounted);
        LeaveTried(nIdEvict, b, p);
        Rehome(nIdEvict, transit + {nIdEvict}, uncounted + 1);
      }
    }

    method LeaveTried(nId: int, b: nat, p: nat)
      requires InTable(vvTried, b, p) && nId == At(vvTried, b, p) && nId in mapInfo
      modifies this`mapInfo, this`vvTried, this`nTried
      ensures Core() == Demoted(old(Core()), b, p)
    {
      mapInfo := mapInfo[nId := mapInfo[nId].(inTried := false)];
      vvTried := Put(vvTried, b, p, EMPTY);
      nTried := nTried - 1;
    }

    /** MakeTried: the entry ends up in its tried slot, and whoever was there goes back to the new table. */
    method MakeTried(nId: int)
      requires Valid() && nId in mapInfo && !mapInfo[nId].inTried
      modifies this`mapInfo, this`mapAddr, this`vRandom, this`nNew, this`vvNew, this`vvTried, this`nTried
      ensures Core() == MadeTried(h, nKey, old(Core()), nId)
    {
      var slot := TriedSlot(h, nKey, mapInfo[nId].Service());
      PurgeKeeps(h, nKey, Core(), nId);
      PurgedIsNotTried(h, nKey, Core(), nId, slot.0, slot.1);
      LeaveNew(nId);
      EnterTried(nId, slot.0, slot.1);
    }

    /** The entry leaves the new table altogether. */
    method LeaveNew(nId: int)
      requires NewOk(h, nKey, mapInfo, vvNew) && nId in mapInfo && nId != EMPTY
      requires mapInfo[nId].refCount == |Refs(h, nKey, vvNew, nId, mapInfo[nId].Service())|
      modifies this`mapInfo, this`vvNew, this`nNew
      ensures Core() == Purged(old(Core()), nId) && mapInfo[nId].refCount == 0
    {
      RemoveFromNew(nId);
      nNew := nNew - 1;
      assert mapInfo[nId].refCount == 0;
    }

    method EnterTried(nId: int, b: nat, p: nat)
      requires Inv(h, nKey, Core(), {nId}, 1) && InTable(vvTried, b, p) && At(vvTried, b, p) != nId
      requires nId in mapInfo
      modifies this`mapInfo, this`mapAddr, this`vRandom, this`nNew, this`vvNew, this`vvTried, this`nTried
      ensures nId in Vacated(h, nKey, old(Core()), b, p, {nId}, 1).info
      ensures InTable(Vacated(h, nKey, old(Core()), b, p, {nId}, 1).tried, b, p)
      ensures Core() == Promoted(Vacated(h, nKey, old(Core()), b, p, {nId}, 1), nId, b, p)
    {
      VacateLeaves(h, nKey, Core(), b, p, nId, {nId}, 1);
      VacateTried(b, p, {nId}, 1);
      assert At(vvTried, b, p) == EMPTY;
      BecomeTried(nId, b, p);
    }

    method BecomeTried(nId: int, b: nat, p: nat)
      requires InTable(vvTried, b, p) && nId in mapInfo
      modifies this`mapInfo, this`vvTried, this`nTried
      ensures Core() == Promoted(old(Core()), nId, b, p)
    {
      vvTried := Put(vvTried, b, p, nId);
      nTried := nTried + 1;
      mapInfo := mapInfo[nId := mapInfo[nId].(inTried := true)];
    }

    /** The search of Good_ for a bucket the entry is in, from a random start. */
    method FindNewBucket(nId: int) returns (nUBucket: int)
      requires IsTable(vvNew, NEW_BUCKETS) && nId in mapInfo
      ensures nUBucket == -1 <==> Refs(h, nKey, vvNew, nId, mapInfo[nId].Service()) == {}
      ensures nUBucket != -1 ==> nUBucket in Refs(h, nKey, vvNew, nId, mapInfo[nId].Service())
    {
      var nRnd :| 0 <= nRnd < NEW_BUCKETS;
      nUBucket := -1;
      var n := 0;
      ghost var refs := Refs(h, nKey, vvNew, nId, mapInfo[nId].Service());
      while n < NEW_BUCKETS && nUBucket == -1
        invariant 0 <= n <= NEW_BUCKETS
        invariant if nUBucket == -1 then forall m :: 0 <= m < n ==> RoundFrom(nRnd, m) !in refs else nUBucket in refs
        decreases NEW_BUCKETS - n, nUBucket == -1
      {
        var nB := RoundFrom(nRnd, n);
        var nBpos := Position(h, nKey, true, nB, mapInfo[nId].Service());
        if At(vvNew, nB, nBpos) == nId {
          nUBucket := nB;
        } else {
          n := n + 1;
        }
      }
      if nUBucket == -1 { RoundFromCovers(refs, nRnd); }
    }

    /**
     * Good_: a known service is remembered as successful and moves to tried.
     * The search for a bucket it is in never fails.
     */
    method Good(service: Service, time: int)
      requires Valid()
      modifies this
      ensures Valid() && nLastGood == time && nKey == old(nKey)
      ensures Core() == Commended(h, nKey, old(Core()), service, time)
    {
      CommendKeeps(h, nKey, Core(), service, time);
      nLastGood := time;
      CommendService(service, time);
    }

    method CommendService(service: Service, time: int)
      requires Valid()
      modifies this`mapInfo, this`mapAddr, this`vRandom, this`nNew, this`vvNew, this`vvTried, this`nTried
      ensures Core() == Commended(h, nKey, old(Core()), service, time)
    {
      var found := FindService(service);
      if found.Some? {
        Commend(found.value, service, time);
      } else {
        StrangerIsIgnored(h, nKey, Core(), service, time);
      }
    }

    /** The entry of exactly this service, if there is one. */
    method FindService(service: Service) returns (found: Option<int>)
      requires AddrOk(mapInfo, mapAddr)
      ensures if service.ip in mapAddr && mapInfo[mapAddr[service.ip]].Service() == service
              then found == Some(mapAddr[service.ip]) else found == None
    {
      found := Find(service.ip);
      if found.Some? && mapInfo[found.value].Service() != service { found := None; }
    }

    method Commend(nId: int, service: Service, time: int)
      requires Valid() && service.ip in mapAddr && nId == mapAddr[service.ip] && mapInfo[nId].Service() == service
      modifies this`mapInfo, this`mapAddr, this`vRandom, this`nNew, this`vvNew, this`vvTried, this`nTried
      ensures Core() == Commended(h, nKey, old(Core()), service, time)
    {
      TouchKeeps(h, nKey, Core(), nId, mapInfo[nId].(lastSuccess := time, lastTry := time, attempts := 0), {}, 0);
      Remember(nId, time);
      MoveToTried(nId);
    }

    method Remember(nId: int, time: int)
      requires nId in mapInfo
      modifies this`mapInfo
      ensures Core() ==
        Touched(old(Core()), nId, old(mapInfo)[nId].(lastSuccess := time, lastTry := time, attempts := 0))
    {
      mapInfo := mapInfo[nId := mapInfo[nId].(lastSuccess := time, lastTry := time, attempts := 0)];
    }

    /** The end of Good_: an entry that is not tried yet becomes so. */
    method MoveToTried(nId: int)
      requires Valid() && nId in mapInfo
      modifies this`mapInfo, this`mapAddr, this`vRandom, this`nNew, this`vvNew, this`vvTried, this`nTried
      ensures Core() == if old(mapInfo)[nId].inTried then old(Core()) else MadeTried(h, nKey, old(Core()), nId)
    {
      if mapInfo[nId].inTried { return; }
      var nUBucket := FindNewBucket(nId);
      if nUBucket == -1 { return; }
      MakeTried(nId);
    }

    /** Overwrite a slot of the new table with one more reference to an entry. */
    method TakeSlot(nId: int, b: nat, p: nat, ghost transit: set<int>)
      requires Inv(h, nKey, Core(), transit, 0) && InTable(vvNew, b, p)
      requires nId in mapInfo && (nId in transit || mapInfo[nId].inTried || nId != At(vvNew, b, p))
      modifies this`mapInfo, this`mapAddr, this`vRandom, this`nNew, this`vvNew
      ensures nId in Cleared(h, nKey, old(Core()), b, p, transit, 0).info
      ensures InTable(Cleared(h, nKey, old(Core()), b, p, transit, 0).newT, b, p)
      ensures Core() == Placed(Cleared(h, nKey, old(Core()), b, p, transit, 0), nId, b, p)
    {
      ClearSpares(h, nKey, Core(), b, p, nId, transit, 0);
      ClearNew(b, p, transit, 0);
      PutInto(nId, b, p);
    }

    /** The end of Add_: place the entry at its slot in the new table, or give up on it. */
    method Insert(nId: int, b: nat, p: nat, now: int)
      requires nId in mapInfo && Inv(h, nKey, Core(), Unplaced(Core(), nId), 0) && InTable(vvNew, b, p)
      requires !mapInfo[nId].inTried
      modifies this`mapInfo, this`mapAddr, this`vRandom, this`nNew, this`vvNew
      ensures Core() == Inserted(h, nKey, old(Core()), nId, b, p, now)
    {
      if At(vvNew, b, p) != nId {
        var fInsert := At(vvNew, b, p) == EMPTY;
        if !fInsert {
          var infoExisting := mapInfo[At(vvNew, b, p)];
          if IsTerrible(infoExisting, now) || (infoExisting.refCount > 1 && mapInfo[nId].refCount == 0) {
            fInsert := true;
          }
        }
        if fInsert {
          TakeSlot(nId, b, p, Unplaced(Core(), nId));
        } else if mapInfo[nId].refCount == 0 {
          Delete(nId);
        }
      }
    }

    /** The stochastic test of Add_: each reference makes a further one twice as unlikely. */
    method PassesTest(refCount: nat, random: nat -> nat) returns (pass: bool)
      ensures pass <==> Lucky(refCount, random)
    {
      var nFactor := 1;
      var n := 0;
      while n < refCount
        invariant 0 <= n <= refCount && nFactor == Bits.Pow2(n)
      {
        nFactor := nFactor * 2;
        n := n + 1;
      }
      pass := !(nFactor > 1 && random(nFactor) != 0);
      if refCount > 0 { assert Bits.Pow2(refCount) == 2 * Bits.Pow2(refCount - 1); }
    }

    method Refresh(nId: int, addr: Address, penalty: int, now: int)
      requires nId in mapInfo
      modifies this`mapInfo
      ensures Core() == Touched(old(Core()), nId, RefreshedEntry(old(mapInfo)[nId], addr, penalty, now))
    {
      mapInfo := mapInfo[nId := RefreshedEntry(mapInfo[nId], addr, penalty, now)];
    }

    /** Add_ on a known address. */
    method AddKnown(nId: int, addr: Address, source: Ip, penalty: int, now: int, random: nat -> nat)
      requires Valid() && addr.service.ip in mapAddr && nId == mapAddr[addr.service.ip]
      modifies this`mapInfo, this`mapAddr, this`vRandom, this`nNew, this`vvNew
      ensures Core() == Repeated(h, nKey, old(Core()), addr, source, penalty, now, random)
    {
      RefreshKeeps(h, nKey, Core(), addr, penalty, now);
      Refresh(nId, addr, penalty, now);
      var info := mapInfo[nId];
      var more := WantsReference(info, addr, random);
      if more { AddReference(nId, source, now); }
    }

    /** One more reference to an entry, by another source. */
    method AddReference(nId: int, source: Ip, now: int)
      requires Valid() && nId in mapInfo && !mapInfo[nId].inTried
      modifies this`mapInfo, this`mapAddr, this`vRandom, this`nNew, this`vvNew
      ensures Unplaced(old(Core()), nId) == {}
      ensures var s := old(mapInfo)[nId].Service();
        var b := NewBucket(h, nKey, s, source);
        Core() == Inserted(h, nKey, old(Core()), nId, b, Position(h, nKey, true, b, s), now)
    {
      var b := NewBucket(h, nKey, mapInfo[nId].Service(), source);
      Insert(nId, b, Position(h, nKey, true, b, mapInfo[nId].Service()), now);
    }

    /** The tests of Add_ that a known address must pass to get one more reference. */
    method WantsReference(info: Info, addr: Address, random: nat -> nat) returns (more: bool)
      requires info.refCount >= 0
      ensures more <==>
        && addr.time != 0 && (info.address.time == 0 || addr.time > info.address.time)
        && !info.inTried && info.refCount != NEW_BUCKETS_PER_ADDRESS && Lucky(info.refCount, random)
    {
      if addr.time == 0 || (info.address.time != 0 && addr.time <= info.address.time) { return false; }
      if info.inTried { return false; }
      if info.refCount == NEW_BUCKETS_PER_ADDRESS { return false; }
      more := PassesTest(info.refCount, random);
    }

    /** An unknown address gets an entry that counts as new. */
    method Introduce(addr: Address, source: Ip, penalty: int) returns (nId: int)
      modifies this`nIdCount, this`mapInfo, this`mapAddr, this`vRandom, this`nNew
      ensures Core() == Introduced(old(Core()), addr, source, penalty) && nId == old(nIdCount)
    {
      nId := Create(addr, source);
      mapInfo := mapInfo[nId := mapInfo[nId].(address := addr.(time := Max(0, addr.time - penalty)))];
      nNew := nNew + 1;
    }

    /** Add_ on an unknown address. */
    method AddUnknown(addr: Address, source: Ip, penalty: int, now: int)
      requires Valid() && addr.service.ip !in mapAddr
      modifies this`nIdCount, this`mapInfo, this`mapAddr, this`vRandom, this`nNew, this`vvNew
      ensures Core() == Welcomed(h, nKey, old(Core()), addr, source, penalty, now)
    {
      IntroduceKeeps(h, nKey, Core(), addr, source, penalty);
      var nId := Introduce(addr, source, penalty);
      var b := NewBucket(h, nKey, addr.service, source);
      Insert(nId, b, Position(h, nKey, true, b, addr.service), now);
    }

    /**
     * Add_.  The result says that the address was unknown, not that it was
     * kept: an unknown address is dropped at once when its slot is taken.
     */
    method Add(addr: Address, source: Ip, timePenalty: int, now: int, random: nat -> nat) returns (fNew: bool)
      requires Valid()
      modifies this`nIdCount, this`mapInfo, this`mapAddr, this`vRandom, this`nNew, this`vvNew
      ensures Valid()
      ensures fNew <==> isRoutable(addr.service.ip) && addr.service.ip !in old(mapAddr)
      ensures AddOutcome(h, nKey, isRoutable(addr.service.ip), old(Core()), addr, source,
                         Penalty(addr, source, timePenalty), now, Core())
      ensures isRoutable(addr.service.ip) && addr.service.ip in old(mapAddr) ==>
        Core() == Repeated(h, nKey, old(Core()), addr, source, Penalty(addr, source, timePenalty), now, random)
    {
      AddKeeps(h, nKey, isRoutable(addr.service.ip), Core(), addr, source, Penalty(addr, source, timePenalty), now);
      if !isRoutable(addr.service.ip) { return false; }
      var found := Find(addr.service.ip);
      var penalty := Penalty(addr, source, timePenalty);
      if found.Some? {
        AddKnown(found.value, addr, source, penalty, now, random);
        fNew := false;
      } else {
        AddUnknown(addr, source, penalty, now);
        fNew := true;
      }
    }

    /**
     * The first k places of vRandom, in another order than at the start, and the addresses among them worth giving
     * away.
     */
    ghost predicate Giving(start: AddrTables.Core, k: nat, vAddr: seq<Address>, now: int)
      reads this
    {
      && RandomOk(mapInfo, vRandom) && Shuffled(start, Core()) && k <= |vRandom| == |start.random|
      && vAddr == Worthwhile(mapInfo, vRandom, k, now)
    }

    /** Move the entry at a random place to place k, and give its address away if it is worth it. */
    method GiveAway(k: nat, nRndPos: nat, given: seq<Address>, now: int, ghost start: AddrTables.Core)
      returns (vAddr: seq<Address>)
      requires k <= nRndPos < |vRandom| && Giving(start, k, given, now)
      modifies this`mapInfo, this`vRandom
      ensures Giving(start, k + 1, vAddr, now) && |vAddr| <= |given| + 1
    {
      SwapShuffles(start, Core(), k, nRndPos);
      WorthwhileSwap(Core(), k, k, nRndPos, now);
      SwapRandom(k, nRndPos);
      assert vRandom[k] in mapInfo;
      var ai := mapInfo[vRandom[k]];
      vAddr := given;
      if !IsTerrible(ai, now) { vAddr := vAddr + [ai.address]; }
    }

    /**
     * GetAddr_: the addresses worth giving away among the first ids of a random
     * order, as many as allowed, or all of them.
     */
    method GetAddr(now: int) returns (vAddr: seq<Address>, ghost n: nat)
      requires Valid()
      modifies this`mapInfo, this`vRandom
      ensures Valid() && Shuffled(old(Core()), Core())
      ensures n <= |vRandom| && vAddr == Worthwhile(mapInfo, vRandom, n, now)
      ensures |vAddr| <= GetAddrLimit(|vRandom|) && (|vAddr| < GetAddrLimit(|vRandom|) ==> n == |vRandom|)
      ensures |vAddr| <= 2500 && 100 * |vAddr| <= 23 * |vRandom|
      ensures n == |vRandom| || |vAddr| == 2500 || 100 * (|vAddr| + 1) > 23 * |vRandom|
    {
      var nNodes := GETADDR_MAX_PCT * |vRandom| / 100;
      if nNodes > GETADDR_MAX { nNodes := GETADDR_MAX; }
      vAddr, n := GiveAwayUpTo(nNodes, now);
      ShuffleKeeps(h, nKey, old(Core()), Core());
    }

    /** The loop of GetAddr_. */
    method GiveAwayUpTo(nNodes: nat, now: int) returns (vAddr: seq<Address>, ghost n: nat)
      requires RandomOk(mapInfo, vRandom)
      modifies this`mapInfo, this`vRandom
      ensures RandomOk(mapInfo, vRandom) && Shuffled(old(Core()), Core()) && |vRandom| == |old(vRandom)|
      ensures n <= |vRandom| && vAddr == Worthwhile(mapInfo, vRandom, n, now)
      ensures |vAddr| <= nNodes && (|vAddr| < nNodes ==> n == |vRandom|)
    {
      vAddr := [];
      var k := 0;
      while k < |vRandom| && |vAddr| < nNodes
        invariant Giving(old(Core()), k, vAddr, now) && |vAddr| <= nNodes
      {
        var r :| 0 <= r < |vRandom| - k;
        vAddr := GiveAway(k, r + k, vAddr, now, old(Core()));
        k := k + 1;
      }
      n := k;
    }
  }

  /** What Add_ may do to the structures; randomness leaves a choice only for a known address with news. */
  ghost predicate AddOutcome(h: Hasher, key: nat, routable: bool, c: AddrTables.Core, addr: Address, source: Ip,
                             penalty: int, now: int,
                             c': AddrTables.Core)
    requires Inv(h, key, c, {}, 0)
  {
    if !routable then c' == c
    else if addr.service.ip !in c.addr then c' == Welcomed(h, key, c, addr, source, penalty, now)
    else
      || c' == Refreshed(c, addr, penalty, now)
      || (MayGainReference(c, addr, penalty, now) && c' == Multiplied(h, key, c, addr, source, penalty, now))
  }

  lemma AddKeeps(h: Hasher, key: nat, routable: bool, c: AddrTables.Core, addr: Address, source: Ip, penalty: int,
                 now: int)
    requires Inv(h, key, c, {}, 0)
    ensures forall c' :: AddOutcome(h, key, routable, c, addr, source, penalty, now, c') ==> Inv(h, key, c', {}, 0)
  {
    forall c' | AddOutcome(h, key, routable, c, addr, source, penalty, now, c') ensures Inv(h, key, c', {}, 0) {
      AddOutcomeKeeps(h, key, routable, c, addr, source, penalty, now, c');
    }
  }

  lemma AddOutcomeKeeps(h: Hasher, key: nat, routable: bool, c: AddrTables.Core, addr: Address, source: Ip,
                        penalty: int,
                        now: int, c': AddrTables.Core)
    requires Inv(h, key, c, {}, 0) && AddOutcome(h, key, routable, c, addr, source, penalty, now, c')
    ensures Inv(h, key, c', {}, 0)
  {
    if routable {
      if addr.service.ip !in c.addr {
        WelcomeKeeps(h, key, c, addr, source, penalty, now);
      } else if c' == Refreshed(c, addr, penalty, now) {
        RefreshKeeps(h, key, c, addr, penalty, now);
      } else {
        MultiplyKeeps(h, key, c, addr, source, penalty, now);
      }
    }
  }

  /** The n-th bucket visited when starting at `start` and wrapping round. */
  function RoundFrom(start: int, n: int): (b: nat)
    ensures b < NEW_BUCKETS
  {
    (n + start) % NEW_BUCKETS
  }

  /** Going round all buckets from any start misses none. */
  lemma RoundFromCovers(refs: set<int>, start: int)
    requires (forall b :: b in refs ==> 0 <= b < NEW_BUCKETS) && 0 <= start < NEW_BUCKETS
    requires forall m :: 0 <= m < NEW_BUCKETS ==> RoundFrom(start, m) !in refs
    ensures refs == {}
  {
    forall b ensures b !in refs {
      if 0 <= b < NEW_BUCKETS {
        var m := (b - start) % NEW_BUCKETS;
        assert RoundFrom(start, m) == b;
      }
    }
  }

  function EmptyTable(buckets: nat): (t: Table)
    ensures IsTable(t, buckets)
    ensures forall b, p :: InTable(t, b, p) ==> At(t, b, p) == EMPTY
  {
    seq(buckets, _ => seq(BUCKET_SIZE, _ => EMPTY))
  }

  lemma PurgeNothing(t: Table, id: int)
    ensures Purge(t, id, 0) == t
  {
    var t' := Purge(t, id, 0);
    forall b | 0 <= b < |t| ensures t'[b] == t[b] {
      forall p | 0 <= p < |t[b]| ensures t'[b][p] == t[b][p] { assert InTable(t, b, p) && At(t', b, p) == At(t, b, p); }
    }
  }

  /** Erasing an entry in one more bucket is erasing it at its hashed slot there. */
  lemma PurgeStep(h: Hasher, key: nat, info: map<int, Info>, t: Table, id: int, n: nat)
    requires NewOk(h, key, info, t) && id in info && id != EMPTY && n < NEW_BUCKETS
    ensures var s := info[id].Service();
      var p, u, u' := Position(h, key, true, n, s), Purge(t, id, n), Purge(t, id, n + 1);
      && IsTable(u, NEW_BUCKETS) && IsTable(u', NEW_BUCKETS)
      && (At(u, n, p) == id ==> u' == Put(u, n, p, EMPTY) && |Refs(h, key, u', id, s)| == |Refs(h, key, u, id, s)| - 1)
      && (At(u, n, p) != id ==> u' == u)
  {
    var s := info[id].Service();
    var p := Position(h, key, true, n, s);
    var u, u' := Purge(t, id, n), Purge(t, id, n + 1);
    var v := if At(u, n, p) == id then Put(u, n, p, EMPTY) else u;
    forall b | 0 <= b < |t| ensures u'[b] == v[b] {
      forall q | 0 <= q < |t[b]| ensures u'[b][q] == v[b][q] {
        assert InTable(t, b, q) && InTable(u, b, q);
        assert At(u', b, q) == At(v, b, q);
      }
    }
    assert u' == v;
    if At(u, n, p) == id {
      RefsAfterPut(h, key, u, n, p, EMPTY, id, s);
      assert n in Refs(h, key, u, id, s);
    }
  }

  /** The effect of Good_ on the structures. */
  ghost function Commended(h: Hasher, key: nat, c: AddrTables.Core, service: Service, time: int): AddrTables.Core
    requires Inv(h, key, c, {}, 0)
  {
    if service.ip !in c.addr || c.info[c.addr[service.ip]].Service() != service then c
    else
      var id := c.addr[service.ip];
      var c1 := Touched(c, id, c.info[id].(lastSuccess := time, lastTry := time, attempts := 0));
      TouchKeeps(h, key, c, id, c1.info[id], {}, 0);
      if c1.info[id].inTried then c1 else MadeTried(h, key, c1, id)
  }

  lemma StrangerIsIgnored(h: Hasher, key: nat, c: AddrTables.Core, service: Service, time: int)
    requires Inv(h, key, c, {}, 0) && (service.ip !in c.addr || c.info[c.addr[service.ip]].Service() != service)
    ensures Commended(h, key, c, service, time) == c
  {}

  lemma CommendKeeps(h: Hasher, key: nat, c: AddrTables.Core, service: Service, time: int)
    requires Inv(h, key, c, {}, 0)
    ensures Inv(h, key, Commended(h, key, c, service, time), {}, 0)
  {
    if service.ip in c.addr && c.info[c.addr[service.ip]].Service() == service {
      var id := c.addr[service.ip];
      var e := c.info[id].(lastSuccess := time, lastTry := time, attempts := 0);
      TouchKeeps(h, key, c, id, e, {}, 0);
      if !e.inTried { MakeTriedKeeps(h, key, Touched(c, id, e), id); }
    }
  }

  function Max(a: int, b: int): int { if a < b then b else a }

  /** A source's self-announcement carries no penalty. */
  function Penalty(addr: Address, source: Ip, timePenalty: int): int {
    if addr.service.ip == source then 0 else timePenalty
  }

  /** What Add_ updates of an entry it already has. */
  function RefreshedEntry(e: Info, addr: Address, penalty: int, now: int): Info {
    var interval := if now - addr.time < 24 * 60 * 60 then 60 * 60 else 24 * 60 * 60;
    var time :=
      if addr.time != 0 && (e.address.time == 0 || e.address.time < addr.time - interval - penalty)
      then Max(0, addr.time - penalty) else e.address.time;
    e.(address := e.address.(time := time, services := e.address.services + addr.services))
  }

  ghost function Refreshed(c: AddrTables.Core, addr: Address, penalty: int, now: int): AddrTables.Core
    requires AddrOk(c.info, c.addr) && addr.service.ip in c.addr
  {
    var id := c.addr[addr.service.ip];
    Touched(c, id, RefreshedEntry(c.info[id], addr, penalty, now))
  }

  lemma RefreshKeeps(h: Hasher, key: nat, c: AddrTables.Core, addr: Address, penalty: int, now: int)
    requires Inv(h, key, c, {}, 0) && addr.service.ip in c.addr
    ensures Inv(h, key, Refreshed(c, addr, penalty, now), {}, 0)
  {
    var id := c.addr[addr.service.ip];
    TouchKeeps(h, key, c, id, RefreshedEntry(c.info[id], addr, penalty, now), {}, 0);
  }

  /** A known address may get one more reference: it brings news, is not tried, and has fewer than 8. */
  ghost predicate MayGainReference(c: AddrTables.Core, addr: Address, penalty: int, now: int)
    requires AddrOk(c.info, c.addr) && addr.service.ip in c.addr
  {
    var e := RefreshedEntry(c.info[c.addr[addr.service.ip]], addr, penalty, now);
    && addr.time != 0 && (e.address.time == 0 || addr.time > e.address.time)
    && !e.inTried && e.refCount != NEW_BUCKETS_PER_ADDRESS
  }

  /** With n references, one draw out of 2^n admits a further one. */
  predicate Lucky(refCount: nat, random: nat -> nat) { refCount == 0 || random(Bits.Pow2(refCount)) == 0 }

  /** Add_ on a known address, with the random draw of the stochastic test. */
  ghost function Repeated(h: Hasher, key: nat, c: AddrTables.Core, addr: Address, source: Ip, penalty: int, now: int,
                          random: nat -> nat): AddrTables.Core
    requires Inv(h, key, c, {}, 0) && addr.service.ip in c.addr
  {
    var id := c.addr[addr.service.ip];
    assert id in c.info && c.info[id].refCount >= 0;
    if MayGainReference(c, addr, penalty, now) && Lucky(c.info[id].refCount, random)
    then Multiplied(h, key, c, addr, source, penalty, now) else Refreshed(c, addr, penalty, now)
  }

  /** A known address with one more reference, if it may take the slot. */
  ghost function Multiplied(h: Hasher, key: nat, c: AddrTables.Core, addr: Address, source: Ip, penalty: int,
                            now: int): AddrTables.Core
    requires Inv(h, key, c, {}, 0) && addr.service.ip in c.addr && MayGainReference(c, addr, penalty, now)
  {
    var id := c.addr[addr.service.ip];
    RefreshKeeps(h, key, c, addr, penalty, now);
    var b := NewBucket(h, key, c.info[id].Service(), source);
    Inserted(h, key, Refreshed(c, addr, penalty, now), id, b, Position(h, key, true, b, c.info[id].Service()), now)
  }

  lemma MultiplyKeeps(h: Hasher, key: nat, c: AddrTables.Core, addr: Address, source: Ip, penalty: int, now: int)
    requires Inv(h, key, c, {}, 0) && addr.service.ip in c.addr && MayGainReference(c, addr, penalty, now)
    ensures Inv(h, key, Multiplied(h, key, c, addr, source, penalty, now), {}, 0)
  {
    var id := c.addr[addr.service.ip];
    RefreshKeeps(h, key, c, addr, penalty, now);
    var b := NewBucket(h, key, c.info[id].Service(), source);
    InsertKeeps(h, key, Refreshed(c, addr, penalty, now), id, b, Position(h, key, true, b, c.info[id].Service()), now);
  }

  /** An unknown address as a counted entry in no table. */
  function Introduced(c: AddrTables.Core, addr: Address, source: Ip, penalty: int): AddrTables.Core {
    var c1 := Created(c, addr, source);
    var e := c1.info[c.idCount].(address := addr.(time := Max(0, addr.time - penalty)));
    Touched(c1, c.idCount, e).(nNew := c1.nNew + 1)
  }

  lemma {:induction false} IntroduceKeeps(h: Hasher, key: nat, c: AddrTables.Core, addr: Address, source: Ip,
                                          penalty: int)
    requires Inv(h, key, c, {}, 0) && addr.service.ip !in c.addr
    ensures Inv(h, key, Introduced(c, addr, source, penalty), {c.idCount}, 0)
  {
    CreateKeeps(h, key, c, addr, source);
    CountKeeps(h, key, Created(c, addr, source), c.idCount, addr.(time := Max(0, addr.time - penalty)));
  }

  lemma {:induction false} CountKeeps(h: Hasher, key: nat, c: AddrTables.Core, id: int, addr: Address)
    requires Inv(h, key, c, {id}, 1) && id in c.info && addr.service == c.info[id].Service()
    ensures Inv(h, key, Touched(c, id, c.info[id].(address := addr)).(nNew := c.nNew + 1), {id}, 0)
  {
    TouchKeeps(h, key, c, id, c.info[id].(address := addr), {id}, 1);
  }

  /** An unknown address, placed or dropped again. */
  ghost function Welcomed(h: Hasher, key: nat, c: AddrTables.Core, addr: Address, source: Ip, penalty: int,
                          now: int): AddrTables.Core
    requires Inv(h, key, c, {}, 0) && addr.service.ip !in c.addr
  {
    IntroduceKeeps(h, key, c, addr, source, penalty);
    var b := NewBucket(h, key, addr.service, source);
    Inserted(h, key, Introduced(c, addr, source, penalty), c.idCount, b, Position(h, key, true, b, addr.service), now)
  }

  lemma WelcomeKeeps(h: Hasher, key: nat, c: AddrTables.Core, addr: Address, source: Ip, penalty: int, now: int)
    requires Inv(h, key, c, {}, 0) && addr.service.ip !in c.addr
    ensures Inv(h, key, Welcomed(h, key, c, addr, source, penalty, now), {}, 0)
  {
    IntroduceKeeps(h, key, c, addr, source, penalty);
    var b := NewBucket(h, key, addr.service, source);
    InsertKeeps(h, key, Introduced(c, addr, source, penalty), c.idCount, b, Position(h, key, true, b, addr.service),
                now);
  }

  // ---------------------------------------------------------------- GetAddr_

  function GetAddrLimit(size: nat): nat {
    if GETADDR_MAX_PCT * size / 100 > GETADDR_MAX then GETADDR_MAX else GETADDR_MAX_PCT * size / 100
  }

  /** The same structures, with vRandom in another order. */
  ghost predicate Shuffled(c: AddrTables.Core, c': AddrTables.Core) {
    && c' == c.(info := c'.info, random := c'.random)
    && SameEntries(c.info, c'.info) && multiset(c'.random) == multiset(c.random)
  }

  lemma ShuffleKeeps(h: Hasher, key: nat, c: AddrTables.Core, c': AddrTables.Core)
    requires Inv(h, key, c, {}, 0) && Shuffled(c, c') && RandomOk(c'.info, c'.random)
    ensures Inv(h, key, c', {}, 0)
  {
    ReorderKeeps(h, key, c, c', {}, 0);
  }

  lemma SwapShuffles(c0: AddrTables.Core, c: AddrTables.Core, p1: nat, p2: nat)
    requires Shuffled(c0, c) && RandomOk(c.info, c.random) && p1 < |c.random| && p2 < |c.random|
    ensures Shuffled(c0, Swapped(c, p1, p2)) && RandomOk(Swapped(c, p1, p2).info, Swapped(c, p1, p2).random)
    ensures |Swapped(c, p1, p2).random| == |c.random|
  {
    SwapKeepsRandom(c, p1, p2);
  }

  /** The addresses among the first n of vRandom that are not terrible. */
  function Worthwhile(info: map<int, Info>, random: seq<int>, n: nat, now: int): seq<Address>
    requires n <= |random| && forall k :: 0 <= k < |random| ==> random[k] in info
  {
    if n == 0 then []
    else Worthwhile(info, random, n - 1, now)
         + if IsTerrible(info[random[n - 1]], now) then [] else [info[random[n - 1]].address]
  }

  lemma {:induction false} WorthwhileSwap(c: AddrTables.Core, n: nat, p1: nat, p2: nat, now: int)
    requires RandomOk(c.info, c.random) && n <= p1 < |c.random| && n <= p2 < |c.random|
    ensures var c' := Swapped(c, p1, p2);
      && (forall k :: 0 <= k < |c'.random| ==> c'.random[k] in c'.info)
      && Worthwhile(c'.info, c'.random, n, now) == Worthwhile(c.info, c.random, n, now)
  {
    SwapKeepsRandom(c, p1, p2);
    if n > 0 { WorthwhileSwap(c, n - 1, p1, p2, now); }
  }

  /** The address belongs to one of the first n entries of vRandom. */
  predicate AmongFirst(c: AddrTables.Core, a: Address, n: nat) {
    a.service.ip in c.addr && var id: int := c.addr[a.service.ip]; id in c.info && c.info[id].randomPos < n
  }

  /** GetAddr_ hands out no network address twice. */
  lemma {:induction false} WorthwhileDistinct(c: AddrTables.Core, n: nat, now: int, a: seq<Address>)
    requires AddrOk(c.info, c.addr) && RandomOk(c.info, c.random) && n <= |c.random|
    requires a == Worthwhile(c.info, c.random, n, now)
    ensures forall i :: 0 <= i < |a| ==> AmongFirst(c, a[i], n)
    ensures forall i, j :: 0 <= i < j < |a| ==> a[i].service.ip != a[j].service.ip
  {
    if n > 0 {
      var a0 := Worthwhile(c.info, c.random, n - 1, now);
      WorthwhileDistinct(c, n - 1, now, a0);
      var id := c.random[n - 1];
      assert c.info[id].randomPos == n - 1;
      var last := c.info[id].address;
      assert last.service.ip in c.addr && c.addr[last.service.ip] == id;
      forall i | 0 <= i < |a0| ensures AmongFirst(c, a0[i], n) && a0[i].service.ip != last.service.ip {
        assert AmongFirst(c, a0[i], n - 1);
      }
    }
  }

  // ---------------------------------------------------------------- whole runs

  datatype Call =
    | AddCall(routable: bool, addr: Address, source: Ip, penalty: int, now: int)
    | GoodCall(service: Service, time: int)
    | GetAddrCall

  ghost predicate Step(h: Hasher, key: nat, c: AddrTables.Core, call: Call, c': AddrTables.Core)
    requires Inv(h, key, c, {}, 0)
  {
    match call
    case AddCall(routable, addr, source, penalty, now) =>
      AddOutcome(h, key, routable, c, addr, source, penalty, now, c')
    case GoodCall(service, time) => c' == Commended(h, key, c, service, time)
    case GetAddrCall => Shuffled(c, c') && RandomOk(c'.info, c'.random)
  }

  function EmptyCore(): AddrTables.Core {
    AddrTables.Core(0, map[], map[], [], 0, EmptyTable(TRIED_BUCKETS), 0, EmptyTable(NEW_BUCKETS))
  }

  lemma EmptyInv(h: Hasher, key: nat)
    ensures Inv(h, key, EmptyCore(), {}, 0)
  {
    assert NewIds(EmptyCore().info) == {} && TriedIds(EmptyCore().info) == {};
  }

  lemma StepKeeps(h: Hasher, key: nat, c: AddrTables.Core, call: Call, c': AddrTables.Core)
    requires Inv(h, key, c, {}, 0) && Step(h, key, c, call, c')
    ensures Inv(h, key, c', {}, 0)
  {
    match call
    case AddCall(routable, addr, source, penalty, now) => AddKeeps(h, key, routable, c, addr, source, penalty, now);
    case GoodCall(service, time) => CommendKeeps(h, key, c, service, time);
    case GetAddrCall => ShuffleKeeps(h, key, c, c');
  }

  /**
   * A run: each structure follows from the one before it by the call between
   * them.  (What a call does is defined where the invariant holds.)
   */
  ghost predicate IsRun(h: Hasher, key: nat, cs: seq<AddrTables.Core>, calls: seq<Call>) {
    && |cs| == |calls| + 1 && cs[0] == EmptyCore()
    && forall i :: 0 <= i < |calls| ==> Inv(h, key, cs[i], {}, 0) ==> Step(h, key, cs[i], calls[i], cs[i + 1])
  }

  /** After any calls of Add_, Good_ and GetAddr_ on a new manager the structural conditions of Check_ hold. */
  lemma {:induction false} RunKeeps(h: Hasher, key: nat, cs: seq<AddrTables.Core>, calls: seq<Call>, i: nat)
    requires IsRun(h, key, cs, calls) && i < |cs|
    ensures Inv(h, key, cs[i], {}, 0)
  {
    if i == 0 {
      EmptyInv(h, key);
    } else {
      RunKeeps(h, key, cs, calls, i - 1);
      StepKeeps(h, key, cs[i - 1], calls[i - 1], cs[i]);
    }
  }
}
