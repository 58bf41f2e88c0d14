/** The moves between the new and the tried table, as functions on the manager's structures. */
module AddrMoves {
  import opened AddrTables

  const HORIZON_DAYS := 7
  const RETRIES := 3
  const MAX_FAILURES := 10
  const MIN_FAIL_DAYS := 2

  /** The statistics of an entry are bad enough for it to be deleted. */
  predicate IsTerrible(e: Info, now: int) {
    if e.lastTry != 0 && e.lastTry >= now - 60 then false
    else if e.address.time > now + 10 * 60 then true
    else if e.address.time == 0 || now - e.address.time > HORIZON_DAYS * 24 * 60 * 60 then true
    else if e.lastSuccess == 0 && e.attempts >= RETRIES then true
    else now - e.lastSuccess > MIN_FAIL_DAYS * 24 * 60 * 60 && e.attempts >= MAX_FAILURES
  }

  // ---------------------------------------------------------------- ClearNew

  /** ClearNew: the occupant of the slot loses a reference, and is deleted with its last one. */
  ghost function Cleared(h: Hasher, key: nat, c: Core, b: int, p: int, transit: set<int>, uncounted: int): Core
    requires Inv(h, key, c, transit, uncounted) && InTable(c.newT, b, p)
  {
    var id := At(c.newT, b, p);
    if id == EMPTY then c
    else
      OccupantIsNew(h, key, c, b, p, transit);
      ReleaseKeeps(h, key, c, b, p, transit, uncounted);
      var c1 := Released(c, b, p);
      if c1.info[id].refCount == 0 then Deleted(c1, id) else c1
  }

  lemma ClearKeeps(h: Hasher, key: nat, c: Core, b: int, p: int, transit: set<int>, uncounted: int)
    requires Inv(h, key, c, transit, uncounted) && InTable(c.newT, b, p)
    ensures Inv(h, key, Cleared(h, key, c, b, p, transit, uncounted), transit, uncounted)
  {
    var id := At(c.newT, b, p);
    if id != EMPTY {
      OccupantIsNew(h, key, c, b, p, transit);
      ReleaseKeeps(h, key, c, b, p, transit, uncounted);
      var c1 := Released(c, b, p);
      if c1.info[id].refCount == 0 { DeleteLast(h, key, c1, id, transit, uncounted); }
    }
  }

  lemma DeleteLast(h: Hasher, key: nat, c: Core, id: int, transit: set<int>, uncounted: int)
    requires Inv(h, key, c, transit + {id}, uncounted) && id in c.info && !c.info[id].inTried && id !in transit
    ensures Inv(h, key, Deleted(c, id), transit, uncounted)
  {
    DeleteKeeps(h, key, c, id, transit + {id}, uncounted);
    assert transit + {id} - {id} == transit;
  }

  /** ClearNew empties its slot and touches no entry but the occupant. */
  lemma ClearLeaves(h: Hasher, key: nat, c: Core, b: int, p: int, transit: set<int>, uncounted: int)
    requires Inv(h, key, c, transit, uncounted) && InTable(c.newT, b, p)
    ensures var c' := Cleared(h, key, c, b, p, transit, uncounted);
      && c'.newT == Put(c.newT, b, p, EMPTY) && c'.tried == c.tried && c'.nTried == c.nTried && c'.idCount == c.idCount
      && SameEntries(c.info - {At(c.newT, b, p)}, c'.info - {At(c.newT, b, p)})
  {
    var id := At(c.newT, b, p);
    if id == EMPTY {
      assert c.newT[b][p := EMPTY] == c.newT[b];
    } else {
      OccupantIsNew(h, key, c, b, p, transit);
      ReleaseKeeps(h, key, c, b, p, transit, uncounted);
      var c1 := Released(c, b, p);
      if c1.info[id].refCount == 0 { DeleteLeaves(c1, id); }
    }
  }

  // ---------------------------------------------------------------- placing in the new table

  /** One more reference to an entry, in an empty slot. */
  function Placed(c: Core, id: int, b: int, p: int): Core
    requires InTable(c.newT, b, p) && id in c.info
  {
    c.(info := c.info[id := c.info[id].(refCount := c.info[id].refCount + 1)], newT := Put(c.newT, b, p, id))
  }

  lemma PlaceKeeps(h: Hasher, key: nat, c: Core, id: int, b: int, p: int, transit: set<int>, uncounted: int)
    requires Inv(h, key, c, transit, uncounted) && InTable(c.newT, b, p) && At(c.newT, b, p) == EMPTY
    requires id in c.info && !c.info[id].inTried && c.info[id].refCount < NEW_BUCKETS_PER_ADDRESS
    requires Position(h, key, true, b, c.info[id].Service()) == p
    ensures Inv(h, key, Placed(c, id, b, p), transit - {id}, uncounted)
  {
    PlaceKeepsIndexes(c, id, b, p);
    PlaceKeepsTables(h, key, c, id, b, p, transit);
  }

  lemma {:induction false} PlaceKeepsIndexes(c: Core, id: int, b: int, p: int)
    requires IdsOk(c.info, c.idCount) && AddrOk(c.info, c.addr) && RandomOk(c.info, c.random) && id in c.info
    requires InTable(c.newT, b, p)
    ensures var c1 := Placed(c, id, b, p);
      && IdsOk(c1.info, c1.idCount) && AddrOk(c1.info, c1.addr) && RandomOk(c1.info, c1.random)
      && NewIds(c1.info) == NewIds(c.info) && TriedIds(c1.info) == TriedIds(c.info)
      && c1.nNew == c.nNew && c1.nTried == c.nTried
  {
    var e := c.info[id].(refCount := c.info[id].refCount + 1);
    UpdateAddr(c.info, c.addr, id, e);
    UpdateRandom(c.info, c.random, id, e);
    UpdateIds(c.info, id, e);
  }

  lemma PlaceKeepsTables(h: Hasher, key: nat, c: Core, id: int, b: int, p: int, transit: set<int>)
    requires NewOk(h, key, c.info, c.newT) && RefsOk(h, key, c.info, c.newT, transit)
    requires TriedOk(h, key, c.info, c.tried)
    requires InTable(c.newT, b, p) && At(c.newT, b, p) == EMPTY && EMPTY !in c.info
    requires id in c.info && !c.info[id].inTried && c.info[id].refCount < NEW_BUCKETS_PER_ADDRESS
    requires Position(h, key, true, b, c.info[id].Service()) == p
    ensures var c1 := Placed(c, id, b, p);
      && NewOk(h, key, c1.info, c1.newT) && TriedOk(h, key, c1.info, c1.tried)
      && RefsOk(h, key, c1.info, c1.newT, transit - {id})
  {
    PlaceRefs(h, key, c, id, b, p);
  }

  lemma PlaceRefs(h: Hasher, key: nat, c: Core, id: int, b: int, p: int)
    requires NewOk(h, key, c.info, c.newT) && InTable(c.newT, b, p) && At(c.newT, b, p) == EMPTY && EMPTY !in c.info
    requires id in c.info && Position(h, key, true, b, c.info[id].Service()) == p
    ensures IsTable(Put(c.newT, b, p, id), NEW_BUCKETS)
    ensures forall i :: i in c.info ==>
      |Refs(h, key, Put(c.newT, b, p, id), i, c.info[i].Service())|
        == |Refs(h, key, c.newT, i, c.info[i].Service())| + if i == id then 1 else 0
  {
    forall i | i in c.info
      ensures |Refs(h, key, Put(c.newT, b, p, id), i, c.info[i].Service())|
        == |Refs(h, key, c.newT, i, c.info[i].Service())| + if i == id then 1 else 0
    {
      var s := c.info[i].Service();
      RefsAfterPut(h, key, c.newT, b, p, id, i, s);
      assert Position(h, key, true, b, s) == p ==> b !in Refs(h, key, c.newT, i, s);
    }
  }

  // ---------------------------------------------------------------- leaving the new table

  /** The table with every occurrence of an id in the first `n` buckets erased. */
  function Purge(t: Table, id: int, n: nat): (t': Table)
    ensures |t'| == |t| && forall b :: 0 <= b < |t| ==> |t'[b]| == |t[b]|
    ensures forall b, p :: InTable(t, b, p) ==>
      At(t', b, p) == if b < n && At(t, b, p) == id then EMPTY else At(t, b, p)
  {
    seq(|t|, b requires 0 <= b < |t| =>
      seq(|t[b]|, p requires 0 <= p < |t[b]| => if b < n && t[b][p] == id then EMPTY else t[b][p]))
  }

  /** An entry taken out of all its new buckets. */
  function Purged(c: Core, id: int): Core
    requires id in c.info
  {
    c.(info := c.info[id := c.info[id].(refCount := 0)], newT := Purge(c.newT, id, NEW_BUCKETS), nNew := c.nNew - 1)
  }

  lemma PurgeKeeps(h: Hasher, key: nat, c: Core, id: int)
    requires Inv(h, key, c, {}, 0) && id in c.info && !c.info[id].inTried
    ensures Inv(h, key, Purged(c, id), {id}, 1)
  {
    UpdateKeepsIndexes(c, id, c.info[id].(refCount := 0));
    PurgeKeepsTables(h, key, c, id);
  }

  lemma PurgeKeepsTables(h: Hasher, key: nat, c: Core, id: int)
    requires NewOk(h, key, c.info, c.newT) && RefsOk(h, key, c.info, c.newT, {}) && TriedOk(h, key, c.info, c.tried)
    requires id in c.info && !c.info[id].inTried && EMPTY !in c.info
    ensures var c1 := Purged(c, id);
      NewOk(h, key, c1.info, c1.newT) && TriedOk(h, key, c1.info, c1.tried) && RefsOk(h, key, c1.info, c1.newT, {id})
  {
    var t' := Purge(c.newT, id, NEW_BUCKETS);
    forall i | i in c.info ensures Refs(h, key, t', i, c.info[i].Service())
      == if i == id then {} else Refs(h, key, c.newT, i, c.info[i].Service())
    {
      PurgeRefs(h, key, c.newT, id, i, c.info[i].Service());
    }
  }

  lemma PurgeRefs(h: Hasher, key: nat, t: Table, id: int, i: int, s: Service)
    requires IsTable(t, NEW_BUCKETS) && i != EMPTY && id != EMPTY
    ensures IsTable(Purge(t, id, NEW_BUCKETS), NEW_BUCKETS)
    ensures Refs(h, key, Purge(t, id, NEW_BUCKETS), i, s) == if i == id then {} else Refs(h, key, t, i, s)
  {
    var t' := Purge(t, id, NEW_BUCKETS);
    forall b | 0 <= b < NEW_BUCKETS
      ensures b in Refs(h, key, t', i, s) <==> i != id && b in Refs(h, key, t, i, s)
    {
      assert InTable(t, b, Position(h, key, true, b, s));
    }
  }

  // ---------------------------------------------------------------- the tried table

  /** The occupant of a tried slot leaves the tried set. */
  function Demoted(c: Core, b: int, p: int): Core
    requires InTable(c.tried, b, p) && At(c.tried, b, p) in c.info
  {
    var id := At(c.tried, b, p);
    c.(info := c.info[id := c.info[id].(inTried := false)], tried := Put(c.tried, b, p, EMPTY), nTried := c.nTried - 1)
  }

  lemma DemoteKeeps(h: Hasher, key: nat, c: Core, b: int, p: int, transit: set<int>, uncounted: int)
    requires Inv(h, key, c, transit, uncounted) && InTable(c.tried, b, p) && At(c.tried, b, p) != EMPTY
    ensures At(c.tried, b, p) in c.info
    ensures Inv(h, key, Demoted(c, b, p), transit + {At(c.tried, b, p)}, uncounted + 1)
  {
    var id := At(c.tried, b, p);
    UpdateKeepsIndexes(c, id, c.info[id].(inTried := false));
    DemoteKeepsTables(h, key, c, b, p, transit);
  }

  lemma DemoteKeepsTables(h: Hasher, key: nat, c: Core, b: int, p: int, transit: set<int>)
    requires NewOk(h, key, c.info, c.newT) && RefsOk(h, key, c.info, c.newT, transit)
    requires TriedOk(h, key, c.info, c.tried)
    requires InTable(c.tried, b, p) && At(c.tried, b, p) != EMPTY
    ensures At(c.tried, b, p) in c.info
    ensures var id, c1 := At(c.tried, b, p), Demoted(c, b, p);
      && NewOk(h, key, c1.info, c1.newT) && TriedOk(h, key, c1.info, c1.tried)
      && RefsOk(h, key, c1.info, c1.newT, transit + {id})
  {}

  /** An entry enters the tried set, in an empty slot. */
  function Promoted(c: Core, id: int, b: int, p: int): Core
    requires InTable(c.tried, b, p) && id in c.info
  {
    c.(info := c.info[id := c.info[id].(inTried := true)], tried := Put(c.tried, b, p, id), nTried := c.nTried + 1)
  }

  lemma PromoteKeeps(h: Hasher, key: nat, c: Core, id: int, transit: set<int>, uncounted: int)
    requires Inv(h, key, c, transit, uncounted) && id in c.info && id in transit && !c.info[id].inTried
    requires var slot := TriedSlot(h, key, c.info[id].Service()); At(c.tried, slot.0, slot.1) == EMPTY
    ensures var slot := TriedSlot(h, key, c.info[id].Service());
      Inv(h, key, Promoted(c, id, slot.0, slot.1), transit - {id}, uncounted - 1)
  {
    UpdateKeepsIndexes(c, id, c.info[id].(inTried := true));
    PromoteKeepsTables(h, key, c, id, transit);
  }

  lemma PromoteKeepsTables(h: Hasher, key: nat, c: Core, id: int, transit: set<int>)
    requires NewOk(h, key, c.info, c.newT) && RefsOk(h, key, c.info, c.newT, transit)
    requires TriedOk(h, key, c.info, c.tried)
    requires id in c.info && id in transit && !c.info[id].inTried && EMPTY !in c.info
    requires var slot := TriedSlot(h, key, c.info[id].Service()); At(c.tried, slot.0, slot.1) == EMPTY
    ensures var slot := TriedSlot(h, key, c.info[id].Service()); var c1 := Promoted(c, id, slot.0, slot.1);
      && NewOk(h, key, c1.info, c1.newT) && TriedOk(h, key, c1.info, c1.tried)
      && RefsOk(h, key, c1.info, c1.newT, transit - {id})
  {}

  // ---------------------------------------------------------------- MakeTried

  /** Where an entry goes in the new table, by its first source. */
  function HomeSlot(h: Hasher, key: nat, e: Info): (slot: (nat, nat))
    ensures slot.0 < NEW_BUCKETS && slot.1 < BUCKET_SIZE
    ensures slot.1 == Position(h, key, true, slot.0, e.Service())
  {
    var b := NewBucket(h, key, e.Service(), e.source);
    (b, Position(h, key, true, b, e.Service()))
  }

  /** An entry outside all tables enters the new table again, at a slot that is cleared for it. */
  ghost function Rehomed(h: Hasher, key: nat, c: Core, id: int, transit: set<int>, uncounted: int): Core
    requires Inv(h, key, c, transit, uncounted) && id in c.info && id in transit
  {
    var slot := HomeSlot(h, key, c.info[id]);
    var c1 := Cleared(h, key, c, slot.0, slot.1, transit, uncounted);
    ClearSpares(h, key, c, slot.0, slot.1, id, transit, uncounted);
    Placed(c1, id, slot.0, slot.1).(nNew := c1.nNew + 1)
  }

  /** ClearNew does not touch an entry in transit. */
  lemma ClearSpares(h: Hasher, key: nat, c: Core, b: int, p: int, id: int, transit: set<int>, uncounted: int)
    requires Inv(h, key, c, transit, uncounted) && InTable(c.newT, b, p) && id in c.info
    requires id in transit || c.info[id].inTried || id != At(c.newT, b, p)
    ensures var c' := Cleared(h, key, c, b, p, transit, uncounted);
      id in c'.info && c'.info[id] == c.info[id].(randomPos := c'.info[id].randomPos)
      && c'.newT == Put(c.newT, b, p, EMPTY) && c'.tried == c.tried
  {
    var x := At(c.newT, b, p);
    if x != EMPTY { OccupantIsNew(h, key, c, b, p, transit); }
    ClearLeaves(h, key, c, b, p, transit, uncounted);
    assert id in c.info - {x};
    assert id in Cleared(h, key, c, b, p, transit, uncounted).info - {x};
  }

  lemma RehomeKeeps(h: Hasher, key: nat, c: Core, id: int, transit: set<int>, uncounted: int)
    requires Inv(h, key, c, transit, uncounted) && id in c.info && id in transit && !c.info[id].inTried
    ensures Inv(h, key, Rehomed(h, key, c, id, transit, uncounted), transit - {id}, uncounted - 1)
  {
    var slot := HomeSlot(h, key, c.info[id]);
    var c1 := Cleared(h, key, c, slot.0, slot.1, transit, uncounted);
    ClearKeeps(h, key, c, slot.0, slot.1, transit, uncounted);
    ClearSpares(h, key, c, slot.0, slot.1, id, transit, uncounted);
    PlaceKeeps(h, key, c1, id, slot.0, slot.1, transit, uncounted);
  }

  /** The occupant of a tried slot, if any, goes back to the new table. */
  ghost function Vacated(h: Hasher, key: nat, c: Core, b: int, p: int, transit: set<int>, uncounted: int): Core
    requires Inv(h, key, c, transit, uncounted) && InTable(c.tried, b, p)
  {
    var e := At(c.tried, b, p);
    if e == EMPTY then c
    else
      DemoteKeeps(h, key, c, b, p, transit, uncounted);
      Rehomed(h, key, Demoted(c, b, p), e, transit + {e}, uncounted + 1)
  }

  lemma VacateKeeps(h: Hasher, key: nat, c: Core, b: int, p: int, transit: set<int>, uncounted: int)
    requires Inv(h, key, c, transit, uncounted) && InTable(c.tried, b, p) && At(c.tried, b, p) !in transit
    ensures Inv(h, key, Vacated(h, key, c, b, p, transit, uncounted), transit, uncounted)
  {
    var e := At(c.tried, b, p);
    if e != EMPTY {
      DemoteKeeps(h, key, c, b, p, transit, uncounted);
      RehomeLast(h, key, Demoted(c, b, p), e, transit, uncounted);
    }
  }

  lemma RehomeLast(h: Hasher, key: nat, c: Core, e: int, transit: set<int>, uncounted: int)
    requires Inv(h, key, c, transit + {e}, uncounted + 1) && e in c.info && !c.info[e].inTried && e !in transit
    ensures Inv(h, key, Rehomed(h, key, c, e, transit + {e}, uncounted + 1), transit, uncounted)
  {
    RehomeKeeps(h, key, c, e, transit + {e}, uncounted + 1);
    assert transit + {e} - {e} == transit;
  }

  /** Vacating a tried slot touches only its occupant and whatever stood in the occupant's new slot. */
  lemma VacateLeaves(h: Hasher, key: nat, c: Core, b: int, p: int, id: int, transit: set<int>, uncounted: int)
    requires Inv(h, key, c, transit, uncounted) && InTable(c.tried, b, p) && At(c.tried, b, p) !in transit
    requires id in c.info && (id in transit || (c.info[id].inTried && id != At(c.tried, b, p)))
    ensures var c' := Vacated(h, key, c, b, p, transit, uncounted);
      && id in c'.info && c'.info[id] == c.info[id].(randomPos := c'.info[id].randomPos)
      && c'.tried == Put(c.tried, b, p, EMPTY)
  {
    var e := At(c.tried, b, p);
    if e == EMPTY {
      assert c.tried[b][p := EMPTY] == c.tried[b];
    } else {
      DemoteKeeps(h, key, c, b, p, transit, uncounted);
      RehomeLeaves(h, key, Demoted(c, b, p), e, id, transit + {e}, uncounted + 1);
    }
  }

  lemma RehomeLeaves(h: Hasher, key: nat, c: Core, e: int, id: int, transit: set<int>, uncounted: int)
    requires Inv(h, key, c, transit, uncounted) && e in c.info && e in transit && id in c.info && id != e
    requires id in transit || c.info[id].inTried
    ensures var c' := Rehomed(h, key, c, e, transit, uncounted);
      id in c'.info && c'.info[id] == c.info[id].(randomPos := c'.info[id].randomPos) && c'.tried == c.tried
  {
    var slot := HomeSlot(h, key, c.info[e]);
    ClearSpares(h, key, c, slot.0, slot.1, e, transit, uncounted);
    ClearSpares(h, key, c, slot.0, slot.1, id, transit, uncounted);
  }

  /** MakeTried. */
  ghost function MadeTried(h: Hasher, key: nat, c: Core, id: int): Core
    requires Inv(h, key, c, {}, 0) && id in c.info && !c.info[id].inTried
  {
    var slot := TriedSlot(h, key, c.info[id].Service());
    PurgeKeeps(h, key, c, id);
    PurgedIsNotTried(h, key, c, id, slot.0, slot.1);
    VacateLeaves(h, key, Purged(c, id), slot.0, slot.1, id, {id}, 1);
    Promoted(Vacated(h, key, Purged(c, id), slot.0, slot.1, {id}, 1), id, slot.0, slot.1)
  }

  lemma PurgedIsNotTried(h: Hasher, key: nat, c: Core, id: int, b: int, p: int)
    requires Inv(h, key, c, {}, 0) && id in c.info && !c.info[id].inTried && InTable(c.tried, b, p)
    ensures At(Purged(c, id).tried, b, p) != id
  {}

  lemma MakeTriedKeeps(h: Hasher, key: nat, c: Core, id: int)
    requires Inv(h, key, c, {}, 0) && id in c.info && !c.info[id].inTried
    ensures Inv(h, key, MadeTried(h, key, c, id), {}, 0)
  {
    var slot := TriedSlot(h, key, c.info[id].Service());
    PurgeKeeps(h, key, c, id);
    PurgedIsNotTried(h, key, c, id, slot.0, slot.1);
    VacateKeeps(h, key, Purged(c, id), slot.0, slot.1, {id}, 1);
    VacateLeaves(h, key, Purged(c, id), slot.0, slot.1, id, {id}, 1);
    PromoteKeeps(h, key, Vacated(h, key, Purged(c, id), slot.0, slot.1, {id}, 1), id, {id}, 1);
    assert {id} - {id} == {};
  }

  /** The entry just before it takes its tried slot, which is empty then. */
  lemma VacatedAfterPurge(h: Hasher, key: nat, c: Core, id: int) returns (c2: Core)
    requires Inv(h, key, c, {}, 0) && id in c.info && !c.info[id].inTried
    ensures var slot := TriedSlot(h, key, c.info[id].Service());
      && InTable(c2.tried, slot.0, slot.1) && id in c2.info
      && c2.info[id] == c.info[id].(refCount := 0, randomPos := c2.info[id].randomPos)
      && c2.tried == Put(c.tried, slot.0, slot.1, EMPTY)
      && MadeTried(h, key, c, id) == Promoted(c2, id, slot.0, slot.1)
  {
    var slot := TriedSlot(h, key, c.info[id].Service());
    PurgeKeeps(h, key, c, id);
    PurgedIsNotTried(h, key, c, id, slot.0, slot.1);
    VacateLeaves(h, key, Purged(c, id), slot.0, slot.1, id, {id}, 1);
    c2 := Vacated(h, key, Purged(c, id), slot.0, slot.1, {id}, 1);
  }

  /** After MakeTried the entry stands in its tried slot, and every other tried slot is as before. */
  lemma MakeTriedEffect(h: Hasher, key: nat, c: Core, id: int)
    requires Inv(h, key, c, {}, 0) && id in c.info && !c.info[id].inTried
    ensures var c' := MadeTried(h, key, c, id); var slot := TriedSlot(h, key, c.info[id].Service());
      && id in c'.info
      && c'.info[id] == c.info[id].(inTried := true, refCount := 0, randomPos := c'.info[id].randomPos)
      && c'.tried == Put(c.tried, slot.0, slot.1, id)
  {
    var slot := TriedSlot(h, key, c.info[id].Service());
    var c2 := VacatedAfterPurge(h, key, c, id);
    PromotedIs(c, c2, id, slot.0, slot.1);
  }

  lemma PromotedIs(c: Core, c2: Core, id: int, b: nat, p: nat)
    requires id in c.info && InTable(c.tried, b, p) && id in c2.info && c2.tried == Put(c.tried, b, p, EMPTY)
    requires c2.info[id] == c.info[id].(refCount := 0, randomPos := c2.info[id].randomPos)
    ensures InTable(c2.tried, b, p)
    ensures var c' := Promoted(c2, id, b, p);
      && id in c'.info && c'.info[id] == c.info[id].(inTried := true, refCount := 0, randomPos := c'.info[id].randomPos)
      && c'.tried == Put(c.tried, b, p, id)
  {
    PutTwice(c.tried, b, p, EMPTY, id);
  }

  lemma PutTwice(t: Table, b: nat, p: nat, x: int, y: int)
    requires InTable(t, b, p)
    ensures Put(Put(t, b, p, x), b, p, y) == Put(t, b, p, y)
  {
    assert t[b][p := x][p := y] == t[b][p := y];
    assert t[b := t[b][p := x]][b := t[b][p := y]] == t[b := t[b][p := y]];
  }

  // ---------------------------------------------------------------- the end of Add_

  /** Whether the slot may be taken for entry `id`. */
  predicate MayTake(c: Core, id: int, b: int, p: int, now: int)
    requires InTable(c.newT, b, p) && id in c.info && (At(c.newT, b, p) == EMPTY || At(c.newT, b, p) in c.info)
  {
    var x := At(c.newT, b, p);
    x == EMPTY || IsTerrible(c.info[x], now) || (c.info[x].refCount > 1 && c.info[id].refCount == 0)
  }

  /** An entry still without references is in transit. */
  function Unplaced(c: Core, id: int): set<int>
    requires id in c.info
  {
    if c.info[id].refCount == 0 then {id} else {}
  }

  /** Placing an entry at a slot of the new table, or giving up on it. */
  ghost function Inserted(h: Hasher, key: nat, c: Core, id: int, b: int, p: int, now: int): Core
    requires id in c.info && Inv(h, key, c, Unplaced(c, id), 0) && InTable(c.newT, b, p)
  {
    if At(c.newT, b, p) == id then c
    else if MayTake(c, id, b, p, now) then
      ClearSpares(h, key, c, b, p, id, Unplaced(c, id), 0);
      Placed(Cleared(h, key, c, b, p, Unplaced(c, id), 0), id, b, p)
    else if c.info[id].refCount == 0 then Deleted(c, id)
    else c
  }

  lemma InsertKeeps(h: Hasher, key: nat, c: Core, id: int, b: int, p: int, now: int)
    requires id in c.info && Inv(h, key, c, Unplaced(c, id), 0) && InTable(c.newT, b, p)
    requires !c.info[id].inTried && c.info[id].refCount < NEW_BUCKETS_PER_ADDRESS
    requires Position(h, key, true, b, c.info[id].Service()) == p
    ensures Inv(h, key, Inserted(h, key, c, id, b, p, now), {}, 0)
  {
    var transit := Unplaced(c, id);
    if At(c.newT, b, p) == id {
      OccupantIsNew(h, key, c, b, p, transit);
      assert transit == {};
    } else if MayTake(c, id, b, p, now) {
      ClearKeeps(h, key, c, b, p, transit, 0);
      ClearSpares(h, key, c, b, p, id, transit, 0);
      PlaceKeeps(h, key, Cleared(h, key, c, b, p, transit, 0), id, b, p, transit, 0);
      assert transit - {id} == {};
    } else if c.info[id].refCount == 0 {
      DeleteKeeps(h, key, c, id, transit, 0);
      assert transit - {id} == {};
    }
  }

  /**
   * Inserting leaves the tried table alone; of the other entries it touches only
   * the occupant of the slot; and the entry survives unless it came without a
   * reference and may not take the slot.
   */
  lemma InsertEffect(h: Hasher, key: nat, c: Core, id: int, b: int, p: int, now: int)
    requires id in c.info && Inv(h, key, c, Unplaced(c, id), 0) && InTable(c.newT, b, p)
    ensures var c' := Inserted(h, key, c, id, b, p, now); var x := At(c.newT, b, p);
      && c'.tried == c.tried && c'.nTried == c.nTried
      && SameEntries(c.info - {x, id}, c'.info - {x, id})
      && (id in c'.info <==> x == id || MayTake(c, id, b, p, now) || c.info[id].refCount > 0)
  {
    var transit, x := Unplaced(c, id), At(c.newT, b, p);
    if x == id {
    } else if MayTake(c, id, b, p, now) {
      ClearLeaves(h, key, c, b, p, transit, 0);
      ClearSpares(h, key, c, b, p, id, transit, 0);
      SameWithout(c.info, Cleared(h, key, c, b, p, transit, 0).info, x, id);
    } else if c.info[id].refCount == 0 {
      DeleteLeaves(c, id);
    }
    assert c.info[id].refCount >= 0;
  }

  lemma SameWithout(info: map<int, Info>, info': map<int, Info>, x: int, id: int)
    requires SameEntries(info - {x}, info' - {x})
    ensures SameEntries(info - {x, id}, info' - {x, id})
  {
    forall i | i in info - {x, id}
      ensures i in info' - {x, id} && info'[i] == info[i].(randomPos := info'[i].randomPos)
    {
      assert i in info - {x} && i in info' - {x} && (info - {x})[i] == info[i] && (info' - {x})[i] == info'[i];
    }
    forall i | i in info' - {x, id} ensures i in info - {x, id} { assert i in info' - {x}; }
  }
}
