/** Check_, the manager's consistency check, and exactly when it passes. */
module AddrCheck {
  import opened AddrTables
  import opened AddrMoves
  import opened AddrMan

  /** The conditions Check_ puts on the times of an entry. */
  predicate TimesOk(e: Info) {
    (e.inTried ==> e.lastSuccess != 0) && e.lastTry >= 0 && e.lastSuccess >= 0
  }

  predicate AllTimesOk(info: map<int, Info>) {
    forall id :: id in info ==> TimesOk(info[id])
  }

  /** The error Check_ finds in one entry, 0 if none. */
  function EntryError(c: Core, id: int): int
    requires id in c.info
  {
    var e := c.info[id];
    if e.inTried && e.lastSuccess == 0 then -1
    else if e.inTried && e.refCount != 0 then -2
    else if !e.inTried && (e.refCount < 0 || e.refCount > NEW_BUCKETS_PER_ADDRESS) then -3
    else if !e.inTried && e.refCount == 0 then -4
    else if (if e.Service().ip in c.addr then c.addr[e.Service().ip] else 0) != id then -5
    else if e.randomPos < 0 || e.randomPos >= |c.random| || c.random[e.randomPos] != id then -14
    else if e.lastTry < 0 then -6
    else if e.lastSuccess < 0 then -8
    else 0
  }

  function NewCounts(info: map<int, Info>): map<int, int> {
    map id | id in info && !info[id].inTried :: info[id].refCount
  }

  /** The first loop of Check_: it sorts the entries, or reports the error of one of them. */
  method CheckEntries(c: Core) returns (err: int, setTried: set<int>, mapNew: map<int, int>)
    ensures err == 0 ==> (forall id :: id in c.info ==> EntryError(c, id) == 0)
    ensures err == 0 ==> setTried == TriedIds(c.info) && mapNew == NewCounts(c.info)
    ensures err != 0 ==> exists id :: id in c.info && EntryError(c, id) == err
  {
    err, setTried, mapNew := 0, {}, map[];
    var todo := c.info.Keys;
    while todo != {}
      invariant forall id :: id in todo ==> id in c.info
      invariant forall id :: id in c.info && id !in todo ==> EntryError(c, id) == 0
      invariant forall id :: id in setTried <==> id in c.info && id !in todo && c.info[id].inTried
      invariant forall id :: id in mapNew <==> id in c.info && id !in todo && !c.info[id].inTried
      invariant forall id :: id in mapNew ==> mapNew[id] == c.info[id].refCount
      decreases |todo|
    {
      var n := AnyOf(todo);
      err := EntryError(c, n);
      if err != 0 { return; }
      if c.info[n].inTried {
        setTried := setTried + {n};
      } else {
        mapNew := mapNew[n := c.info[n].refCount];
      }
      todo := todo - {n};
    }
    forall id ensures id in setTried <==> id in TriedIds(c.info) {}
    forall id ensures id in mapNew <==> id in NewCounts(c.info) {}
    forall id | id in mapNew ensures mapNew[id] == NewCounts(c.info)[id] {}
  }

  /** Some element of a set. */
  method AnyOf(s: set<int>) returns (x: int)
    requires s != {}
    ensures x in s
  {
    if forall y :: y !in s { NoMembers(s); }
    x :| x in s;
  }

  lemma NoMembers(s: set<int>)
    requires forall y :: y !in s
    ensures s == {}
  {
    forall y ensures y in s <==> y in {} {}
  }

  /** Slot (b, p) comes before slot (n, i) in the order of the table loops. */
  predicate Before(b: int, p: int, n: int, i: int) { b < n || (b == n && p < i) }

  // ---------------------------------------------------------------- the tried table

  /** An occupied slot of the tried table holds a tried entry that belongs there. */
  predicate TriedSlotOk(h: Hasher, key: nat, c: Core, b: nat, p: nat)
    requires InTable(c.tried, b, p)
  {
    var v := At(c.tried, b, p);
    v != EMPTY ==> v in c.info && c.info[v].inTried && TriedSlot(h, key, c.info[v].Service()) == (b, p)
  }

  ghost predicate TriedSlotsOk(h: Hasher, key: nat, c: Core) {
    forall b, p :: InTable(c.tried, b, p) ==> TriedSlotOk(h, key, c, b, p)
  }

  /** The entry stands in its slot, and that slot comes before (n, i). */
  predicate MetBefore(h: Hasher, key: nat, c: Core, id: int, n: int, i: int)
    requires IsTable(c.tried, TRIED_BUCKETS) && id in c.info
  {
    var slot := TriedSlot(h, key, c.info[id].Service());
    id != EMPTY && Before(slot.0, slot.1, n, i) && At(c.tried, slot.0, slot.1) == id
  }

  /** The tried entries not met before slot (n, i). */
  function TriedRest(h: Hasher, key: nat, c: Core, n: int, i: int): set<int>
    requires IsTable(c.tried, TRIED_BUCKETS)
  {
    set id | id in c.info && c.info[id].inTried && !MetBefore(h, key, c, id, n, i)
  }

  /** One slot in the second loop of Check_. */
  method CheckTriedSlot(h: Hasher, key: nat, c: Core, rest0: set<int>, n: nat, i: nat) returns (err: int,
                        rest: set<int>)
    requires IsTable(c.tried, TRIED_BUCKETS) && InTable(c.tried, n, i) && rest0 == TriedRest(h, key, c, n, i)
    ensures err == 0 <==> TriedSlotOk(h, key, c, n, i)
    ensures err == 0 ==> rest == TriedRest(h, key, c, n, i + 1)
  {
    err, rest := 0, rest0;
    var v := At(c.tried, n, i);
    if v != EMPTY {
      if v !in rest { return -11, rest; }
      if TriedBucket(h, key, c.info[v].Service()) != n { return -17, rest; }
      if Position(h, key, false, n, c.info[v].Service()) != i { return -18, rest; }
      rest := rest - {v};
    }
    forall id ensures id in rest <==> id in TriedRest(h, key, c, n, i + 1) {}
  }

  lemma TriedRestTurn(h: Hasher, key: nat, c: Core, n: int)
    requires IsTable(c.tried, TRIED_BUCKETS)
    ensures TriedRest(h, key, c, n, BUCKET_SIZE) == TriedRest(h, key, c, n + 1, 0)
  {
    forall id ensures id in TriedRest(h, key, c, n, BUCKET_SIZE) <==> id in TriedRest(h, key, c, n + 1, 0) {}
  }

  /** The second loop of Check_. */
  method CheckTried(h: Hasher, key: nat, c: Core, setTried: set<int>) returns (err: int, rest: set<int>)
    requires IsTable(c.tried, TRIED_BUCKETS) && setTried == TriedIds(c.info)
    ensures err == 0 <==> TriedSlotsOk(h, key, c)
    ensures err == 0 ==> rest == TriedRest(h, key, c, TRIED_BUCKETS, 0)
  {
    err, rest := 0, setTried;
    forall id ensures id in setTried <==> id in TriedRest(h, key, c, 0, 0) {}
    var n := 0;
    while n < TRIED_BUCKETS
      invariant 0 <= n <= TRIED_BUCKETS && err == 0 && rest == TriedRest(h, key, c, n, 0)
      invariant forall b, p :: InTable(c.tried, b, p) && b < n ==> TriedSlotOk(h, key, c, b, p)
    {
      var i := 0;
      while i < BUCKET_SIZE
        invariant 0 <= i <= BUCKET_SIZE && err == 0 && rest == TriedRest(h, key, c, n, i)
        invariant forall p :: 0 <= p < i ==> TriedSlotOk(h, key, c, n, p)
      {
        err, rest := CheckTriedSlot(h, key, c, rest, n, i);
        if err != 0 { return; }
        i := i + 1;
      }
      TriedRestTurn(h, key, c, n);
      n := n + 1;
    }
  }

  /** Every slot in order and no entry left over: that is the condition on the tried table. */
  lemma {:induction false} TriedPasses(h: Hasher, key: nat, c: Core)
    requires IsTable(c.tried, TRIED_BUCKETS)
    ensures TriedSlotsOk(h, key, c) && TriedRest(h, key, c, TRIED_BUCKETS, 0) == {} <==>
            TriedOk(h, key, c.info, c.tried) && EMPTY !in TriedIds(c.info)
  {
    if TriedOk(h, key, c.info, c.tried) && EMPTY !in TriedIds(c.info) {
      forall id ensures id !in TriedRest(h, key, c, TRIED_BUCKETS, 0) {
        if id in c.info && c.info[id].inTried { assert id in TriedIds(c.info); }
      }
    }
    if TriedSlotsOk(h, key, c) && TriedRest(h, key, c, TRIED_BUCKETS, 0) == {} { TriedSlotsMakeTable(h, key, c); }
  }

  lemma {:induction false} TriedSlotsMakeTable(h: Hasher, key: nat, c: Core)
    requires IsTable(c.tried, TRIED_BUCKETS) && TriedRest(h, key, c, TRIED_BUCKETS, 0) == {}
    requires TriedSlotsOk(h, key, c)
    ensures TriedOk(h, key, c.info, c.tried) && EMPTY !in TriedIds(c.info)
  {
    forall id | id in c.info && c.info[id].inTried
      ensures id != EMPTY && var slot := TriedSlot(h, key, c.info[id].Service()); At(c.tried, slot.0, slot.1) == id
    {
      assert id !in TriedRest(h, key, c, TRIED_BUCKETS, 0);
    }
    forall b, p | InTable(c.tried, b, p) && At(c.tried, b, p) != EMPTY
      ensures At(c.tried, b, p) in c.info && c.info[At(c.tried, b, p)].inTried
        && TriedBucket(h, key, c.info[At(c.tried, b, p)].Service()) == b
        && Position(h, key, false, b, c.info[At(c.tried, b, p)].Service()) == p
    {
      assert TriedSlotOk(h, key, c, b, p);
    }
  }

  // ---------------------------------------------------------------- the new table

  /** The references of an entry in slots before (n, i). */
  function RefsBehind(h: Hasher, key: nat, t: Table, id: int, s: Service, n: int, i: int): set<int>
    requires IsTable(t, NEW_BUCKETS)
  {
    set b | b in Refs(h, key, t, id, s) && Before(b, Position(h, key, true, b, s), n, i)
  }

  /** What is left of the reference count of an entry before slot (n, i). */
  function Left(h: Hasher, key: nat, c: Core, id: int, n: int, i: int): int
    requires IsTable(c.newT, NEW_BUCKETS) && id in c.info
  {
    c.info[id].refCount - if id == EMPTY then 0 else |RefsBehind(h, key, c.newT, id, c.info[id].Service(), n, i)|
  }

  function NewRest(h: Hasher, key: nat, c: Core, n: int, i: int): map<int, int>
    requires IsTable(c.newT, NEW_BUCKETS)
  {
    map id | id in c.info && !c.info[id].inTried && Left(h, key, c, id, n, i) != 0 :: Left(h, key, c, id, n, i)
  }

  /** An occupied slot of the new table holds a new entry that belongs there and has a reference left. */
  predicate NewSlotOk(h: Hasher, key: nat, c: Core, b: nat, p: nat)
    requires IsTable(c.newT, NEW_BUCKETS) && InTable(c.newT, b, p)
  {
    var v := At(c.newT, b, p);
    v != EMPTY ==>
      && v in c.info && !c.info[v].inTried && Position(h, key, true, b, c.info[v].Service()) == p
      && Left(h, key, c, v, b, p) != 0
  }

  ghost predicate NewSlotsOk(h: Hasher, key: nat, c: Core)
    requires IsTable(c.newT, NEW_BUCKETS)
  {
    forall b, p :: InTable(c.newT, b, p) ==> NewSlotOk(h, key, c, b, p)
  }

  /** One slot further, the occupant has one reference less, and no other entry changes. */
  lemma {:induction false} RefsBehindStep(h: Hasher, key: nat, c: Core, n: nat, i: nat, id: int)
    requires IsTable(c.newT, NEW_BUCKETS) && InTable(c.newT, n, i) && id in c.info
    requires At(c.newT, n, i) == id ==> Position(h, key, true, n, c.info[id].Service()) == i
    ensures Left(h, key, c, id, n, i + 1) ==
      Left(h, key, c, id, n, i) - if id == At(c.newT, n, i) && id != EMPTY then 1 else 0
  {
    var s := c.info[id].Service();
    var now, next := RefsBehind(h, key, c.newT, id, s, n, i), RefsBehind(h, key, c.newT, id, s, n, i + 1);
    if At(c.newT, n, i) == id {
      forall b ensures b in next <==> b in now + {n} {}
      assert next == now + {n} && n !in now;
    } else {
      forall b ensures b in next <==> b in now {}
      assert next == now;
    }
  }

  /** One reference less to come. */
  function Counted(m: map<int, int>, v: int): map<int, int>
    requires v in m
  {
    var m' := m[v := m[v] - 1];
    if m'[v] == 0 then m' - {v} else m'
  }

  lemma {:induction false} NewRestStep(h: Hasher, key: nat, c: Core, n: nat, i: nat)
    requires IsTable(c.newT, NEW_BUCKETS) && InTable(c.newT, n, i) && NewSlotOk(h, key, c, n, i)
    ensures var v, now, next := At(c.newT, n, i), NewRest(h, key, c, n, i), NewRest(h, key, c, n, i + 1);
      if v == EMPTY then next == now else v in now && next == Counted(now, v)
  {
    var v, now, next := At(c.newT, n, i), NewRest(h, key, c, n, i), NewRest(h, key, c, n, i + 1);
    forall id | id in c.info && (id == v ==> v != EMPTY)
      ensures Left(h, key, c, id, n, i + 1) == Left(h, key, c, id, n, i) - if id == v then 1 else 0
    {
      RefsBehindStep(h, key, c, n, i, id);
    }
    if v == EMPTY {
      forall x ensures x in next <==> x in now {}
      forall x | x in next ensures next[x] == now[x] {}
    } else {
      var after := Counted(now, v);
      forall x ensures x in next <==> x in after {}
      forall x | x in next ensures next[x] == after[x] {}
    }
  }

  /** One slot in the third loop of Check_. */
  method CheckNewSlot(h: Hasher, key: nat, c: Core, rest0: map<int, int>, n: nat, i: nat) returns (err: int,
                      rest: map<int, int>)
    requires IsTable(c.newT, NEW_BUCKETS) && InTable(c.newT, n, i) && rest0 == NewRest(h, key, c, n, i)
    ensures err == 0 <==> NewSlotOk(h, key, c, n, i)
    ensures err == 0 ==> rest == NewRest(h, key, c, n, i + 1)
  {
    err, rest := 0, rest0;
    var v := At(c.newT, n, i);
    if v != EMPTY {
      if v !in rest { return -12, rest; }
      if Position(h, key, true, n, c.info[v].Service()) != i { return -19, rest; }
      rest := rest[v := rest[v] - 1];
      if rest[v] == 0 { rest := rest - {v}; }
    }
    NewRestStep(h, key, c, n, i);
  }

  lemma {:induction false} NewRestTurn(h: Hasher, key: nat, c: Core, n: int)
    requires IsTable(c.newT, NEW_BUCKETS)
    ensures NewRest(h, key, c, n, BUCKET_SIZE) == NewRest(h, key, c, n + 1, 0)
  {
    forall id | id in c.info ensures Left(h, key, c, id, n, BUCKET_SIZE) == Left(h, key, c, id, n + 1, 0) {
      var s := c.info[id].Service();
      var a, b := RefsBehind(h, key, c.newT, id, s, n, BUCKET_SIZE), RefsBehind(h, key, c.newT, id, s, n + 1, 0);
      forall x ensures x in a <==> x in b {}
      assert a == b;
    }
    var a, b := NewRest(h, key, c, n, BUCKET_SIZE), NewRest(h, key, c, n + 1, 0);
    forall x ensures x in a <==> x in b {}
    forall x | x in a ensures a[x] == b[x] {}
  }

  lemma {:induction false} NewRestStarts(h: Hasher, key: nat, c: Core)
    requires IsTable(c.newT, NEW_BUCKETS) && forall id :: id in c.info && !c.info[id].inTried ==>
      c.info[id].refCount != 0
    ensures NewRest(h, key, c, 0, 0) == NewCounts(c.info)
  {
    forall id | id in c.info ensures Left(h, key, c, id, 0, 0) == c.info[id].refCount {
      var a := RefsBehind(h, key, c.newT, id, c.info[id].Service(), 0, 0);
      forall x ensures x !in a {}
      NoMembers(a);
    }
    var a, b := NewRest(h, key, c, 0, 0), NewCounts(c.info);
    forall x ensures x in a <==> x in b {}
    forall x | x in a ensures a[x] == b[x] {}
  }

  /** The third loop of Check_. */
  method CheckNew(h: Hasher, key: nat, c: Core, mapNew: map<int, int>) returns (err: int, rest: map<int, int>)
    requires IsTable(c.newT, NEW_BUCKETS) && mapNew == NewCounts(c.info)
    requires forall id :: id in c.info && !c.info[id].inTried ==> c.info[id].refCount != 0
    ensures err == 0 <==> NewSlotsOk(h, key, c)
    ensures err == 0 ==> rest == NewRest(h, key, c, NEW_BUCKETS, 0)
  {
    err, rest := 0, mapNew;
    NewRestStarts(h, key, c);
    var n := 0;
    while n < NEW_BUCKETS
      invariant 0 <= n <= NEW_BUCKETS && err == 0 && rest == NewRest(h, key, c, n, 0)
      invariant forall b, p :: InTable(c.newT, b, p) && b < n ==> NewSlotOk(h, key, c, b, p)
    {
      var i := 0;
      while i < BUCKET_SIZE
        invariant 0 <= i <= BUCKET_SIZE && err == 0 && rest == NewRest(h, key, c, n, i)
        invariant forall p :: 0 <= p < i ==> NewSlotOk(h, key, c, n, p)
      {
        err, rest := CheckNewSlot(h, key, c, rest, n, i);
        if err != 0 { return; }
        i := i + 1;
      }
      NewRestTurn(h, key, c, n);
      n := n + 1;
    }
  }

  lemma {:induction false} AllBehind(h: Hasher, key: nat, c: Core, id: int)
    requires IsTable(c.newT, NEW_BUCKETS) && id in c.info && id != EMPTY
    ensures Left(h, key, c, id, NEW_BUCKETS, 0) ==
      c.info[id].refCount - |Refs(h, key, c.newT, id, c.info[id].Service())|
  {
    var s := c.info[id].Service();
    var a, b := RefsBehind(h, key, c.newT, id, s, NEW_BUCKETS, 0), Refs(h, key, c.newT, id, s);
    forall x ensures x in a <==> x in b {}
    assert a == b;
  }

  /** In a valid table the reference at hand is not among those behind. */
  lemma {:induction false} SomeLeft(h: Hasher, key: nat, c: Core, b: nat, p: nat)
    requires NewOk(h, key, c.info, c.newT) && RefsOk(h, key, c.info, c.newT, {}) && InTable(c.newT, b, p)
    ensures EMPTY !in c.info ==> NewSlotOk(h, key, c, b, p)
  {
    var v := At(c.newT, b, p);
    if v != EMPTY && EMPTY !in c.info {
      var s := c.info[v].Service();
      var behind, refs := RefsBehind(h, key, c.newT, v, s, b, p), Refs(h, key, c.newT, v, s);
      assert b in refs;
      forall x | x in behind ensures x in refs - {b} {}
      SubsetSize(behind, refs - {b});
    }
  }

  lemma {:induction false} SubsetSize(a: set<int>, b: set<int>)
    requires forall x :: x in a ==> x in b
    ensures |a| <= |b|
    decreases |a|
  {
    if a != {} {
      if forall y :: y !in a { NoMembers(a); }
      var x :| x in a;
      SubsetSize(a - {x}, b - {x});
    }
  }

  /** The counts that the first loop of Check_ demands. */
  predicate CountsOk(info: map<int, Info>) {
    forall id :: id in info ==>
      if info[id].inTried then info[id].refCount == 0 else 1 <= info[id].refCount <= NEW_BUCKETS_PER_ADDRESS
  }

  /** Every slot in order and no reference left over: that is the condition on the new table. */
  lemma {:induction false} NewPasses(h: Hasher, key: nat, c: Core)
    requires IsTable(c.newT, NEW_BUCKETS) && CountsOk(c.info) && EMPTY !in TriedIds(c.info)
    ensures NewSlotsOk(h, key, c) && NewRest(h, key, c, NEW_BUCKETS, 0) == map[] <==>
            NewOk(h, key, c.info, c.newT) && RefsOk(h, key, c.info, c.newT, {}) && EMPTY !in c.info
  {
    if NewOk(h, key, c.info, c.newT) && RefsOk(h, key, c.info, c.newT, {}) && EMPTY !in c.info {
      forall b, p | InTable(c.newT, b, p) ensures NewSlotOk(h, key, c, b, p) { SomeLeft(h, key, c, b, p); }
      forall id ensures id !in NewRest(h, key, c, NEW_BUCKETS, 0) { if id in c.info { AllBehind(h, key, c, id); } }
      NoMembers(NewRest(h, key, c, NEW_BUCKETS, 0).Keys);
    }
    if NewSlotsOk(h, key, c) && NewRest(h, key, c, NEW_BUCKETS, 0) == map[] { NewSlotsMakeTable(h, key, c); }
  }

  lemma {:induction false} NewSlotsMakeTable(h: Hasher, key: nat, c: Core)
    requires IsTable(c.newT, NEW_BUCKETS) && CountsOk(c.info) && EMPTY !in TriedIds(c.info)
    requires NewRest(h, key, c, NEW_BUCKETS, 0) == map[]
    requires NewSlotsOk(h, key, c)
    ensures NewOk(h, key, c.info, c.newT) && RefsOk(h, key, c.info, c.newT, {}) && EMPTY !in c.info
  {
    forall id | id in c.info
      ensures id != EMPTY && c.info[id].refCount == |Refs(h, key, c.newT, id, c.info[id].Service())|
    {
      if c.info[id].inTried {
        assert id in TriedIds(c.info);
        NoRefsOfTried(h, key, c, id);
      } else {
        assert id !in NewRest(h, key, c, NEW_BUCKETS, 0);
        if id != EMPTY { AllBehind(h, key, c, id); }
      }
    }
    forall b, p | InTable(c.newT, b, p) && At(c.newT, b, p) != EMPTY
      ensures At(c.newT, b, p) in c.info && Position(h, key, true, b, c.info[At(c.newT, b, p)].Service()) == p
    {
      assert NewSlotOk(h, key, c, b, p);
    }
  }

  lemma {:induction false} NoRefsOfTried(h: Hasher, key: nat, c: Core, id: int)
    requires IsTable(c.newT, NEW_BUCKETS) && id in c.info && c.info[id].inTried && id != EMPTY
    requires NewSlotsOk(h, key, c)
    ensures |Refs(h, key, c.newT, id, c.info[id].Service())| == 0
  {
    var refs := Refs(h, key, c.newT, id, c.info[id].Service());
    forall b ensures b !in refs {
      if 0 <= b < NEW_BUCKETS { assert NewSlotOk(h, key, c, b, Position(h, key, true, b, c.info[id].Service())); }
    }
    NoMembers(refs);
  }

  // ---------------------------------------------------------------- the whole check

  /** An injective map into the numbers below a bound is no larger than the bound. */
  lemma {:induction false} InjectiveSize(m: map<int, int>, bound: nat)
    requires forall x :: x in m ==> 0 <= m[x] < bound
    requires forall x, y :: x in m && y in m && x != y ==> m[x] != m[y]
    ensures |m| <= bound
  {
    if bound == 0 {
      forall x ensures x !in m.Keys {}
      NoMembers(m.Keys);
    } else if x :| x in m && m[x] == bound - 1 {
      assert (m - {x}).Keys == m.Keys - {x};
      InjectiveSize(m - {x}, bound - 1);
    } else {
      InjectiveSize(m, bound - 1);
    }
  }

  /** As many places in vRandom as entries, each entry in its own: then the two are inverse to each other. */
  lemma {:induction false} RandomFromEntries(info: map<int, Info>, random: seq<int>)
    requires |random| == |info|
    requires forall id {:trigger info[id].randomPos} :: id in info ==>
      0 <= info[id].randomPos < |random| && random[info[id].randomPos] == id
    ensures RandomOk(info, random)
  {
    forall k | 0 <= k < |random| ensures random[k] in info && info[random[k]].randomPos == k {
      if forall id :: id in info ==> info[id].randomPos != k {
        var m := map id | id in info :: if info[id].randomPos > k then info[id].randomPos - 1 else info[id].randomPos;
        forall id ensures id in m.Keys <==> id in info.Keys {}
        assert m.Keys == info.Keys;
        InjectiveSize(m, |random| - 1);
      }
    }
  }

  /** The address map is right about every entry, or lacks the entry of id 0, for which Check_ reads a zero from it. */
  predicate AddrPasses(c: Core) {
    forall id :: id in c.info ==>
      if c.info[id].Service().ip in c.addr then c.addr[c.info[id].Service().ip] == id else id == 0
  }

  /** All that Check_ looks at is in order. */
  ghost predicate Passes(h: Hasher, key: nat, c: Core) {
    && RandomOk(c.info, c.random) && AddrPasses(c) && EMPTY !in c.info
    && NewOk(h, key, c.info, c.newT) && RefsOk(h, key, c.info, c.newT, {}) && TriedOk(h, key, c.info, c.tried)
    && c.nNew == |NewIds(c.info)| && c.nTried == |TriedIds(c.info)| && AllTimesOk(c.info) && key != 0
  }

  /** Against the invariant it leaves open only ids out of range and addresses of no entry. */
  lemma {:induction false} PassesIsInv(h: Hasher, key: nat, c: Core)
    ensures Inv(h, key, c, {}, 0) && AllTimesOk(c.info) && key != 0 <==>
            Passes(h, key, c) && IdsOk(c.info, c.idCount) && AddrOk(c.info, c.addr)
  {}

  /** What the first loop and the counts demand. */
  ghost predicate EntriesPass(c: Core) {
    && (forall id :: id in c.info ==> EntryError(c, id) == 0)
    && |c.random| == c.nTried + c.nNew && |TriedIds(c.info)| == c.nTried && |NewCounts(c.info)| == c.nNew
  }

  ghost predicate EntriesOk(c: Core) {
    && RandomOk(c.info, c.random) && AddrPasses(c) && CountsOk(c.info) && AllTimesOk(c.info)
    && c.nNew == |NewIds(c.info)| && c.nTried == |TriedIds(c.info)|
  }

  lemma {:induction false} EntriesMean(c: Core)
    ensures EntriesPass(c) <==> EntriesOk(c)
  {
    if EntriesPass(c) { PassMakesOk(c); }
    if EntriesOk(c) { OkMakesPass(c); }
  }

  lemma {:induction false} PassMakesOk(c: Core)
    requires EntriesPass(c)
    ensures EntriesOk(c)
  {
    IdsSplit(c.info);
    PassMakesRandom(c);
    forall id | id in c.info ensures EntryError(c, id) == 0 {}
  }

  lemma {:induction false} PassMakesRandom(c: Core)
    requires (forall id :: id in c.info ==> EntryError(c, id) == 0) && |c.random| == |c.info|
    ensures RandomOk(c.info, c.random)
  {
    forall id | id in c.info ensures 0 <= c.info[id].randomPos < |c.random| && c.random[c.info[id].randomPos] == id {
      assert EntryError(c, id) == 0;
    }
    RandomFromEntries(c.info, c.random);
  }

  lemma {:induction false} OkMakesPass(c: Core)
    requires EntriesOk(c)
    ensures EntriesPass(c)
  {
    IdsSplit(c.info);
    InvCounts(c);
    forall id | id in c.info ensures EntryError(c, id) == 0 { assert 0 <= c.info[id].randomPos < |c.random|; }
  }

  lemma {:induction false} IdsSplit(info: map<int, Info>)
    ensures |NewCounts(info)| == |NewIds(info)| && |NewIds(info)| + |TriedIds(info)| == |info|
  {
    var ns, ts := NewIds(info), TriedIds(info);
    forall id ensures id in NewCounts(info).Keys <==> id in ns {}
    assert NewCounts(info).Keys == ns;
    forall id ensures id in ns + ts <==> id in info.Keys {}
    assert ns + ts == info.Keys && ns !! ts;
  }

  lemma {:induction false} InvCounts(c: Core)
    requires RandomOk(c.info, c.random)
    ensures |c.random| == |NewIds(c.info)| + |TriedIds(c.info)|
  {
    IdsSplit(c.info);
    DistinctSize(c.random, c.info.Keys);
  }

  /** Check_ passes if and only if all that it looks at is in order. */
  method Check(h: Hasher, key: nat, c: Core) returns (err: int)
    requires IsTable(c.tried, TRIED_BUCKETS) && IsTable(c.newT, NEW_BUCKETS)
    ensures err == 0 <==> Passes(h, key, c)
  {
    EntriesMean(c);
    if |c.random| != c.nTried + c.nNew { return -7; }
    var e, setTried, mapNew := CheckEntries(c);
    if e != 0 { return e; }
    if |setTried| != c.nTried { return -9; }
    if |mapNew| != c.nNew { return -10; }
    TriedPasses(h, key, c);
    if EMPTY !in TriedIds(c.info) { NewPasses(h, key, c); }
    var restTried;
    e, restTried := CheckTried(h, key, c, setTried);
    if e != 0 { return e; }
    var restNew;
    e, restNew := CheckNew(h, key, c, mapNew);
    if e != 0 { return e; }
    if |restTried| != 0 { return -13; }
    if |restNew| != 0 { return -15; }
    if key == 0 { return -16; }
    return 0;
  }

  /** A duplicate-free list of a set is as long as the set is large. */
  lemma {:induction false} DistinctSize(s: seq<int>, all: set<int>)
    requires forall i, j :: 0 <= i < j < |s| ==> s[i] != s[j]
    requires forall x :: x in s <==> x in all
    ensures |s| == |all|
  {
    if s == [] {
      NoMembers(all);
    } else {
      var x := s[|s| - 1];
      var s' := s[..|s| - 1];
      assert s == s' + [x];
      forall y ensures y in s' <==> y in all - {x} { assert y in s <==> y in s' || y == x; }
      DistinctSize(s', all - {x});
    }
  }

  // ---------------------------------------------------------------- what moving entries about leaves alone

  /** The same entry, up to its reference count, its table and its place in vRandom. */
  predicate Moved(a: Info, b: Info) {
    b == a.(refCount := b.refCount, inTried := b.inTried, randomPos := b.randomPos)
  }

  /** No entry appears, and those that stay keep their address, source and statistics. */
  ghost predicate OnlyMoves(info: map<int, Info>, info': map<int, Info>) {
    forall i :: i in info' ==> i in info && Moved(info[i], info'[i])
  }

  lemma OnlyMovesTransitive(a: map<int, Info>, b: map<int, Info>, c: map<int, Info>)
    requires OnlyMoves(a, b) && OnlyMoves(b, c)
    ensures OnlyMoves(a, c)
  {
    forall i | i in c ensures i in a && Moved(a[i], c[i]) { assert i in b && Moved(b[i], c[i]) && Moved(a[i], b[i]); }
  }

  lemma ClearMoves(h: Hasher, key: nat, c: Core, b: int, p: int, transit: set<int>, uncounted: int)
    requires Inv(h, key, c, transit, uncounted) && InTable(c.newT, b, p)
    ensures OnlyMoves(c.info, Cleared(h, key, c, b, p, transit, uncounted).info)
  {
    var id := At(c.newT, b, p);
    if id != EMPTY {
      OccupantIsNew(h, key, c, b, p, transit);
      ReleaseKeeps(h, key, c, b, p, transit, uncounted);
      ReleaseMoves(c, b, p);
      if Released(c, b, p).info[id].refCount == 0 { DeleteMovesOn(c.info, Released(c, b, p), id); }
    }
  }

  lemma ReleaseMoves(c: Core, b: int, p: int)
    requires InTable(c.newT, b, p) && At(c.newT, b, p) in c.info
    ensures OnlyMoves(c.info, Released(c, b, p).info)
  {}

  lemma DeleteMovesOn(info: map<int, Info>, c: Core, id: int)
    requires OnlyMoves(info, c.info) && RandomOk(c.info, c.random) && id in c.info
    ensures OnlyMoves(info, Deleted(c, id).info)
  {
    DeleteMoves(c, id);
    OnlyMovesTransitive(info, c.info, Deleted(c, id).info);
  }

  lemma DeleteMoves(c: Core, id: int)
    requires RandomOk(c.info, c.random) && id in c.info
    ensures OnlyMoves(c.info, Deleted(c, id).info) && id !in Deleted(c, id).info
  {
    DeleteLeaves(c, id);
    forall i | i in Deleted(c, id).info ensures i in c.info && Moved(c.info[i], Deleted(c, id).info[i]) {
      assert i in c.info - {id};
    }
  }

  lemma RehomeMoves(h: Hasher, key: nat, c: Core, id: int, transit: set<int>, uncounted: int)
    requires Inv(h, key, c, transit, uncounted) && id in c.info && id in transit
    ensures OnlyMoves(c.info, Rehomed(h, key, c, id, transit, uncounted).info)
  {
    var slot := HomeSlot(h, key, c.info[id]);
    ClearMoves(h, key, c, slot.0, slot.1, transit, uncounted);
    ClearSpares(h, key, c, slot.0, slot.1, id, transit, uncounted);
    OnlyMovesTransitive(c.info, Cleared(h, key, c, slot.0, slot.1, transit, uncounted).info,
                        Rehomed(h, key, c, id, transit, uncounted).info);
  }

  lemma VacateMoves(h: Hasher, key: nat, c: Core, b: int, p: int, transit: set<int>, uncounted: int)
    requires Inv(h, key, c, transit, uncounted) && InTable(c.tried, b, p)
    ensures OnlyMoves(c.info, Vacated(h, key, c, b, p, transit, uncounted).info)
  {
    var e := At(c.tried, b, p);
    if e != EMPTY {
      DemoteKeeps(h, key, c, b, p, transit, uncounted);
      var c1 := Demoted(c, b, p);
      RehomeMoves(h, key, c1, e, transit + {e}, uncounted + 1);
      OnlyMovesTransitive(c.info, c1.info, Rehomed(h, key, c1, e, transit + {e}, uncounted + 1).info);
    }
  }

  lemma MakeTriedMoves(h: Hasher, key: nat, c: Core, id: int)
    requires Inv(h, key, c, {}, 0) && id in c.info && !c.info[id].inTried
    ensures OnlyMoves(c.info, MadeTried(h, key, c, id).info)
  {
    var slot := TriedSlot(h, key, c.info[id].Service());
    PurgeKeeps(h, key, c, id);
    PurgedIsNotTried(h, key, c, id, slot.0, slot.1);
    var c1 := Purged(c, id);
    VacateMoves(h, key, c1, slot.0, slot.1, {id}, 1);
    VacateLeaves(h, key, c1, slot.0, slot.1, id, {id}, 1);
    PromoteMoves(c, Vacated(h, key, c1, slot.0, slot.1, {id}, 1), id, slot.0, slot.1);
  }

  lemma PlaceMoves(info: map<int, Info>, c: Core, id: int, b: int, p: int)
    requires OnlyMoves(info, c.info) && InTable(c.newT, b, p) && id in c.info
    ensures OnlyMoves(info, Placed(c, id, b, p).info)
  {}

  lemma PromoteMoves(c: Core, c2: Core, id: int, b: int, p: int)
    requires id in c.info && OnlyMoves(Purged(c, id).info, c2.info) && InTable(c2.tried, b, p) && id in c2.info
    ensures OnlyMoves(c.info, Promoted(c2, id, b, p).info)
  {
    OnlyMovesTransitive(c.info, Purged(c, id).info, c2.info);
  }

  lemma InsertMoves(h: Hasher, key: nat, c: Core, id: int, b: int, p: int, now: int)
    requires id in c.info && Inv(h, key, c, Unplaced(c, id), 0) && InTable(c.newT, b, p)
    ensures OnlyMoves(c.info, Inserted(h, key, c, id, b, p, now).info)
  {
    var transit := Unplaced(c, id);
    if At(c.newT, b, p) == id {
    } else if MayTake(c, id, b, p, now) {
      ClearMoves(h, key, c, b, p, transit, 0);
      ClearSpares(h, key, c, b, p, id, transit, 0);
      PlaceMoves(c.info, Cleared(h, key, c, b, p, transit, 0), id, b, p);
    } else if c.info[id].refCount == 0 {
      DeleteMoves(c, id);
    }
  }

  // ---------------------------------------------------------------- which new addresses stay

  /** When entries only move about, the address of one is known exactly as long as the entry is there. */
  lemma {:induction false} AddressStays(c: Core, c': Core, id: int)
    requires AddrOk(c.info, c.addr) && AddrOk(c'.info, c'.addr) && OnlyMoves(c.info, c'.info) && id in c.info
    ensures c.info[id].Service().ip in c'.addr <==> id in c'.info
  {
    var ip := c.info[id].Service().ip;
    if ip in c'.addr {
      var k: int := c'.addr[ip];
      assert k in c'.info && c'.info[k].Service().ip == ip;
      assert k in c.info && Moved(c.info[k], c'.info[k]);
      assert c.addr[ip] == k;
    }
  }

  /** The slot that an unknown address would take. */
  function FirstSlot(h: Hasher, key: nat, c: Core, addr: Address, source: Ip): int
    requires IsTable(c.newT, NEW_BUCKETS)
  {
    var b := NewBucket(h, key, addr.service, source);
    At(c.newT, b, Position(h, key, true, b, addr.service))
  }

  lemma {:induction false} IntroducedMayTake(h: Hasher, key: nat, c: Core, addr: Address, source: Ip, penalty: int,
                                             now: int)
    requires Inv(h, key, c, {}, 0) && addr.service.ip !in c.addr
    ensures var x := FirstSlot(h, key, c, addr, source); (x == EMPTY || x in c.info) && x != c.idCount
    ensures var c1, b := Introduced(c, addr, source, penalty), NewBucket(h, key, addr.service, source);
      var x := FirstSlot(h, key, c, addr, source);
      var p := Position(h, key, true, b, addr.service);
      && InTable(c1.newT, b, p) && At(c1.newT, b, p) == x && (x == EMPTY || x in c1.info) && c.idCount in c1.info
      && c1.info[c.idCount].refCount == 0 && c1.info[c.idCount].Service() == addr.service
      && (MayTake(c1, c.idCount, b, p, now) <==> x == EMPTY || IsTerrible(c.info[x], now) || c.info[x].refCount > 1)
  {
    var b := NewBucket(h, key, addr.service, source);
    assert InTable(c.newT, b, Position(h, key, true, b, addr.service));
  }

  /**
   * Add_ returns true for every unknown address, but keeps it if and only if its slot is free, or the occupant is
   * terrible or stands elsewhere too.
   */
  lemma {:induction false} WelcomeStays(h: Hasher, key: nat, c: Core, addr: Address, source: Ip, penalty: int, now: int)
    requires Inv(h, key, c, {}, 0) && addr.service.ip !in c.addr
    ensures var x := FirstSlot(h, key, c, addr, source);
      && (x == EMPTY || x in c.info)
      && (addr.service.ip in Welcomed(h, key, c, addr, source, penalty, now).addr <==>
          x == EMPTY || IsTerrible(c.info[x], now) || c.info[x].refCount > 1)
  {
    IntroduceKeeps(h, key, c, addr, source, penalty);
    WelcomeKeeps(h, key, c, addr, source, penalty, now);
    IntroducedMayTake(h, key, c, addr, source, penalty, now);
    var c1, b := Introduced(c, addr, source, penalty), NewBucket(h, key, addr.service, source);
    var p := Position(h, key, true, b, addr.service);
    InsertEffect(h, key, c1, c.idCount, b, p, now);
    InsertMoves(h, key, c1, c.idCount, b, p, now);
    AddressStays(c1, Welcomed(h, key, c, addr, source, penalty, now), c.idCount);
  }

  // ---------------------------------------------------------------- times

  /** Entries that only move about, and become tried at most as `id`, keep their times in order. */
  lemma MovesKeepTimes(h: Hasher, key: nat, c: Core, c': Core, id: int)
    requires TriedOk(h, key, c.info, c.tried) && TriedOk(h, key, c'.info, c'.tried)
    requires OnlyMoves(c.info, c'.info)
    requires forall b, p :: InTable(c.tried, b, p) ==>
      At(c'.tried, b, p) == At(c.tried, b, p) || At(c'.tried, b, p) == id
    requires forall i :: i in c.info && i != id ==> TimesOk(c.info[i])
    requires EMPTY !in c.info
    ensures forall i :: i in c'.info && i != id ==> TimesOk(c'.info[i])
  {
    forall i | i in c'.info && i != id ensures TimesOk(c'.info[i]) {
      assert i in c.info && Moved(c.info[i], c'.info[i]);
      if c'.info[i].inTried {
        var slot := TriedSlot(h, key, c'.info[i].Service());
        assert At(c'.tried, slot.0, slot.1) == i && InTable(c.tried, slot.0, slot.1);
        assert At(c.tried, slot.0, slot.1) == i;
      }
    }
  }

  /** The manager knows exactly this service. */
  ghost predicate Knows(c: Core, s: Service) {
    s.ip in c.addr && var id: int := c.addr[s.ip]; id in c.info && c.info[id].Service() == s
  }

  /**
   * Good_ keeps the time conditions of Check_ exactly when it is given a
   * positive time or a service that is not known.
   */
  lemma GoodTimes(h: Hasher, key: nat, c: Core, s: Service, time: int)
    requires Inv(h, key, c, {}, 0) && AllTimesOk(c.info)
    ensures AllTimesOk(Commended(h, key, c, s, time).info) <==> time > 0 || !Knows(c, s)
  {
    if Knows(c, s) {
      var id := c.addr[s.ip];
      var e := c.info[id].(lastSuccess := time, lastTry := time, attempts := 0);
      TouchKeeps(h, key, c, id, e, {}, 0);
      TouchedTimes(c, id, e);
      if !e.inTried { MakeTriedTimes(h, key, Touched(c, id, e), id); }
    }
  }

  lemma TouchedTimes(c: Core, id: int, e: Info)
    requires AllTimesOk(c.info) && id in c.info
    ensures var info := Touched(c, id, e).info;
      (AllTimesOk(info) <==> TimesOk(e)) && forall i :: i in info && i != id ==> TimesOk(info[i])
  {
    assert Touched(c, id, e).info[id] == e;
  }

  lemma MakeTriedTimes(h: Hasher, key: nat, c: Core, id: int)
    requires Inv(h, key, c, {}, 0) && id in c.info && !c.info[id].inTried
    requires forall i :: i in c.info && i != id ==> TimesOk(c.info[i])
    ensures AllTimesOk(MadeTried(h, key, c, id).info) <==> c.info[id].lastSuccess > 0 && c.info[id].lastTry >= 0
  {
    var c' := MadeTried(h, key, c, id);
    MakeTriedKeeps(h, key, c, id);
    MakeTriedEffect(h, key, c, id);
    MakeTriedMoves(h, key, c, id);
    MovesKeepTimes(h, key, c, c', id);
  }

  lemma InsertTimes(h: Hasher, key: nat, c: Core, id: int, b: int, p: int, now: int)
    requires id in c.info && Inv(h, key, c, Unplaced(c, id), 0) && InTable(c.newT, b, p)
    requires !c.info[id].inTried && c.info[id].refCount < NEW_BUCKETS_PER_ADDRESS
    requires Position(h, key, true, b, c.info[id].Service()) == p
    requires AllTimesOk(c.info)
    ensures AllTimesOk(Inserted(h, key, c, id, b, p, now).info)
  {
    InsertKeeps(h, key, c, id, b, p, now);
    InsertEffect(h, key, c, id, b, p, now);
    InsertMoves(h, key, c, id, b, p, now);
    MovesKeepTimes(h, key, c, Inserted(h, key, c, id, b, p, now), EMPTY);
  }

  lemma WelcomeTimes(h: Hasher, key: nat, c: Core, addr: Address, source: Ip, penalty: int, now: int)
    requires Inv(h, key, c, {}, 0) && AllTimesOk(c.info) && addr.service.ip !in c.addr
    ensures AllTimesOk(Welcomed(h, key, c, addr, source, penalty, now).info)
  {
    IntroduceKeeps(h, key, c, addr, source, penalty);
    var b := NewBucket(h, key, addr.service, source);
    InsertTimes(h, key, Introduced(c, addr, source, penalty), c.idCount, b, Position(h, key, true, b, addr.service),
                now);
  }

  lemma MultiplyTimes(h: Hasher, key: nat, c: Core, addr: Address, source: Ip, penalty: int, now: int)
    requires Inv(h, key, c, {}, 0) && AllTimesOk(c.info)
    requires addr.service.ip in c.addr && MayGainReference(c, addr, penalty, now)
    ensures AllTimesOk(Multiplied(h, key, c, addr, source, penalty, now).info)
  {
    var id := c.addr[addr.service.ip];
    RefreshKeeps(h, key, c, addr, penalty, now);
    var b := NewBucket(h, key, c.info[id].Service(), source);
    InsertTimes(h, key, Refreshed(c, addr, penalty, now), id, b, Position(h, key, true, b, c.info[id].Service()), now);
  }

  /** Add_ keeps the time conditions of Check_, whatever it is given. */
  lemma AddTimes(h: Hasher, key: nat, routable: bool, c: Core, addr: Address, source: Ip, penalty: int, now: int,
                 c': Core)
    requires Inv(h, key, c, {}, 0) && AllTimesOk(c.info)
    requires AddOutcome(h, key, routable, c, addr, source, penalty, now, c')
    ensures AllTimesOk(c'.info)
  {
    if routable {
      if addr.service.ip !in c.addr {
        WelcomeTimes(h, key, c, addr, source, penalty, now);
      } else if MayGainReference(c, addr, penalty, now) {
        MultiplyTimes(h, key, c, addr, source, penalty, now);
      }
    }
  }

  /** After any run in which Good_ was given positive times, Check_ has nothing to report. */
  lemma {:induction false} RunTimes(h: Hasher, key: nat, cs: seq<Core>, calls: seq<Call>, i: nat)
    requires IsRun(h, key, cs, calls) && i < |cs|
    requires forall k :: 0 <= k < |calls| && calls[k].GoodCall? ==> calls[k].time > 0
    ensures Inv(h, key, cs[i], {}, 0) && AllTimesOk(cs[i].info)
  {
    RunKeeps(h, key, cs, calls, i);
    if i > 0 {
      RunTimes(h, key, cs, calls, i - 1);
      StepTimes(h, key, cs[i - 1], calls[i - 1], cs[i]);
    }
  }

  lemma StepTimes(h: Hasher, key: nat, c: Core, call: Call, c': Core)
    requires Inv(h, key, c, {}, 0) && AllTimesOk(c.info) && Step(h, key, c, call, c')
    requires call.GoodCall? ==> call.time > 0
    ensures AllTimesOk(c'.info)
  {
    match call
    case AddCall(routable, addr, source, penalty, now) => AddTimes(h, key, routable, c, addr, source, penalty, now, c');
    case GoodCall(service, time) => GoodTimes(h, key, c, service, time);
    case GetAddrCall =>
  }

  /** A new manager keeps the first address it is told of, and knows its service. */
  lemma {:induction false} FirstAddressStays(h: Hasher, key: nat, addr: Address, source: Ip, penalty: int, now: int)
    ensures Inv(h, key, EmptyCore(), {}, 0)
    ensures Knows(Welcomed(h, key, EmptyCore(), addr, source, penalty, now), addr.service)
  {
    EmptyInv(h, key);
    var c, b := EmptyCore(), NewBucket(h, key, addr.service, source);
    var c1, p := Introduced(c, addr, source, penalty), Position(h, key, true, b, addr.service);
    var c' := Welcomed(h, key, c, addr, source, penalty, now);
    assert InTable(c.newT, b, p);
    WelcomeStays(h, key, c, addr, source, penalty, now);
    WelcomeKeeps(h, key, c, addr, source, penalty, now);
    IntroduceKeeps(h, key, c, addr, source, penalty);
    InsertMoves(h, key, c1, c.idCount, b, p, now);
    var k: int := c'.addr[addr.service.ip];
    assert k in c'.info && k in c1.info && Moved(c1.info[k], c'.info[k]);
  }

  /** Add_ and then Good_ at time zero leave an entry that Check_ rejects. */
  lemma {:induction false} GoodAtZero(h: Hasher, key: nat, addr: Address, source: Ip, penalty: int, now: int)
    returns (cs: seq<Core>, calls: seq<Call>)
    ensures IsRun(h, key, cs, calls) && calls == [AddCall(true, addr, source, penalty, now), GoodCall(addr.service, 0)]
    ensures !AllTimesOk(cs[2].info)
  {
    FirstAddressStays(h, key, addr, source, penalty, now);
    var c1 := Welcomed(h, key, EmptyCore(), addr, source, penalty, now);
    WelcomeKeeps(h, key, EmptyCore(), addr, source, penalty, now);
    WelcomeTimes(h, key, EmptyCore(), addr, source, penalty, now);
    GoodTimes(h, key, c1, addr.service, 0);
    var c2 := Commended(h, key, c1, addr.service, 0);
    cs, calls := TwoCalls(h, key, AddCall(true, addr, source, penalty, now), c1, GoodCall(addr.service, 0), c2);
  }

  lemma {:induction false} TwoCalls(h: Hasher, key: nat, call1: Call, c1: Core, call2: Call, c2: Core)
    returns (cs: seq<Core>, calls: seq<Call>)
    requires Inv(h, key, EmptyCore(), {}, 0) && Step(h, key, EmptyCore(), call1, c1)
    requires Inv(h, key, c1, {}, 0) && Step(h, key, c1, call2, c2)
    ensures IsRun(h, key, cs, calls) && cs == [EmptyCore(), c1, c2] && calls == [call1, call2]
  {
    cs, calls := [EmptyCore(), c1, c2], [call1, call2];
  }

  /** The first address stands in its slot with one reference. */
  lemma {:induction false} FirstEntry(h: Hasher, key: nat, addr: Address, source: Ip, now: int)
    requires Inv(h, key, EmptyCore(), {}, 0)
    ensures var c := Welcomed(h, key, EmptyCore(), addr, source, 0, now);
      && IsTable(c.newT, NEW_BUCKETS) && FirstSlot(h, key, c, addr, source) == 0
      && c.addr == map[addr.service.ip := 0] && 0 in c.info && c.info[0].refCount == 1
      && Moved(NewInfo(addr.(time := Max(0, addr.time)), source), c.info[0])
  {
    var c, b := EmptyCore(), NewBucket(h, key, addr.service, source);
    var c1, p := Introduced(c, addr, source, 0), Position(h, key, true, b, addr.service);
    IntroduceKeeps(h, key, c, addr, source, 0);
    assert InTable(c.newT, b, p) && At(c1.newT, b, p) == EMPTY;
    assert Cleared(h, key, c1, b, p, Unplaced(c1, 0), 0) == c1;
    assert Welcomed(h, key, c, addr, source, 0, now) == Placed(c1, 0, b, p);
  }

  /** An address whose slot holds another, good one is not kept. */
  lemma {:induction false} SecondAddressGoes(h: Hasher, key: nat, first: Address, second: Address, source: Ip, now: int)
    requires Inv(h, key, EmptyCore(), {}, 0) && first.service.ip != second.service.ip && 0 < first.time == now
    requires NewBucket(h, key, first.service, source) == NewBucket(h, key, second.service, source)
    requires var b := NewBucket(h, key, first.service, source);
      Position(h, key, true, b, first.service) == Position(h, key, true, b, second.service)
    ensures var c1 := Welcomed(h, key, EmptyCore(), first, source, 0, now);
      && Inv(h, key, c1, {}, 0) && second.service.ip !in c1.addr
      && second.service.ip !in Welcomed(h, key, c1, second, source, 0, now).addr
  {
    var c1 := Welcomed(h, key, EmptyCore(), first, source, 0, now);
    WelcomeKeeps(h, key, EmptyCore(), first, source, 0, now);
    FirstEntry(h, key, first, source, now);
    WelcomeStays(h, key, c1, second, source, 0, now);
  }

  /** Two calls of Add_ that both return true, under hashes that put all addresses into one slot: the second is lost. */
  lemma {:induction false} SecondAddressIsLost(key: nat) returns (h: Hasher, cs: seq<Core>, calls: seq<Call>)
    ensures |calls| == 2 && calls[0] == AddCall(true, Address(Service(1, 8333), {}, 1000), 7, 0, 1000)
    ensures calls[1] == AddCall(true, Address(Service(2, 8333), {}, 1000), 7, 0, 1000)
    ensures IsRun(h, key, cs, calls) && 1 in cs[1].addr && 2 !in cs[1].addr && 2 !in cs[2].addr
  {
    h := Hasher(_ => 0, (_, _) => 0, (_, _, _) => 0, (_, _, _) => 0, (_, _, _) => 0, (_, _, _, _) => 0);
    EmptyInv(h, key);
    var first, second := Address(Service(1, 8333), {}, 1000), Address(Service(2, 8333), {}, 1000);
    FirstEntry(h, key, first, 7, 1000);
    SecondAddressGoes(h, key, first, second, 7, 1000);
    var c1 := Welcomed(h, key, EmptyCore(), first, 7, 0, 1000);
    var c2 := Welcomed(h, key, c1, second, 7, 0, 1000);
    cs, calls := TwoCalls(h, key, AddCall(true, first, 7, 0, 1000), c1, AddCall(true, second, 7, 0, 1000), c2);
  }

  /** An address of no entry: Check_ passes the structure, and it is not a valid one. */
  lemma {:induction false} StrayAddressPasses(h: Hasher)
    ensures var c := EmptyCore().(addr := map[7 := 0]); Passes(h, 1, c) && !Inv(h, 1, c, {}, 0)
  {
    EmptyInv(h, 1);
    var c: Core := EmptyCore().(addr := map[7 := 0]);
    assert 7 in c.addr && c.addr[7] !in c.info;
  }
}
