/**
 * What reading a stream makes of it, whatever the stream holds: the loops of
 * Unserialize as functions, and when their result is a valid manager.
 */
module AddrLoad {
  import opened AddrTables
  import opened AddrMoves
  import opened AddrMan

  const KEY_SIZE := 32
  const TWO30 := 0x4000_0000

  /** The persistent part of an entry. */
  datatype Persistent = Persistent(address: Address, source: Ip, lastSuccess: int, attempts: int)

  datatype Stream = Stream(
    version: nat, keySize: nat, key: nat,
    nNew: int, nTried: int, nUBuckets: int,
    newInfos: seq<Persistent>, triedInfos: seq<Persistent>,
    buckets: seq<seq<int>>)

  function Loaded(p: Persistent): Info { Info(p.address, p.source, 0, 0, p.lastSuccess, p.attempts, 0, false, -1) }

  /** x ^ (1 << 30) */
  function FlipBit30(x: int): int { if (x / TWO30) % 2 == 0 then x + TWO30 else x - TWO30 }

  // ---------------------------------------------------------------- the loops

  /** Giving an entry the reference its first source calls for, if the slot is free. */
  function FirstReference(h: Hasher, key: nat, st: Core, id: int): Core
    requires id in st.info && IsTable(st.newT, NEW_BUCKETS)
  {
    var slot := HomeSlot(h, key, st.info[id]);
    if At(st.newT, slot.0, slot.1) == EMPTY then Placed(st, id, slot.0, slot.1) else st
  }

  /** One tried entry that found its slot free. */
  function TriedAppended(h: Hasher, key: nat, st: Core, e: Info): Core
    requires IsTable(st.tried, TRIED_BUCKETS)
  {
    var slot := TriedSlot(h, key, e.Service());
    Appended(st, e.(inTried := true)).(tried := Put(st.tried, slot.0, slot.1, st.idCount))
  }

  /** One turn of the first loop. */
  function NewTurn(h: Hasher, key: nat, usable: bool, st: Core, p: Persistent): (st': Core)
    requires IsTable(st.newT, NEW_BUCKETS)
    ensures IsTable(st'.newT, NEW_BUCKETS) && st'.idCount == st.idCount + 1 && st'.tried == st.tried
  {
    if usable then Appended(st, Loaded(p)) else FirstReference(h, key, Appended(st, Loaded(p)), st.idCount)
  }

  /** The first loop: n entries of the new table. */
  function NewLoaded(h: Hasher, s: Stream, usable: bool, n: nat): (st: Core)
    requires n <= |s.newInfos|
    ensures st.idCount == n && IsTable(st.newT, NEW_BUCKETS) && st.tried == EmptyTable(TRIED_BUCKETS)
  {
    if n == 0 then EmptyCore()
    else NewTurn(h, s.key, usable, NewLoaded(h, s, usable, n - 1), s.newInfos[n - 1])
  }

  /** One turn of the second loop. */
  function TriedTurn(h: Hasher, key: nat, st: Core, p: Persistent): (st': Core)
    requires IsTable(st.tried, TRIED_BUCKETS)
    ensures IsTable(st'.tried, TRIED_BUCKETS)
  {
    var slot := TriedSlot(h, key, Loaded(p).Service());
    if At(st.tried, slot.0, slot.1) == EMPTY then TriedAppended(h, key, st, Loaded(p))
    else st.(nTried := st.nTried - 1)
  }

  /** The second loop: n tried entries.  Those that find their slot taken are lost, and taken off nTried. */
  function TriedLoaded(h: Hasher, s: Stream, st: Core, n: nat): (st': Core)
    requires n <= |s.triedInfos| && IsTable(st.tried, TRIED_BUCKETS)
    ensures IsTable(st'.tried, TRIED_BUCKETS)
  {
    if n == 0 then st else TriedTurn(h, s.key, TriedLoaded(h, s, st, n - 1), s.triedInfos[n - 1])
  }

  /** One index of the third loop. */
  function IndexTurn(h: Hasher, s: Stream, usable: bool, bucket: nat, k: int, st: Core): (st': Core)
    requires IsTable(st.newT, NEW_BUCKETS) && (0 <= k < s.nNew ==> k in st.info) && (usable ==> bucket < NEW_BUCKETS)
    ensures IsTable(st'.newT, NEW_BUCKETS) && forall id :: id in st.info ==> id in st'.info
  {
    if usable && 0 <= k < s.nNew then
      var pos := Position(h, s.key, true, bucket, st.info[k].Service());
      if At(st.newT, bucket, pos) == EMPTY && st.info[k].refCount < NEW_BUCKETS_PER_ADDRESS
      then Placed(st, k, bucket, pos)
      else st
    else st
  }

  /** The first n indexes of one bucket. */
  function IndexesLoaded(h: Hasher, s: Stream, usable: bool, bucket: nat, n: nat, st: Core): (st': Core)
    requires bucket < |s.buckets| && n <= |s.buckets[bucket]| && (usable ==> bucket < NEW_BUCKETS)
    requires IsTable(st.newT, NEW_BUCKETS) && forall id :: 0 <= id < s.nNew ==> id in st.info
    ensures IsTable(st'.newT, NEW_BUCKETS) && forall id :: id in st.info ==> id in st'.info
  {
    if n == 0 then st
    else IndexTurn(h, s, usable, bucket, s.buckets[bucket][n - 1], IndexesLoaded(h, s, usable, bucket, n - 1, st))
  }

  /** The third loop: n buckets of the new table. */
  function BucketsLoaded(h: Hasher, s: Stream, usable: bool, n: nat, st: Core): (st': Core)
    requires n <= |s.buckets| && (usable ==> n <= NEW_BUCKETS)
    requires IsTable(st.newT, NEW_BUCKETS) && forall id :: 0 <= id < s.nNew ==> id in st.info
    ensures IsTable(st'.newT, NEW_BUCKETS) && forall id :: id in st.info ==> id in st'.info
  {
    if n == 0 then st
    else IndexesLoaded(h, s, usable, n - 1, |s.buckets[n - 1]|, BucketsLoaded(h, s, usable, n - 1, st))
  }

  // ---------------------------------------------------------------- what every turn keeps, the loops keep

  lemma {:induction false} NewInduction(h: Hasher, s: Stream, usable: bool, n: nat, kept: (nat, Core) -> bool)
    requires n <= |s.newInfos| && kept(0, NewLoaded(h, s, usable, 0))
    requires forall k: nat, st: Core :: kept(k, st) && k < n && IsTable(st.newT, NEW_BUCKETS) && st.idCount == k ==>
      kept(k + 1, NewTurn(h, s.key, usable, st, s.newInfos[k]))
    ensures kept(n, NewLoaded(h, s, usable, n))
  {
    if n > 0 {
      NewInduction(h, s, usable, n - 1, kept);
      var prev := NewLoaded(h, s, usable, n - 1);
      assert kept(n - 1, prev) && prev.idCount == n - 1 && IsTable(prev.newT, NEW_BUCKETS);
    }
  }

  lemma {:induction false} TriedInduction(h: Hasher, s: Stream, st0: Core, n: nat, kept: (nat, Core) -> bool)
    requires n <= |s.triedInfos| && IsTable(st0.tried, TRIED_BUCKETS) && kept(0, st0)
    requires forall k: nat, st: Core :: kept(k, st) && k < n && IsTable(st.tried, TRIED_BUCKETS) ==>
      kept(k + 1, TriedTurn(h, s.key, st, s.triedInfos[k]))
    ensures kept(n, TriedLoaded(h, s, st0, n))
  {
    if n > 0 { TriedInduction(h, s, st0, n - 1, kept); }
  }

  /** The third loop can turn: the table is one, and the entries are there. */
  ghost predicate CanPlace(s: Stream, st: Core) {
    IsTable(st.newT, NEW_BUCKETS) && forall id :: 0 <= id < s.nNew ==> id in st.info
  }

  lemma {:induction false} IndexInduction(h: Hasher, s: Stream, usable: bool, bucket: nat, n: nat, st0: Core,
                                          kept: (nat, Core) -> bool)
    requires bucket < |s.buckets| && n <= |s.buckets[bucket]| && (usable ==> bucket < NEW_BUCKETS)
    requires CanPlace(s, st0) && kept(0, st0)
    requires forall k: nat, st: Core :: kept(k, st) && k < n && CanPlace(s, st) ==>
      kept(k + 1, IndexTurn(h, s, usable, bucket, s.buckets[bucket][k], st))
    ensures kept(n, IndexesLoaded(h, s, usable, bucket, n, st0))
  {
    if n > 0 { IndexInduction(h, s, usable, bucket, n - 1, st0, kept); }
  }

  lemma {:induction false} BucketInduction(h: Hasher, s: Stream, usable: bool, n: nat, st0: Core,
                                           kept: (nat, Core) -> bool)
    requires n <= |s.buckets| && (usable ==> n <= NEW_BUCKETS) && CanPlace(s, st0) && kept(0, st0)
    requires forall k: nat, st: Core :: kept(k, st) && k < n && CanPlace(s, st) ==>
      kept(k + 1, IndexesLoaded(h, s, usable, k, |s.buckets[k]|, st))
    ensures kept(n, BucketsLoaded(h, s, usable, n, st0))
  {
    if n > 0 { BucketInduction(h, s, usable, n - 1, st0, kept); }
  }

  // ---------------------------------------------------------------- which streams are read in full

  function UsedBuckets(s: Stream): int { if s.version != 0 then FlipBit30(s.nUBuckets) else s.nUBuckets }

  /** The positions in the new table can be used. */
  predicate Usable(s: Stream) { s.version == 1 && UsedBuckets(s) == NEW_BUCKETS }

  /** The entries that are announced are there. */
  predicate HasEntries(s: Stream) { s.nNew <= |s.newInfos| && s.nTried <= |s.triedInfos| }

  /** The counts are within the limits, and everything they announce is there. */
  predicate Readable(s: Stream) {
    && s.keySize == KEY_SIZE && s.nNew <= NEW_BUCKETS * BUCKET_SIZE && s.nTried <= TRIED_BUCKETS * BUCKET_SIZE
    && HasEntries(s) && UsedBuckets(s) <= |s.buckets|
  }

  function Up(n: int): nat { if n < 0 then 0 else n }

  /** The manager after the first two loops. */
  function EntriesRead(h: Hasher, s: Stream): (st: Core)
    requires HasEntries(s)
  {
    var st := NewLoaded(h, s, Usable(s), Up(s.nNew));
    TriedLoaded(h, s, st.(idCount := s.nNew, nNew := s.nNew, nTried := s.nTried), Up(s.nTried))
  }

  // ---------------------------------------------------------------- when the result is valid

  /** The new entries without a reference. */
  function Loose(info: map<int, Info>): set<int> { set id | id in info && !info[id].inTried && info[id].refCount == 0 }

  /** The ids, vRandom and the counts are in order. */
  ghost predicate Indexed(c: Core, uncounted: int) {
    && IdsOk(c.info, c.idCount) && RandomOk(c.info, c.random)
    && c.nNew == |NewIds(c.info)| - uncounted && c.nTried == |TriedIds(c.info)|
  }

  /** Both tables are in order. */
  ghost predicate Shelved(h: Hasher, key: nat, c: Core, transit: set<int>) {
    && NewOk(h, key, c.info, c.newT) && RefsOk(h, key, c.info, c.newT, transit)
    && TriedOk(h, key, c.info, c.tried)
  }

  /** The invariant without the map of addresses. */
  ghost predicate Filed(h: Hasher, key: nat, c: Core, transit: set<int>, uncounted: int) {
    Indexed(c, uncounted) && Shelved(h, key, c, transit)
  }

  lemma {:induction false} PlaceIndexed(c: Core, id: int, b: int, p: int, uncounted: int)
    requires Indexed(c, uncounted) && InTable(c.newT, b, p) && id in c.info && !c.info[id].inTried
    ensures Indexed(Placed(c, id, b, p), uncounted)
  {
    var e := c.info[id].(refCount := c.info[id].refCount + 1);
    UpdateRandom(c.info, c.random, id, e);
    UpdateIds(c.info, id, e);
  }

  lemma {:induction false} AppendIndexed(c: Core, e: Info, uncounted: int)
    requires Indexed(c, uncounted)
    ensures var c' := Appended(c, e);
      if e.inTried then Indexed(c'.(nTried := c.nTried + 1), uncounted) else Indexed(c', uncounted + 1)
  {
    AppendRandom(c, e);
    AppendIds(c, e);
  }

  lemma {:induction false} LooseAfterAppend(c: Core, e: Info)
    requires c.idCount !in c.info && e.refCount == 0
    ensures Loose(Appended(c, e).info) == if e.inTried then Loose(c.info) else Loose(c.info) + {c.idCount}
  {
    forall id ensures id in Loose(Appended(c, e).info) <==>
      id in (if e.inTried then Loose(c.info) else Loose(c.info) + {c.idCount}) {}
  }

  lemma {:induction false} LooseAfterPlace(c: Core, id: int, b: int, p: int)
    requires InTable(c.newT, b, p) && id in c.info && c.info[id].refCount >= 0
    ensures Loose(Placed(c, id, b, p).info) == Loose(c.info) - {id}
  {
    forall i ensures i in Loose(Placed(c, id, b, p).info) <==> i in Loose(c.info) - {id} {}
  }

  lemma {:induction false} PlaceFiled(h: Hasher, key: nat, c: Core, id: int, b: int, p: int, uncounted: int)
    requires Filed(h, key, c, Loose(c.info), uncounted) && InTable(c.newT, b, p) && At(c.newT, b, p) == EMPTY
    requires id in c.info && !c.info[id].inTried && c.info[id].refCount < NEW_BUCKETS_PER_ADDRESS
    requires Position(h, key, true, b, c.info[id].Service()) == p
    ensures var c' := Placed(c, id, b, p); Filed(h, key, c', Loose(c'.info), uncounted)
  {
    PlaceIndexed(c, id, b, p, uncounted);
    PlaceShelved(h, key, c, id, b, p);
  }

  lemma {:induction false} PlaceShelved(h: Hasher, key: nat, c: Core, id: int, b: int, p: int)
    requires Shelved(h, key, c, Loose(c.info)) && InTable(c.newT, b, p) && At(c.newT, b, p) == EMPTY && EMPTY !in c.info
    requires id in c.info && !c.info[id].inTried && c.info[id].refCount < NEW_BUCKETS_PER_ADDRESS
    requires Position(h, key, true, b, c.info[id].Service()) == p
    ensures var c' := Placed(c, id, b, p); Shelved(h, key, c', Loose(c'.info))
  {
    PlaceKeepsTables(h, key, c, id, b, p, Loose(c.info));
    LooseAfterPlace(c, id, b, p);
  }

  lemma {:induction false} AppendFiled(h: Hasher, key: nat, c: Core, e: Info, uncounted: int)
    requires Filed(h, key, c, Loose(c.info), uncounted) && !e.inTried && e.refCount == 0
    ensures var c' := Appended(c, e); Filed(h, key, c', Loose(c'.info), uncounted + 1)
  {
    AppendIndexed(c, e, uncounted);
    AppendKeepsTables(h, key, c, e, Loose(c.info));
    LooseAfterAppend(c, e);
  }

  lemma {:induction false} FirstReferenceFiled(h: Hasher, key: nat, c: Core, id: int, uncounted: int)
    requires Filed(h, key, c, Loose(c.info), uncounted) && id in Loose(c.info)
    ensures var c' := FirstReference(h, key, c, id); Filed(h, key, c', Loose(c'.info), uncounted)
  {
    var slot := HomeSlot(h, key, c.info[id]);
    if At(c.newT, slot.0, slot.1) == EMPTY { PlaceFiled(h, key, c, id, slot.0, slot.1, uncounted); }
  }

  lemma {:induction false} NewTurnFiled(h: Hasher, key: nat, usable: bool, st: Core, p: Persistent)
    requires st.idCount >= 0 && Filed(h, key, st, Loose(st.info), st.idCount)
    ensures var st' := NewTurn(h, key, usable, st, p); Filed(h, key, st', Loose(st'.info), st.idCount + 1)
  {
    var e := Loaded(p);
    AppendFiled(h, key, st, e, st.idCount);
    if !usable { FirstReferenceFiled(h, key, Appended(st, e), st.idCount, st.idCount + 1); }
  }

  lemma {:induction false} NewLoadedFiled(h: Hasher, s: Stream, usable: bool, n: nat)
    requires n <= |s.newInfos|
    ensures var st := NewLoaded(h, s, usable, n); Filed(h, s.key, st, Loose(st.info), n)
  {
    StartFiled(h, s.key);
    var kept := (k: nat, st: Core) => Filed(h, s.key, st, Loose(st.info), k);
    forall k: nat, st: Core | kept(k, st) && k < n && IsTable(st.newT, NEW_BUCKETS) && st.idCount == k
      ensures kept(k + 1, NewTurn(h, s.key, usable, st, s.newInfos[k]))
    {
      NewTurnFiled(h, s.key, usable, st, s.newInfos[k]);
    }
    NewInduction(h, s, usable, n, kept);
  }

  lemma {:induction false} StartFiled(h: Hasher, key: nat)
    ensures Filed(h, key, EmptyCore(), Loose(EmptyCore().info), 0)
  {
    EmptyInv(h, key);
    assert Loose(map[]) == {};
  }

  // ---------------------------------------------------------------- the tried entries

  lemma {:induction false} TriedAppendTables(h: Hasher, key: nat, c: Core, e: Info, transit: set<int>)
    requires IdsOk(c.info, c.idCount) && Shelved(h, key, c, transit) && e.refCount == 0
    requires var slot := TriedSlot(h, key, e.Service()); At(c.tried, slot.0, slot.1) == EMPTY
    ensures Shelved(h, key, TriedAppended(h, key, c, e), transit)
  {
    NoRefsYet(h, key, c, e.Service());
  }

  lemma {:induction false} TriedAppendIndexed(c: Core, e: Info, tried: Table)
    requires Indexed(c, 0)
    ensures Indexed(Appended(c, e.(inTried := true)).(tried := tried, nTried := c.nTried + 1), 0)
  {
    AppendIndexed(c, e.(inTried := true), 0);
  }

  lemma {:induction false} TriedAppendFiled(h: Hasher, key: nat, c: Core, e: Info)
    requires Filed(h, key, c, Loose(c.info), 0) && e.refCount == 0
    requires var slot := TriedSlot(h, key, e.Service()); At(c.tried, slot.0, slot.1) == EMPTY
    ensures var c' := TriedAppended(h, key, c, e); Filed(h, key, c'.(nTried := c.nTried + 1), Loose(c'.info), 0)
  {
    var e' := e.(inTried := true);
    TriedAppendTables(h, key, c, e, Loose(c.info));
    LooseAfterAppend(c, e');
    TriedAppendIndexed(c, e, TriedAppended(h, key, c, e).tried);
  }

  /** As far as it has been read; nTried, which is announced, runs ahead by `ahead`. */
  ghost predicate FiledBut(h: Hasher, key: nat, st: Core, ahead: int) {
    Filed(h, key, st.(nTried := st.nTried - ahead), Loose(st.info), 0)
  }

  lemma {:induction false} TriedTurnFiled(h: Hasher, key: nat, st: Core, p: Persistent, ahead: int)
    requires FiledBut(h, key, st, ahead)
    ensures FiledBut(h, key, TriedTurn(h, key, st, p), ahead - 1)
  {
    var e, c := Loaded(p), st.(nTried := st.nTried - ahead);
    var slot := TriedSlot(h, key, e.Service());
    if At(st.tried, slot.0, slot.1) == EMPTY {
      TriedAppendFiled(h, key, c, e);
      var c', st' := TriedAppended(h, key, c, e), TriedAppended(h, key, st, e);
      assert c'.(nTried := c.nTried + 1) == st'.(nTried := st'.nTried - (ahead - 1));
    } else {
      var st' := st.(nTried := st.nTried - 1);
      assert st'.(nTried := st'.nTried - (ahead - 1)) == c;
    }
  }

  /** The ids below nNew belong to new entries. */
  ghost predicate NewBelow(st: Core, nNew: int) {
    nNew <= st.idCount && forall id :: 0 <= id < nNew ==> id in st.info && !st.info[id].inTried
  }

  lemma {:induction false} TriedTurnBelow(h: Hasher, key: nat, st: Core, p: Persistent, nNew: int)
    requires NewBelow(st, nNew) && IsTable(st.tried, TRIED_BUCKETS)
    ensures NewBelow(TriedTurn(h, key, st, p), nNew)
  {}

  /** The state of the second loop after n entries. */
  ghost predicate TriedAt(h: Hasher, s: Stream, n: nat, st: Core) {
    FiledBut(h, s.key, st, s.nTried - n) && NewBelow(st, s.nNew)
  }

  lemma {:induction false} TriedTurnKeeps(h: Hasher, s: Stream, n: nat, st: Core)
    requires n < |s.triedInfos| && TriedAt(h, s, n, st)
    ensures TriedAt(h, s, n + 1, TriedTurn(h, s.key, st, s.triedInfos[n]))
  {
    TriedTurnFiled(h, s.key, st, s.triedInfos[n], s.nTried - n);
    TriedTurnBelow(h, s.key, st, s.triedInfos[n], s.nNew);
  }

  lemma {:induction false} TriedLoadedFiled(h: Hasher, s: Stream, st0: Core, n: nat)
    requires n <= |s.triedInfos| && TriedAt(h, s, 0, st0)
    ensures TriedAt(h, s, n, TriedLoaded(h, s, st0, n))
  {
    var kept := (k: nat, st: Core) => TriedAt(h, s, k, st);
    forall k: nat, st: Core | kept(k, st) && k < n && IsTable(st.tried, TRIED_BUCKETS)
      ensures kept(k + 1, TriedTurn(h, s.key, st, s.triedInfos[k]))
    {
      TriedTurnKeeps(h, s, k, st);
    }
    TriedInduction(h, s, st0, n, kept);
  }

  // ---------------------------------------------------------------- the new table

  /** The state of the third loop. */
  ghost predicate PlacingAt(h: Hasher, s: Stream, st: Core) {
    Filed(h, s.key, st, Loose(st.info), 0) && NewBelow(st, s.nNew)
  }

  lemma {:induction false} IndexTurnFiled(h: Hasher, s: Stream, usable: bool, bucket: nat, k: int, st: Core)
    requires PlacingAt(h, s, st) && (usable ==> bucket < NEW_BUCKETS)
    ensures PlacingAt(h, s, IndexTurn(h, s, usable, bucket, k, st))
  {
    if usable && 0 <= k < s.nNew {
      var pos := Position(h, s.key, true, bucket, st.info[k].Service());
      if At(st.newT, bucket, pos) == EMPTY && st.info[k].refCount < NEW_BUCKETS_PER_ADDRESS {
        PlaceFiled(h, s.key, st, k, bucket, pos, 0);
        PlacedBelow(st, k, bucket, pos, s.nNew);
      }
    }
  }

  lemma {:induction false} PlacedBelow(st: Core, id: int, b: nat, p: nat, nNew: int)
    requires NewBelow(st, nNew) && id in st.info && InTable(st.newT, b, p)
    ensures NewBelow(Placed(st, id, b, p), nNew)
  {}

  lemma {:induction false} IndexesFiled(h: Hasher, s: Stream, usable: bool, bucket: nat, st0: Core)
    requires bucket < |s.buckets| && (usable ==> bucket < NEW_BUCKETS) && PlacingAt(h, s, st0)
    ensures PlacingAt(h, s, IndexesLoaded(h, s, usable, bucket, |s.buckets[bucket]|, st0))
  {
    var kept := (k: nat, st: Core) => PlacingAt(h, s, st);
    forall k: nat, st: Core | kept(k, st) && k < |s.buckets[bucket]| && CanPlace(s, st)
      ensures kept(k + 1, IndexTurn(h, s, usable, bucket, s.buckets[bucket][k], st))
    {
      IndexTurnFiled(h, s, usable, bucket, s.buckets[bucket][k], st);
    }
    IndexInduction(h, s, usable, bucket, |s.buckets[bucket]|, st0, kept);
  }

  lemma {:induction false} BucketsFiled(h: Hasher, s: Stream, usable: bool, n: nat, st0: Core)
    requires n <= |s.buckets| && (usable ==> n <= NEW_BUCKETS) && PlacingAt(h, s, st0)
    ensures PlacingAt(h, s, BucketsLoaded(h, s, usable, n, st0))
  {
    var kept := (k: nat, st: Core) => PlacingAt(h, s, st);
    forall k: nat, st: Core | kept(k, st) && k < n && CanPlace(s, st)
      ensures kept(k + 1, IndexesLoaded(h, s, usable, k, |s.buckets[k]|, st))
    {
      IndexesFiled(h, s, usable, k, st);
    }
    BucketInduction(h, s, usable, n, st0, kept);
  }

  // ---------------------------------------------------------------- the whole stream

  /** Whatever the stream holds, its entries are in order but for their addresses, when no count is negative. */
  lemma {:induction false} EntriesFiled(h: Hasher, s: Stream, st: Core)
    requires HasEntries(s) && 0 <= s.nNew && 0 <= s.nTried && st == EntriesRead(h, s)
    ensures PlacingAt(h, s, st)
  {
    var st0 := NewLoaded(h, s, Usable(s), s.nNew);
    NewLoadedFiled(h, s, Usable(s), s.nNew);
    NewLoadedAreNew(h, s, Usable(s), s.nNew);
    StartOfTried(h, s, st0);
    var st1 := st0.(idCount := s.nNew, nNew := s.nNew, nTried := s.nTried);
    assert st1 == st0.(nNew := s.nNew, nTried := s.nTried);
    TriedLoadedFiled(h, s, st1, s.nTried);
    assert st.(nTried := st.nTried - 0) == st;
  }

  /** The first n ids belong to new entries. */
  ghost predicate AllNew(n: nat, st: Core) {
    && st.idCount == n && st.nNew == st.nTried == 0 && (forall id :: 0 <= id < n ==> id in st.info)
    && forall id :: id in st.info ==> 0 <= id < n && !st.info[id].inTried
  }

  lemma {:induction false} NewLoadedAreNew(h: Hasher, s: Stream, usable: bool, n: nat)
    requires n <= |s.newInfos|
    ensures AllNew(n, NewLoaded(h, s, usable, n))
  {
    var kept := (k: nat, st: Core) => AllNew(k, st);
    forall k: nat, st: Core | kept(k, st) && k < n && IsTable(st.newT, NEW_BUCKETS) && st.idCount == k
      ensures kept(k + 1, NewTurn(h, s.key, usable, st, s.newInfos[k])) {}
    NewInduction(h, s, usable, n, kept);
  }

  lemma {:induction false} StartOfTried(h: Hasher, s: Stream, st: Core)
    requires 0 <= s.nNew && Filed(h, s.key, st, Loose(st.info), s.nNew) && AllNew(s.nNew, st)
    ensures TriedAt(h, s, 0, st.(nNew := s.nNew, nTried := s.nTried))
  {}

  // ---------------------------------------------------------------- the map of addresses

  /** Every entry's address is known, and leads to an entry with that address. */
  ghost predicate AddrLeads(info: map<int, Info>, addr: map<Ip, int>) {
    && (forall id :: id in info ==> info[id].Service().ip in addr)
    && (forall ip :: ip in addr ==> addr[ip] in info && info[addr[ip]].Service().ip == ip)
  }

  /** Each network address is in the stream once. */
  ghost predicate DistinctIps(ps: seq<Persistent>) {
    forall i, j :: 0 <= i < j < |ps| ==> ps[i].address.service.ip != ps[j].address.service.ip
  }

  function Announced(s: Stream): seq<Persistent>
    requires HasEntries(s)
  {
    s.newInfos[..Up(s.nNew)] + s.triedInfos[..Up(s.nTried)]
  }

  /** All addresses known so far are among the first n of the stream. */
  ghost predicate AddrFrom(addr: map<Ip, int>, ps: seq<Persistent>, n: nat) {
    n <= |ps| && forall ip :: ip in addr ==> exists k :: 0 <= k < n && ps[k].address.service.ip == ip
  }

  /** The map of addresses after n entries of the stream: an inverse while no address has been repeated. */
  ghost predicate AddrAt(ps: seq<Persistent>, n: nat, st: Core) {
    && (forall id :: id in st.info ==> id < st.idCount) && AddrLeads(st.info, st.addr)
    && (DistinctIps(ps) ==> AddrOk(st.info, st.addr) && AddrFrom(st.addr, ps, n))
  }

  lemma {:induction false} AddrFromNext(addr: map<Ip, int>, ps: seq<Persistent>, n: nat, id: int)
    requires AddrFrom(addr, ps, n) && n < |ps| && DistinctIps(ps)
    ensures ps[n].address.service.ip !in addr
    ensures AddrFrom(addr[ps[n].address.service.ip := id], ps, n + 1) && AddrFrom(addr, ps, n + 1)
  {
    var addr' := addr[ps[n].address.service.ip := id];
    forall ip | ip in addr'
      ensures exists k :: 0 <= k < n + 1 && ps[k].address.service.ip == ip
    {
      if ip !in addr { assert ps[n].address.service.ip == ip; }
    }
  }

  lemma {:induction false} AddrAtAppend(ps: seq<Persistent>, n: nat, st: Core, e: Info)
    requires AddrAt(ps, n, st) && n < |ps| && e.Service() == ps[n].address.service
    ensures AddrAt(ps, n + 1, Appended(st, e))
  {
    AppendLeads(st, e);
    if DistinctIps(ps) {
      AddrFromNext(st.addr, ps, n, st.idCount);
      AppendAddr(st, e);
    }
  }

  lemma {:induction false} AppendLeads(st: Core, e: Info)
    requires AddrLeads(st.info, st.addr) && st.idCount !in st.info
    ensures AddrLeads(Appended(st, e).info, Appended(st, e).addr)
  {
    var st' := Appended(st, e);
    forall ip | ip in st'.addr ensures st'.addr[ip] in st'.info && st'.info[st'.addr[ip]].Service().ip == ip {
      if ip != e.Service().ip { assert ip in st.addr && st.addr[ip] in st.info; }
    }
  }

  /** Neither a reference nor a place in the tables changes an address. */
  lemma {:induction false} AddrAtSame(ps: seq<Persistent>, n: nat, st: Core, st': Core)
    requires AddrAt(ps, n, st) && st'.addr == st.addr && st'.idCount == st.idCount
    requires forall id :: id in st.info <==> id in st'.info
    requires forall id :: id in st.info ==> st'.info[id].Service() == st.info[id].Service()
    ensures AddrAt(ps, n, st')
  {
    forall ip | ip in st.addr ensures st.addr[ip] in st'.info && st'.info[st.addr[ip]].Service().ip == ip {
      var id := st.addr[ip];
      assert id in st.info && st.info[id].Service().ip == ip;
    }
  }

  lemma {:induction false} NewTurnAddr(h: Hasher, key: nat, usable: bool, ps: seq<Persistent>, n: nat, st: Core)
    requires n < |ps| && AddrAt(ps, n, st) && IsTable(st.newT, NEW_BUCKETS)
    ensures AddrAt(ps, n + 1, NewTurn(h, key, usable, st, ps[n]))
  {
    var e := Loaded(ps[n]);
    AddrAtAppend(ps, n, st, e);
    if !usable { AddrAtSame(ps, n + 1, Appended(st, e), NewTurn(h, key, usable, st, ps[n])); }
  }

  lemma {:induction false} NewLoadedAddr(h: Hasher, s: Stream, usable: bool, ps: seq<Persistent>, n: nat)
    requires n <= |s.newInfos| && n <= |ps| && forall k :: 0 <= k < n ==> ps[k] == s.newInfos[k]
    ensures AddrAt(ps, n, NewLoaded(h, s, usable, n))
  {
    var kept := (k: nat, st: Core) => AddrAt(ps, k, st);
    forall k: nat, st: Core | kept(k, st) && k < n && IsTable(st.newT, NEW_BUCKETS) && st.idCount == k
      ensures kept(k + 1, NewTurn(h, s.key, usable, st, s.newInfos[k]))
    {
      NewTurnAddr(h, s.key, usable, ps, k, st);
    }
    NewInduction(h, s, usable, n, kept);
  }

  lemma {:induction false} TriedLoadedAddr(h: Hasher, s: Stream, st0: Core, n: nat)
    requires HasEntries(s) && n <= Up(s.nTried) && IsTable(st0.tried, TRIED_BUCKETS)
    requires AddrAt(Announced(s), Up(s.nNew), st0)
    ensures AddrAt(Announced(s), Up(s.nNew) + n, TriedLoaded(h, s, st0, n))
  {
    var ps, m := Announced(s), Up(s.nNew);
    var kept := (k: nat, st: Core) => AddrAt(ps, m + k, st);
    forall k: nat, st: Core | kept(k, st) && k < n && IsTable(st.tried, TRIED_BUCKETS)
      ensures kept(k + 1, TriedTurn(h, s.key, st, s.triedInfos[k]))
    {
      assert ps[m + k] == s.triedInfos[k];
      TriedTurnAddr(h, s.key, ps, m + k, st);
    }
    TriedInduction(h, s, st0, n, kept);
  }

  lemma {:induction false} TriedTurnAddr(h: Hasher, key: nat, ps: seq<Persistent>, n: nat, st: Core)
    requires n < |ps| && AddrAt(ps, n, st) && IsTable(st.tried, TRIED_BUCKETS)
    ensures AddrAt(ps, n + 1, TriedTurn(h, key, st, ps[n]))
  {
    var e := Loaded(ps[n]);
    AddrAtAppend(ps, n, st, e.(inTried := true));
    if DistinctIps(ps) { AddrFromNext(st.addr, ps, n, st.idCount); }
  }

  lemma {:induction false} BucketsAddr(h: Hasher, s: Stream, usable: bool, n: nat, st0: Core, ps: seq<Persistent>,
                                       m: nat)
    requires n <= |s.buckets| && (usable ==> n <= NEW_BUCKETS) && CanPlace(s, st0) && AddrAt(ps, m, st0)
    ensures AddrAt(ps, m, BucketsLoaded(h, s, usable, n, st0))
  {
    var kept := (k: nat, st: Core) => AddrAt(ps, m, st);
    forall k: nat, st: Core | kept(k, st) && k < n && CanPlace(s, st)
      ensures kept(k + 1, IndexesLoaded(h, s, usable, k, |s.buckets[k]|, st))
    {
      IndexesAddr(h, s, usable, k, st, ps, m);
    }
    BucketInduction(h, s, usable, n, st0, kept);
  }

  lemma {:induction false} IndexesAddr(h: Hasher, s: Stream, usable: bool, bucket: nat, st0: Core, ps: seq<Persistent>,
                                       m: nat)
    requires bucket < |s.buckets| && (usable ==> bucket < NEW_BUCKETS) && CanPlace(s, st0) && AddrAt(ps, m, st0)
    ensures AddrAt(ps, m, IndexesLoaded(h, s, usable, bucket, |s.buckets[bucket]|, st0))
  {
    var kept := (k: nat, st: Core) => AddrAt(ps, m, st);
    forall k: nat, st: Core | kept(k, st) && k < |s.buckets[bucket]| && CanPlace(s, st)
      ensures kept(k + 1, IndexTurn(h, s, usable, bucket, s.buckets[bucket][k], st))
    {
      AddrAtSame(ps, m, st, IndexTurn(h, s, usable, bucket, s.buckets[bucket][k], st));
    }
    IndexInduction(h, s, usable, bucket, |s.buckets[bucket]|, st0, kept);
  }

  /** After the first two loops. */
  lemma {:induction false} EntriesAddr(h: Hasher, s: Stream)
    requires HasEntries(s) && 0 <= s.nNew && 0 <= s.nTried
    ensures AddrAt(Announced(s), |Announced(s)|, EntriesRead(h, s))
  {
    var st0 := NewLoaded(h, s, Usable(s), s.nNew);
    var st1 := st0.(idCount := s.nNew, nNew := s.nNew, nTried := s.nTried);
    NewLoadedAddr(h, s, Usable(s), Announced(s), s.nNew);
    AddrAtSame(Announced(s), s.nNew, st0, st1);
    TriedLoadedAddr(h, s, st1, s.nTried);
  }

  // ---------------------------------------------------------------- repeated addresses

  /** Entries with one address are all new ones without a reference, which pruning deletes. */
  ghost predicate RepeatsPruned(info: map<int, Info>) {
    forall i, j :: i in info && j in info && i != j && info[i].Service().ip == info[j].Service().ip ==>
      i in Loose(info) && j in Loose(info)
  }

  /** What deleting entries makes of the rest: the other entries, and the addresses of none that is gone. */
  ghost predicate Without(st0: Core, st: Core, gone: set<int>) {
    && SameEntries(st0.info - gone, st.info)
    && (forall ip :: ip in st.addr <==> ip in st0.addr && !Erased(st0.info, gone, ip))
    && forall ip :: ip in st.addr ==> st.addr[ip] == st0.addr[ip]
  }

  ghost predicate PrunedTo(st0: Core, st: Core) { Without(st0, st, Loose(st0.info)) }

  ghost predicate Erased(info: map<int, Info>, gone: set<int>, ip: Ip) {
    exists id :: id in gone && id in info && info[id].Service().ip == ip
  }

  /** Pruning leaves an inverse of the remaining entries if and only if it takes all entries with a repeated address. */
  lemma {:induction false} PrunedAddrOk(st0: Core, st: Core)
    requires AddrLeads(st0.info, st0.addr) && PrunedTo(st0, st)
    ensures AddrOk(st.info, st.addr) <==> RepeatsPruned(st0.info)
  {
    if AddrOk(st.info, st.addr) {
      forall i, j |
        i in st0.info - Loose(st0.info) && j in st0.info && st0.info[i].Service().ip == st0.info[j].Service().ip
        ensures i == j
      {
        KeptIsSole(st0, st, i, j);
      }
    }
    if RepeatsPruned(st0.info) {
      forall id | id in st.info ensures st.info[id].Service().ip in st.addr && st.addr[st.info[id].Service().ip] == id {
        SoleEntryStays(st0, st, id);
      }
      forall ip | ip in st.addr ensures st.addr[ip] in st.info && st.info[st.addr[ip]].Service().ip == ip {
        SoleAddressStays(st0, st, ip);
      }
    }
  }

  lemma {:induction false} KeptIsSole(st0: Core, st: Core, i: int, j: int)
    requires AddrLeads(st0.info, st0.addr) && PrunedTo(st0, st) && AddrOk(st.info, st.addr)
    requires i in st0.info - Loose(st0.info) && j in st0.info && st0.info[i].Service().ip == st0.info[j].Service().ip
    ensures i == j
  {
    var ip := st0.info[i].Service().ip;
    assert st.info[i].Service().ip == ip && !Erased(st0.info, Loose(st0.info), ip);
    assert j in st0.info - Loose(st0.info) && st.info[j].Service().ip == ip;
  }

  lemma {:induction false} SoleEntryStays(st0: Core, st: Core, id: int)
    requires AddrLeads(st0.info, st0.addr) && PrunedTo(st0, st) && RepeatsPruned(st0.info) && id in st.info
    ensures st.info[id].Service().ip in st.addr && st.addr[st.info[id].Service().ip] == id
  {
    assert id in st0.info - Loose(st0.info);
    var ip := st0.info[id].Service().ip;
    assert st.info[id].Service().ip == ip;
    var k: int := st0.addr[ip];
    assert k in st0.info && st0.info[k].Service().ip == ip;
  }

  lemma {:induction false} SoleAddressStays(st0: Core, st: Core, ip: Ip)
    requires AddrLeads(st0.info, st0.addr) && PrunedTo(st0, st) && ip in st.addr
    ensures st.addr[ip] in st.info && st.info[st.addr[ip]].Service().ip == ip
  {
    var k: int := st0.addr[ip];
    assert k in st0.info && st0.info[k].Service().ip == ip && k !in Loose(st0.info);
    assert k in st0.info - Loose(st0.info);
  }

  /** Without repeats there is nothing to prune for their sake. */
  lemma {:induction false} DistinctIsPruned(info: map<int, Info>, addr: map<Ip, int>)
    requires AddrOk(info, addr)
    ensures RepeatsPruned(info)
  {}
}
