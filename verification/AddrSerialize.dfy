/**
 * Writing the address manager to a stream and reading it back.
 *
 * The stream is a record of what is written: the counts, the entries, and for
 * each new bucket the list of entry indexes.  Ids are not written; the entries
 * are renumbered in the order in which they appear.
 */
module AddrSerialize {
  import opened Wrappers
  import opened AddrTables
  import opened AddrMoves
  import opened AddrMan
  import opened AddrLoad
  import AddrCheck

  function Saved(e: Info): Persistent { Persistent(e.address, e.source, e.lastSuccess, e.attempts) }

  // ---------------------------------------------------------------- orders of the entries

  /** A list of all entries: first the new ones, then the tried ones. */
  ghost predicate OrderOk(c: Core, ord: seq<int>) {
    && 0 <= c.nNew <= |ord| == c.nNew + c.nTried
    && (forall i, j :: 0 <= i < j < |ord| ==> ord[i] != ord[j])
    && (forall k :: 0 <= k < |ord| ==> ord[k] in c.info && (c.info[ord[k]].inTried <==> k >= c.nNew))
    && (forall id :: id in c.info ==> id in ord)
  }

  /** The number an entry gets. */
  ghost function Where(ord: seq<int>, id: int): (k: nat)
    requires id in ord
    ensures k < |ord| && ord[k] == id
  {
    var k :| 0 <= k < |ord| && ord[k] == id;
    k
  }

  /** The occupied positions of a bucket among the first n, in order. */
  function Occupied(row: seq<int>, n: nat): seq<nat>
    requires n <= |row|
  {
    if n == 0 then [] else Occupied(row, n - 1) + if row[n - 1] != EMPTY then [n - 1] else []
  }

  /** The stream holds the entries in this order, and each bucket as the numbers of its occupants. */
  ghost predicate Writes(key: nat, c: Core, ord: seq<int>, s: Stream)
    requires OrderOk(c, ord) && IsTable(c.newT, NEW_BUCKETS)
  {
    && s.version == 1 && s.keySize == KEY_SIZE && s.key == key
    && s.nNew == c.nNew && s.nTried == c.nTried && s.nUBuckets == FlipBit30(NEW_BUCKETS)
    && |s.newInfos| == c.nNew && |s.triedInfos| == c.nTried && |s.buckets| == NEW_BUCKETS
    && (forall k :: 0 <= k < c.nNew ==> s.newInfos[k] == Saved(c.info[ord[k]]))
    && (forall k :: 0 <= k < c.nTried ==> s.triedInfos[k] == Saved(c.info[ord[c.nNew + k]]))
    && (forall b :: 0 <= b < NEW_BUCKETS ==> BucketWrites(c.newT[b], ord, s.buckets[b]))
  }

  ghost predicate BucketWrites(row: seq<int>, ord: seq<int>, ks: seq<int>) {
    && |ks| == |Occupied(row, |row|)|
    && forall n :: 0 <= n < |ks| ==>
      0 <= ks[n] < |ord| && 0 <= Occupied(row, |row|)[n] < |row| && ord[ks[n]] == row[Occupied(row, |row|)[n]]
  }

  // ---------------------------------------------------------------- Serialize

  /** The entries with references, or the tried ones, among the ids below n. */
  function IdsBelow(info: map<int, Info>, n: nat, tried: bool): seq<int> {
    if n == 0 then []
    else IdsBelow(info, n - 1, tried)
         + if n - 1 in info && (if tried then info[n - 1].inTried else info[n - 1].refCount != 0) then [n - 1] else []
  }

  lemma {:induction false} IdsBelowMembers(info: map<int, Info>, n: nat, tried: bool, ids: seq<int>)
    requires ids == IdsBelow(info, n, tried)
    ensures forall k :: 0 <= k < |ids| ==>
      0 <= ids[k] < n && ids[k] in info && (if tried then info[ids[k]].inTried else info[ids[k]].refCount != 0)
    ensures forall i, j :: 0 <= i < j < |ids| ==> ids[i] < ids[j]
    ensures forall id :: 0 <= id < n && id in info && (if tried then info[id].inTried else info[id].refCount != 0) ==>
      id in ids
  {
    if n > 0 { IdsBelowMembers(info, n - 1, tried, IdsBelow(info, n - 1, tried)); }
  }

  /** Listing the new ids and then the tried ids is an order of all entries. */
  lemma IdsInOrder(h: Hasher, key: nat, c: Core)
    requires Inv(h, key, c, {}, 0)
    ensures var a, b := IdsBelow(c.info, c.idCount, false), IdsBelow(c.info, c.idCount, true);
      |a| == c.nNew && |b| == c.nTried && OrderOk(c, a + b)
  {
    var a, b := IdsBelow(c.info, c.idCount, false), IdsBelow(c.info, c.idCount, true);
    IdsBelowMembers(c.info, c.idCount, false, a);
    IdsBelowMembers(c.info, c.idCount, true, b);
    forall id ensures id in a <==> id in NewIds(c.info) {}
    forall id ensures id in b <==> id in TriedIds(c.info) {}
    AddrCheck.DistinctSize(a, NewIds(c.info));
    AddrCheck.DistinctSize(b, TriedIds(c.info));
    OrderFromParts(c, a, b);
  }

  lemma OrderFromParts(c: Core, a: seq<int>, b: seq<int>)
    requires |a| == c.nNew && |b| == c.nTried
    requires forall i, j :: 0 <= i < j < |a| ==> a[i] != a[j]
    requires forall i, j :: 0 <= i < j < |b| ==> b[i] != b[j]
    requires forall id :: id in a <==> id in NewIds(c.info)
    requires forall id :: id in b <==> id in TriedIds(c.info)
    ensures OrderOk(c, a + b)
  {
    var ord := a + b;
    forall k | 0 <= k < |ord| ensures ord[k] in c.info && (c.info[ord[k]].inTried <==> k >= c.nNew) {
      if k < |a| { assert ord[k] == a[k] && a[k] in a; } else { assert ord[k] == b[k - |a|] && b[k - |a|] in b; }
    }
    forall id | id in c.info ensures id in ord { assert id in NewIds(c.info) || id in TriedIds(c.info); }
  }

  lemma {:induction false} IdsBelowPrefix(info: map<int, Info>, n: nat, m: nat, tried: bool)
    requires n <= m
    ensures IdsBelow(info, n, tried) <= IdsBelow(info, m, tried)
  {
    if n < m { IdsBelowPrefix(info, n, m - 1, tried); }
  }

  /** The loops of Serialize over the entries; the count given in advance is never exceeded. */
  method SaveEntries(c: Core, tried: bool, count: int) returns (infos: seq<Persistent>, mapUnkIds: map<int, int>)
    requires 0 <= c.idCount && |IdsBelow(c.info, c.idCount, tried)| == count
    ensures var ids := IdsBelow(c.info, c.idCount, tried);
      && |infos| == |ids| && (forall k :: 0 <= k < |ids| ==> ids[k] in c.info && infos[k] == Saved(c.info[ids[k]]))
      && (forall k :: 0 <= k < |ids| ==> ids[k] in mapUnkIds && mapUnkIds[ids[k]] == k)
  {
    infos, mapUnkIds := [], map[];
    var n := 0;
    ghost var ids := [];
    while n < c.idCount
      invariant 0 <= n <= c.idCount && ids == IdsBelow(c.info, n, tried) && |infos| == |ids|
      invariant forall k :: 0 <= k < |ids| ==> ids[k] in c.info && ids[k] < n && infos[k] == Saved(c.info[ids[k]])
      invariant forall k :: 0 <= k < |ids| ==> ids[k] in mapUnkIds && mapUnkIds[ids[k]] == k
    {
      IdsBelowPrefix(c.info, n + 1, c.idCount, tried);
      if n in c.info {
        mapUnkIds := mapUnkIds[n := |infos|];
        if if tried then c.info[n].inTried else c.info[n].refCount != 0 {
          assert |infos| != count;
          infos := infos + [Saved(c.info[n])];
          ids := ids + [n];
        }
      }
      n := n + 1;
    }
  }

  /** One bucket: the numbers of its occupants. */
  method SaveBucket(row: seq<int>, mapUnkIds: map<int, int>, ghost ord: seq<int>) returns (ks: seq<int>)
    requires forall p :: 0 <= p < |row| && row[p] != EMPTY ==> Numbered(mapUnkIds, ord, row[p])
    ensures BucketWrites(row, ord, ks)
  {
    ks := [];
    var i := 0;
    ghost var occ := [];
    while i < |row|
      invariant 0 <= i <= |row| && occ == Occupied(row, i) && |ks| == |occ|
      invariant forall n :: 0 <= n < |ks| ==> 0 <= ks[n] < |ord| && 0 <= occ[n] < |row| && ord[ks[n]] == row[occ[n]]
    {
      if row[i] != EMPTY {
        assert Numbered(mapUnkIds, ord, row[i]);
        ks := ks + [mapUnkIds[row[i]]];
        occ := occ + [i];
      }
      i := i + 1;
    }
  }

  ghost predicate Numbered(mapUnkIds: map<int, int>, ord: seq<int>, id: int) {
    id in mapUnkIds && 0 <= mapUnkIds[id] < |ord| && ord[mapUnkIds[id]] == id
  }

  /** Every occupant of the new table has a number. */
  ghost predicate AllNumbered(t: Table, mapUnkIds: map<int, int>, ord: seq<int>) {
    forall b, p :: InTable(t, b, p) && At(t, b, p) != EMPTY ==> Numbered(mapUnkIds, ord, At(t, b, p))
  }

  lemma NewNumbered(h: Hasher, key: nat, c: Core, ids: seq<int>, ord: seq<int>, mapUnkIds: map<int, int>)
    requires Inv(h, key, c, {}, 0) && ids == IdsBelow(c.info, c.idCount, false) && ids <= ord
    requires forall k :: 0 <= k < |ids| ==> ids[k] in mapUnkIds && mapUnkIds[ids[k]] == k
    ensures AllNumbered(c.newT, mapUnkIds, ord)
  {
    forall b, p | InTable(c.newT, b, p) && At(c.newT, b, p) != EMPTY
      ensures Numbered(mapUnkIds, ord, At(c.newT, b, p))
    {
      OccupantIsNew(h, key, c, b, p, {});
      IdsBelowMembers(c.info, c.idCount, false, ids);
      var id := At(c.newT, b, p);
      assert id in ids;
    }
  }

  /** The loop of Serialize over the buckets. */
  method SaveBuckets(t: Table, mapUnkIds: map<int, int>, ghost ord: seq<int>) returns (buckets: seq<seq<int>>)
    requires IsTable(t, NEW_BUCKETS) && AllNumbered(t, mapUnkIds, ord)
    ensures |buckets| == NEW_BUCKETS && forall b :: 0 <= b < NEW_BUCKETS ==> BucketWrites(t[b], ord, buckets[b])
  {
    buckets := [];
    var bucket := 0;
    while bucket < NEW_BUCKETS
      invariant 0 <= bucket == |buckets| <= NEW_BUCKETS
      invariant forall b :: 0 <= b < bucket ==> BucketWrites(t[b], ord, buckets[b])
    {
      var row := t[bucket];
      forall p | 0 <= p < |row| && row[p] != EMPTY ensures Numbered(mapUnkIds, ord, row[p]) {
        assert InTable(t, bucket, p) && At(t, bucket, p) == row[p];
      }
      var ks := SaveBucket(row, mapUnkIds, ord);
      buckets := buckets + [ks];
      bucket := bucket + 1;
    }
  }

  /** Serialize. */
  method Serialize(h: Hasher, key: nat, c: Core) returns (s: Stream, ghost ord: seq<int>)
    requires Inv(h, key, c, {}, 0)
    ensures OrderOk(c, ord) && Writes(key, c, ord, s)
  {
    IdsInOrder(h, key, c);
    ghost var ids := IdsBelow(c.info, c.idCount, false);
    ord := ids + IdsBelow(c.info, c.idCount, true);
    var newInfos, mapUnkIds := SaveEntries(c, false, c.nNew);
    var triedInfos, _ := SaveEntries(c, true, c.nTried);
    NewNumbered(h, key, c, ids, ord, mapUnkIds);
    var buckets := SaveBuckets(c.newT, mapUnkIds, ord);
    s := Stream(1, KEY_SIZE, key, c.nNew, c.nTried, FlipBit30(NEW_BUCKETS), newInfos, triedInfos, buckets);
  }

  // ---------------------------------------------------------------- what is read back

  /** An entry after writing and reading: the memory-only fields are gone, its place in vRandom is its number. */
  function Restored(e: Info, k: int, refCount: int, inTried: bool): Info {
    e.(lastTry := 0, lastCountAttempt := 0, refCount := refCount, inTried := inTried, randomPos := k)
  }

  /** The first n entries in the given order have been read; their references have not. */
  ghost predicate EntriesLoaded(c: Core, ord: seq<int>, n: nat, st: Core)
    requires OrderOk(c, ord) && n <= |ord|
  {
    && st.idCount == n
    && (forall k :: k in st.info <==> 0 <= k < n)
    && (forall k :: 0 <= k < n ==> st.info[k] == Restored(c.info[ord[k]], k, 0, k >= c.nNew))
    && |st.random| == n && (forall k :: 0 <= k < n ==> st.random[k] == k)
    && AddrOk(st.info, st.addr)
  }

  /** Structure every partly read manager has, whatever the stream. */
  ghost predicate Loading(st: Core) {
    && RandomOk(st.info, st.random) && (forall id :: id in st.info ==> id < st.idCount)
    && IsTable(st.newT, NEW_BUCKETS) && IsTable(st.tried, TRIED_BUCKETS)
  }

  lemma AppendLoading(st: Core, e: Info)
    requires Loading(st)
    ensures Loading(Appended(st, e))
  {}

  lemma AppendEntry(c: Core, ord: seq<int>, n: nat, st: Core, e: Info)
    requires OrderOk(c, ord) && n < |ord| && EntriesLoaded(c, ord, n, st) && AddrOk(c.info, c.addr)
    requires e == Restored(c.info[ord[n]], e.randomPos, 0, n >= c.nNew)
    ensures EntriesLoaded(c, ord, n + 1, Appended(st, e))
  {
    NewIp(c, ord, n, st, e.Service().ip);
    AppendAddr(st, e);
  }

  /** The next entry has an address that has not been read yet. */
  lemma NewIp(c: Core, ord: seq<int>, n: nat, st: Core, ip: Ip)
    requires OrderOk(c, ord) && n < |ord| && EntriesLoaded(c, ord, n, st) && AddrOk(c.info, c.addr)
    requires ip == c.info[ord[n]].Service().ip
    ensures ip !in st.addr
  {
    forall k | k in st.info ensures st.info[k].Service().ip != ip {
      assert ord[k] != ord[n];
      assert c.info[ord[k]].Service().ip in c.addr && c.addr[c.info[ord[k]].Service().ip] == ord[k];
    }
  }

  lemma FirstReferenceLoading(h: Hasher, key: nat, st: Core, id: int)
    requires id in st.info && Loading(st)
    ensures var st' := FirstReference(h, key, st, id);
      Loading(st') && st'.idCount == st.idCount && forall i :: i in st'.info <==> i in st.info
  {}

  /** The part of the stream the first loop reads. */
  ghost predicate NewWritten(c: Core, ord: seq<int>, s: Stream) {
    && OrderOk(c, ord) && AddrOk(c.info, c.addr)
    && s.nNew == c.nNew == |s.newInfos| && forall k :: 0 <= k < c.nNew ==> s.newInfos[k] == Saved(c.info[ord[k]])
  }

  lemma AppendNew(c: Core, ord: seq<int>, s: Stream, n: nat, st: Core)
    requires NewWritten(c, ord, s) && n < c.nNew && EntriesLoaded(c, ord, n, st)
    ensures EntriesLoaded(c, ord, n + 1, Appended(st, Loaded(s.newInfos[n])))
  {
    assert s.newInfos[n] == Saved(c.info[ord[n]]);
    AppendEntry(c, ord, n, st, Loaded(s.newInfos[n]));
  }

  ghost predicate NewProgress(c: Core, ord: seq<int>, n: nat, st: Core) {
    OrderOk(c, ord) && n <= |ord| && EntriesLoaded(c, ord, n, st) && st.newT == EmptyTable(NEW_BUCKETS)
  }

  lemma {:induction false} NewLoadedWritten(h: Hasher, c: Core, ord: seq<int>, s: Stream, n: nat)
    requires NewWritten(c, ord, s) && n <= c.nNew
    ensures NewProgress(c, ord, n, NewLoaded(h, s, true, n))
  {
    var kept := (k: nat, st: Core) => NewProgress(c, ord, k, st);
    forall k: nat, st: Core | kept(k, st) && k < n && IsTable(st.newT, NEW_BUCKETS) && st.idCount == k
      ensures kept(k + 1, NewTurn(h, s.key, true, st, s.newInfos[k]))
    {
      AppendNew(c, ord, s, k, st);
    }
    NewInduction(h, s, true, n, kept);
  }

  lemma {:induction false} NewTurnLoading(h: Hasher, key: nat, usable: bool, st: Core, p: Persistent)
    requires Loading(st)
    ensures Loading(NewTurn(h, key, usable, st, p))
  {
    AppendLoading(st, Loaded(p));
    if !usable { FirstReferenceLoading(h, key, Appended(st, Loaded(p)), st.idCount); }
  }

  lemma {:induction false} NewLoadedLoading(h: Hasher, s: Stream, usable: bool, n: nat)
    requires n <= |s.newInfos|
    ensures Loading(NewLoaded(h, s, usable, n))
  {
    var kept := (k: nat, st: Core) => Loading(st);
    forall k: nat, st: Core | kept(k, st) && k < n && IsTable(st.newT, NEW_BUCKETS) && st.idCount == k
      ensures kept(k + 1, NewTurn(h, s.key, usable, st, s.newInfos[k]))
    {
      NewTurnLoading(h, s.key, usable, st, s.newInfos[k]);
    }
    NewInduction(h, s, usable, n, kept);
  }

  /** One entry, with a reference at once if the positions in the stream cannot be used. */
  method LoadNewEntry(h: Hasher, key: nat, usable: bool, st0: Core, p: Persistent) returns (st: Core)
    requires IsTable(st0.newT, NEW_BUCKETS)
    ensures st == NewTurn(h, key, usable, st0, p)
  {
    st := Appended(st0, Loaded(p));
    if !usable { st := FirstReference(h, key, st, st0.idCount); }
  }

  /** The first loop of Unserialize: the entries of the new table, as many as announced or as there are. */
  method LoadNew(h: Hasher, s: Stream, usable: bool) returns (n: nat, st: Core)
    ensures n == if Up(s.nNew) < |s.newInfos| then Up(s.nNew) else |s.newInfos|
    ensures st == NewLoaded(h, s, usable, n)
  {
    n := if Up(s.nNew) < |s.newInfos| then Up(s.nNew) else |s.newInfos|;
    st := EmptyCore();
    for i := 0 to n
      invariant st == NewLoaded(h, s, usable, i)
    {
      st := LoadNewEntry(h, s.key, usable, st, s.newInfos[i]);
    }
  }

  // ---------------------------------------------------------------- the tried entries

  ghost predicate TriedWritten(h: Hasher, c: Core, ord: seq<int>, s: Stream) {
    && OrderOk(c, ord) && AddrOk(c.info, c.addr) && TriedOk(h, s.key, c.info, c.tried) && EMPTY !in c.info
    && s.nNew == c.nNew && s.nTried == c.nTried == |s.triedInfos|
    && forall k :: 0 <= k < c.nTried ==> s.triedInfos[k] == Saved(c.info[ord[c.nNew + k]])
  }

  /** The tried table with its occupants renumbered, those numbered from n on left out. */
  ghost predicate TriedRenamed(c: Core, ord: seq<int>, n: nat, t: Table)
    requires OrderOk(c, ord)
  {
    && IsTable(c.tried, TRIED_BUCKETS) && IsTable(t, TRIED_BUCKETS)
    && forall b, p :: InTable(c.tried, b, p) ==> Renumbers(ord, n, At(c.tried, b, p), At(t, b, p))
  }

  /** `k` is the number of `id`, or there is none yet. */
  ghost predicate Renumbers(ord: seq<int>, n: nat, id: int, k: int) {
    if id != EMPTY && id in ord && Where(ord, id) < n then k == Where(ord, id) else k == EMPTY
  }

  /** Where an entry goes when its slot is free. */
  lemma TriedSlotFree(h: Hasher, key: nat, c: Core, ord: seq<int>, n: nat, t: Table)
    requires OrderOk(c, ord) && TriedOk(h, key, c.info, c.tried) && EMPTY !in c.info
    requires c.nNew <= n < |ord| && TriedRenamed(c, ord, n, t)
    ensures var slot := TriedSlot(h, key, c.info[ord[n]].Service());
      At(t, slot.0, slot.1) == EMPTY && TriedRenamed(c, ord, n + 1, Put(t, slot.0, slot.1, n))
  {
    var id := ord[n];
    var slot := TriedSlot(h, key, c.info[id].Service());
    assert At(c.tried, slot.0, slot.1) == id;
    WhereIs(ord, n);
    var t' := Put(t, slot.0, slot.1, n);
    forall b, p | InTable(c.tried, b, p) ensures Renumbers(ord, n + 1, At(c.tried, b, p), At(t', b, p)) {
      var x := At(c.tried, b, p);
      assert Renumbers(ord, n, x, At(t, b, p)) && InTable(t, b, p);
      if x != EMPTY && !(b == slot.0 && p == slot.1) { assert x != id; }
    }
    assert Renumbers(ord, n, id, At(t, slot.0, slot.1));
  }

  lemma WhereIs(ord: seq<int>, k: nat)
    requires k < |ord| && forall i, j :: 0 <= i < j < |ord| ==> ord[i] != ord[j]
    ensures Where(ord, ord[k]) == k
  {
    var w := Where(ord, ord[k]);
  }

  lemma AppendTried(h: Hasher, c: Core, ord: seq<int>, s: Stream, n: nat, st: Core)
    requires TriedWritten(h, c, ord, s) && n < c.nTried && EntriesLoaded(c, ord, c.nNew + n, st)
    requires TriedRenamed(c, ord, c.nNew + n, st.tried)
    ensures var e := Loaded(s.triedInfos[n]);
      var st', slot := TriedAppended(h, s.key, st, e), TriedSlot(h, s.key, e.Service());
      && At(st.tried, slot.0, slot.1) == EMPTY
      && EntriesLoaded(c, ord, c.nNew + n + 1, st') && TriedRenamed(c, ord, c.nNew + n + 1, st'.tried)
  {
    assert s.triedInfos[n] == Saved(c.info[ord[c.nNew + n]]);
    assert c.info[ord[c.nNew + n]].inTried;
    var e := Loaded(s.triedInfos[n]);
    AppendEntry(c, ord, c.nNew + n, st, e.(inTried := true));
    TriedSlotFree(h, s.key, c, ord, c.nNew + n, st.tried);
  }

  /** The state of the second loop on a well-formed stream. */
  ghost predicate TriedProgress(c: Core, ord: seq<int>, n: nat, st: Core) {
    && OrderOk(c, ord) && c.nNew + n <= |ord| && EntriesLoaded(c, ord, c.nNew + n, st)
    && TriedRenamed(c, ord, c.nNew + n, st.tried)
  }

  lemma {:induction false} TriedLoadedWritten(h: Hasher, c: Core, ord: seq<int>, s: Stream, st0: Core, n: nat)
    requires TriedWritten(h, c, ord, s) && n <= c.nTried && TriedFrom(c, ord, st0, 0, st0)
    requires IsTable(st0.tried, TRIED_BUCKETS)
    ensures TriedFrom(c, ord, st0, n, TriedLoaded(h, s, st0, n))
  {
    var kept := (k: nat, st: Core) => TriedFrom(c, ord, st0, k, st);
    forall k: nat, st: Core | kept(k, st) && k < n && IsTable(st.tried, TRIED_BUCKETS)
      ensures kept(k + 1, TriedTurn(h, s.key, st, s.triedInfos[k]))
    {
      TriedTurnFrom(h, c, ord, s, st0, k, st);
    }
    TriedInduction(h, s, st0, n, kept);
  }

  ghost predicate TriedFrom(c: Core, ord: seq<int>, st0: Core, n: nat, st: Core) {
    TriedProgress(c, ord, n, st) && SameCounts(st0, st)
  }

  lemma {:induction false} TriedTurnFrom(h: Hasher, c: Core, ord: seq<int>, s: Stream, st0: Core, n: nat, st: Core)
    requires TriedWritten(h, c, ord, s) && n < c.nTried && TriedFrom(c, ord, st0, n, st)
    ensures TriedFrom(c, ord, st0, n + 1, TriedTurn(h, s.key, st, s.triedInfos[n]))
  {
    TriedTurnWritten(h, c, ord, s, n, st);
  }

  ghost predicate SameCounts(st: Core, st': Core) {
    st'.newT == st.newT && st'.nTried == st.nTried && st'.nNew == st.nNew
  }

  lemma {:induction false} TriedTurnWritten(h: Hasher, c: Core, ord: seq<int>, s: Stream, n: nat, st: Core)
    requires TriedWritten(h, c, ord, s) && n < c.nTried && TriedProgress(c, ord, n, st)
    ensures var st' := TriedTurn(h, s.key, st, s.triedInfos[n]);
      TriedProgress(c, ord, n + 1, st') && SameCounts(st, st')
  {
    AppendTried(h, c, ord, s, n, st);
  }

  lemma {:induction false} TriedLoadedLoading(h: Hasher, s: Stream, st0: Core, n: nat)
    requires n <= |s.triedInfos| && Loading(st0)
    ensures Loading(TriedLoaded(h, s, st0, n))
  {
    var kept := (k: nat, st: Core) => Loading(st);
    forall k: nat, st: Core | kept(k, st) && k < n && IsTable(st.tried, TRIED_BUCKETS)
      ensures kept(k + 1, TriedTurn(h, s.key, st, s.triedInfos[k]))
    {
      AppendLoading(st, Loaded(s.triedInfos[k]).(inTried := true));
    }
    TriedInduction(h, s, st0, n, kept);
  }

  /** The second loop of Unserialize: the tried entries. */
  method LoadTried(h: Hasher, s: Stream, st0: Core) returns (r: Option<Core>)
    requires IsTable(st0.tried, TRIED_BUCKETS)
    ensures r.Some? <==> s.nTried <= |s.triedInfos|
    ensures r.Some? ==> r.value == TriedLoaded(h, s, st0.(nTried := s.nTried), Up(s.nTried))
  {
    var st := st0;
    var nLost, n := 0, 0;
    while n < s.nTried
      invariant 0 <= n <= Up(s.nTried) && n <= |s.triedInfos| && IsTable(st.tried, TRIED_BUCKETS)
      invariant st.(nTried := s.nTried - nLost) == TriedLoaded(h, s, st0.(nTried := s.nTried), n)
    {
      if n >= |s.triedInfos| { return None; }
      var info := Loaded(s.triedInfos[n]);
      var slot := TriedSlot(h, s.key, info.Service());
      if At(st.tried, slot.0, slot.1) == EMPTY {
        st := TriedAppended(h, s.key, st, info);
      } else {
        nLost := nLost + 1;
      }
      n := n + 1;
    }
    r := Some(st.(nTried := s.nTried - nLost));
  }

  // ---------------------------------------------------------------- the new table

  ghost predicate BucketsWritten(h: Hasher, c: Core, ord: seq<int>, s: Stream) {
    && OrderOk(c, ord) && NewOk(h, s.key, c.info, c.newT) && RefsOk(h, s.key, c.info, c.newT, {}) && EMPTY !in c.info
    && s.nNew == c.nNew && |s.buckets| == NEW_BUCKETS
    && forall b :: 0 <= b < NEW_BUCKETS ==> BucketWrites(c.newT[b], ord, s.buckets[b])
  }

  lemma {:induction false} OccupiedPositions(row: seq<int>, n: nat, occ: seq<nat>)
    requires n <= |row| && occ == Occupied(row, n)
    ensures forall i :: 0 <= i < |occ| ==> occ[i] < n && row[occ[i]] != EMPTY
    ensures forall i, j :: 0 <= i < j < |occ| ==> occ[i] < occ[j]
    ensures forall p :: 0 <= p < n && row[p] != EMPTY ==> p in occ
  {
    if n > 0 { OccupiedPositions(row, n - 1, Occupied(row, n - 1)); }
  }

  /** The first n indexes of bucket b have been read, and all of the buckets before it. */
  predicate Read(row: seq<int>, b: int, p: int, bucket: int, n: nat) {
    b < bucket || (b == bucket && n <= |Occupied(row, |row|)| && p in Occupied(row, |row|)[..n])
  }

  /** The new table with the occupants read so far renumbered, and empty elsewhere. */
  ghost predicate NewRenamed(c: Core, ord: seq<int>, bucket: int, n: nat, t: Table) {
    && IsTable(c.newT, NEW_BUCKETS) && IsTable(t, NEW_BUCKETS)
    && forall b, p :: InTable(c.newT, b, p) ==>
         if Read(c.newT[b], b, p, bucket, n) then Renumbers(ord, |ord|, At(c.newT, b, p), At(t, b, p))
         else At(t, b, p) == EMPTY
  }

  /** Reading one index: its slot is free, and the entry has fewer references than in the original. */
  lemma PlaceNumber(h: Hasher, c: Core, ord: seq<int>, s: Stream, bucket: nat, n: nat, t: Table)
    requires BucketsWritten(h, c, ord, s) && bucket < NEW_BUCKETS && n < |s.buckets[bucket]|
    requires NewRenamed(c, ord, bucket, n, t)
    ensures var k := s.buckets[bucket][n]; 0 <= k < c.nNew
    ensures var k := s.buckets[bucket][n];
      var sv := c.info[ord[k]].Service();
      var p := Position(h, s.key, true, bucket, sv);
      && At(t, bucket, p) == EMPTY && NewRenamed(c, ord, bucket, n + 1, Put(t, bucket, p, k))
      && |Refs(h, s.key, t, k, sv)| < NEW_BUCKETS_PER_ADDRESS
  {
    var row := c.newT[bucket];
    var occ := Occupied(row, |row|);
    OccupiedPositions(row, |row|, occ);
    assert BucketWrites(row, ord, s.buckets[bucket]);
    var k, q := s.buckets[bucket][n], occ[n];
    var id := ord[k];
    assert InTable(c.newT, bucket, q) && At(c.newT, bucket, q) == id;
    OccupantIsNew(h, s.key, c, bucket, q, {});
    PlaceNumberAt(c, ord, bucket, n, t, k, q);
    FewerRefs(h, s.key, c, ord, bucket, n, t, k, q);
  }

  lemma PlaceNumberAt(c: Core, ord: seq<int>, bucket: nat, n: nat, t: Table, k: nat, q: nat)
    requires OrderOk(c, ord) && NewRenamed(c, ord, bucket, n, t) && bucket < NEW_BUCKETS && EMPTY !in c.info
    requires var row := c.newT[bucket]; n < |Occupied(row, |row|)| && q == Occupied(row, |row|)[n]
    requires k < |ord| && InTable(c.newT, bucket, q) && At(c.newT, bucket, q) == ord[k]
    ensures At(t, bucket, q) == EMPTY && NewRenamed(c, ord, bucket, n + 1, Put(t, bucket, q, k))
  {
    var row := c.newT[bucket];
    var occ := Occupied(row, |row|);
    OccupiedPositions(row, |row|, occ);
    assert !Read(row, bucket, q, bucket, n);
    WhereIs(ord, k);
    var t' := Put(t, bucket, q, k);
    assert occ[..n + 1] == occ[..n] + [q];
    forall b, p | InTable(c.newT, b, p)
      ensures if Read(c.newT[b], b, p, bucket, n + 1) then Renumbers(ord, |ord|, At(c.newT, b, p), At(t', b, p))
              else At(t', b, p) == EMPTY
    {
      assert Read(c.newT[b], b, p, bucket, n + 1) <==> Read(c.newT[b], b, p, bucket, n) || (b == bucket && p == q);
      assert InTable(t, b, p);
    }
  }

  lemma FewerRefs(h: Hasher, key: nat, c: Core, ord: seq<int>, bucket: nat, n: nat, t: Table, k: nat, q: nat)
    requires OrderOk(c, ord) && RefsOkAt(h, key, c, ord, k) && NewRenamed(c, ord, bucket, n, t) && bucket < NEW_BUCKETS
    requires k < |ord| && InTable(c.newT, bucket, q) && At(c.newT, bucket, q) == ord[k] && At(t, bucket, q) == EMPTY
    requires ord[k] in c.info && Position(h, key, true, bucket, c.info[ord[k]].Service()) == q
    ensures |Refs(h, key, t, k, c.info[ord[k]].Service())| < NEW_BUCKETS_PER_ADDRESS
  {
    var sv := c.info[ord[k]].Service();
    var now, all := Refs(h, key, t, k, sv), Refs(h, key, c.newT, ord[k], sv);
    forall b | b in now ensures b in all - {bucket} {
      var p := Position(h, key, true, b, sv);
      assert InTable(c.newT, b, p) && At(t, b, p) == k;
      assert Renumbers(ord, |ord|, At(c.newT, b, p), k);
    }
    assert bucket in all;
    AddrCheck.SubsetSize(now, all - {bucket});
  }

  ghost predicate RefsOkAt(h: Hasher, key: nat, c: Core, ord: seq<int>, k: nat) {
    k < |ord| && ord[k] in c.info && IsTable(c.newT, NEW_BUCKETS)
    && |Refs(h, key, c.newT, ord[k], c.info[ord[k]].Service())| <= NEW_BUCKETS_PER_ADDRESS
  }

  /** All entries have been read, with as many references as the table read so far gives them. */
  ghost predicate EntriesReferenced(h: Hasher, key: nat, c: Core, ord: seq<int>, st: Core)
    requires OrderOk(c, ord) && IsTable(st.newT, NEW_BUCKETS)
  {
    && st.idCount == |ord|
    && (forall k :: k in st.info <==> 0 <= k < |ord|)
    && (forall k :: 0 <= k < |ord| ==> EntryAt(h, key, c, ord, st.info, st.newT, k))
    && |st.random| == |ord| && (forall k :: 0 <= k < |ord| ==> st.random[k] == k)
    && AddrOk(st.info, st.addr)
  }

  lemma NothingReferenced(h: Hasher, key: nat, c: Core, ord: seq<int>, st: Core)
    requires OrderOk(c, ord) && EntriesLoaded(c, ord, |ord|, st) && st.newT == EmptyTable(NEW_BUCKETS)
    ensures EntriesReferenced(h, key, c, ord, st)
  {
    forall k, sv | 0 <= k ensures Refs(h, key, st.newT, k, sv) == {} {
      forall b ensures b !in Refs(h, key, st.newT, k, sv) {
        if 0 <= b < NEW_BUCKETS { assert InTable(st.newT, b, Position(h, key, true, b, sv)); }
      }
    }
  }

  lemma ReferenceStep(h: Hasher, key: nat, c: Core, ord: seq<int>, st: Core, k: nat, b: nat)
    requires OrderOk(c, ord) && IsTable(st.newT, NEW_BUCKETS) && EntriesReferenced(h, key, c, ord, st)
    requires k < |ord| && b < NEW_BUCKETS
    requires At(st.newT, b, Position(h, key, true, b, c.info[ord[k]].Service())) == EMPTY
    ensures var st' := Placed(st, k, b, Position(h, key, true, b, c.info[ord[k]].Service()));
      IsTable(st'.newT, NEW_BUCKETS) && EntriesReferenced(h, key, c, ord, st')
  {
    var p := Position(h, key, true, b, c.info[ord[k]].Service());
    PlacedRefs(h, key, c, ord, st.newT, k, b, p);
    ReferencedAddr(st, k, b, p);
    ReferenceEntries(h, key, c, ord, st.info, st.newT, Placed(st, k, b, p).info, Placed(st, k, b, p).newT, k);
  }

  /** The entry as it was, with as many references as a table gives it. */
  ghost predicate EntryAt(h: Hasher, key: nat, c: Core, ord: seq<int>, info: map<int, Info>, t: Table, j: nat)
    requires OrderOk(c, ord) && IsTable(t, NEW_BUCKETS) && j < |ord|
  {
    j in info && info[j] == Restored(c.info[ord[j]], j, |Refs(h, key, t, j, c.info[ord[j]].Service())|, j >= c.nNew)
  }

  lemma ReferenceEntries(h: Hasher, key: nat, c: Core, ord: seq<int>, info: map<int, Info>, t: Table, info': map<int,
                         Info>,
                         t': Table, k: nat)
    requires OrderOk(c, ord) && IsTable(t, NEW_BUCKETS) && IsTable(t', NEW_BUCKETS) && k < |ord| && k in info
    requires forall j :: 0 <= j < |ord| ==> EntryAt(h, key, c, ord, info, t, j)
    requires info' == info[k := info[k].(refCount := info[k].refCount + 1)]
    requires forall j :: 0 <= j < |ord| ==>
      |Refs(h, key, t', j, c.info[ord[j]].Service())|
        == |Refs(h, key, t, j, c.info[ord[j]].Service())| + if j == k then 1 else 0
    ensures forall j :: 0 <= j < |ord| ==> EntryAt(h, key, c, ord, info', t', j)
  {
    forall j | 0 <= j < |ord| ensures EntryAt(h, key, c, ord, info', t', j) {
      assert EntryAt(h, key, c, ord, info, t, j);
    }
  }

  lemma PlacedRefs(h: Hasher, key: nat, c: Core, ord: seq<int>, t: Table, k: nat, b: nat, p: nat)
    requires OrderOk(c, ord) && IsTable(t, NEW_BUCKETS) && k < |ord| && InTable(t, b, p) && At(t, b, p) == EMPTY
    requires p == Position(h, key, true, b, c.info[ord[k]].Service())
    ensures IsTable(Put(t, b, p, k), NEW_BUCKETS)
    ensures forall j :: 0 <= j < |ord| ==>
      |Refs(h, key, Put(t, b, p, k), j, c.info[ord[j]].Service())|
        == |Refs(h, key, t, j, c.info[ord[j]].Service())| + if j == k then 1 else 0
  {
    forall j | 0 <= j < |ord|
      ensures |Refs(h, key, Put(t, b, p, k), j, c.info[ord[j]].Service())|
        == |Refs(h, key, t, j, c.info[ord[j]].Service())| + if j == k then 1 else 0
    {
      var sv := c.info[ord[j]].Service();
      RefsAfterPut(h, key, t, b, p, k, j, sv);
      assert Position(h, key, true, b, sv) == p ==> b !in Refs(h, key, t, j, sv);
    }
  }

  lemma ReferencedAddr(st: Core, k: nat, b: nat, p: nat)
    requires AddrOk(st.info, st.addr) && k in st.info && InTable(st.newT, b, p)
    ensures AddrOk(Placed(st, k, b, p).info, st.addr)
  {
    forall ip | ip in st.addr ensures st.addr[ip] in Placed(st, k, b, p).info {
      var i := st.addr[ip];
      assert i in st.info && st.info[i].Service().ip == ip;
    }
  }

  lemma PlaceLoading(st: Core, id: int, b: nat, p: nat)
    requires Loading(st) && id in st.info && InTable(st.newT, b, p)
    ensures Loading(Placed(st, id, b, p)) && forall i :: i in Placed(st, id, b, p).info <==> i in st.info
  {}

  lemma TurnBucket(h: Hasher, c: Core, ord: seq<int>, s: Stream, bucket: nat, t: Table)
    requires BucketsWritten(h, c, ord, s) && bucket < NEW_BUCKETS && NewRenamed(c, ord, bucket, |s.buckets[bucket]|, t)
    ensures NewRenamed(c, ord, bucket + 1, 0, t)
  {
    var row := c.newT[bucket];
    var occ := Occupied(row, |row|);
    OccupiedPositions(row, |row|, occ);
    assert BucketWrites(row, ord, s.buckets[bucket]);
    assert occ[..|occ|] == occ;
    forall b, p | InTable(c.newT, b, p)
      ensures if Read(c.newT[b], b, p, bucket + 1, 0) then Renumbers(ord, |ord|, At(c.newT, b, p), At(t, b, p))
              else At(t, b, p) == EMPTY
    {
      if b == bucket && At(c.newT, b, p) != EMPTY { assert p in occ; }
    }
  }

  /** How far the new table has been read. */
  ghost predicate Progress(h: Hasher, c: Core, ord: seq<int>, s: Stream, bucket: nat, n: nat, st: Core) {
    && BucketsWritten(h, c, ord, s) && IsTable(st.newT, NEW_BUCKETS)
    && EntriesReferenced(h, s.key, c, ord, st) && NewRenamed(c, ord, bucket, n, st.newT)
  }

  /** Reading one index of a well-formed stream always places a reference. */
  lemma ReadStep(h: Hasher, c: Core, ord: seq<int>, s: Stream, bucket: nat, n: nat, st: Core)
    requires Progress(h, c, ord, s, bucket, n, st) && bucket < NEW_BUCKETS && n < |s.buckets[bucket]|
    ensures var k := s.buckets[bucket][n]; 0 <= k < s.nNew && k in st.info
    ensures var k := s.buckets[bucket][n]; var p := Position(h, s.key, true, bucket, st.info[k].Service());
      && At(st.newT, bucket, p) == EMPTY && st.info[k].refCount < NEW_BUCKETS_PER_ADDRESS
      && Progress(h, c, ord, s, bucket, n + 1, Placed(st, k, bucket, p))
  {
    PlaceNumber(h, c, ord, s, bucket, n, st.newT);
    var k := s.buckets[bucket][n];
    assert EntryAt(h, s.key, c, ord, st.info, st.newT, k);
    ReferenceStep(h, s.key, c, ord, st, k, bucket);
  }

  lemma {:induction false} IndexesWritten(h: Hasher, c: Core, ord: seq<int>, s: Stream, bucket: nat, st0: Core)
    requires Progress(h, c, ord, s, bucket, 0, st0) && bucket < NEW_BUCKETS && CanPlace(s, st0)
    ensures Progress(h, c, ord, s, bucket + 1, 0, IndexesLoaded(h, s, true, bucket, |s.buckets[bucket]|, st0))
  {
    var kept := (k: nat, st: Core) => Progress(h, c, ord, s, bucket, k, st);
    forall k: nat, st: Core | kept(k, st) && k < |s.buckets[bucket]| && CanPlace(s, st)
      ensures kept(k + 1, IndexTurn(h, s, true, bucket, s.buckets[bucket][k], st))
    {
      ReadTurn(h, c, ord, s, bucket, k, st);
    }
    IndexInduction(h, s, true, bucket, |s.buckets[bucket]|, st0, kept);
    NextBucket(h, c, ord, s, bucket, IndexesLoaded(h, s, true, bucket, |s.buckets[bucket]|, st0));
  }

  lemma {:induction false} NextBucket(h: Hasher, c: Core, ord: seq<int>, s: Stream, bucket: nat, st: Core)
    requires bucket < NEW_BUCKETS && |s.buckets| == NEW_BUCKETS
    requires Progress(h, c, ord, s, bucket, |s.buckets[bucket]|, st)
    ensures Progress(h, c, ord, s, bucket + 1, 0, st)
  {
    TurnBucket(h, c, ord, s, bucket, st.newT);
  }

  lemma {:induction false} BucketsWrittenLoaded(h: Hasher, c: Core, ord: seq<int>, s: Stream, st0: Core)
    requires Progress(h, c, ord, s, 0, 0, st0) && CanPlace(s, st0)
    ensures Progress(h, c, ord, s, NEW_BUCKETS, 0, BucketsLoaded(h, s, true, NEW_BUCKETS, st0))
  {
    var kept := (k: nat, st: Core) => Progress(h, c, ord, s, k, 0, st);
    forall k: nat, st: Core | kept(k, st) && k < NEW_BUCKETS && CanPlace(s, st)
      ensures kept(k + 1, IndexesLoaded(h, s, true, k, |s.buckets[k]|, st))
    {
      IndexesWritten(h, c, ord, s, k, st);
    }
    BucketInduction(h, s, true, NEW_BUCKETS, st0, kept);
  }

  lemma {:induction false} ReadTurn(h: Hasher, c: Core, ord: seq<int>, s: Stream, bucket: nat, n: nat, st: Core)
    requires Progress(h, c, ord, s, bucket, n, st) && bucket < NEW_BUCKETS && n < |s.buckets[bucket]|
    ensures var k := s.buckets[bucket][n]; 0 <= k < s.nNew && k in st.info
    ensures Progress(h, c, ord, s, bucket, n + 1, IndexTurn(h, s, true, bucket, s.buckets[bucket][n], st))
  {
    ReadStep(h, c, ord, s, bucket, n, st);
  }

  /** One index in the third loop of Unserialize. */
  method LoadIndex(h: Hasher, s: Stream, usable: bool, bucket: nat, nIndex: int, st0: Core) returns (st: Core)
    requires Loading(st0) && (0 <= nIndex < s.nNew ==> nIndex in st0.info) && (usable ==> bucket < NEW_BUCKETS)
    ensures Loading(st) && st == IndexTurn(h, s, usable, bucket, nIndex, st0)
  {
    st := st0;
    if 0 <= nIndex < s.nNew {
      var info := st.info[nIndex];
      var pos := Position(h, s.key, true, bucket, info.Service());
      if usable && At(st.newT, bucket, pos) == EMPTY && info.refCount < NEW_BUCKETS_PER_ADDRESS {
        PlaceLoading(st, nIndex, bucket, pos);
        st := Placed(st, nIndex, bucket, pos);
      }
    }
  }

  /** The third loop of Unserialize: the positions in the new table. */
  method LoadBuckets(h: Hasher, s: Stream, usable: bool, nUBuckets: int, st0: Core) returns (r: Option<Core>)
    requires Loading(st0) && CanPlace(s, st0) && (usable ==> nUBuckets == NEW_BUCKETS)
    ensures r.Some? <==> nUBuckets <= |s.buckets|
    ensures r.Some? ==> Loading(r.value) && r.value == BucketsLoaded(h, s, usable, Up(nUBuckets), st0)
  {
    var st := st0;
    var bucket := 0;
    while bucket < nUBuckets
      invariant 0 <= bucket <= Up(nUBuckets) && bucket <= |s.buckets| && Loading(st)
      invariant st == BucketsLoaded(h, s, usable, bucket, st0)
    {
      if bucket >= |s.buckets| { return None; }
      var n := 0;
      ghost var st1 := st;
      while n < |s.buckets[bucket]|
        invariant 0 <= n <= |s.buckets[bucket]| && Loading(st) && st == IndexesLoaded(h, s, usable, bucket, n, st1)
      {
        st := LoadIndex(h, s, usable, bucket, s.buckets[bucket][n], st);
        n := n + 1;
      }
      bucket := bucket + 1;
    }
    r := Some(st);
  }

  // ---------------------------------------------------------------- pruning

  lemma DeleteLoading(st: Core, id: int)
    requires Loading(st) && id in st.info
    ensures Loading(Deleted(st, id)) && forall i :: i in Deleted(st, id).info <==> i in st.info && i != id
  {
    var s := SwapOut(st, id);
    DropKeepsRandom(s, id);
    DropLoading(st, s, id);
  }

  lemma DropLoading(st: Core, s: Core, id: int)
    requires Loading(st) && id in st.info && SwappedOut(st, s, id) && s.random != []
    requires RandomOk(Dropped(s, id).info, Dropped(s, id).random)
    ensures Loading(Dropped(s, id)) && forall i :: i in Dropped(s, id).info <==> i in st.info && i != id
  {}

  lemma DropKeepsRandom(s: Core, id: int)
    requires RandomOk(s.info, s.random) && id in s.info && s.info[id].randomPos == |s.random| - 1
    ensures RandomOk(Dropped(s, id).info, Dropped(s, id).random)
  {}

  lemma {:induction false} PruneTurn(h: Hasher, key: nat, st: Core, id: int)
    requires Filed(h, key, st, Loose(st.info), 0) && id in Loose(st.info)
    ensures var st' := Deleted(st, id); Filed(h, key, st', Loose(st'.info), 0)
  {
    LooseAfterDelete(st, id);
    DeleteIds(st, id);
    DeleteKeepsTables(h, key, st, id, Loose(st.info));
  }

  lemma {:induction false} DeleteIds(st: Core, id: int)
    requires IdsOk(st.info, st.idCount) && RandomOk(st.info, st.random) && id in st.info && !st.info[id].inTried
    ensures var st' := Deleted(st, id);
      && IdsOk(st'.info, st'.idCount) && RandomOk(st'.info, st'.random)
      && |NewIds(st'.info)| == |NewIds(st.info)| - 1 && TriedIds(st'.info) == TriedIds(st.info)
      && st'.nNew == st.nNew - 1 && st'.nTried == st.nTried
  {
    DeleteLeaves(st, id);
    var s := SwapOut(st, id);
    var st' := Deleted(st, id);
    DropKeepsRandom(s, id);
    forall i ensures i in NewIds(st'.info) <==> i in NewIds(st.info) - {id} { EntryAfterDelete(st, st', id, i); }
    forall i ensures i in TriedIds(st'.info) <==> i in TriedIds(st.info) { EntryAfterDelete(st, st', id, i); }
    assert NewIds(st'.info) == NewIds(st.info) - {id} && id in NewIds(st.info);
  }

  lemma {:induction false} EntryAfterDelete(st: Core, st': Core, id: int, i: int)
    requires SameEntries(st.info - {id}, st'.info)
    ensures i in st'.info <==> i in st.info && i != id
    ensures i in st'.info ==> st'.info[i] == st.info[i].(randomPos := st'.info[i].randomPos)
  {
    assert i in st.info && i != id <==> i in (st.info - {id});
  }

  /** One more entry is gone, and its address with it. */
  lemma {:induction false} WithoutOneMore(st0: Core, st: Core, gone: set<int>, id: int)
    requires Without(st0, st, gone) && RandomOk(st.info, st.random) && id in st.info && id in st0.info
    ensures Without(st0, Deleted(st, id), gone + {id})
  {
    DeleteLeaves(st, id);
    var st', gone' := Deleted(st, id), gone + {id};
    assert id in (st0.info - gone) && st.info[id].Service() == st0.info[id].Service();
    forall i ensures i in (st0.info - gone') <==> i in st'.info {
      EntryAfterDelete(st, st', id, i);
      assert i in (st0.info - gone') <==> i in (st0.info - gone) && i != id;
    }
    forall i | i in (st0.info - gone')
      ensures st'.info[i] == (st0.info - gone')[i].(randomPos := st'.info[i].randomPos)
    {
      EntryAfterDelete(st, st', id, i);
      assert i in (st0.info - gone);
    }
    forall ip ensures Erased(st0.info, gone', ip) <==> Erased(st0.info, gone, ip) || ip == st0.info[id].Service().ip {
      ErasedOneMore(st0.info, gone, id, ip);
    }
  }

  lemma {:induction false} ErasedOneMore(info: map<int, Info>, gone: set<int>, id: int, ip: Ip)
    requires id in info
    ensures Erased(info, gone + {id}, ip) <==> Erased(info, gone, ip) || ip == info[id].Service().ip
  {
    if Erased(info, gone, ip) {
      var i :| i in gone && i in info && info[i].Service().ip == ip;
      assert i in gone + {id};
    }
    if ip == info[id].Service().ip { assert id in gone + {id}; }
  }

  lemma {:induction false} LooseAfterDelete(st: Core, id: int)
    requires RandomOk(st.info, st.random) && id in st.info
    ensures Loose(Deleted(st, id).info) == Loose(st.info) - {id}
  {
    DeleteLeaves(st, id);
    forall i ensures i in Loose(Deleted(st, id).info) <==> i in Loose(st.info) - {id} {
      if i in st.info && i != id { assert i in (st.info - {id}); }
    }
  }

  /** No new entry lacks a reference. */
  ghost predicate NoneLoose(info: map<int, Info>) {
    forall id :: id in info ==> info[id].inTried || info[id].refCount != 0
  }

  /** The last loop of Unserialize: new entries without references are deleted. */
  method Prune(st0: Core, ghost h: Hasher, ghost key: nat) returns (st: Core)
    requires Loading(st0)
    ensures Loading(st) && NoneLoose(st.info) && (NoneLoose(st0.info) ==> st == st0)
    ensures st.nNew <= st0.nNew && st.nTried == st0.nTried
    ensures forall id :: id in st0.info && st0.info[id].inTried ==> id in st.info
    ensures PrunedTo(st0, st) && (Filed(h, key, st0, Loose(st0.info), 0) ==> Filed(h, key, st, {}, 0))
  {
    ghost var good, filed, gone: set<int> := NoneLoose(st0.info), Filed(h, key, st0, Loose(st0.info), 0), {};
    st := st0;
    NothingGone(st0);
    var todo := st.info.Keys;
    while todo != {}
      invariant Loading(st) && (good ==> st == st0) && st.nNew <= st0.nNew && st.nTried == st0.nTried
      invariant forall id :: id in todo ==> id in st.info
      invariant forall id :: id in st.info && id !in todo ==> st.info[id].inTried || st.info[id].refCount != 0
      invariant forall id :: id in st0.info && st0.info[id].inTried ==> id in st.info && st.info[id].inTried
      invariant filed ==> Filed(h, key, st, Loose(st.info), 0)
      invariant Without(st0, st, gone) && gone <= Loose(st0.info)
      invariant forall id :: id in todo ==> id in st0.info
      decreases |todo|
    {
      var id := AddrCheck.AnyOf(todo);
      if !st.info[id].inTried && st.info[id].refCount == 0 {
        DeleteLoading(st, id);
        DeleteLeaves(st, id);
        if filed { PruneTurn(h, key, st, id); }
        WithoutOneMore(st0, st, gone, id);
        EntryStays(st0, st, gone, id);
        st, gone := Deleted(st, id), gone + {id};
      }
      todo := todo - {id};
    }
    forall id ensures id !in Loose(st.info) {}
    assert Loose(st.info) == {};
    AllLooseGone(st0, st, gone);
  }

  lemma {:induction false} NothingGone(st: Core)
    ensures Without(st, st, {})
  {
    assert st.info - {} == st.info;
  }

  lemma {:induction false} EntryStays(st0: Core, st: Core, gone: set<int>, id: int)
    requires Without(st0, st, gone) && id in st.info && id in st0.info
    ensures id in Loose(st0.info) <==> id in Loose(st.info)
  {
    assert id in (st0.info - gone);
  }

  lemma {:induction false} AllLooseGone(st0: Core, st: Core, gone: set<int>)
    requires Without(st0, st, gone) && gone <= Loose(st0.info) && Loose(st.info) == {}
    ensures gone == Loose(st0.info)
  {
    forall id | id in st0.info && id !in gone ensures id !in Loose(st0.info) {
      assert id in (st0.info - gone) && id !in Loose(st.info);
    }
  }

  // ---------------------------------------------------------------- the result

  /**
   * The manager `c'` is `c` with its entries renumbered by `ord`: the same
   * tables, the same counts, and for each entry the same address, source,
   * statistics on disk, reference count and table.
   */
  ghost predicate SameUpToIds(c: Core, ord: seq<int>, c': Core)
    requires OrderOk(c, ord)
  {
    && c'.nNew == c.nNew && c'.nTried == c.nTried
    && (forall k :: k in c'.info <==> 0 <= k < |ord|)
    && (forall k :: 0 <= k < |ord| ==>
          c'.info[k] == Restored(c.info[ord[k]], k, c.info[ord[k]].refCount, c.info[ord[k]].inTried))
    && IsTable(c.newT, NEW_BUCKETS) && IsTable(c'.newT, NEW_BUCKETS)
    && (forall b, p :: InTable(c.newT, b, p) ==> Renumbers(ord, |ord|, At(c.newT, b, p), At(c'.newT, b, p)))
    && TriedRenamed(c, ord, |ord|, c'.tried)
  }

  lemma RefsRenamed(h: Hasher, key: nat, c: Core, ord: seq<int>, t: Table, k: nat, sv: Service)
    requires OrderOk(c, ord) && NewRenamed(c, ord, NEW_BUCKETS, 0, t) && k < |ord| && EMPTY !in c.info
    ensures Refs(h, key, t, k, sv) == Refs(h, key, c.newT, ord[k], sv)
  {
    WhereIs(ord, k);
    forall b ensures b in Refs(h, key, t, k, sv) <==> b in Refs(h, key, c.newT, ord[k], sv) {
      if 0 <= b < NEW_BUCKETS {
        var p := Position(h, key, true, b, sv);
        assert InTable(c.newT, b, p) && Read(c.newT[b], b, p, NEW_BUCKETS, 0);
        assert Renumbers(ord, |ord|, At(c.newT, b, p), At(t, b, p));
      }
    }
  }

  /** What has been read in full is the original up to the numbers. */
  lemma AllRead(h: Hasher, c: Core, ord: seq<int>, s: Stream, st: Core)
    requires Inv(h, s.key, c, {}, 0) && Progress(h, c, ord, s, NEW_BUCKETS, 0, st)
    requires TriedRenamed(c, ord, |ord|, st.tried)
    requires st.nNew == c.nNew && st.nTried == c.nTried
    ensures SameUpToIds(c, ord, st)
  {
    forall k | 0 <= k < |ord|
      ensures st.info[k] == Restored(c.info[ord[k]], k, c.info[ord[k]].refCount, c.info[ord[k]].inTried)
    {
      assert EntryAt(h, s.key, c, ord, st.info, st.newT, k);
      RefsRenamed(h, s.key, c, ord, st.newT, k, c.info[ord[k]].Service());
    }
    forall b, p | InTable(c.newT, b, p) ensures Renumbers(ord, |ord|, At(c.newT, b, p), At(st.newT, b, p)) {
      assert Read(c.newT[b], b, p, NEW_BUCKETS, 0);
    }
  }

  /** Renumbering keeps the invariant. */
  lemma ReadIsValid(h: Hasher, c: Core, ord: seq<int>, s: Stream, st: Core)
    requires Inv(h, s.key, c, {}, 0) && Progress(h, c, ord, s, NEW_BUCKETS, 0, st) && SameUpToIds(c, ord, st)
    ensures Inv(h, s.key, st, {}, 0)
  {
    ReadNewOk(h, s.key, c, ord, st);
    ReadRefsOk(h, s.key, c, ord, st);
    ReadTriedOk(h, s.key, c, ord, st);
    ReadCounts(c, ord, st);
  }

  lemma ReadNewOk(h: Hasher, key: nat, c: Core, ord: seq<int>, st: Core)
    requires OrderOk(c, ord) && NewOk(h, key, c.info, c.newT) && SameUpToIds(c, ord, st)
    ensures NewOk(h, key, st.info, st.newT)
  {
    forall b, p | InTable(st.newT, b, p) && At(st.newT, b, p) != EMPTY
      ensures At(st.newT, b, p) in st.info && Position(h, key, true, b, st.info[At(st.newT, b, p)].Service()) == p
    {
      assert InTable(c.newT, b, p) && Renumbers(ord, |ord|, At(c.newT, b, p), At(st.newT, b, p));
    }
  }

  lemma ReadRefsOk(h: Hasher, key: nat, c: Core, ord: seq<int>, st: Core)
    requires OrderOk(c, ord) && RefsOkIn(h, key, c) && SameUpToIds(c, ord, st)
    requires EntriesReferenced(h, key, c, ord, st)
    ensures RefsOk(h, key, st.info, st.newT, {})
  {
    forall k | k in st.info
      ensures st.info[k].refCount == |Refs(h, key, st.newT, k, st.info[k].Service())|
      ensures if st.info[k].inTried then st.info[k].refCount == 0
              else 1 <= st.info[k].refCount <= NEW_BUCKETS_PER_ADDRESS
    {
      assert 0 <= k < |ord| && EntryAt(h, key, c, ord, st.info, st.newT, k);
      var i := ord[k];
      assert i in c.info;
      assert st.info[k] == Restored(c.info[i], k, c.info[i].refCount, c.info[i].inTried);
      assert st.info[k].Service() == c.info[i].Service();
    }
  }

  ghost predicate RefsOkIn(h: Hasher, key: nat, c: Core) {
    IsTable(c.newT, NEW_BUCKETS) && RefsOk(h, key, c.info, c.newT, {})
  }

  lemma ReadTriedOk(h: Hasher, key: nat, c: Core, ord: seq<int>, st: Core)
    requires OrderOk(c, ord) && TriedOk(h, key, c.info, c.tried) && SameUpToIds(c, ord, st) && EMPTY !in c.info
    ensures TriedOk(h, key, st.info, st.tried)
  {
    forall b, p | InTable(st.tried, b, p) && At(st.tried, b, p) != EMPTY
      ensures At(st.tried, b, p) in st.info && st.info[At(st.tried, b, p)].inTried
        && TriedBucket(h, key, st.info[At(st.tried, b, p)].Service()) == b
        && Position(h, key, false, b, st.info[At(st.tried, b, p)].Service()) == p
    {
      assert InTable(c.tried, b, p) && Renumbers(ord, |ord|, At(c.tried, b, p), At(st.tried, b, p));
    }
    forall k | k in st.info && st.info[k].inTried
      ensures var slot := TriedSlot(h, key, st.info[k].Service()); At(st.tried, slot.0, slot.1) == k
    {
      var slot := TriedSlot(h, key, st.info[k].Service());
      WhereIs(ord, k);
      assert At(c.tried, slot.0, slot.1) == ord[k] && InTable(c.tried, slot.0, slot.1);
      assert Renumbers(ord, |ord|, ord[k], At(st.tried, slot.0, slot.1));
    }
  }

  lemma ReadCounts(c: Core, ord: seq<int>, st: Core)
    requires OrderOk(c, ord) && SameUpToIds(c, ord, st)
    ensures |NewIds(st.info)| == c.nNew && |TriedIds(st.info)| == c.nTried
  {
    var news, trieds := seq(c.nNew, i => i), seq(c.nTried, i => c.nNew + i);
    forall k ensures k in news <==> k in NewIds(st.info) {
      if 0 <= k < c.nNew { assert news[k] == k && !c.info[ord[k]].inTried; }
    }
    forall k ensures k in trieds <==> k in TriedIds(st.info) {
      if c.nNew <= k < |ord| { assert trieds[k - c.nNew] == k && c.info[ord[k]].inTried; }
    }
    AddrCheck.DistinctSize(news, NewIds(st.info));
    AddrCheck.DistinctSize(trieds, TriedIds(st.info));
  }

  // ---------------------------------------------------------------- there is room for every valid manager

  lemma TriedFits(h: Hasher, key: nat, c: Core)
    requires TriedOk(h, key, c.info, c.tried)
    ensures |TriedIds(c.info)| <= TRIED_BUCKETS * BUCKET_SIZE
  {
    var m := map id | id in TriedIds(c.info) ::
      TriedSlot(h, key, c.info[id].Service()).0 * BUCKET_SIZE + TriedSlot(h, key, c.info[id].Service()).1;
    forall x, y | x in m && y in m && x != y ensures m[x] != m[y] {
      var sx, sy := TriedSlot(h, key, c.info[x].Service()), TriedSlot(h, key, c.info[y].Service());
      assert At(c.tried, sx.0, sx.1) == x && At(c.tried, sy.0, sy.1) == y;
    }
    forall x ensures x in m.Keys <==> x in TriedIds(c.info) {}
    assert m.Keys == TriedIds(c.info);
    AddrCheck.InjectiveSize(m, TRIED_BUCKETS * BUCKET_SIZE);
  }

  ghost function SomeRef(refs: set<int>): (b: int)
    requires refs != {}
    ensures b in refs
  {
    assert exists b :: b in refs by { if forall y :: y !in refs { AddrCheck.NoMembers(refs); } }
    var b :| b in refs;
    b
  }

  /** The number of some new-table slot an entry stands in. */
  ghost function SlotNumber(h: Hasher, key: nat, c: Core, id: int): (k: int)
    requires NewOk(h, key, c.info, c.newT) && RefsOk(h, key, c.info, c.newT, {}) && id in NewIds(c.info)
    ensures 0 <= k < NEW_BUCKETS * BUCKET_SIZE
    ensures At(c.newT, k / BUCKET_SIZE, k % BUCKET_SIZE) == id
  {
    var refs := Refs(h, key, c.newT, id, c.info[id].Service());
    assert |refs| >= 1;
    var b := SomeRef(refs);
    b * BUCKET_SIZE + Position(h, key, true, b, c.info[id].Service())
  }

  lemma NewFits(h: Hasher, key: nat, c: Core)
    requires NewOk(h, key, c.info, c.newT) && RefsOk(h, key, c.info, c.newT, {})
    ensures |NewIds(c.info)| <= NEW_BUCKETS * BUCKET_SIZE
  {
    var m := map id | id in NewIds(c.info) :: SlotNumber(h, key, c, id);
    forall x ensures x in m.Keys <==> x in NewIds(c.info) {}
    assert m.Keys == NewIds(c.info);
    AddrCheck.InjectiveSize(m, NEW_BUCKETS * BUCKET_SIZE);
  }

  // ---------------------------------------------------------------- Unserialize

  datatype ReadError = IncorrectKeySize | NewExceedsLimit | TriedExceedsLimit | EndOfStream

  /** All three loops. */
  function Everything(h: Hasher, s: Stream): Core
    requires Readable(s)
  {
    EntriesReadIds(h, s);
    BucketsLoaded(h, s, Usable(s), Up(UsedBuckets(s)), EntriesRead(h, s))
  }

  /** Reading back what was written gives the original up to the numbers, before pruning and after. */
  lemma {:induction false} WrittenIsRead(h: Hasher, c: Core, ord: seq<int>, s: Stream)
    requires Readable(s) && Inv(h, s.key, c, {}, 0) && OrderOk(c, ord) && Writes(s.key, c, ord, s)
    ensures var st := Everything(h, s);
      SameUpToIds(c, ord, st) && Inv(h, s.key, st, {}, 0)
  {
    GoodStream(h, c, ord, s);
    var st0 := NewLoaded(h, s, true, s.nNew);
    var st1 := st0.(idCount := s.nNew, nNew := s.nNew, nTried := s.nTried);
    var st2 := EntriesRead(h, s);
    NewPartWritten(h, c, ord, s, st0, st1);
    TriedPartWritten(h, c, ord, s, st1, st2);
    EntriesReadIds(h, s);
    var st := Everything(h, s);
    BucketsWrittenLoaded(h, c, ord, s, st2);
    BucketsLeave(h, s, true, NEW_BUCKETS, st2);
    AllRead(h, c, ord, s, st);
    ReadIsValid(h, c, ord, s, st);
  }

  lemma {:induction false} NewPartWritten(h: Hasher, c: Core, ord: seq<int>, s: Stream, st0: Core, st1: Core)
    requires NewWritten(c, ord, s) && TriedWritten(h, c, ord, s)
    requires st0 == NewLoaded(h, s, true, s.nNew) && st1 == st0.(idCount := s.nNew, nNew := s.nNew, nTried := s.nTried)
    ensures TriedProgress(c, ord, 0, st1) && st1.newT == EmptyTable(NEW_BUCKETS)
  {
    NewLoadedWritten(h, c, ord, s, s.nNew);
    NothingTriedYet(c, ord, st0.tried);
  }

  lemma {:induction false} TriedPartWritten(h: Hasher, c: Core, ord: seq<int>, s: Stream, st1: Core, st2: Core)
    requires TriedWritten(h, c, ord, s) && BucketsWritten(h, c, ord, s) && TriedProgress(c, ord, 0, st1)
    requires st1.newT == EmptyTable(NEW_BUCKETS) && IsTable(st1.tried, TRIED_BUCKETS)
    requires st2 == TriedLoaded(h, s, st1, s.nTried)
    requires st1.nNew == s.nNew && st1.nTried == s.nTried
    ensures Progress(h, c, ord, s, 0, 0, st2) && TriedRenamed(c, ord, |ord|, st2.tried)
    ensures st2.nNew == c.nNew && st2.nTried == c.nTried
  {
    TriedLoadedWritten(h, c, ord, s, st1, s.nTried);
    TriedPartEnds(h, c, ord, s, st1, st2);
  }

  lemma {:induction false} TriedPartEnds(h: Hasher, c: Core, ord: seq<int>, s: Stream, st1: Core, st2: Core)
    requires BucketsWritten(h, c, ord, s) && TriedFrom(c, ord, st1, |ord| - c.nNew, st2)
    requires st1.newT == EmptyTable(NEW_BUCKETS)
    ensures Progress(h, c, ord, s, 0, 0, st2) && TriedRenamed(c, ord, |ord|, st2.tried)
  {
    BucketsStart(h, c, ord, s, st2);
  }

  lemma {:induction false} BucketsStart(h: Hasher, c: Core, ord: seq<int>, s: Stream, st: Core)
    requires BucketsWritten(h, c, ord, s) && EntriesLoaded(c, ord, |ord|, st) && st.newT == EmptyTable(NEW_BUCKETS)
    ensures Progress(h, c, ord, s, 0, 0, st)
  {
    NothingReferenced(h, s.key, c, ord, st);
    NothingReadYet(c, ord, st.newT);
  }

  ghost predicate SameTried(st: Core, st': Core) {
    st'.nNew == st.nNew && st'.nTried == st.nTried && st'.tried == st.tried
  }

  lemma {:induction false} BucketsLeave(h: Hasher, s: Stream, usable: bool, n: nat, st0: Core)
    requires n <= |s.buckets| && (usable ==> n <= NEW_BUCKETS) && CanPlace(s, st0)
    ensures SameTried(st0, BucketsLoaded(h, s, usable, n, st0))
  {
    var kept := (k: nat, st: Core) => SameTried(st0, st);
    forall k: nat, st: Core | kept(k, st) && k < n && CanPlace(s, st)
      ensures kept(k + 1, IndexesLoaded(h, s, usable, k, |s.buckets[k]|, st))
    {
      IndexesLeave(h, s, usable, k, st);
    }
    BucketInduction(h, s, usable, n, st0, kept);
  }

  lemma {:induction false} IndexesLeave(h: Hasher, s: Stream, usable: bool, bucket: nat, st0: Core)
    requires bucket < |s.buckets| && (usable ==> bucket < NEW_BUCKETS) && CanPlace(s, st0)
    ensures SameTried(st0, IndexesLoaded(h, s, usable, bucket, |s.buckets[bucket]|, st0))
  {
    var kept := (k: nat, st: Core) => SameTried(st0, st);
    forall k: nat, st: Core | kept(k, st) && k < |s.buckets[bucket]| && CanPlace(s, st)
      ensures kept(k + 1, IndexTurn(h, s, usable, bucket, s.buckets[bucket][k], st)) {}
    IndexInduction(h, s, usable, bucket, |s.buckets[bucket]|, st0, kept);
  }

  lemma {:induction false} EntriesReadIds(h: Hasher, s: Stream)
    requires Readable(s)
    ensures var st := EntriesRead(h, s);
      IsTable(st.newT, NEW_BUCKETS) && forall id :: 0 <= id < s.nNew ==> id in st.info
    ensures EntriesRead(h, s).nNew == s.nNew && EntriesRead(h, s).nTried <= s.nTried
  {
    var st := NewLoaded(h, s, Usable(s), Up(s.nNew));
    NewLoadedAreNew(h, s, Usable(s), Up(s.nNew));
    TriedLoadedLeaves(h, s, st.(idCount := s.nNew, nNew := s.nNew, nTried := s.nTried), Up(s.nTried));
  }

  lemma {:induction false} TriedLoadedLeaves(h: Hasher, s: Stream, st: Core, n: nat)
    requires n <= |s.triedInfos| && IsTable(st.tried, TRIED_BUCKETS)
    ensures var st' := TriedLoaded(h, s, st, n);
      && st'.newT == st.newT && st'.nNew == st.nNew && st'.nTried <= st.nTried
      && forall id :: id in st.info ==> id in st'.info
  {
    if n > 0 { TriedLoadedLeaves(h, s, st, n - 1); }
  }

  lemma {:induction false} EntriesLoading(h: Hasher, s: Stream)
    requires HasEntries(s)
    ensures Loading(EntriesRead(h, s)) && CanPlace(s, EntriesRead(h, s))
  {
    var st0 := NewLoaded(h, s, Usable(s), Up(s.nNew));
    NewLoadedAreNew(h, s, Usable(s), Up(s.nNew));
    NewLoadedLoading(h, s, Usable(s), Up(s.nNew));
    var st1 := st0.(idCount := s.nNew, nNew := s.nNew, nTried := s.nTried);
    TriedLoadedLoading(h, s, st1, Up(s.nTried));
    TriedLoadedLeaves(h, s, st1, Up(s.nTried));
  }

  /** The first two loops. */
  method ReadEntries(h: Hasher, s: Stream) returns (r: Option<Core>)
    ensures r == if HasEntries(s) then Some(EntriesRead(h, s)) else None
  {
    var n, st := LoadNew(h, s, Usable(s));
    if n < s.nNew { return None; }
    r := LoadTried(h, s, st.(idCount := s.nNew, nNew := s.nNew));
  }

  /** Unserialize up to pruning. */
  method ReadEverything(h: Hasher, s: Stream) returns (r: Result<Core, ReadError>)
    ensures s.keySize != KEY_SIZE ==> r == Err(IncorrectKeySize)
    ensures if Readable(s) then r == Ok(Everything(h, s)) && Loading(r.value) else r.Err?
  {
    if s.keySize != KEY_SIZE { return Err(IncorrectKeySize); }
    if s.nNew > NEW_BUCKETS * BUCKET_SIZE { return Err(NewExceedsLimit); }
    if s.nTried > TRIED_BUCKETS * BUCKET_SIZE { return Err(TriedExceedsLimit); }
    var loaded := ReadEntries(h, s);
    if loaded.None? { return Err(EndOfStream); }
    EntriesLoading(h, s);
    loaded := LoadBuckets(h, s, Usable(s), UsedBuckets(s), loaded.value);
    if loaded.None? { return Err(EndOfStream); }
    r := Ok(loaded.value);
  }

  /**
   * Unserialize, into a new manager with the key of the stream.  It succeeds exactly when all that is announced is
   * there and within the limits.  The result is a valid manager exactly when no count is negative and every entry
   * that shares its network address with another is pruned; that is so when no address is repeated.
   */
  method Unserialize(h: Hasher, s: Stream) returns (r: Result<Core, ReadError>)
    ensures s.keySize != KEY_SIZE ==> r == Err(IncorrectKeySize)
    ensures r.Ok? <==> Readable(s)
    ensures r.Ok? ==>
      (Inv(h, s.key, r.value, {}, 0) <==> 0 <= s.nNew && 0 <= s.nTried && RepeatsPruned(Everything(h, s).info))
    ensures r.Ok? && DistinctIps(Announced(s)) ==> (Inv(h, s.key, r.value, {}, 0) <==> 0 <= s.nNew && 0 <= s.nTried)
    ensures r.Ok? && NoneLoose(Everything(h, s).info) ==> r.value == Everything(h, s)
    ensures r.Ok? ==> forall id :: id in Everything(h, s).info && Everything(h, s).info[id].inTried ==>
      id in r.value.info
  {
    r := ReadEverything(h, s);
    if r.Ok? {
      var st := Prune(r.value, h, s.key);
      ReadIsValidIff(h, s, st);
      if 0 <= s.nNew && 0 <= s.nTried { DistinctIsRead(h, s); }
      r := Ok(st);
    }
  }

  lemma {:induction false} ReadIsValidIff(h: Hasher, s: Stream, st: Core)
    requires Readable(s)
    requires var all := Everything(h, s);
      && st.nNew <= all.nNew && st.nTried == all.nTried && PrunedTo(all, st)
      && (Filed(h, s.key, all, Loose(all.info), 0) ==> Filed(h, s.key, st, {}, 0))
    ensures Inv(h, s.key, st, {}, 0) <==> 0 <= s.nNew && 0 <= s.nTried && RepeatsPruned(Everything(h, s).info)
  {
    EntriesReadIds(h, s);
    var entries, all := EntriesRead(h, s), Everything(h, s);
    BucketsLeave(h, s, Usable(s), Up(UsedBuckets(s)), entries);
    if 0 <= s.nNew && 0 <= s.nTried {
      EverythingFiled(h, s);
      PrunedAddrOk(all, st);
    }
  }

  lemma {:induction false} EverythingFiled(h: Hasher, s: Stream)
    requires Readable(s) && 0 <= s.nNew && 0 <= s.nTried
    ensures var all := Everything(h, s);
      Filed(h, s.key, all, Loose(all.info), 0) && AddrAt(Announced(s), |Announced(s)|, all)
  {
    EntriesReadIds(h, s);
    EntriesFiled(h, s, EntriesRead(h, s));
    BucketsFiled(h, s, Usable(s), Up(UsedBuckets(s)), EntriesRead(h, s));
    EntriesAddr(h, s);
    BucketsAddr(h, s, Usable(s), Up(UsedBuckets(s)), EntriesRead(h, s), Announced(s), |Announced(s)|);
  }

  lemma {:induction false} DistinctIsRead(h: Hasher, s: Stream)
    requires Readable(s) && 0 <= s.nNew && 0 <= s.nTried
    ensures DistinctIps(Announced(s)) ==> RepeatsPruned(Everything(h, s).info)
  {
    EverythingFiled(h, s);
    if DistinctIps(Announced(s)) { DistinctIsPruned(Everything(h, s).info, Everything(h, s).addr); }
  }

  lemma GoodStream(h: Hasher, c: Core, ord: seq<int>, s: Stream)
    requires Inv(h, s.key, c, {}, 0) && OrderOk(c, ord) && Writes(s.key, c, ord, s)
    ensures NewWritten(c, ord, s) && TriedWritten(h, c, ord, s) && BucketsWritten(h, c, ord, s)
    ensures Readable(s) && Usable(s) && 0 <= s.nNew && 0 <= s.nTried
  {
    EntriesAreWritten(h, c, ord, s);
    BucketsAreWritten(h, c, ord, s);
    CountsFit(h, s.key, c);
    StreamIsReadable(c, ord, s);
  }

  lemma EntriesAreWritten(h: Hasher, c: Core, ord: seq<int>, s: Stream)
    requires AddrOk(c.info, c.addr) && TriedOk(h, s.key, c.info, c.tried) && EMPTY !in c.info
    requires OrderOk(c, ord) && IsTable(c.newT, NEW_BUCKETS) && Writes(s.key, c, ord, s)
    ensures NewWritten(c, ord, s) && TriedWritten(h, c, ord, s)
  {}

  lemma BucketsAreWritten(h: Hasher, c: Core, ord: seq<int>, s: Stream)
    requires NewOk(h, s.key, c.info, c.newT) && RefsOk(h, s.key, c.info, c.newT, {}) && EMPTY !in c.info
    requires OrderOk(c, ord) && Writes(s.key, c, ord, s)
    ensures BucketsWritten(h, c, ord, s)
  {}

  lemma CountsFit(h: Hasher, key: nat, c: Core)
    requires Inv(h, key, c, {}, 0)
    ensures 0 <= c.nNew <= NEW_BUCKETS * BUCKET_SIZE && 0 <= c.nTried <= TRIED_BUCKETS * BUCKET_SIZE
  {
    TriedFits(h, key, c);
    NewFits(h, key, c);
  }

  lemma StreamIsReadable(c: Core, ord: seq<int>, s: Stream)
    requires OrderOk(c, ord) && IsTable(c.newT, NEW_BUCKETS) && Writes(s.key, c, ord, s)
    requires 0 <= c.nNew <= NEW_BUCKETS * BUCKET_SIZE && 0 <= c.nTried <= TRIED_BUCKETS * BUCKET_SIZE
    ensures Readable(s) && Usable(s) && 0 <= s.nNew && 0 <= s.nTried
  {}

  lemma NothingTriedYet(c: Core, ord: seq<int>, t: Table)
    requires OrderOk(c, ord) && IsTable(c.tried, TRIED_BUCKETS) && t == EmptyTable(TRIED_BUCKETS)
    requires forall b, p :: InTable(c.tried, b, p) && At(c.tried, b, p) != EMPTY ==>
      At(c.tried, b, p) in c.info && c.info[At(c.tried, b, p)].inTried
    ensures TriedRenamed(c, ord, c.nNew, t)
  {
    forall b, p | InTable(c.tried, b, p) ensures Renumbers(ord, c.nNew, At(c.tried, b, p), At(t, b, p)) {
      assert InTable(t, b, p);
    }
  }

  lemma NothingReadYet(c: Core, ord: seq<int>, t: Table)
    requires IsTable(c.newT, NEW_BUCKETS) && t == EmptyTable(NEW_BUCKETS)
    ensures NewRenamed(c, ord, 0, 0, t)
  {
    forall b, p | InTable(c.newT, b, p)
      ensures !Read(c.newT[b], b, p, 0, 0) && At(t, b, p) == EMPTY
    {
      assert InTable(t, b, p);
    }
  }

  /** Writing a valid manager and reading it back loses nothing: the result is valid, and the same up to the ids. */
  method RoundTrip(h: Hasher, key: nat, c: Core) returns (c': Core, ghost ord: seq<int>)
    requires Inv(h, key, c, {}, 0)
    ensures OrderOk(c, ord) && SameUpToIds(c, ord, c') && Inv(h, key, c', {}, 0)
  {
    var s;
    s, ord := Serialize(h, key, c);
    GoodStream(h, c, ord, s);
    WrittenIsRead(h, c, ord, s);
    InvNoneLoose(h, key, Everything(h, s));
    var r := Unserialize(h, s);
    c' := r.value;
  }

  lemma {:induction false} InvNoneLoose(h: Hasher, key: nat, c: Core)
    requires Inv(h, key, c, {}, 0)
    ensures NoneLoose(c.info)
  {}

  // ---------------------------------------------------------------- streams of another format

  /** The positions of the new table were written by another version or for another number of buckets. */
  predicate OtherFormat(s: Stream) {
    s.version != 1 || (if (s.nUBuckets / TWO30) % 2 == 0 then s.nUBuckets + TWO30 else s.nUBuckets - TWO30) != 1024
  }

  /** An entry has a reference if and only if it stands in the slot of its first source, and that slot is taken. */
  ghost predicate HomeOrNone(h: Hasher, key: nat, st: Core, id: int)
    requires IsTable(st.newT, NEW_BUCKETS) && id in st.info
  {
    var slot := HomeSlot(h, key, st.info[id]);
    && At(st.newT, slot.0, slot.1) != EMPTY
    && st.info[id].refCount == if At(st.newT, slot.0, slot.1) == id then 1 else 0
  }

  /** After n entries: their slots are taken by entries among them. */
  ghost predicate HomesTaken(h: Hasher, key: nat, n: nat, st: Core) {
    && IsTable(st.newT, NEW_BUCKETS) && (forall id :: id in st.info <==> 0 <= id < n)
    && (forall b, p :: InTable(st.newT, b, p) ==> At(st.newT, b, p) < n)
    && forall id :: id in st.info ==> HomeOrNone(h, key, st, id)
  }

  lemma {:induction false} HomeTurn(h: Hasher, key: nat, n: nat, st: Core, p: Persistent)
    requires HomesTaken(h, key, n, st) && st.idCount == n
    ensures HomesTaken(h, key, n + 1, NewTurn(h, key, false, st, p))
  {
    var st1, st' := Appended(st, Loaded(p)), NewTurn(h, key, false, st, p);
    forall id | id in st'.info ensures HomeOrNone(h, key, st', id) {
      if id < n { assert HomeOrNone(h, key, st, id); }
    }
  }

  lemma {:induction false} HomesLoaded(h: Hasher, s: Stream, n: nat)
    requires n <= |s.newInfos|
    ensures HomesTaken(h, s.key, n, NewLoaded(h, s, false, n))
  {
    var kept := (k: nat, st: Core) => HomesTaken(h, s.key, k, st);
    forall k: nat, st: Core | kept(k, st) && k < n && IsTable(st.newT, NEW_BUCKETS) && st.idCount == k
      ensures kept(k + 1, NewTurn(h, s.key, false, st, s.newInfos[k]))
    {
      HomeTurn(h, s.key, k, st, s.newInfos[k]);
    }
    NewInduction(h, s, false, n, kept);
  }

  lemma {:induction false} BucketsIgnored(h: Hasher, s: Stream, n: nat, st: Core)
    requires n <= |s.buckets| && CanPlace(s, st)
    ensures BucketsLoaded(h, s, false, n, st) == st
  {
    if n > 0 {
      BucketsIgnored(h, s, n - 1, st);
      IndexesIgnored(h, s, n - 1, |s.buckets[n - 1]|, st);
    }
  }

  lemma {:induction false} IndexesIgnored(h: Hasher, s: Stream, bucket: nat, n: nat, st: Core)
    requires bucket < |s.buckets| && n <= |s.buckets[bucket]| && CanPlace(s, st)
    ensures IndexesLoaded(h, s, false, bucket, n, st) == st
  {
    if n > 0 { IndexesIgnored(h, s, bucket, n - 1, st); }
  }

  /**
   * Positions in another format are ignored: then a new entry gets a reference if and only if it is the one that took
   * the slot of its first source, and the others are pruned.
   */
  lemma {:induction false} OtherFormatIsRehashed(h: Hasher, s: Stream)
    requires Readable(s) && OtherFormat(s) && 0 <= s.nNew
    ensures Everything(h, s) == EntriesRead(h, s) && HomesTaken(h, s.key, s.nNew, NewLoaded(h, s, false, s.nNew))
    ensures Everything(h, s).newT == NewLoaded(h, s, false, s.nNew).newT
  {
    EntriesReadIds(h, s);
    BucketsIgnored(h, s, Up(UsedBuckets(s)), EntriesRead(h, s));
    HomesLoaded(h, s, s.nNew);
    var st := NewLoaded(h, s, false, s.nNew);
    TriedLoadedLeaves(h, s, st.(idCount := s.nNew, nNew := s.nNew, nTried := s.nTried), Up(s.nTried));
  }

  /** A stream whose buckets list nothing. */
  function Unlisted(key: nat, nNew: int, newInfos: seq<Persistent>, triedInfos: seq<Persistent>): Stream {
    Stream(1, KEY_SIZE, key, nNew, |triedInfos|, FlipBit30(NEW_BUCKETS), newInfos, triedInfos,
           seq(NEW_BUCKETS, _ => []))
  }

  lemma {:induction false} UnlistedIsRead(h: Hasher, s: Stream)
    requires Readable(s) && forall b :: 0 <= b < |s.buckets| ==> s.buckets[b] == []
    ensures Everything(h, s) == EntriesRead(h, s)
  {
    EntriesReadIds(h, s);
    NothingPlaced(h, s, Usable(s), Up(UsedBuckets(s)), EntriesRead(h, s));
  }

  lemma {:induction false} NothingPlaced(h: Hasher, s: Stream, usable: bool, n: nat, st: Core)
    requires n <= |s.buckets| && (usable ==> n <= NEW_BUCKETS) && CanPlace(s, st)
    requires forall b :: 0 <= b < n ==> s.buckets[b] == []
    ensures BucketsLoaded(h, s, usable, n, st) == st
  {
    if n > 0 { NothingPlaced(h, s, usable, n - 1, st); }
  }

  /** The second loop on one or two entries. */
  lemma {:induction false} TriedLoop(h: Hasher, s: Stream, st: Core)
    requires IsTable(st.tried, TRIED_BUCKETS)
    ensures |s.triedInfos| >= 1 ==> TriedLoaded(h, s, st, 1) == TriedTurn(h, s.key, st, s.triedInfos[0])
    ensures |s.triedInfos| >= 2 ==>
      TriedLoaded(h, s, st, 2) == TriedTurn(h, s.key, TriedTurn(h, s.key, st, s.triedInfos[0]), s.triedInfos[1])
  {
    assert TriedLoaded(h, s, st, 0) == st;
  }

  /** A negative count is accepted; the tried entry gets the id that marks an empty slot. */
  method NegativeCountIsRead(h: Hasher, key: nat, p: Persistent) returns (s: Stream, c: Core)
    ensures Readable(s) && DistinctIps(Announced(s)) && s.nNew == -1
    ensures EMPTY in c.info && !Inv(h, key, c, {}, 0)
  {
    s := Unlisted(key, -1, [], [p]);
    var r := Unserialize(h, s);
    OnlyTriedEntry(h, s);
    c := r.value;
  }

  lemma {:induction false} OnlyTriedEntry(h: Hasher, s: Stream)
    requires Readable(s) && s.nNew == -1 && s.nTried == 1 && forall b :: 0 <= b < |s.buckets| ==> s.buckets[b] == []
    ensures EMPTY in Everything(h, s).info && Everything(h, s).info[EMPTY].inTried
  {
    var st := EmptyCore().(idCount := -1, nNew := -1, nTried := 1);
    assert NewLoaded(h, s, Usable(s), 0) == EmptyCore();
    TriedLoop(h, s, st);
    assert EntriesRead(h, s) == TriedTurn(h, s.key, st, s.triedInfos[0]);
    UnlistedIsRead(h, s);
  }

  /** An address announced as new, without a place, and as tried: pruning takes the address of the tried entry. */
  method RepeatLosesAddress(h: Hasher, key: nat, p: Persistent) returns (s: Stream, c: Core)
    ensures Readable(s) && s.nNew == s.nTried == 1 && s.newInfos == s.triedInfos == [p]
    ensures !Inv(h, key, c, {}, 0)
  {
    s := Unlisted(key, 1, [p], [p]);
    var r := Unserialize(h, s);
    NewAndTried(h, s);
    c := r.value;
  }

  lemma {:induction false} NewAndTried(h: Hasher, s: Stream)
    requires Readable(s) && Usable(s) && s.nNew == 1 && s.nTried == 1 && s.newInfos[0] == s.triedInfos[0]
    requires forall b :: 0 <= b < |s.buckets| ==> s.buckets[b] == []
    ensures !RepeatsPruned(Everything(h, s).info)
  {
    var st0 := NewLoaded(h, s, true, 0);
    assert st0 == EmptyCore();
    var st := NewTurn(h, s.key, true, st0, s.newInfos[0]).(idCount := 1, nNew := 1, nTried := 1);
    assert NewLoaded(h, s, true, 1) == NewTurn(h, s.key, true, st0, s.newInfos[0]);
    TriedLoop(h, s, st);
    var all := TriedTurn(h, s.key, st, s.triedInfos[0]);
    assert EntriesRead(h, s) == all;
    UnlistedIsRead(h, s);
    assert 0 in all.info && 1 in all.info && 1 !in Loose(all.info);
  }

  /** A tried entry that is announced twice is read once, and the manager is valid. */
  method RepeatIsDropped(h: Hasher, key: nat, p: Persistent) returns (s: Stream, c: Core)
    ensures Readable(s) && s.nNew == 0 && s.nTried == 2 && s.triedInfos == [p, p]
    ensures Inv(h, key, c, {}, 0)
  {
    s := Unlisted(key, 0, [], [p, p]);
    var r := Unserialize(h, s);
    TriedTwice(h, s);
    c := r.value;
  }

  lemma {:induction false} TriedTwice(h: Hasher, s: Stream)
    requires Readable(s) && s.nNew == 0 && s.nTried == 2 && s.triedInfos[0] == s.triedInfos[1]
    requires forall b :: 0 <= b < |s.buckets| ==> s.buckets[b] == []
    ensures RepeatsPruned(Everything(h, s).info)
  {
    var st := EmptyCore().(idCount := 0, nNew := 0, nTried := 2);
    assert NewLoaded(h, s, Usable(s), 0) == EmptyCore();
    TriedLoop(h, s, st);
    var st1 := TriedTurn(h, s.key, st, s.triedInfos[0]);
    var all := TriedTurn(h, s.key, st1, s.triedInfos[1]);
    assert EntriesRead(h, s) == all;
    UnlistedIsRead(h, s);
    assert all.info.Keys == {0};
  }
}
