// Compact block reconstruction, src/blockencodings.cpp and src/blockencodings.h (BIP 152): prefilled transactions,
// short identifiers for the others, and what a mempool can supply for them.
module CompactBlocks {
  import opened Wrappers

  const UINT32: int := 0x1_0000_0000

  /** Truncation to 32 bits. */
  function Wrap(x: int): (r: nat)
    ensures r < UINT32
  {
    x % 0x1_0000_0000
  }

  /** Truncation to 64 bits. */
  function Wrap64(x: int): nat { x % 0x1_0000_0000_0000_0000 }

  datatype Tx = Tx(hash: nat, isNull: bool)

  /** A prefilled transaction, with its offset from the one before. */
  datatype Prefilled = Prefilled(index: nat, tx: Tx)

  /**
   * A header and short transaction identifiers; a null header is None. shortId stands for GetShortID under its keys.
   */
  datatype Compact = Compact(header: Option<nat>, shortIds: seq<nat>, prefilled: seq<Prefilled>, shortId: nat -> nat)
  {
    function BlockTxCount(): nat { |shortIds| + |prefilled| }

    predicate IndicesFit() { forall i :: 0 <= i < |prefilled| ==> prefilled[i].index < UINT32 }
  }

  datatype Status = Fine | Invalid | Failed

  type Slots = seq<Option<Tx>>

  // ---------------------------------------------------------------- empty slots

  function CountSome(a: Slots, n: nat): (r: nat)
    requires n <= |a|
    ensures r <= n
  {
    if n == 0 then 0 else CountSome(a, n - 1) + if a[n - 1].Some? then 1 else 0
  }

  /** The positions below n that hold nothing, in order. */
  function Empty(a: Slots, n: nat): (s: seq<nat>)
    requires n <= |a|
    ensures |s| == n - CountSome(a, n)
    ensures forall k :: 0 <= k < |s| ==> s[k] < n && a[s[k]].None?
  {
    if n == 0 then [] else Empty(a, n - 1) + if a[n - 1].None? then [n - 1] else []
  }

  lemma {:induction false} EmptyAscends(a: Slots, n: nat)
    requires n <= |a|
    ensures forall j, k :: 0 <= j < k < |Empty(a, n)| ==> Empty(a, n)[j] < Empty(a, n)[k]
  {
    if n > 0 { EmptyAscends(a, n - 1); }
  }

  lemma {:induction false} EmptyComplete(a: Slots, n: nat, p: nat)
    requires p < n <= |a| && a[p].None?
    ensures p in Empty(a, n)
  {
    var before := Empty(a, n - 1);
    if p < n - 1 {
      EmptyComplete(a, n - 1, p);
      var k :| 0 <= k < |before| && before[k] == p;
      assert Empty(a, n)[k] == p;
    } else {
      assert Empty(a, n) == before + [p];
    }
  }

  lemma {:induction false} CountAfterPut(a: Slots, p: nat, t: Tx, n: nat)
    requires p < |a| && n <= |a|
    ensures CountSome(a[p := Some(t)], n) == CountSome(a, n) + if p < n && a[p].None? then 1 else 0
  {
    if n > 0 { CountAfterPut(a, p, t, n - 1); }
  }

  lemma {:induction false} CountNone(a: Slots, n: nat)
    requires n <= |a| && forall i :: 0 <= i < n ==> a[i].None?
    ensures CountSome(a, n) == 0
  {
    if n > 0 { CountNone(a, n - 1); }
  }

  // ---------------------------------------------------------------- prefilled transactions

  /** Offsets plus one are added up as 32-bit numbers, so the largest adds nothing. */
  function Step(index: nat): int { Wrap(index + 1) }

  /** The index of the n-th prefilled transaction. */
  function PrefilledAt(p: seq<Prefilled>, n: nat): int
    requires n <= |p|
  {
    if n == 0 then -1 else PrefilledAt(p, n - 1) + Step(p[n - 1].index)
  }

  predicate OffsetsSmall(p: seq<Prefilled>) { forall i :: 0 <= i < |p| ==> p[i].index < UINT32 - 1 }

  /** With offsets below the largest, the indices are strictly increasing. */
  lemma {:induction false} PrefilledAscends(p: seq<Prefilled>, i: nat, j: nat)
    requires OffsetsSmall(p) && i < j <= |p|
    ensures PrefilledAt(p, i) < PrefilledAt(p, j)
  {
    if i < j - 1 { PrefilledAscends(p, i, j - 1); }
  }

  ghost predicate Ascending(p: seq<Prefilled>) {
    forall i, j :: 0 <= i < j <= |p| ==> PrefilledAt(p, i) < PrefilledAt(p, j)
  }

  /** And only then. */
  lemma {:induction false} AscendingIffSmall(p: seq<Prefilled>)
    requires forall i :: 0 <= i < |p| ==> p[i].index < UINT32
    ensures Ascending(p) <==> OffsetsSmall(p)
  {
    if OffsetsSmall(p) {
      forall i, j | 0 <= i < j <= |p| ensures PrefilledAt(p, i) < PrefilledAt(p, j) { PrefilledAscends(p, i, j); }
    }
    if Ascending(p) {
      forall i | 0 <= i < |p| ensures p[i].index < UINT32 - 1 { assert PrefilledAt(p, i) < PrefilledAt(p, i + 1); }
    }
  }

  /** The last of the first n prefilled transactions that goes to position q. */
  function PutAt(p: seq<Prefilled>, n: nat, q: nat): Option<Tx>
    requires n <= |p|
  {
    if n == 0 then None else if PrefilledAt(p, n) == q then Some(p[n - 1].tx) else PutAt(p, n - 1, q)
  }

  /** With strictly increasing indices, each prefilled transaction keeps its place. */
  lemma {:induction false} PutAtIs(p: seq<Prefilled>, i: nat, n: nat)
    requires OffsetsSmall(p) && 1 <= i <= n <= |p| && PrefilledAt(p, i) >= 0
    ensures PutAt(p, n, PrefilledAt(p, i)) == Some(p[i - 1].tx)
  {
    if i < n {
      PrefilledAscends(p, i, n);
      PutAtIs(p, i, n - 1);
    }
  }

  ghost predicate Placed(a: Slots, p: seq<Prefilled>, n: nat) {
    n <= |p| && CountSome(a, |a|) <= n && forall q :: 0 <= q < |a| ==> a[q] == PutAt(p, n, q)
  }

  /**
   * The i-th prefilled transaction is there, and lies no further than the transactions before it and all identifiers
   * reach.
   */
  predicate PrefilledOk(c: Compact, i: nat)
    requires i < |c.prefilled|
  {
    !c.prefilled[i].tx.isNull && 0 <= PrefilledAt(c.prefilled, i + 1) <= |c.shortIds| + i
  }

  predicate AllPrefilledOk(c: Compact) { forall i :: 0 <= i < |c.prefilled| ==> PrefilledOk(c, i) }

  /** Offsets 0 and 2^32 - 1 are accepted; both transactions go to the first slot, and the second one stays. */
  lemma {:induction false} TwoForOneSlot(ids: seq<nat>, t0: Tx, t1: Tx, shortId: nat -> nat)
    requires !t0.isNull && !t1.isNull
    ensures var c := Compact(Some(0), ids, [Prefilled(0, t0), Prefilled(UINT32 - 1, t1)], shortId);
      && c.IndicesFit() && AllPrefilledOk(c) && !Ascending(c.prefilled)
      && PutAt(c.prefilled, 1, 0) == Some(t0) && PutAt(c.prefilled, 2, 0) == Some(t1)
      && forall q: nat :: q > 0 ==> PutAt(c.prefilled, 2, q) == None
  {
    var p := [Prefilled(0, t0), Prefilled(UINT32 - 1, t1)];
    assert PrefilledAt(p, 0) == -1 && PrefilledAt(p, 1) == 0 && PrefilledAt(p, 2) == 0;
    forall q: nat | q > 0 ensures PutAt(p, 2, q) == None { assert PutAt(p, 0, q) == None && PutAt(p, 1, q) == None; }
  }

  /** The first loop of InitData never writes out of range, as long as the number of transactions fits 32 bits. */
  method PlacePrefilled(c: Compact) returns (status: Status, a: Slots)
    requires c.IndicesFit() && c.BlockTxCount() < UINT32
    ensures status == (if AllPrefilledOk(c) then Fine else Invalid) && |a| == c.BlockTxCount()
    ensures status == Fine ==> Placed(a, c.prefilled, |c.prefilled|)
  {
    a := seq(c.BlockTxCount(), _ => None);
    CountNone(a, |a|);
    var last := -1;
    for i := 0 to |c.prefilled|
      invariant |a| == c.BlockTxCount() && last == PrefilledAt(c.prefilled, i) >= -1 && Placed(a, c.prefilled, i)
      invariant forall j :: 0 <= j < i ==> PrefilledOk(c, j)
    {
      assert PrefilledOk(c, i) <==>
        !c.prefilled[i].tx.isNull && 0 <= PrefilledAt(c.prefilled, i + 1) <= |c.shortIds| + i;
      if c.prefilled[i].tx.isNull { return Invalid, a; }
      last := last + Wrap(c.prefilled[i].index + 1);
      if last > UINT32 - 1 { return Invalid, a; }
      if Wrap(last) > |c.shortIds| + i { return Invalid, a; }
      assert 0 <= last < |a|;
      PlacedStep(a, c.prefilled, i, last);
      a := a[last := Some(c.prefilled[i].tx)];
    }
    status := Fine;
  }

  lemma PlacedStep(a: Slots, p: seq<Prefilled>, n: nat, q: nat)
    requires Placed(a, p, n) && n < |p| && q == PrefilledAt(p, n + 1) < |a|
    ensures Placed(a[q := Some(p[n].tx)], p, n + 1)
  {
    CountAfterPut(a, q, p[n].tx, |a|);
  }

  // ---------------------------------------------------------------- short identifiers

  /**
   * The map that InitData builds: the k-th short identifier belongs to the k-th empty slot, later ones over earlier
   * ones.
   */
  function MapUpTo(ids: seq<nat>, slots: seq<nat>, n: nat): map<nat, nat>
    requires n <= |ids| && n <= |slots|
  {
    if n == 0 then map[] else MapUpTo(ids, slots, n - 1)[ids[n - 1] := slots[n - 1]]
  }

  /** If no entry was lost, identifiers are distinct, and each is mapped to its own slot. */
  ghost predicate MappedWell(m: map<nat, nat>, ids: seq<nat>, slots: seq<nat>, n: nat) {
    && n <= |ids| && n <= |slots| && |m| == n
    && (forall x :: x in m ==> x in ids[..n])
    && (forall k :: 0 <= k < n ==> ids[k] in m && m[ids[k]] == slots[k])
  }

  lemma MapSize(m: map<nat, nat>, x: nat, v: nat)
    ensures |m[x := v]| == if x in m then |m| else |m| + 1
  {
    assert m[x := v].Keys == m.Keys + {x};
  }

  lemma MappedNext(m: map<nat, nat>, ids: seq<nat>, slots: seq<nat>, n: nat)
    requires MappedWell(m, ids, slots, n) && n < |ids| && n < |slots| && ids[n] !in m
    ensures MappedWell(m[ids[n] := slots[n]], ids, slots, n + 1)
  {
    MapSize(m, ids[n], slots[n]);
    assert ids[..n + 1] == ids[..n] + [ids[n]];
  }

  lemma {:induction false} NoneLost(ids: seq<nat>, slots: seq<nat>, n: nat)
    requires n <= |ids| && n <= |slots|
    ensures |MapUpTo(ids, slots, n)| <= n
    ensures |MapUpTo(ids, slots, n)| == n ==> MappedWell(MapUpTo(ids, slots, n), ids, slots, n)
  {
    if n > 0 {
      NoneLost(ids, slots, n - 1);
      var m := MapUpTo(ids, slots, n - 1);
      MapSize(m, ids[n - 1], slots[n - 1]);
      if |m| == n - 1 && ids[n - 1] !in m { MappedNext(m, ids, slots, n - 1); }
    }
  }

  ghost predicate DistinctIds(ids: seq<nat>) { forall j, k :: 0 <= j < k < |ids| ==> ids[j] != ids[k] }

  /** No bucket is crowded in the maps that are built on the way. */
  ghost predicate NeverCrowded(crowded: (map<nat, nat>, nat) -> bool, ids: seq<nat>, slots: seq<nat>) {
    |ids| <= |slots| && forall i :: 0 <= i < |ids| ==> !CrowdedAt(crowded, ids, slots, i)
  }

  predicate CrowdedAt(crowded: (map<nat, nat>, nat) -> bool, ids: seq<nat>, slots: seq<nat>, i: nat)
    requires i < |ids| && i < |slots|
  {
    crowded(MapUpTo(ids, slots, i + 1), ids[i])
  }

  lemma {:induction false} AllKept(ids: seq<nat>, slots: seq<nat>, n: nat)
    requires n <= |ids| && n <= |slots| && DistinctIds(ids)
    ensures |MapUpTo(ids, slots, n)| == n
  {
    if n > 0 {
      AllKept(ids, slots, n - 1);
      NoneLost(ids, slots, n - 1);
      var m := MapUpTo(ids, slots, n - 1);
      assert ids[n - 1] !in ids[..n - 1];
      MapSize(m, ids[n - 1], slots[n - 1]);
    }
  }

  lemma {:induction false} MappedIffDistinct(ids: seq<nat>, a: Slots)
    requires |ids| <= |Empty(a, |a|)|
    ensures var slots := Empty(a, |a|);
      var m := MapUpTo(ids, slots, |ids|);
      (|m| == |ids| <==> DistinctIds(ids)) && (|m| == |ids| ==> MappedWell(m, ids, slots, |ids|))
  {
    var slots := Empty(a, |a|);
    EmptyAscends(a, |a|);
    var m := MapUpTo(ids, slots, |ids|);
    if DistinctIds(ids) { AllKept(ids, slots, |ids|); }
    NoneLost(ids, slots, |ids|);
    if |m| == |ids| { IdsDistinct(m, ids, slots); }
  }

  /** The next empty slot from a position on. */
  method NextEmpty(a: Slots, start: nat, ghost i: nat) returns (pos: nat)
    requires i < |Empty(a, |a|)| && start == if i == 0 then 0 else Empty(a, |a|)[i - 1] + 1
    ensures start <= pos == Empty(a, |a|)[i]
  {
    ghost var slots := Empty(a, |a|);
    EmptyAscends(a, |a|);
    pos := start;
    while a[pos].Some?
      invariant start <= pos <= slots[i]
      decreases slots[i] - pos
    {
      pos := pos + 1;
    }
    FirstEmpty(a, i, pos);
  }

  /** The second loop of InitData: it stays in range because at most |prefilled| slots are taken. */
  method MapShortIds(c: Compact, a: Slots, crowded: (map<nat, nat>, nat) -> bool) returns (status: Status, m: map<nat,
                     nat>)
    requires |a| == c.BlockTxCount() && CountSome(a, |a|) <= |c.prefilled|
    ensures status != Invalid && (status == Fine ==> MappedWell(m, c.shortIds, Empty(a, |a|), |c.shortIds|))
    ensures status == Fine <==> NeverCrowded(crowded, c.shortIds, Empty(a, |a|)) && DistinctIds(c.shortIds)
    ensures status == Fine ==> m == MapUpTo(c.shortIds, Empty(a, |a|), |c.shortIds|)
  {
    ghost var slots := Empty(a, |a|);
    m := map[];
    var offset := 0;
    for i := 0 to |c.shortIds|
      invariant offset >= 0 && i + offset == if i == 0 then 0 else slots[i - 1] + 1
      invariant m == MapUpTo(c.shortIds, slots, i)
      invariant forall j :: 0 <= j < i ==> !CrowdedAt(crowded, c.shortIds, slots, j)
    {
      var pos := NextEmpty(a, i + offset, i);
      offset := pos - i;
      m := m[c.shortIds[i] := i + offset];
      assert CrowdedAt(crowded, c.shortIds, slots, i) == crowded(m, c.shortIds[i]);
      if crowded(m, c.shortIds[i]) { return Failed, m; }
    }
    MappedIffDistinct(c.shortIds, a);
    if |m| != |c.shortIds| { return Failed, m; }
    status := Fine;
  }

  lemma FirstEmpty(a: Slots, i: nat, pos: nat)
    requires i < |Empty(a, |a|)| && pos <= Empty(a, |a|)[i] && a[pos].None?
    requires i > 0 ==> Empty(a, |a|)[i - 1] < pos
    ensures pos == Empty(a, |a|)[i]
  {
    var s := Empty(a, |a|);
    EmptyAscends(a, |a|);
    EmptyComplete(a, |a|, pos);
    var k :| 0 <= k < |s| && s[k] == pos;
  }

  // ---------------------------------------------------------------- what the mempool supplies

  /** The slots while they are being filled: which have been matched, and the two counters. */
  datatype Fill = Fill(avail: Slots, have: seq<bool>, mempoolCount: int, extraCount: int)

  /** The slots of the short identifiers. */
  datatype Plan = Plan(base: Slots, ids: seq<nat>, slots: seq<nat>, shortId: nat -> nat)
  {
    ghost predicate Ok() {
      && |ids| <= |slots| && (forall k :: 0 <= k < |slots| ==> slots[k] < |base| && base[slots[k]].None?)
      && (forall j, k :: 0 <= j < k < |slots| ==> slots[j] != slots[k]) && (forall j, k :: 0 <= j < k < |ids| ==>
           ids[j] != ids[k])
    }
  }

  /** How many of the first n slots are filled. */
  function Filled(a: Slots, slots: seq<nat>, n: nat): (r: nat)
    requires n <= |slots| && forall k :: 0 <= k < |slots| ==> slots[k] < |a|
    ensures r <= n
  {
    if n == 0 then 0 else Filled(a, slots, n - 1) + if a[slots[n - 1]].Some? then 1 else 0
  }

  /** Prefilled slots are untouched; a filled slot holds a transaction with its identifier; the counter counts them. */
  ghost predicate FillOk(f: Fill, p: Plan) {
    && p.Ok() && |f.avail| == |f.have| == |p.base|
    && (forall q :: 0 <= q < |p.base| && (forall k :: 0 <= k < |p.ids| ==> p.slots[k] != q) ==> f.avail[q] == p.base[q])
    && (forall k :: 0 <= k < |p.ids| ==> SlotOk(f, p, k))
    && f.mempoolCount == Filled(f.avail, p.slots, |p.ids|)
  }

  ghost predicate SlotOk(f: Fill, p: Plan, k: nat)
    requires p.Ok() && |f.avail| == |f.have| == |p.base| && k < |p.ids|
  {
    match f.avail[p.slots[k]]
    case None => true
    case Some(t) => f.have[p.slots[k]] && p.shortId(t.hash) == p.ids[k]
  }

  lemma {:induction false} FilledAfter(a: Slots, slots: seq<nat>, j: nat, v: Option<Tx>, n: nat)
    requires n <= |slots| && j < |slots| && (forall k :: 0 <= k < |slots| ==> slots[k] < |a|)
    requires forall i, k :: 0 <= i < k < |slots| ==> slots[i] != slots[k]
    ensures Filled(a[slots[j] := v], slots, n) == Filled(a, slots, n) +
      if j < n then (if v.Some? then 1 else 0) - (if a[slots[j]].Some? then 1 else 0) else 0
  {
    if n > 0 { FilledAfter(a, slots, j, v, n - 1); }
  }

  /** A transaction of the mempool that matches slot q. */
  function TakeMempool(f: Fill, q: nat, t: Tx): Fill
    requires q < |f.avail| == |f.have|
  {
    if !f.have[q] then Fill(f.avail[q := Some(t)], f.have[q := true], f.mempoolCount + 1, f.extraCount)
    else if f.avail[q].Some? then f.(avail := f.avail[q := None], mempoolCount := f.mempoolCount - 1)
    else f
  }

  /** One of the extra transactions; its counter is a 64-bit number that may wrap round. */
  function TakeExtra(f: Fill, q: nat, t: Tx): Fill
    requires q < |f.avail| == |f.have|
  {
    if !f.have[q] then Fill(f.avail[q := Some(t)], f.have[q := true], f.mempoolCount + 1, Wrap64(f.extraCount + 1))
    else if f.avail[q].Some? && f.avail[q].value.hash != t.hash then
      f.(avail := f.avail[q := None], mempoolCount := f.mempoolCount - 1, extraCount := Wrap64(f.extraCount - 1))
    else f
  }

  /** The map points into the slots. */
  ghost predicate InRange(f: Fill, m: map<nat, nat>) {
    |f.avail| == |f.have| && forall x :: x in m ==> m[x] < |f.avail|
  }

  ghost function WithMempool(f: Fill, m: map<nat, nat>, t: Tx, shortId: nat -> nat): (g: Fill)
    requires InRange(f, m)
    ensures InRange(g, m)
  {
    if shortId(t.hash) in m then TakeMempool(f, m[shortId(t.hash)], t) else f
  }

  ghost function WithExtra(f: Fill, m: map<nat, nat>, t: Tx, shortId: nat -> nat): (g: Fill)
    requires InRange(f, m)
    ensures InRange(g, m)
  {
    if shortId(t.hash) in m then TakeExtra(f, m[shortId(t.hash)], t) else f
  }

  /** The slots after the mempool from its i-th transaction on; the scan stops when nothing is missing. */
  ghost function MempoolLoop(f: Fill, m: map<nat, nat>, pool: seq<Tx>, i: nat, shortId: nat -> nat): (g: Fill)
    requires InRange(f, m) && i <= |pool|
    ensures InRange(g, m)
    decreases |pool| - i
  {
    if i == |pool| then f
    else
      var g := WithMempool(f, m, pool[i], shortId);
      if g.mempoolCount == |m| then g else MempoolLoop(g, m, pool, i + 1, shortId)
  }

  ghost function ExtraLoop(f: Fill, m: map<nat, nat>, extra: seq<Tx>, i: nat, shortId: nat -> nat): (g: Fill)
    requires InRange(f, m) && i <= |extra|
    ensures InRange(g, m)
    decreases |extra| - i
  {
    if i == |extra| then f
    else
      var g := WithExtra(f, m, extra[i], shortId);
      if g.mempoolCount == |m| then g else ExtraLoop(g, m, extra, i + 1, shortId)
  }

  lemma MappedInRange(f: Fill, p: Plan, m: map<nat, nat>)
    requires p.Ok() && |f.avail| == |f.have| == |p.base| && MappedWell(m, p.ids, p.slots, |p.ids|)
    ensures InRange(f, m)
  {
    forall x | x in m ensures m[x] < |f.avail| { var k := SlotFor(m, p, x); }
  }

  lemma TakeKeeps(f: Fill, p: Plan, k: nat, t: Tx)
    requires FillOk(f, p) && k < |p.ids| && p.shortId(t.hash) == p.ids[k]
    ensures FillOk(TakeMempool(f, p.slots[k], t), p) && FillOk(TakeExtra(f, p.slots[k], t), p)
  {
    var q, n := p.slots[k], |p.ids|;
    FilledAfter(f.avail, p.slots, k, Some(t), n);
    FilledAfter(f.avail, p.slots, k, None, n);
    assert SlotOk(f, p, k);
    TakeSlots(f, TakeMempool(f, q, t), p, k);
    TakeSlots(f, TakeExtra(f, q, t), p, k);
  }

  lemma TakeSlots(f: Fill, g: Fill, p: Plan, k: nat)
    requires FillOk(f, p) && k < |p.ids| && |g.avail| == |g.have| == |p.base|
    requires forall q :: 0 <= q < |p.base| && q != p.slots[k] ==> g.avail[q] == f.avail[q] && g.have[q] == f.have[q]
    requires SlotOk(g, p, k)
    ensures forall j :: 0 <= j < |p.ids| ==> SlotOk(g, p, j)
    ensures forall q :: 0 <= q < |p.base| && (forall j :: 0 <= j < |p.ids| ==> p.slots[j] != q) ==>
      g.avail[q] == p.base[q]
  {
    forall j | 0 <= j < |p.ids| ensures SlotOk(g, p, j) { assert SlotOk(f, p, j); }
  }

  // ---------------------------------------------------------------- an honest sender

  /**
   * The compact form is that of a block, and no other transaction at hand shares an identifier with one of the
   * block's.
   */
  ghost predicate NoFalseMatch(p: Plan, block: seq<Tx>, t: Tx)
    requires p.Ok() && |block| == |p.base|
  {
    forall k :: 0 <= k < |p.ids| && p.shortId(t.hash) == p.ids[k] ==> t == block[p.slots[k]]
  }

  ghost predicate Describes(p: Plan, block: seq<Tx>) {
    && p.Ok() && |p.slots| == |p.ids| && |block| == |p.base|
    && (forall q :: 0 <= q < |block| ==> p.base[q] == Some(block[q]) || q in p.slots)
    && (forall k :: 0 <= k < |p.ids| ==> p.shortId(block[p.slots[k]].hash) == p.ids[k])
  }

  /** Of the slots for identifiers, exactly those whose transaction has been seen are filled, and rightly. */
  ghost predicate FillsSeen(f: Fill, p: Plan, block: seq<Tx>, seen: set<Tx>)
    requires p.Ok() && |block| == |p.base| == |f.avail| == |f.have|
  {
    forall k :: 0 <= k < |p.ids| ==> SlotSeen(f, p, block, seen, k)
  }

  ghost predicate SlotSeen(f: Fill, p: Plan, block: seq<Tx>, seen: set<Tx>, k: nat)
    requires p.Ok() && |block| == |p.base| == |f.avail| == |f.have| && k < |p.ids|
  {
    var q := p.slots[k];
    && f.have[q] == (block[q] in seen)
    && f.avail[q] == if block[q] in seen then Some(block[q]) else None
  }

  lemma TakeSeen(f: Fill, p: Plan, block: seq<Tx>, seen: set<Tx>, k: nat, t: Tx)
    requires FillOk(f, p) && Describes(p, block) && FillsSeen(f, p, block, seen)
    requires k < |p.ids| && p.shortId(t.hash) == p.ids[k] && NoFalseMatch(p, block, t)
    ensures t !in seen ==> FillsSeen(TakeMempool(f, p.slots[k], t), p, block, seen + {t})
    ensures FillsSeen(TakeExtra(f, p.slots[k], t), p, block, seen + {t})
  {
    assert SlotSeen(f, p, block, seen, k);
    var g, h := TakeMempool(f, p.slots[k], t), TakeExtra(f, p.slots[k], t);
    forall j | 0 <= j < |p.ids|
      ensures t !in seen ==> SlotSeen(g, p, block, seen + {t}, j)
      ensures SlotSeen(h, p, block, seen + {t}, j)
    {
      assert SlotSeen(f, p, block, seen, j);
    }
  }

  /** A transaction that matches no identifier is none of those the slots are for. */
  lemma SkipSeen(f: Fill, p: Plan, block: seq<Tx>, seen: set<Tx>, t: Tx)
    requires FillOk(f, p) && Describes(p, block) && FillsSeen(f, p, block, seen) && p.shortId(t.hash) !in p.ids
    ensures FillsSeen(f, p, block, seen + {t})
  {
    forall j | 0 <= j < |p.ids| ensures SlotSeen(f, p, block, seen + {t}, j) { assert SlotSeen(f, p, block, seen, j); }
  }

  /** Once every slot is filled, more transactions would change nothing. */
  lemma {:induction false} AllFilled(a: Slots, slots: seq<nat>, n: nat)
    requires n <= |slots| && (forall k :: 0 <= k < |slots| ==> slots[k] < |a|) && Filled(a, slots, n) == n
    ensures forall k :: 0 <= k < n ==> a[slots[k]].Some?
  {
    if n > 0 { AllFilled(a, slots, n - 1); }
  }

  lemma FullSeen(f: Fill, p: Plan, block: seq<Tx>, seen: set<Tx>, all: set<Tx>)
    requires FillOk(f, p) && Describes(p, block) && FillsSeen(f, p, block, seen) && seen <= all
    requires f.mempoolCount == |p.ids|
    ensures FillsSeen(f, p, block, all)
  {
    AllFilled(f.avail, p.slots, |p.ids|);
    forall j | 0 <= j < |p.ids| ensures SlotSeen(f, p, block, all, j) { assert SlotSeen(f, p, block, seen, j); }
  }

  ghost function Seen(txs: seq<Tx>, n: nat): set<Tx>
    requires n <= |txs|
  {
    if n == 0 then {} else Seen(txs, n - 1) + {txs[n - 1]}
  }

  lemma {:induction false} SeenIs(txs: seq<Tx>, n: nat, t: Tx)
    requires n <= |txs|
    ensures t in Seen(txs, n) <==> exists i :: 0 <= i < n && txs[i] == t
  {
    if n > 0 { SeenIs(txs, n - 1, t); }
  }

  lemma {:induction false} SeenGrows(txs: seq<Tx>, i: nat, n: nat)
    requires i <= n <= |txs|
    ensures Seen(txs, i) <= Seen(txs, n)
  {
    if i < n { SeenGrows(txs, i, n - 1); }
  }

  ghost predicate Distinct(txs: seq<Tx>) { forall i, j :: 0 <= i < j < |txs| ==> txs[i] != txs[j] }

  lemma NotSeenYet(txs: seq<Tx>, i: nat)
    requires Distinct(txs) && i < |txs|
    ensures txs[i] !in Seen(txs, i)
  {
    SeenIs(txs, i, txs[i]);
  }

  /** No transaction at hand matches falsely. */
  ghost predicate NoneFalse(p: Plan, block: seq<Tx>, txs: seq<Tx>) {
    p.Ok() && |block| == |p.base| && forall i :: 0 <= i < |txs| ==> NoFalseMatch(p, block, txs[i])
  }

  /** The state of filling, with what is known of it when the sender is honest. */
  ghost predicate Filling(f: Fill, p: Plan, block: seq<Tx>, seen: set<Tx>, honest: bool) {
    FillOk(f, p) && |block| == |p.base| && (honest ==> Describes(p, block) && FillsSeen(f, p, block, seen))
  }

  lemma SlotFor(m: map<nat, nat>, p: Plan, x: nat) returns (k: nat)
    requires MappedWell(m, p.ids, p.slots, |p.ids|) && x in m
    ensures k < |p.ids| && p.ids[k] == x && m[x] == p.slots[k]
  {
    k :| 0 <= k < |p.ids| && p.ids[k] == x;
  }

  lemma MempoolHit(f: Fill, p: Plan, block: seq<Tx>, seen: set<Tx>, honest: bool, k: nat, t: Tx)
    requires Filling(f, p, block, seen, honest) && k < |p.ids| && p.shortId(t.hash) == p.ids[k]
    requires honest ==> NoFalseMatch(p, block, t)
    ensures (honest ==> t !in seen) ==> Filling(TakeMempool(f, p.slots[k], t), p, block, seen + {t}, honest)
    ensures Filling(TakeExtra(f, p.slots[k], t), p, block, seen + {t}, honest)
  {
    TakeKeeps(f, p, k, t);
    if honest { TakeSeen(f, p, block, seen, k, t); }
  }

  lemma Miss(f: Fill, m: map<nat, nat>, p: Plan, block: seq<Tx>, seen: set<Tx>, honest: bool, t: Tx)
    requires Filling(f, p, block, seen, honest) && MappedWell(m, p.ids, p.slots, |p.ids|) && p.shortId(t.hash) !in m
    ensures Filling(f, p, block, seen + {t}, honest)
  {
    if honest { SkipSeen(f, p, block, seen, t); }
  }

  lemma Full(f: Fill, p: Plan, block: seq<Tx>, seen: set<Tx>, all: set<Tx>, honest: bool)
    requires Filling(f, p, block, seen, honest) && seen <= all && f.mempoolCount == |p.ids|
    ensures Filling(f, p, block, all, honest)
  {
    if honest { FullSeen(f, p, block, seen, all); }
  }

  lemma SlotsInRange(f: Fill, p: Plan, k: nat)
    requires FillOk(f, p) && k < |p.ids|
    ensures p.slots[k] < |f.avail| == |f.have|
  {
  }

  /** One transaction of the mempool. */
  method TryMempool(f: Fill, m: map<nat, nat>, t: Tx, shortId: nat -> nat, ghost p: Plan, ghost block: seq<Tx>,
                    ghost seen: set<Tx>, ghost honest: bool)
    returns (g: Fill)
    requires Filling(f, p, block, seen, honest) && MappedWell(m, p.ids, p.slots, |p.ids|) && shortId == p.shortId
    requires honest ==> t !in seen && NoFalseMatch(p, block, t)
    ensures Filling(g, p, block, seen + {t}, honest) && InRange(f, m) && g == WithMempool(f, m, t, shortId)
  {
    MappedInRange(f, p, m);
    var id := shortId(t.hash);
    if id in m {
      ghost var k := SlotFor(m, p, id);
      SlotsInRange(f, p, k);
      MempoolHit(f, p, block, seen, honest, k, t);
      g := TakeMempool(f, m[id], t);
    } else {
      Miss(f, m, p, block, seen, honest, t);
      g := f;
    }
  }

  /** One of the extra transactions. */
  method TryExtra(f: Fill, m: map<nat, nat>, t: Tx, shortId: nat -> nat, ghost p: Plan, ghost block: seq<Tx>,
                  ghost seen: set<Tx>, ghost honest: bool)
    returns (g: Fill)
    requires Filling(f, p, block, seen, honest) && MappedWell(m, p.ids, p.slots, |p.ids|) && shortId == p.shortId
    requires honest ==> NoFalseMatch(p, block, t)
    ensures Filling(g, p, block, seen + {t}, honest) && InRange(f, m) && g == WithExtra(f, m, t, shortId)
  {
    MappedInRange(f, p, m);
    var id := shortId(t.hash);
    if id in m {
      ghost var k := SlotFor(m, p, id);
      SlotsInRange(f, p, k);
      MempoolHit(f, p, block, seen, honest, k, t);
      g := TakeExtra(f, m[id], t);
    } else {
      Miss(f, m, p, block, seen, honest, t);
      g := f;
    }
  }

  /** What the loop over the mempool works with. */
  ghost predicate MempoolReady(m: map<nat, nat>, pool: seq<Tx>, shortId: nat -> nat, p: Plan, block: seq<Tx>,
                               honest: bool) {
    && MappedWell(m, p.ids, p.slots, |p.ids|) && shortId == p.shortId
    && (honest ==> Distinct(pool) && NoneFalse(p, block, pool))
  }

  /** One turn of the loop, which stops early when nothing is missing. */
  method MempoolTurn(f: Fill, m: map<nat, nat>, pool: seq<Tx>, i: nat, shortId: nat -> nat, ghost p: Plan,
                     ghost block: seq<Tx>,
                     ghost honest: bool)
    returns (g: Fill, done: bool)
    requires MempoolReady(m, pool, shortId, p, block, honest) && i < |pool|
    requires Filling(f, p, block, Seen(pool, i), honest)
    ensures Filling(g, p, block, Seen(pool, i + 1), honest)
    ensures (done ==> Filling(g, p, block, Seen(pool, |pool|), honest))
    ensures InRange(f, m) && g == WithMempool(f, m, pool[i], shortId) && done == (g.mempoolCount == |m|)
  {
    if honest { NotSeenYet(pool, i); }
    g := TryMempool(f, m, pool[i], shortId, p, block, Seen(pool, i), honest);
    done := g.mempoolCount == |m|;
    if done {
      SeenGrows(pool, i + 1, |pool|);
      Full(g, p, block, Seen(pool, i + 1), Seen(pool, |pool|), honest);
    }
  }

  ghost predicate MempoolAt(f: Fill, start: Fill, m: map<nat, nat>, pool: seq<Tx>, i: nat, shortId: nat -> nat) {
    && InRange(f, m) && InRange(start, m) && i <= |pool|
    && MempoolLoop(f, m, pool, i, shortId) == MempoolLoop(start, m, pool, 0, shortId)
  }

  lemma {:induction false} MempoolNext(f: Fill, start: Fill, m: map<nat, nat>, pool: seq<Tx>, i: nat,
                                       shortId: nat -> nat)
    requires MempoolAt(f, start, m, pool, i, shortId) && i < |pool|
    ensures var g := WithMempool(f, m, pool[i], shortId);
      if g.mempoolCount == |m| then g == MempoolLoop(start, m, pool, 0, shortId)
      else MempoolAt(g, start, m, pool, i + 1, shortId)
  {}

  /** The loop over the mempool. */
  method FillFromMempool(start: Fill, m: map<nat, nat>, pool: seq<Tx>, shortId: nat -> nat, ghost p: Plan,
                         ghost block: seq<Tx>,
                         ghost honest: bool)
    returns (f: Fill)
    requires MempoolReady(m, pool, shortId, p, block, honest) && Filling(start, p, block, {}, honest)
    ensures Filling(f, p, block, Seen(pool, |pool|), honest)
    ensures InRange(start, m) && f == MempoolLoop(start, m, pool, 0, shortId)
  {
    MappedInRange(start, p, m);
    f := start;
    assert Seen(pool, 0) == {};
    for i := 0 to |pool|
      invariant Filling(f, p, block, Seen(pool, i), honest)
      invariant MempoolAt(f, start, m, pool, i, shortId)
    {
      var done;
      MempoolNext(f, start, m, pool, i, shortId);
      f, done := MempoolTurn(f, m, pool, i, shortId, p, block, honest);
      if done { return; }
    }
  }

  ghost predicate ExtraAt(f: Fill, start: Fill, m: map<nat, nat>, extra: seq<Tx>, i: nat, shortId: nat -> nat) {
    && InRange(f, m) && InRange(start, m) && i <= |extra|
    && ExtraLoop(f, m, extra, i, shortId) == ExtraLoop(start, m, extra, 0, shortId)
  }

  lemma {:induction false} ExtraNext(f: Fill, start: Fill, m: map<nat, nat>, extra: seq<Tx>, i: nat,
                                     shortId: nat -> nat)
    requires ExtraAt(f, start, m, extra, i, shortId) && i < |extra|
    ensures var g := WithExtra(f, m, extra[i], shortId);
      if g.mempoolCount == |m| then g == ExtraLoop(start, m, extra, 0, shortId)
      else ExtraAt(g, start, m, extra, i + 1, shortId)
  {}

  /** What has been seen before, and the first n transactions. */
  ghost function SeenFrom(seen: set<Tx>, txs: seq<Tx>, n: nat): set<Tx>
    requires n <= |txs|
  {
    if n == 0 then seen else SeenFrom(seen, txs, n - 1) + {txs[n - 1]}
  }

  lemma {:induction false} SeenFromIs(seen: set<Tx>, txs: seq<Tx>, n: nat)
    requires n <= |txs|
    ensures SeenFrom(seen, txs, n) == seen + Seen(txs, n)
  {
    if n > 0 { SeenFromIs(seen, txs, n - 1); }
  }

  lemma {:induction false} SeenFromGrows(seen: set<Tx>, txs: seq<Tx>, i: nat, n: nat)
    requires i <= n <= |txs|
    ensures SeenFrom(seen, txs, i) <= SeenFrom(seen, txs, n)
  {
    if i < n { SeenFromGrows(seen, txs, i, n - 1); }
  }

  /** What the loop over the extra transactions works with. */
  ghost predicate ExtraReady(m: map<nat, nat>, extra: seq<Tx>, shortId: nat -> nat, p: Plan, block: seq<Tx>,
                             honest: bool) {
    && MappedWell(m, p.ids, p.slots, |p.ids|) && shortId == p.shortId && (honest ==> NoneFalse(p, block, extra))
  }

  method ExtraTurn(f: Fill, m: map<nat, nat>, extra: seq<Tx>, i: nat, shortId: nat -> nat, ghost p: Plan,
                   ghost block: seq<Tx>, ghost seen: set<Tx>, ghost honest: bool)
    returns (g: Fill, done: bool)
    requires ExtraReady(m, extra, shortId, p, block, honest) && i < |extra|
    requires Filling(f, p, block, SeenFrom(seen, extra, i), honest)
    ensures Filling(g, p, block, SeenFrom(seen, extra, i + 1), honest)
    ensures done ==> Filling(g, p, block, SeenFrom(seen, extra, |extra|), honest)
    ensures InRange(f, m) && g == WithExtra(f, m, extra[i], shortId) && done == (g.mempoolCount == |m|)
  {
    g := TryExtra(f, m, extra[i], shortId, p, block, SeenFrom(seen, extra, i), honest);
    done := g.mempoolCount == |m|;
    if done {
      SeenFromGrows(seen, extra, i + 1, |extra|);
      Full(g, p, block, SeenFrom(seen, extra, i + 1), SeenFrom(seen, extra, |extra|), honest);
    }
  }

  /** The loop over the extra transactions. */
  method FillFromExtra(start: Fill, m: map<nat, nat>, extra: seq<Tx>, shortId: nat -> nat, ghost p: Plan,
                       ghost block: seq<Tx>, ghost seen: set<Tx>, ghost honest: bool)
    returns (f: Fill)
    requires ExtraReady(m, extra, shortId, p, block, honest) && Filling(start, p, block, seen, honest)
    ensures Filling(f, p, block, SeenFrom(seen, extra, |extra|), honest)
    ensures InRange(start, m) && f == ExtraLoop(start, m, extra, 0, shortId)
  {
    MappedInRange(start, p, m);
    f := start;
    for i := 0 to |extra|
      invariant Filling(f, p, block, SeenFrom(seen, extra, i), honest) && ExtraAt(f, start, m, extra, i, shortId)
    {
      var done;
      ExtraNext(f, start, m, extra, i, shortId);
      f, done := ExtraTurn(f, m, extra, i, shortId, p, block, seen, honest);
      if done { return; }
    }
  }

  // ---------------------------------------------------------------- reconstruction

  /** Where a compact form puts its prefilled transactions and its short identifiers. */
  ghost function Layout(c: Compact): Slots {
    seq(c.BlockTxCount(), q requires 0 <= q < c.BlockTxCount() => PutAt(c.prefilled, |c.prefilled|, q))
  }

  ghost function PlanOf(c: Compact): Plan {
    Plan(Layout(c), c.shortIds, Empty(Layout(c), c.BlockTxCount()), c.shortId)
  }

  /** The identifiers are distinct, and no bucket of their map is crowded. */
  ghost predicate MapsWell(c: Compact, crowded: (map<nat, nat>, nat) -> bool) {
    NeverCrowded(crowded, c.shortIds, PlanOf(c).slots) && DistinctIds(c.shortIds)
  }

  /** Whether a compact form of a permitted size is taken. */
  ghost function Expected(c: Compact, crowded: (map<nat, nat>, nat) -> bool): Status {
    if !AllPrefilledOk(c) then Invalid else if MapsWell(c, crowded) then Fine else Failed
  }

  /** The slots as they are before the mempool is looked at. */
  ghost function Start(p: Plan): Fill { Fill(p.base, seq(|p.base|, _ => false), 0, 0) }

  ghost function IdMap(p: Plan): (m: map<nat, nat>)
    requires p.Ok()
    ensures MappedWell(m, p.ids, p.slots, |p.ids|)
    ensures forall f: Fill :: |f.avail| == |f.have| == |p.base| ==> InRange(f, m)
  {
    AllKept(p.ids, p.slots, |p.ids|);
    NoneLost(p.ids, p.slots, |p.ids|);
    MappedInRange(Start(p), p, MapUpTo(p.ids, p.slots, |p.ids|));
    MapUpTo(p.ids, p.slots, |p.ids|)
  }

  ghost function AfterMempool(p: Plan, pool: seq<Tx>): (f: Fill)
    requires p.Ok()
    ensures InRange(f, IdMap(p))
  {
    MempoolLoop(Start(p), IdMap(p), pool, 0, p.shortId)
  }

  /** What the two loops over the mempool and the extra transactions make of a plan. */
  ghost function Reconstructed(p: Plan, pool: seq<Tx>, extra: seq<Tx>): Fill
    requires p.Ok()
  {
    ExtraLoop(AfterMempool(p, pool), IdMap(p), extra, 0, p.shortId)
  }

  lemma LayoutIs(c: Compact, a: Slots)
    requires |a| == c.BlockTxCount() && Placed(a, c.prefilled, |c.prefilled|)
    ensures a == Layout(c)
  {}

  lemma PlanIs(c: Compact, a: Slots, m: map<nat, nat>)
    requires |a| == c.BlockTxCount() && Placed(a, c.prefilled, |c.prefilled|)
    requires MappedWell(m, c.shortIds, Empty(a, |a|), |c.shortIds|)
    ensures PlanOf(c) == Plan(a, c.shortIds, Empty(a, |a|), c.shortId) && PlanOf(c).Ok()
  {
    assert a == Layout(c);
    EmptyAscends(a, |a|);
    IdsDistinct(m, c.shortIds, Empty(a, |a|));
  }

  lemma IdsDistinct(m: map<nat, nat>, ids: seq<nat>, slots: seq<nat>)
    requires MappedWell(m, ids, slots, |ids|) && forall j, k :: 0 <= j < k < |slots| ==> slots[j] < slots[k]
    ensures forall j, k :: 0 <= j < k < |ids| ==> ids[j] != ids[k]
  {
    forall j, k | 0 <= j < k < |ids| ensures ids[j] != ids[k] { assert m[ids[j]] == slots[j] && m[ids[k]] == slots[k]; }
  }

  /** What InitData has found for a plan. */
  ghost predicate Available(a: Slots, count: int, p: Plan) {
    exists have, extra :: FillOk(Fill(a, have, count, extra), p)
  }

  /** With an honest sender, exactly the transactions at hand are there. */
  ghost predicate FoundAll(a: Slots, p: Plan, block: seq<Tx>, seen: set<Tx>)
    requires p.Ok() && |block| == |p.base| == |a|
  {
    forall k :: 0 <= k < |p.ids| ==>
      a[p.slots[k]] == if block[p.slots[k]] in seen then Some(block[p.slots[k]]) else None
  }

  /** An honest situation: the compact form is the block's, and no transaction at hand matches falsely. */
  ghost predicate Honest(p: Plan, block: seq<Tx>, pool: seq<Tx>, extra: seq<Tx>) {
    && |block| == |p.base| && Describes(p, block)
    && NoneFalse(p, block, pool) && NoneFalse(p, block, extra) && Distinct(pool)
  }

  /**
   * What success means: every slot that is filled holds a transaction with its identifier, the counter counts them, and
   * in an honest situation exactly the transactions at hand are found.
   */
  ghost predicate Prepared(c: Compact, f: Fill, pool: seq<Tx>, extra: seq<Tx>, block: seq<Tx>) {
    && PlanOf(c).Ok() && f == Reconstructed(PlanOf(c), pool, extra)
    && FillOk(f, PlanOf(c)) && |f.avail| == c.BlockTxCount()
    && (Honest(PlanOf(c), block, pool, extra) ==>
         FoundAll(f.avail, PlanOf(c), block, Seen(pool, |pool|) + Seen(extra, |extra|)))
  }

  lemma {:induction false} FilledNone(a: Slots, slots: seq<nat>, n: nat)
    requires n <= |slots| && (forall k :: 0 <= k < |slots| ==> slots[k] < |a| && a[slots[k]].None?)
    ensures Filled(a, slots, n) == 0
  {
    if n > 0 { FilledNone(a, slots, n - 1); }
  }

  lemma StartsFilling(a: Slots, p: Plan, block: seq<Tx>, honest: bool)
    requires p.Ok() && p.base == a && |block| == |a| && (honest ==> Describes(p, block))
    ensures Filling(Fill(a, seq(|a|, _ => false), 0, 0), p, block, {}, honest)
  {
    FilledNone(a, p.slots, |p.ids|);
    var f := Fill(a, seq(|a|, _ => false), 0, 0);
    forall k | 0 <= k < |p.ids| ensures SlotOk(f, p, k) && SlotSeen(f, p, block, {}, k) {}
  }

  /** The two last loops of InitData. */
  method FillSlots(a: Slots, m: map<nat, nat>, pool: seq<Tx>, extra: seq<Tx>, shortId: nat -> nat, ghost p: Plan,
                   ghost block: seq<Tx>, ghost honest: bool)
    returns (f: Fill)
    requires p.Ok() && p.base == a && shortId == p.shortId && MappedWell(m, p.ids, p.slots, |p.ids|) && |block| == |a|
    requires honest ==> Honest(p, block, pool, extra)
    ensures Filling(f, p, block, Seen(pool, |pool|) + Seen(extra, |extra|), honest)
    ensures m == IdMap(p) ==> f == Reconstructed(p, pool, extra)
  {
    StartsFilling(a, p, block, honest);
    f := Fill(a, seq(|a|, _ => false), 0, 0);
    assert f == Start(p);
    f := FillFromMempool(f, m, pool, shortId, p, block, honest);
    f := FillFromExtra(f, m, extra, shortId, p, block, Seen(pool, |pool|), honest);
    SeenFromIs(Seen(pool, |pool|), extra, |extra|);
  }

  lemma SeenIsFound(f: Fill, p: Plan, block: seq<Tx>, seen: set<Tx>)
    requires p.Ok() && |block| == |p.base| == |f.avail| == |f.have| && FillsSeen(f, p, block, seen)
    ensures FoundAll(f.avail, p, block, seen)
  {
    forall k | 0 <= k < |p.ids|
      ensures f.avail[p.slots[k]] == if block[p.slots[k]] in seen then Some(block[p.slots[k]]) else None
    {
      assert SlotSeen(f, p, block, seen, k);
    }
  }

  lemma AvailableIs(f: Fill, p: Plan)
    requires FillOk(f, p)
    ensures Available(f.avail, f.mempoolCount, p)
  {
    assert f == Fill(f.avail, f.have, f.mempoolCount, f.extraCount);
  }

  /** The loops of InitData, one after another. */
  method Reconstruct(c: Compact, extra: seq<Tx>, pool: seq<Tx>, crowded: (map<nat, nat>, nat) -> bool,
                     ghost block: seq<Tx>)
    returns (status: Status, f: Fill)
    requires c.IndicesFit() && c.BlockTxCount() < UINT32
    ensures status == Expected(c, crowded)
    ensures status == Fine ==> Prepared(c, f, pool, extra, block)
  {
    f := Fill([], [], 0, 0);
    var a;
    status, a := PlacePrefilled(c);
    if status != Fine { return; }
    LayoutIs(c, a);
    var m;
    status, m := MapShortIds(c, a, crowded);
    if status != Fine { return; }
    PlanIs(c, a, m);
    ghost var p := Plan(a, c.shortIds, Empty(a, |a|), c.shortId);
    ghost var honest := Honest(p, block, pool, extra);
    ghost var b := if honest then block else seq(|a|, _ => Tx(0, true));
    f := FillSlots(a, m, pool, extra, c.shortId, p, b, honest);
    if honest { SeenIsFound(f, p, block, Seen(pool, |pool|) + Seen(extra, |extra|)); }
  }

  // ---------------------------------------------------------------- the counter of extra transactions

  /** Of the first n slots, how many are filled in `b` but not in `a`. */
  ghost function Gained(a: Slots, b: Slots, slots: seq<nat>, n: nat): (r: nat)
    requires n <= |slots| && |a| == |b| && forall k :: 0 <= k < |slots| ==> slots[k] < |a|
    ensures r <= n
  {
    if n == 0 then 0
    else Gained(a, b, slots, n - 1) + if a[slots[n - 1]].None? && b[slots[n - 1]].Some? then 1 else 0
  }

  lemma {:induction false} FilledBalance(a: Slots, b: Slots, slots: seq<nat>, n: nat)
    requires n <= |slots| && |a| == |b| && forall k :: 0 <= k < |slots| ==> slots[k] < |a|
    ensures Filled(b, slots, n) + Gained(b, a, slots, n) == Filled(a, slots, n) + Gained(a, b, slots, n)
  {
    if n > 0 { FilledBalance(a, b, slots, n - 1); }
  }

  lemma {:induction false} NothingGained(a: Slots, b: Slots, slots: seq<nat>, n: nat)
    requires n <= |slots| && |a| == |b| && forall k :: 0 <= k < |slots| ==> slots[k] < |a|
    ensures Gained(a, b, slots, n) == 0 <==> forall k :: 0 <= k < n ==> a[slots[k]].Some? || b[slots[k]].None?
  {
    if n > 0 { NothingGained(a, b, slots, n - 1); }
  }

  lemma {:induction false} WrapAgain(x: int, d: int)
    ensures Wrap64(Wrap64(x) + d) == Wrap64(x + d)
  {
    var q := x / 0x1_0000_0000_0000_0000;
    assert x + d == Wrap64(x) + d + q * 0x1_0000_0000_0000_0000;
  }

  /** Both counters move together in the loop over the extra transactions, but for the width of one of them. */
  lemma {:induction false} CountersMoveTogether(f: Fill, m: map<nat, nat>, extra: seq<Tx>, i: nat, shortId: nat -> nat,
                                                first: int)
    requires InRange(f, m) && i <= |extra| && f.extraCount == Wrap64(f.mempoolCount - first)
    ensures var g := ExtraLoop(f, m, extra, i, shortId); g.extraCount == Wrap64(g.mempoolCount - first)
    decreases |extra| - i
  {
    if i < |extra| {
      WrapAgain(f.mempoolCount - first, 1);
      WrapAgain(f.mempoolCount - first, -1);
      var g := WithExtra(f, m, extra[i], shortId);
      if g.mempoolCount != |m| { CountersMoveTogether(g, m, extra, i + 1, shortId, first); }
    }
  }

  /** How far the loop over the extra transactions gets. */
  ghost function Used(f: Fill, m: map<nat, nat>, extra: seq<Tx>, i: nat, shortId: nat -> nat): (n: nat)
    requires InRange(f, m) && i <= |extra|
    ensures i <= n <= |extra|
    decreases |extra| - i
  {
    if i == |extra| then i
    else
      var g := WithExtra(f, m, extra[i], shortId);
      if g.mempoolCount == |m| then i + 1 else Used(g, m, extra, i + 1, shortId)
  }

  /** One of the extra transactions looked at has this identifier and is not the transaction `t`. */
  ghost predicate Clashes(extra: seq<Tx>, i: nat, n: nat, shortId: nat -> nat, id: nat, t: Tx) {
    exists j :: i <= j < n <= |extra| && shortId(extra[j].hash) == id && extra[j].hash != t.hash
  }

  /** Just one identifier leads to a slot. */
  ghost predicate OnlyId(m: map<nat, nat>, id: nat, q: nat) {
    id in m && m[id] == q && forall x :: x in m && x != id ==> m[x] != q
  }

  /** A cleared slot stays clear. */
  lemma {:induction false} ClearStays(f: Fill, m: map<nat, nat>, extra: seq<Tx>, i: nat, shortId: nat -> nat, q: nat)
    requires InRange(f, m) && i <= |extra| && q < |f.avail| && f.have[q] && f.avail[q].None?
    ensures var g := ExtraLoop(f, m, extra, i, shortId); |g.avail| == |f.avail| && g.avail[q].None?
    decreases |extra| - i
  {
    if i < |extra| {
      var g := WithExtra(f, m, extra[i], shortId);
      if g.mempoolCount != |m| { ClearStays(g, m, extra, i + 1, shortId, q); }
    }
  }

  /** A filled slot is cleared exactly when one of the extra transactions clashes with what it holds. */
  lemma {:induction false} ClearedIffClash(f: Fill, m: map<nat, nat>, extra: seq<Tx>, i: nat, shortId: nat -> nat,
                                           id: nat,
                                           q: nat, t: Tx)
    requires InRange(f, m) && i <= |extra| && q < |f.avail| && f.have[q] && f.avail[q] == Some(t) && OnlyId(m, id, q)
    ensures var g, n := ExtraLoop(f, m, extra, i, shortId), Used(f, m, extra, i, shortId);
      |g.avail| == |f.avail| && g.avail[q] == if Clashes(extra, i, n, shortId, id, t) then None else Some(t)
    decreases |extra| - i
  {
    if i < |extra| {
      var g, n := WithExtra(f, m, extra[i], shortId), Used(f, m, extra, i, shortId);
      var clash := shortId(extra[i].hash) == id && extra[i].hash != t.hash;
      assert g.avail[q] == (if clash then None else Some(t)) && g.have[q];
      if clash { assert Clashes(extra, i, n, shortId, id, t); }
      if g.mempoolCount != |m| {
        if clash {
          ClearStays(g, m, extra, i + 1, shortId, q);
        } else {
          ClearedIffClash(g, m, extra, i + 1, shortId, id, q, t);
          assert Clashes(extra, i, n, shortId, id, t) <==> Clashes(extra, i + 1, n, shortId, id, t);
        }
      }
    }
  }

  /** An extra transaction that is looked at clashes with what a slot holds before the loop. */
  ghost predicate Evicts(f: Fill, p: Plan, m: map<nat, nat>, extra: seq<Tx>, k: nat)
    requires FillOk(f, p) && InRange(f, m) && k < |p.ids|
  {
    && f.avail[p.slots[k]].Some?
    && Clashes(extra, 0, Used(f, m, extra, 0, p.shortId), p.shortId, p.ids[k], f.avail[p.slots[k]].value)
  }

  lemma {:induction false} MempoolLoopKeeps(f: Fill, p: Plan, m: map<nat, nat>, pool: seq<Tx>, i: nat)
    requires FillOk(f, p) && MappedWell(m, p.ids, p.slots, |p.ids|) && InRange(f, m) && i <= |pool|
    ensures var g := MempoolLoop(f, m, pool, i, p.shortId); FillOk(g, p) && g.extraCount == f.extraCount
    decreases |pool| - i
  {
    if i < |pool| {
      var id, g := p.shortId(pool[i].hash), WithMempool(f, m, pool[i], p.shortId);
      if id in m {
        var k := SlotFor(m, p, id);
        TakeKeeps(f, p, k, pool[i]);
      }
      if g.mempoolCount != |m| { MempoolLoopKeeps(g, p, m, pool, i + 1); }
    }
  }

  lemma {:induction false} ExtraLoopKeeps(f: Fill, p: Plan, m: map<nat, nat>, extra: seq<Tx>, i: nat)
    requires FillOk(f, p) && MappedWell(m, p.ids, p.slots, |p.ids|) && InRange(f, m) && i <= |extra|
    ensures FillOk(ExtraLoop(f, m, extra, i, p.shortId), p)
    decreases |extra| - i
  {
    if i < |extra| {
      var id, g := p.shortId(extra[i].hash), WithExtra(f, m, extra[i], p.shortId);
      if id in m {
        var k := SlotFor(m, p, id);
        TakeKeeps(f, p, k, extra[i]);
      }
      if g.mempoolCount != |m| { ExtraLoopKeeps(g, p, m, extra, i + 1); }
    }
  }

  /** The counters after both loops. */
  lemma {:induction false} LoopsKeep(p: Plan, pool: seq<Tx>, extra: seq<Tx>, f0: Fill)
    requires p.Ok() && f0 == AfterMempool(p, pool)
    ensures FillOk(f0, p) && f0.extraCount == 0 && FillOk(Reconstructed(p, pool, extra), p)
  {
    var m := IdMap(p);
    StartsFilling(p.base, p, seq(|p.base|, _ => Tx(0, true)), false);
    MempoolLoopKeeps(Start(p), p, m, pool, 0);
    ExtraLoopKeeps(f0, p, m, extra, 0);
  }

  lemma {:induction false} OnlyIdFor(p: Plan, m: map<nat, nat>, k: nat)
    requires p.Ok() && MappedWell(m, p.ids, p.slots, |p.ids|) && k < |p.ids|
    ensures OnlyId(m, p.ids[k], p.slots[k])
  {
    forall x | x in m && x != p.ids[k] ensures m[x] != p.slots[k] { var j := SlotFor(m, p, x); }
  }

  lemma {:induction false} EvictedSlot(f: Fill, p: Plan, m: map<nat, nat>, extra: seq<Tx>, g: Fill, k: nat)
    requires FillOk(f, p) && MappedWell(m, p.ids, p.slots, |p.ids|) && InRange(f, m) && k < |p.ids|
    requires g == ExtraLoop(f, m, extra, 0, p.shortId) && |g.avail| == |f.avail|
    ensures Evicts(f, p, m, extra, k) <==> f.avail[p.slots[k]].Some? && g.avail[p.slots[k]].None?
  {
    var q := p.slots[k];
    assert SlotOk(f, p, k);
    if f.avail[q].Some? {
      OnlyIdFor(p, m, k);
      ClearedIffClash(f, m, extra, 0, p.shortId, p.ids[k], q, f.avail[q].value);
    }
  }

  /** The counter from what the slots hold before and after. */
  lemma {:induction false} CountFromSlots(a: Slots, b: Slots, slots: seq<nat>, n: nat, count: int)
    requires n <= |slots| && |a| == |b| && (forall k :: 0 <= k < |slots| ==> slots[k] < |a|)
    requires n < 0x1_0000_0000_0000_0000
    requires count == Wrap64(Filled(b, slots, n) - Filled(a, slots, n))
    ensures count == Wrap64(Gained(a, b, slots, n) - Gained(b, a, slots, n))
    ensures count == Gained(a, b, slots, n) <==> forall k :: 0 <= k < n ==> !(a[slots[k]].Some? && b[slots[k]].None?)
  {
    FilledBalance(a, b, slots, n);
    NothingGained(b, a, slots, n);
    WrapLess(Gained(a, b, slots, n), Gained(b, a, slots, n));
  }

  lemma WrapLess(x: nat, y: nat)
    requires x < 0x1_0000_0000_0000_0000 && y < 0x1_0000_0000_0000_0000
    ensures Wrap64(x - y) == x <==> y == 0
  {}

  /** How the counter of extra transactions relates to the slots before and after their loop. */
  ghost predicate CountsExtra(f: Fill, g: Fill, slots: seq<nat>, n: nat) {
    && n <= |slots| && |f.avail| == |g.avail| && (forall k :: 0 <= k < |slots| ==> slots[k] < |f.avail|)
    && g.extraCount == Wrap64(Gained(f.avail, g.avail, slots, n) - Gained(g.avail, f.avail, slots, n))
    && (g.extraCount == Gained(f.avail, g.avail, slots, n) <==>
        forall k :: 0 <= k < n ==> !(f.avail[slots[k]].Some? && g.avail[slots[k]].None?))
  }

  lemma {:induction false} CountIsFilled(f: Fill, g: Fill, p: Plan)
    requires FillOk(f, p) && FillOk(g, p) && g.extraCount == Wrap64(g.mempoolCount - f.mempoolCount)
    requires |p.ids| < 0x1_0000_0000_0000_0000
    ensures CountsExtra(f, g, p.slots, |p.ids|)
  {
    CountFromSlots(f.avail, g.avail, p.slots, |p.ids|, g.extraCount);
  }

  lemma {:induction false} ExtraLoopCounts(f: Fill, p: Plan, m: map<nat, nat>, extra: seq<Tx>, g: Fill)
    requires FillOk(f, p) && f.extraCount == 0 && MappedWell(m, p.ids, p.slots, |p.ids|) && InRange(f, m)
    requires g == ExtraLoop(f, m, extra, 0, p.shortId) && |p.ids| < 0x1_0000_0000_0000_0000
    ensures FillOk(g, p) && CountsExtra(f, g, p.slots, |p.ids|)
  {
    ExtraLoopKeeps(f, p, m, extra, 0);
    CountFollows(f, m, extra, p.shortId, g);
    CountIsFilled(f, g, p);
  }

  lemma {:induction false} CountFollows(f: Fill, m: map<nat, nat>, extra: seq<Tx>, shortId: nat -> nat, g: Fill)
    requires InRange(f, m) && f.extraCount == 0 && g == ExtraLoop(f, m, extra, 0, shortId)
    ensures g.extraCount == Wrap64(g.mempoolCount - f.mempoolCount)
  {
    CountersMoveTogether(f, m, extra, 0, shortId, f.mempoolCount);
  }

  /**
   * The counter of extra transactions is the number of slots that hold one, less the number of slots from which one of
   * them drove out what was there, in 64 bits.  So it is right if and only if nothing was driven out.
   */
  lemma {:induction false} ExtraCountExact(f: Fill, p: Plan, m: map<nat, nat>, extra: seq<Tx>, g: Fill)
    requires FillOk(f, p) && f.extraCount == 0 && MappedWell(m, p.ids, p.slots, |p.ids|) && InRange(f, m)
    requires g == ExtraLoop(f, m, extra, 0, p.shortId) && |p.ids| < 0x1_0000_0000_0000_0000
    ensures FillOk(g, p) && CountsExtra(f, g, p.slots, |p.ids|)
    ensures g.extraCount == Gained(f.avail, g.avail, p.slots, |p.ids|) <==>
            forall k :: 0 <= k < |p.ids| ==> !Evicts(f, p, m, extra, k)
  {
    ExtraLoopCounts(f, p, m, extra, g);
    EvictedSlots(f, p, m, extra, g);
  }

  lemma {:induction false} EvictedSlots(f: Fill, p: Plan, m: map<nat, nat>, extra: seq<Tx>, g: Fill)
    requires FillOk(f, p) && MappedWell(m, p.ids, p.slots, |p.ids|) && InRange(f, m)
    requires g == ExtraLoop(f, m, extra, 0, p.shortId) && |g.avail| == |f.avail|
    ensures (forall k :: 0 <= k < |p.ids| ==> !Evicts(f, p, m, extra, k)) <==>
            (forall k :: 0 <= k < |p.ids| ==> !(f.avail[p.slots[k]].Some? && g.avail[p.slots[k]].None?))
  {
    forall k | 0 <= k < |p.ids|
      ensures Evicts(f, p, m, extra, k) <==> f.avail[p.slots[k]].Some? && g.avail[p.slots[k]].None?
    {
      EvictedSlot(f, p, m, extra, g, k);
    }
  }

  /** The same of a whole reconstruction. */
  lemma {:induction false} ExtraCountIffNoneEvicted(p: Plan, pool: seq<Tx>, extra: seq<Tx>, f0: Fill, f: Fill)
    requires p.Ok() && |p.ids| < 0x1_0000_0000_0000_0000
    requires f0 == AfterMempool(p, pool) && f == Reconstructed(p, pool, extra)
    ensures FillOk(f0, p) && FillOk(f, p)
    ensures f.extraCount == Gained(f0.avail, f.avail, p.slots, |p.ids|) <==>
            forall k :: 0 <= k < |p.ids| ==> !Evicts(f0, p, IdMap(p), extra, k)
  {
    LoopsKeep(p, pool, extra, f0);
    ExtraCountExact(f0, p, IdMap(p), extra, f);
  }

  /** A transaction of the mempool driven out by an extra one: the slot is empty, and the counter far too large. */
  lemma {:induction false} ExtraCountWraps(t: Tx, u: Tx, shortId: nat -> nat)
    requires t.hash != u.hash && shortId(t.hash) == shortId(u.hash)
    ensures var c := Compact(Some(0), [shortId(t.hash)], [], shortId);
      && AllPrefilledOk(c) && PlanOf(c).Ok()
      && Reconstructed(PlanOf(c), [t], [u]) == Fill([None], [true], 0, 0xFFFF_FFFF_FFFF_FFFF)
  {
    var x := shortId(t.hash);
    var p := PlanOf(Compact(Some(0), [x], [], shortId));
    assert p.base == [None];
    assert Empty(p.base, 0) == [] && p.slots == [0];
    assert MapUpTo(p.ids, p.slots, 0) == map[] && MapUpTo(p.ids, p.slots, 1) == map[x := 0];
    assert Start(p) == Fill([None], [false], 0, 0);
    OneEvicted(map[x := 0], t, u, shortId);
  }

  lemma {:induction false} OneEvicted(m: map<nat, nat>, t: Tx, u: Tx, shortId: nat -> nat)
    requires t.hash != u.hash && shortId(t.hash) == shortId(u.hash) && m == map[shortId(t.hash) := 0]
    ensures var f0, f1 := Fill([None], [false], 0, 0), Fill([Some(t)], [true], 1, 0);
      && MempoolLoop(f0, m, [t], 0, shortId) == f1
      && ExtraLoop(f1, m, [u], 0, shortId) == Fill([None], [true], 0, 0xFFFF_FFFF_FFFF_FFFF)
  {
    var f0, f1 := Fill([None], [false], 0, 0), Fill([Some(t)], [true], 1, 0);
    var f2 := Fill([None], [true], 0, 0xFFFF_FFFF_FFFF_FFFF);
    assert WithMempool(f0, m, t, shortId) == f1 && f1.mempoolCount == |m|;
    assert WithExtra(f1, m, u, shortId) == f2;
    assert ExtraLoop(f2, m, [u], 1, shortId) == f2;
  }

  /** The positions that hold nothing, filled in order from a list. */
  function Merged(a: Slots, missing: seq<Tx>, n: nat): (r: seq<Tx>)
    requires n <= |a| && n - CountSome(a, n) <= |missing|
    ensures |r| == n
  {
    if n == 0 then []
    else Merged(a, missing, n - 1) + [if a[n - 1].Some? then a[n - 1].value else missing[n - 1 - CountSome(a, n - 1)]]
  }

  class PartiallyDownloadedBlock {
    var txnsAvailable: Slots
    var prefilledCount: int
    var mempoolCount: int
    var extraCount: int
    var header: Option<nat>

    constructor ()
      ensures Fresh()
    {
      txnsAvailable, prefilledCount, mempoolCount, extraCount, header := [], 0, 0, 0, None;
    }

    ghost predicate Fresh()
      reads this
    {
      header == None && txnsAvailable == [] && mempoolCount == 0 && extraCount == 0
    }

    /** The slots and counters are those of `f`, and the rest comes from the compact form. */
    ghost predicate Has(c: Compact, f: Fill)
      reads this
    {
      && txnsAvailable == f.avail && mempoolCount == f.mempoolCount && extraCount == f.extraCount
      && header == c.header && prefilledCount == |c.prefilled|
    }

    /**
     * InitData, for a number of transactions that fits 32 bits. When it succeeds, the k-th short identifier owns the
     * k-th slot without a prefilled transaction, and what fills it has that identifier. With an honest sender and no
     * false matches, exactly the transactions at hand are found.
     */
    method InitData(c: Compact, extra: seq<Tx>, pool: seq<Tx>, maxTxs: nat, crowded: (map<nat, nat>, nat) -> bool,
                    ghost block: seq<Tx>)
      returns (status: Status, ghost f: Fill)
      requires Fresh() && c.IndicesFit() && maxTxs < UINT32
      modifies this
      ensures status == if c.header == None || !(0 < c.BlockTxCount() <= maxTxs) then Invalid else Expected(c, crowded)
      ensures status == Fine ==> Has(c, f) && Prepared(c, f, pool, extra, block)
    {
      f := Fill([], [], 0, 0);
      if c.header == None || (c.shortIds == [] && c.prefilled == []) { return Invalid, f; }
      if |c.shortIds| + |c.prefilled| > maxTxs { return Invalid, f; }
      var found;
      status, found := Reconstruct(c, extra, pool, crowded, block);
      f := found;
      if status == Fine { Store(c, found); } else { header := c.header; }
    }

    method Store(c: Compact, f: Fill)
      modifies this
      ensures Has(c, f)
    {
      header, prefilledCount := c.header, |c.prefilled|;
      txnsAvailable, mempoolCount, extraCount := f.avail, f.mempoolCount, f.extraCount;
    }

    /** IsTxAvailable, with its assertions as preconditions. */
    method IsTxAvailable(index: nat) returns (available: bool)
      requires header.Some? && index < |txnsAvailable|
      ensures available == txnsAvailable[index].Some?
    {
      available := txnsAvailable[index].Some?;
    }

    /**
     * FillBlock: the missing transactions go to the empty slots in order, and there must be exactly as many. Slots are
     * moved out of as they are used; with too few transactions the object stays as far as it got, otherwise it is
     * cleared.
     */
    method FillBlock(missing: seq<Tx>, check: seq<Tx> -> Status) returns (status: Status, vtx: seq<Tx>)
      requires header.Some?
      modifies this
      ensures var gaps := |old(txnsAvailable)| - CountSome(old(txnsAvailable), |old(txnsAvailable)|);
        && (|missing| == gaps ==>
             vtx == Merged(old(txnsAvailable), missing, |old(txnsAvailable)|) && status == check(vtx))
        && (|missing| != gaps ==> status == Invalid)
        && (|missing| >= gaps ==> header == None && txnsAvailable == [])
    {
      ghost var a := txnsAvailable;
      vtx := [];
      var offset := 0;
      for i := 0 to |txnsAvailable|
        invariant |txnsAvailable| == |a| && header.Some? && forall j :: i <= j < |a| ==> txnsAvailable[j] == a[j]
        invariant 0 <= offset == i - CountSome(a, i) <= |missing| && vtx == Merged(a, missing, i)
      {
        if txnsAvailable[i].None? {
          if |missing| <= offset {
            GapsGrow(a, i + 1, |a|);
            return Invalid, vtx;
          }
          vtx := vtx + [missing[offset]];
          offset := offset + 1;
        } else {
          vtx := vtx + [txnsAvailable[i].value];
          txnsAvailable := txnsAvailable[i := None];
        }
      }
      header := None;
      txnsAvailable := [];
      if |missing| != offset { return Invalid, vtx; }
      status := check(vtx);
    }
  }

  lemma {:induction false} GapsGrow(a: Slots, i: nat, n: nat)
    requires i <= n <= |a|
    ensures i - CountSome(a, i) <= n - CountSome(a, n)
  {
    if i < n { GapsGrow(a, i, n - 1); }
  }

  /** The transactions of a block that a receiver still lacks, in order. */
  function Missing(a: Slots, block: seq<Tx>, n: nat): (r: seq<Tx>)
    requires n <= |a| <= |block|
    ensures |r| == n - CountSome(a, n)
  {
    if n == 0 then [] else Missing(a, block, n - 1) + if a[n - 1].None? then [block[n - 1]] else []
  }

  /** Slots that hold nothing wrong, filled with what the sender has for the rest, are the block. */
  lemma {:induction false} MergedIsBlock(a: Slots, block: seq<Tx>, missing: seq<Tx>, n: nat)
    requires n <= |a| == |block| && Missing(a, block, n) <= missing
    requires forall q :: 0 <= q < |a| ==> a[q] == None || a[q] == Some(block[q])
    ensures Merged(a, missing, n) == block[..n]
  {
    if n > 0 {
      assert Missing(a, block, n - 1) <= Missing(a, block, n);
      MergedIsBlock(a, block, missing, n - 1);
      if a[n - 1].None? { assert Missing(a, block, n)[|Missing(a, block, n - 1)|] == block[n - 1]; }
    }
  }

  /** What InitData leaves is never wrong for an honest sender. */
  lemma FoundIsRight(a: Slots, count: int, p: Plan, block: seq<Tx>, seen: set<Tx>)
    requires Available(a, count, p) && Describes(p, block) && |a| == |block| && FoundAll(a, p, block, seen)
    ensures forall q :: 0 <= q < |a| ==> a[q] == None || a[q] == Some(block[q])
  {
    var have, extra :| FillOk(Fill(a, have, count, extra), p);
    forall q | 0 <= q < |a| ensures a[q] == None || a[q] == Some(block[q]) {
      if q in p.slots {
        var k :| 0 <= k < |p.slots| && p.slots[k] == q;
      }
    }
  }

  /** So the sender's missing transactions complete exactly the sender's block. */
  lemma Rebuilt(a: Slots, count: int, p: Plan, block: seq<Tx>, seen: set<Tx>)
    requires Available(a, count, p) && Describes(p, block) && |a| == |block| && FoundAll(a, p, block, seen)
    ensures Merged(a, Missing(a, block, |a|), |a|) == block
  {
    FoundIsRight(a, count, p, block, seen);
    MergedIsBlock(a, block, Missing(a, block, |a|), |a|);
    assert block[..|a|] == block;
  }

  // ---------------------------------------------------------------- the sender

  /** The constructor for a block: its first transaction is prefilled, and the others are identified. */
  method MakeCompact(header: nat, block: seq<Tx>, shortId: nat -> nat) returns (c: Compact)
    requires |block| > 0
    ensures c == CompactOf(header, block, shortId)
  {
    var ids := seq(|block| - 1, _ => 0);
    for i := 1 to |block|
      invariant |ids| == |block| - 1 && forall j :: 0 <= j < i - 1 ==> ids[j] == shortId(block[j + 1].hash)
    {
      ids := ids[i - 1 := shortId(block[i].hash)];
    }
    c := Compact(Some(header), ids, [Prefilled(0, block[0])], shortId);
  }

  function IdsOf(block: seq<Tx>, shortId: nat -> nat): (s: seq<nat>)
    requires |block| > 0
    ensures |s| == |block| - 1 && forall j :: 0 <= j < |s| ==> s[j] == shortId(block[j + 1].hash)
  {
    if |block| == 1 then [] else IdsOf(block[..|block| - 1], shortId) + [shortId(block[|block| - 1].hash)]
  }

  function CompactOf(header: nat, block: seq<Tx>, shortId: nat -> nat): Compact
    requires |block| > 0
  {
    Compact(Some(header), IdsOf(block, shortId), [Prefilled(0, block[0])], shortId)
  }

  lemma {:induction false} EmptyAfterFirst(a: Slots, n: nat)
    requires 1 <= n <= |a| && a[0].Some? && forall q :: 1 <= q < |a| ==> a[q].None?
    ensures Empty(a, n) == seq(n - 1, i => i + 1)
  {
    if n > 1 { EmptyAfterFirst(a, n - 1); } else { assert Empty(a, 0) == []; }
  }

  /** It describes the block, if no two of its identified transactions share an identifier. */
  lemma CompactDescribes(header: nat, block: seq<Tx>, shortId: nat -> nat)
    requires |block| > 0
    requires forall i, j :: 1 <= i < j < |block| ==> shortId(block[i].hash) != shortId(block[j].hash)
    ensures Describes(PlanOf(CompactOf(header, block, shortId)), block)
  {
    PlainSlots(header, block, shortId);
    DescribesPlain(PlanOf(CompactOf(header, block, shortId)), block);
  }

  /** The first slot is prefilled, and the others belong to the identifiers in order. */
  lemma PlainSlots(header: nat, block: seq<Tx>, shortId: nat -> nat)
    requires |block| > 0
    ensures var p := PlanOf(CompactOf(header, block, shortId));
      && |p.base| == |block| && |p.ids| == |p.slots| == |block| - 1
      && (forall q :: 0 <= q < |block| ==> p.base[q] == if q == 0 then Some(block[0]) else None)
      && (forall k :: 0 <= k < |p.slots| ==> p.slots[k] == k + 1 && p.ids[k] == p.shortId(block[k + 1].hash))
  {
    var c := CompactOf(header, block, shortId);
    var a := Layout(c);
    assert PrefilledAt(c.prefilled, 0) == -1 && PrefilledAt(c.prefilled, 1) == 0;
    forall q | 0 <= q < |a| ensures a[q] == if q == 0 then Some(block[0]) else None {
      assert PutAt(c.prefilled, 0, q) == None;
    }
    EmptyAfterFirst(a, |a|);
  }

  lemma DescribesPlain(p: Plan, block: seq<Tx>)
    requires |block| > 0 && |p.base| == |block| && |p.ids| == |p.slots| == |block| - 1
    requires forall q :: 0 <= q < |block| ==> p.base[q] == if q == 0 then Some(block[0]) else None
    requires forall k :: 0 <= k < |p.slots| ==> p.slots[k] == k + 1 && p.ids[k] == p.shortId(block[k + 1].hash)
    requires forall i, j :: 1 <= i < j < |block| ==> p.shortId(block[i].hash) != p.shortId(block[j].hash)
    ensures Describes(p, block)
  {
    forall q | 1 <= q < |block| ensures q in p.slots { assert p.slots[q - 1] == q; }
  }

  // ---------------------------------------------------------------- differential indices

  predicate AreIndices(s: seq<nat>) { forall i :: 0 <= i < |s| ==> s[i] < UINT32 }

  /** What the next index is counted from: one past the last, as a 32-bit number. */
  function Origin(s: seq<nat>): (r: nat)
    ensures r < UINT32
  {
    if |s| == 0 then 0 else Wrap(s[|s| - 1] + 1)
  }

  /** Each index as its distance from the one before, as a 32-bit number. */
  function Written(s: seq<nat>): (d: seq<nat>)
    ensures |d| == |s| && AreIndices(d)
  {
    if |s| == 0 then []
    else
      var t := s[..|s| - 1];
      Written(t) + [Wrap(s[|s| - 1] - Origin(t))]
  }

  /** The indices that distances stand for, unless a distance or a sum leaves 32 bits. */
  function Recover(d: seq<nat>): (r: Option<seq<nat>>)
    ensures r.Some? ==> |r.value| == |d| && AreIndices(r.value)
  {
    if |d| == 0 then Some([])
    else
      var n, t := d[|d| - 1], Recover(d[..|d| - 1]);
      if t.None? || n >= UINT32 || n + Origin(t.value) >= UINT32 then None else Some(t.value + [n + Origin(t.value)])
  }

  /** Increasing, except that the largest index may be followed by any. */
  predicate Increasing(s: seq<nat>) { forall i :: 1 <= i < |s| ==> IncreasesAt(s, i) }

  predicate IncreasesAt(s: seq<nat>, i: nat)
    requires 1 <= i < |s|
  {
    s[i - 1] == UINT32 - 1 || s[i] > s[i - 1]
  }

  lemma IncreasingSnoc(t: seq<nat>, n: nat)
    ensures Increasing(t + [n]) <==> Increasing(t) && (|t| >= 1 ==> IncreasesAt(t + [n], |t|))
  {
    var s := t + [n];
    if Increasing(s) {
      forall i | 1 <= i < |t| ensures IncreasesAt(t, i) { assert IncreasesAt(s, i); }
    }
    if Increasing(t) && (|t| >= 1 ==> IncreasesAt(s, |t|)) {
      forall i | 1 <= i < |s| ensures IncreasesAt(s, i) { if i < |t| { assert IncreasesAt(t, i); } }
    }
  }

  lemma {:induction false} WrittenLast(s: seq<nat>, t: seq<nat>, n: nat)
    requires |s| > 0 && t == s[..|s| - 1] && n == s[|s| - 1]
    ensures Written(s) == Written(t) + [Wrap(n - Origin(t))]
  {}

  lemma {:induction false} WrittenSnoc(t: seq<nat>, n: nat)
    ensures Written(t + [n]) == Written(t) + [Wrap(n - Origin(t))]
  {
    assert t == (t + [n])[..|t + [n]| - 1];
    WrittenLast(t + [n], t, n);
  }

  lemma RecoverSnoc(d: seq<nat>, t: seq<nat>, w: nat, n: nat)
    requires Recover(d) == Some(t) && w + Origin(t) == n < UINT32
    ensures Recover(d + [w]) == Some(t + [n])
  {
    assert (d + [w])[..|d|] == d;
  }

  lemma RecoverFails(d: seq<nat>, w: nat)
    requires Recover(d) == None || w + Origin(Recover(d).value) >= UINT32
    ensures Recover(d + [w]) == None
  {
    assert (d + [w])[..|d|] == d;
  }

  /** A distance leads back to its index, unless the index lies below the origin: then the sum leaves 32 bits. */
  lemma Distance(n: nat, o: nat)
    requires n < UINT32 && o < UINT32
    ensures Wrap(n - o) == if n >= o then n - o else n - o + UINT32
  {
  }

  lemma AtOrigin(t: seq<nat>, n: nat)
    requires AreIndices(t) && n < UINT32
    ensures n >= Origin(t) <==> |t| == 0 || IncreasesAt(t + [n], |t|)
  {
  }

  /** What was written is read back exactly when the indices are increasing; any other list is refused. */
  lemma {:induction false} RecoverWritten(s: seq<nat>)
    requires AreIndices(s)
    ensures Recover(Written(s)) == if Increasing(s) then Some(s) else None
    decreases |s|
  {
    if |s| > 0 {
      var t, n := s[..|s| - 1], s[|s| - 1];
      assert s == t + [n];
      RecoverWritten(t);
      WrittenSnoc(t, n);
      RecoverOneMore(Written(t), t, n);
    }
  }

  lemma {:induction false} RecoverOneMore(d: seq<nat>, t: seq<nat>, n: nat)
    requires AreIndices(t) && n < UINT32 && Recover(d) == if Increasing(t) then Some(t) else None
    ensures Recover(d + [Wrap(n - Origin(t))]) == if Increasing(t + [n]) then Some(t + [n]) else None
  {
    StepBack(d, t, n, Increasing(t));
    IncreasingSnoc(t, n);
    AtOrigin(t, n);
  }

  lemma StepBack(d: seq<nat>, t: seq<nat>, n: nat, ok: bool)
    requires n < UINT32 && Recover(d) == if ok then Some(t) else None
    ensures Recover(d + [Wrap(n - Origin(t))]) == if ok && n >= Origin(t) then Some(t + [n]) else None
  {
    Distance(n, Origin(t));
    if ok && n >= Origin(t) {
      RecoverSnoc(d, t, Wrap(n - Origin(t)), n);
    } else {
      RecoverFails(d, Wrap(n - Origin(t)));
    }
  }

  /** Writing what was read gives the distances back, always. */
  lemma {:induction false} WrittenRecover(d: seq<nat>)
    requires Recover(d).Some?
    ensures Written(Recover(d).value) == d
    decreases |d|
  {
    if |d| > 0 {
      var t, n := d[..|d| - 1], d[|d| - 1];
      assert d == t + [n];
      WrittenRecover(t);
      WrittenOneMore(t, Recover(t).value, n);
    }
  }

  lemma {:induction false} WrittenOneMore(t: seq<nat>, u: seq<nat>, n: nat)
    requires Recover(t) == Some(u) && Written(u) == t && n + Origin(u) < UINT32
    ensures Recover(t + [n]).Some? && Written(Recover(t + [n]).value) == t + [n]
  {
    RecoverSnoc(t, u, n, n + Origin(u));
    WrittenSnoc(u, n + Origin(u));
    Distance(n + Origin(u), Origin(u));
  }

  /** The writing half of the serialization. */
  method WriteIndices(indices: seq<nat>) returns (d: seq<nat>)
    requires AreIndices(indices)
    ensures d == Written(indices)
  {
    d := [];
    for i := 0 to |indices|
      invariant d == Written(indices[..i])
    {
      assert indices[..i + 1][..i] == indices[..i];
      d := d + [Wrap(indices[i] - if i == 0 then 0 else Wrap(indices[i - 1] + 1))];
    }
    assert indices[..|indices|] == indices;
  }

  datatype ReadError = EndOfStream | IndexOverflow | IndicesOverflow

  lemma {:induction false} RecoverPrefix(d: seq<nat>, n: nat)
    requires n <= |d| && Recover(d[..n]).None?
    ensures Recover(d).None?
    decreases |d|
  {
    if n < |d| {
      assert d[..|d| - 1][..n] == d[..n];
      RecoverPrefix(d[..|d| - 1], n);
    } else {
      assert d[..n] == d;
    }
  }

  /** The reading half: the announced number of distances, allocated a thousand at a time, and then their sums. */
  method ReadIndices(size: nat, stream: seq<nat>) returns (r: Result<seq<nat>, ReadError>)
    ensures r.Ok? ==> size <= |stream| && Recover(stream[..size]) == Some(r.value)
    ensures r.Err? ==> size > |stream| || Recover(stream[..size]) == None
  {
    var d: seq<nat> := [];
    var i := 0;
    while |d| < size
      invariant i == |d| <= size && i <= |stream| && d == stream[..i] && AreIndices(d)
      decreases size - |d|
    {
      var chunk := if 1000 + |d| <= size then 1000 + |d| else size;
      while i < chunk
        invariant i == |d| <= chunk <= size && i <= |stream| && d == stream[..i] && AreIndices(d)
      {
        if i >= |stream| { return Err(EndOfStream); }
        if stream[i] > UINT32 - 1 {
          if size <= |stream| { TooLarge(stream[..size], i); }
          return Err(IndexOverflow);
        }
        d := d + [stream[i]];
        i := i + 1;
      }
    }
    r := AddUp(d);
  }

  lemma TooLarge(d: seq<nat>, i: nat)
    requires i < |d| && d[i] >= UINT32
    ensures Recover(d).None?
  {
    assert Recover(d[..i + 1]).None?;
    RecoverPrefix(d, i + 1);
  }

  /** Adding up in place. */
  method AddUp(d: seq<nat>) returns (r: Result<seq<nat>, ReadError>)
    requires AreIndices(d)
    ensures r == match Recover(d) case Some(s) => Ok(s) case None => Err(IndicesOverflow)
  {
    var indices: seq<nat> := d;
    var offset := 0;
    for j := 0 to |d|
      invariant |indices| == |d| && Recover(d[..j]) == Some(indices[..j]) && offset == Origin(indices[..j])
      invariant forall k :: j <= k < |d| ==> indices[k] == d[k]
    {
      assert d[..j + 1][..j] == d[..j];
      if indices[j] + offset > UINT32 - 1 {
        RecoverPrefix(d, j + 1);
        return Err(IndicesOverflow);
      }
      ghost var before := indices;
      indices := indices[j := indices[j] + offset];
      assert indices[..j + 1] == before[..j] + [d[j] + offset];
      offset := Wrap(indices[j] + 1);
    }
    assert d[..|d|] == d && indices[..|d|] == indices;
    r := Ok(indices);
  }
}
